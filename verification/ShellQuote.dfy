/**
 Quoting of arguments for a remote POSIX shell.

 The printer is the source's loop. Its partner is a reader of shell words written
 from section 2.2 of the POSIX Shell Command Language: backslash, single quotes,
 double quotes. A word whose text asks the shell for an expansion is no literal,
 and the reader refuses it.
 */
module ShellQuote {
  import opened Basics
  import opened Wrappers

  function Quoted1(c: char): string {
    if c == '\'' then "'\\''" else [c]
  }

  function QuotedBody(s: string): string {
    if s == "" then "" else Quoted1(s[0]) + QuotedBody(s[1..])
  }

  lemma {:induction false} QuotedBodySnoc(s: string, c: char)
    ensures QuotedBody(s + [c]) == QuotedBody(s) + Quoted1(c)
  {
    var t := s + [c];
    if s == "" {
      assert t[0] == c && t[1..] == "";
    } else {
      QuotedBodySnoc(s[1..], c);
      assert t[0] == s[0] && t[1..] == s[1..] + [c];
      Regroup(Quoted1(s[0]), QuotedBody(s[1..]), Quoted1(c));
    }
  }

  function Quoted(s: string): string {
    "'" + QuotedBody(s) + "'"
  }

  /** The source's loop. */
  method Quote(s: string) returns (out: string)
    ensures out == Quoted(s)
  {
    out := "'";
    for i := 0 to |s|
      invariant out == "'" + QuotedBody(s[..i])
    {
      var ch := s[i];
      QuotedBodySnoc(s[..i], ch);
      assert s[..i + 1] == s[..i] + [ch];
      if ch == '\'' {
        out := out + "'\\''";
      } else {
        out := out + [ch];
      }
    }
    assert s[..|s|] == s;
    out := out + "'";
  }

  // ----- A reader of shell words -----

  datatype Mode = Bare | InSingle | InDouble

  /** What ends a word outside quotes: blanks, newline, and the characters operators start with. */
  predicate EndsWord(c: char) {
    c in " \t\n|&;<>()"
  }

  /** Outside quotes these start an expansion, a pattern or a comment. */
  predicate Expands(c: char) {
    c in "$`*?[#~"
  }

  function Prepend(c: char, r: Option<(string, string)>): Option<(string, string)> {
    match r
    case None => None
    case Some((word, rest)) => Some(([c] + word, rest))
  }

  /** The word that `s` continues in `mode`, with quoting removed, and what follows it. */
  function ReadIn(mode: Mode, s: string): Option<(string, string)>
    decreases |s|
  {
    if s == "" then
      if mode == Bare then Some(("", "")) else None
    else
      var c, rest := s[0], s[1..];
      match mode
      case Bare =>
        if EndsWord(c) then Some(("", s))
        else if Expands(c) then None
        else if c == '\'' then ReadIn(InSingle, rest)
        else if c == '"' then ReadIn(InDouble, rest)
        else if c == '\\' then
          if rest == "" then None
          else if rest[0] == '\n' then ReadIn(Bare, rest[1..])
          else Prepend(rest[0], ReadIn(Bare, rest[1..]))
        else Prepend(c, ReadIn(Bare, rest))
      case InSingle =>
        if c == '\'' then ReadIn(Bare, rest) else Prepend(c, ReadIn(InSingle, rest))
      case InDouble =>
        if c == '"' then ReadIn(Bare, rest)
        else if c == '$' || c == '`' then None
        else if c == '\\' && rest != "" && rest[0] in "$`\"\\" then Prepend(rest[0], ReadIn(InDouble, rest[1..]))
        else if c == '\\' && rest != "" && rest[0] == '\n' then ReadIn(InDouble, rest[1..])
        else Prepend(c, ReadIn(InDouble, rest))
  }

  function ReadWord(s: string): Option<(string, string)> {
    ReadIn(Bare, s)
  }

  lemma Inside(c: char, t: string)
    requires c != '\''
    ensures ReadIn(InSingle, [c] + t) == Prepend(c, ReadIn(InSingle, t))
  {
    assert ([c] + t)[1..] == t;
  }

  lemma Toggle(t: string)
    ensures ReadIn(InSingle, "'" + t) == ReadIn(Bare, t)
    ensures ReadIn(Bare, "'" + t) == ReadIn(InSingle, t)
  {
    assert ("'" + t)[1..] == t;
  }

  lemma Escaped(t: string)
    ensures ReadIn(Bare, "\\'" + t) == Prepend('\'', ReadIn(Bare, t))
  {
    var s := "\\'" + t;
    assert s[1..] == "'" + t && s[1..][1..] == t;
  }

  /** The quote closes, an escaped quote stands outside, the quote opens again. */
  lemma QuoteInside(t: string)
    ensures ReadIn(InSingle, "'\\''" + t) == Prepend('\'', ReadIn(InSingle, t))
  {
    assert "'\\''" + t == "'" + ("\\'" + ("'" + t));
    Toggle("\\'" + ("'" + t));
    Escaped("'" + t);
    Toggle(t);
  }

  lemma CharInside(c: char, t: string)
    ensures ReadIn(InSingle, Quoted1(c) + t) == Prepend(c, ReadIn(InSingle, t))
  {
    if c == '\'' {
      QuoteInside(t);
    } else {
      Inside(c, t);
    }
  }

  lemma {:induction false} ReadQuotedBody(s: string, rest: string)
    requires rest == "" || EndsWord(rest[0])
    ensures ReadIn(InSingle, QuotedBody(s) + ("'" + rest)) == Some((s, rest))
  {
    var end := "'" + rest;
    if s == "" {
      assert QuotedBody(s) + end == end;
      Toggle(rest);
    } else {
      var tail := QuotedBody(s[1..]) + end;
      ReadQuotedBody(s[1..], rest);
      CharInside(s[0], tail);
      assert [s[0]] + s[1..] == s;
      assert QuotedBody(s) + end == Quoted1(s[0]) + tail;
    }
  }

  /** The shell reads a quoted string, whatever is in it, as one word: the string itself. */
  lemma ReadQuoted(s: string, rest: string)
    requires rest == "" || EndsWord(rest[0])
    ensures ReadWord(Quoted(s) + rest) == Some((s, rest))
  {
    ReadQuotedBody(s, rest);
    Toggle(QuotedBody(s) + ("'" + rest));
    assert Quoted(s) + rest == "'" + (QuotedBody(s) + ("'" + rest));
  }

  // ----- A whole command line -----

  function CommandLine(args: seq<string>): string {
    if args == [] then ""
    else if |args| == 1 then Quoted(args[0])
    else Quoted(args[0]) + " " + CommandLine(args[1..])
  }

  /** A word, and then the words behind the blank that ends it. */
  function ReadWords(s: string): Option<seq<string>>
    decreases |s|
  {
    match ReadWord(s)
    case None => None
    case Some((word, rest)) =>
      if rest == "" then Some([word])
      else if rest[0] != ' ' || |rest| > |s| then None
      else
        match ReadWords(rest[1..])
        case None => None
        case Some(words) => Some([word] + words)
  }

  lemma ReadOneMore(word: string, tail: string, words: seq<string>)
    requires ReadWord(Quoted(word) + (" " + tail)) == Some((word, " " + tail)) && ReadWords(tail) == Some(words)
    ensures ReadWords(Quoted(word) + (" " + tail)) == Some([word] + words)
  {
    assert (" " + tail)[1..] == tail;
  }

  /** Quoted arguments keep their number, order and text: no argument can split, vanish or run into the next. */
  lemma {:induction false} ReadCommandLine(args: seq<string>)
    requires args != []
    ensures ReadWords(CommandLine(args)) == Some(args)
  {
    var first := Quoted(args[0]);
    if |args| == 1 {
      ReadQuoted(args[0], "");
      assert first + "" == first && [args[0]] == args;
    } else {
      var tail := CommandLine(args[1..]);
      ReadQuoted(args[0], " " + tail);
      ReadCommandLine(args[1..]);
      ReadOneMore(args[0], tail, args[1..]);
      assert first + " " + tail == first + (" " + tail);
      assert [args[0]] + args[1..] == args;
    }
  }
}
