/**
 The statement lexer of the Postgres crate: where are the semicolons that separate statements?

 The first half is a grammar: each lexical element is described by where it ends.
 The second half is the six-state loop of the source, proved against the grammar,
 including the inputs on which slicing the `str` inside a dollar-quoted body panics.
 */
module SqlLexer {
  import opened Wrappers
  import opened Text

  // ----- The lexical grammar -----

  /** End of the quoted text whose body starts at `i`; a doubled quote stays inside. */
  function SkipQuoted(quote: char, s: Bytes, i: nat): (e: nat)
    requires i <= |s|
    ensures i <= e <= |s|
    decreases |s| - i
  {
    if i == |s| then i
    else if s[i] != quote then SkipQuoted(quote, s, i + 1)
    else if i + 1 < |s| && s[i + 1] == quote then SkipQuoted(quote, s, i + 2)
    else i + 1
  }

  function SkipLine(s: Bytes, i: nat): (e: nat)
    requires i <= |s|
    ensures i <= e <= |s|
    decreases |s| - i
  {
    if i == |s| then i else if s[i] == '\n' then i + 1 else SkipLine(s, i + 1)
  }

  function SkipBlock(s: Bytes, i: nat): (e: nat)
    requires i <= |s|
    ensures i <= e <= |s|
    decreases |s| - i
  {
    if i == |s| then i
    else if s[i] == '*' && i + 1 < |s| && s[i + 1] == '/' then i + 2
    else SkipBlock(s, i + 1)
  }

  predicate StartsAt(s: Bytes, i: nat, d: Bytes) {
    i + |d| <= |s| && s[i..i + |d|] == d
  }

  /** First position at or after `i` where the closing delimiter stands; `|s|` when it never does. */
  function BodyEnd(d: Bytes, s: Bytes, i: nat): (e: nat)
    requires i <= |s|
    ensures i <= e <= |s|
    decreases |s| - i
  {
    if i == |s| || StartsAt(s, i, d) then i else BodyEnd(d, s, i + 1)
  }

  function SkipDollar(d: Bytes, s: Bytes, i: nat): (e: nat)
    requires i <= |s| && |d| > 0
    ensures i <= e <= |s|
  {
    var close := BodyEnd(d, s, i);
    if StartsAt(s, close, d) then close + |d| else close
  }

  predicate IsTagStart(b: char) {
    'a' <= b <= 'z' || 'A' <= b <= 'Z' || b == '_'
  }

  predicate IsTagByte(b: char) {
    IsTagStart(b) || '0' <= b <= '9'
  }

  function TagEnd(s: Bytes, i: nat): (e: nat)
    requires i <= |s|
    ensures i <= e <= |s|
    decreases |s| - i
  {
    if i < |s| && IsTagByte(s[i]) then TagEnd(s, i + 1) else i
  }

  /** Length of the `$tag$` that opens a dollar quote at `i`; 0 when the byte opens none. */
  function DelimiterLength(s: Bytes, i: nat): (n: nat)
    requires i < |s|
    ensures i + n <= |s|
    ensures n > 0 ==> n >= 2 && s[i] == '$'
  {
    if s[i] != '$' || i + 1 == |s| then 0
    else if s[i + 1] == '$' then 2
    else if !IsTagStart(s[i + 1]) then 0
    else
      var e := TagEnd(s, i + 2);
      if e < |s| && s[e] == '$' then e + 1 - i else 0
  }

  lemma {:induction false} TagBytes(s: Bytes, i: nat)
    requires i <= |s|
    ensures forall k :: i <= k < TagEnd(s, i) ==> IsTagByte(s[k])
    decreases |s| - i
  {
    if i < |s| && IsTagByte(s[i]) {
      TagBytes(s, i + 1);
    }
  }

  /** A dollar-quote delimiter is tag bytes between two dollar signs. */
  lemma DelimiterBytes(s: Bytes, i: nat)
    requires i < |s| && DelimiterLength(s, i) > 0
    ensures var n := DelimiterLength(s, i);
            s[i + n - 1] == '$' && forall k :: i < k < i + n - 1 ==> IsTagByte(s[k])
  {
    if s[i + 1] != '$' {
      TagBytes(s, i + 2);
    }
  }

  /** A tag: nothing, or a letter or underscore with letters, digits and underscores behind it. */
  predicate IsTag(t: Bytes) {
    t == [] ||
    (&& ('a' <= t[0] <= 'z' || 'A' <= t[0] <= 'Z' || t[0] == '_')
     && forall k :: 0 <= k < |t| ==> 'a' <= t[k] <= 'z' || 'A' <= t[k] <= 'Z' || '0' <= t[k] <= '9' || t[k] == '_')
  }

  lemma {:induction false} TagEndIs(s: Bytes, i: nat, e: nat)
    requires i <= e < |s| && !IsTagByte(s[e]) && forall k :: i <= k < e ==> IsTagByte(s[k])
    ensures TagEnd(s, i) == e
    decreases e - i
  {
    if i < e {
      TagEndIs(s, i + 1, e);
    }
  }

  /** A dollar quote opens exactly where a tag stands between two dollar signs. */
  lemma DelimiterIff(s: Bytes, i: nat, n: nat)
    requires i < |s| && n > 0
    ensures DelimiterLength(s, i) == n <==>
            n >= 2 && i + n <= |s| && s[i] == '$' && s[i + n - 1] == '$' && IsTag(s[i + 1..i + n - 1])
  {
    if DelimiterLength(s, i) == n {
      DelimiterBytes(s, i);
    } else if n > 2 && i + n <= |s| && s[i] == '$' && s[i + n - 1] == '$' && IsTag(s[i + 1..i + n - 1]) {
      var t := s[i + 1..i + n - 1];
      assert forall k :: i + 1 <= k < i + n - 1 ==> s[k] == t[k - i - 1];
      TagEndIs(s, i + 2, i + n - 1);
    }
  }

  predicate LineCommentAt(s: Bytes, i: nat)
    requires i < |s|
  {
    s[i] == '-' && i + 1 < |s| && s[i + 1] == '-'
  }

  predicate BlockCommentAt(s: Bytes, i: nat)
    requires i < |s|
  {
    s[i] == '/' && i + 1 < |s| && s[i + 1] == '*'
  }

  /** End of the lexical element that starts at `i`. */
  function TokenEnd(s: Bytes, i: nat): (e: nat)
    requires i < |s|
    ensures i < e <= |s|
  {
    if s[i] == '\'' || s[i] == '"' then SkipQuoted(s[i], s, i + 1)
    else if LineCommentAt(s, i) then SkipLine(s, i + 2)
    else if BlockCommentAt(s, i) then SkipBlock(s, i + 2)
    else if DelimiterLength(s, i) > 0 then
      var n := DelimiterLength(s, i);
      SkipDollar(s[i..i + n], s, i + n)
    else i + 1
  }

  lemma {:induction false} QuotedEnds(quote: char, s: Bytes, i: nat)
    requires i <= |s|
    ensures var e := SkipQuoted(quote, s, i);
            && (e < |s| ==> i < e && s[e - 1] == quote && s[e] != quote)
            && (forall k :: i <= k < e - 1 && s[k] == quote ==> s[k + 1] == quote || (k > i && s[k - 1] == quote))
    decreases |s| - i
  {
    if i < |s| && s[i] != quote {
      QuotedEnds(quote, s, i + 1);
    } else if i + 1 < |s| && s[i + 1] == quote {
      QuotedEnds(quote, s, i + 2);
    }
  }

  lemma {:induction false} LineEnds(s: Bytes, i: nat)
    requires i <= |s|
    ensures var e := SkipLine(s, i);
            && (e < |s| ==> i < e && s[e - 1] == '\n')
            && (forall k :: i <= k < e - 1 ==> s[k] != '\n')
    decreases |s| - i
  {
    if i < |s| && s[i] != '\n' {
      LineEnds(s, i + 1);
    }
  }

  lemma {:induction false} BlockEnds(s: Bytes, i: nat)
    requires i <= |s|
    ensures var e := SkipBlock(s, i);
            && (e < |s| ==> i + 2 <= e && s[e - 2] == '*' && s[e - 1] == '/')
            && (forall k :: i <= k < e - 2 ==> !(s[k] == '*' && s[k + 1] == '/'))
    decreases |s| - i
  {
    if i < |s| && !(s[i] == '*' && i + 1 < |s| && s[i + 1] == '/') {
      BlockEnds(s, i + 1);
    }
  }

  lemma {:induction false} BodyEnds(d: Bytes, s: Bytes, i: nat)
    requires i <= |s|
    ensures forall k :: i <= k < BodyEnd(d, s, i) ==> !StartsAt(s, k, d)
    ensures BodyEnd(d, s, i) < |s| ==> StartsAt(s, BodyEnd(d, s, i), d)
    decreases |s| - i
  {
    if i < |s| && !StartsAt(s, i, d) {
      BodyEnds(d, s, i + 1);
    }
  }

  /** A comment ends behind its first line feed or its first closing mark, or with the text; block comments do not nest. */
  lemma CommentEnds(s: Bytes, i: nat)
    requires i + 2 <= |s|
    ensures var e := TokenEnd(s, i);
            && (s[i] == '-' == s[i + 1] ==>
                  && i + 2 <= e && (e < |s| ==> i + 2 < e && s[e - 1] == '\n')
                  && forall k :: i + 2 <= k < e - 1 ==> s[k] != '\n')
            && (s[i] == '/' && s[i + 1] == '*' ==>
                  && i + 2 <= e && (e < |s| ==> i + 4 <= e && s[e - 2] == '*' && s[e - 1] == '/')
                  && forall k :: i + 2 <= k < e - 2 ==> !(s[k] == '*' && s[k + 1] == '/'))
  {
    LineEnds(s, i + 2);
    BlockEnds(s, i + 2);
  }

  /** A quoted text ends behind the first of its quotes that is not one of two in a row, or with the text. */
  lemma QuoteEnds(s: Bytes, i: nat)
    requires i < |s| && (s[i] == '\'' || s[i] == '"')
    ensures var e, q := TokenEnd(s, i), s[i];
            && (e < |s| ==> i + 1 < e && s[e - 1] == q && s[e] != q)
            && forall k :: i < k < e - 1 && s[k] == q ==> s[k + 1] == q || (k > i + 1 && s[k - 1] == q)
  {
    QuotedEnds(s[i], s, i + 1);
  }

  /** A dollar-quoted text ends behind the first place where its delimiter stands again, or with the text. */
  lemma DollarQuoteEnds(s: Bytes, i: nat, n: nat)
    requires i < |s| && n == DelimiterLength(s, i) > 0
    ensures var e, d := TokenEnd(s, i), s[i..i + n];
            && (e < |s| ==> i + 2 * n <= e && StartsAt(s, e - n, d))
            && forall k :: i + n <= k < e - n ==> !StartsAt(s, k, d)
  {
    var d := s[i..i + n];
    BodyEnds(d, s, i + n);
    assert TokenEnd(s, i) == SkipDollar(d, s, i + n);
    hide TokenEnd, DelimiterLength, StartsAt, BodyEnd;
  }

  /** Positions of the semicolon elements, reading elements from `i` on. */
  function SemicolonsFrom(s: Bytes, i: nat): (ps: seq<nat>)
    requires i <= |s|
    decreases |s| - i
  {
    if i == |s| then []
    else if s[i] == ';' then [i] + SemicolonsFrom(s, i + 1)
    else SemicolonsFrom(s, TokenEnd(s, i))
  }

  function Semicolons(s: Bytes): seq<nat> {
    SemicolonsFrom(s, 0)
  }

  predicate AsciiBody(d: Bytes, s: Bytes, i: nat)
    requires i <= |s|
  {
    forall k :: i <= k < BodyEnd(d, s, i) ==> IsAscii(s[k])
  }

  /** The dollar quote that opens at `i`, if one does, has an ASCII body. */
  predicate AsciiTokenAt(s: Bytes, i: nat)
    requires i < |s|
  {
    var n := DelimiterLength(s, i);
    n > 0 ==> AsciiBody(s[i..i + n], s, i + n)
  }

  /** Every dollar-quoted body met from `i` on is ASCII. */
  predicate AsciiBodiesFrom(s: Bytes, i: nat)
    requires i <= |s|
    decreases |s| - i
  {
    i == |s| || (AsciiTokenAt(s, i) && AsciiBodiesFrom(s, TokenEnd(s, i)))
  }

  predicate AsciiBodies(s: Bytes) {
    AsciiBodiesFrom(s, 0)
  }

  // ----- The loop of the source -----

  datatype LexState =
    | Normal
    | SingleQuote
    | DoubleQuote
    | LineComment
    | BlockComment
    | DollarQuote(delimiter: Bytes)

  /** What a call that may panic comes to. */
  datatype Checked<+T> = Returned(value: T) | Panicked

  method DollarQuoteDelimiterAt(sql: Bytes, start: nat) returns (r: Option<Bytes>)
    requires start <= |sql|
    ensures r.Some? <==> start < |sql| && DelimiterLength(sql, start) > 0
    ensures r.Some? ==> r.value == sql[start..start + DelimiterLength(sql, start)]
  {
    if start == |sql| || sql[start] != '$' {
      return None;
    }
    var end := start + 1;
    if end < |sql| && sql[end] == '$' {
      return Some(sql[start..end + 1]);
    }
    if end < |sql| && IsTagStart(sql[end]) {
      end := end + 1;
    } else {
      return None;
    }
    while end < |sql| && IsTagByte(sql[end])
      invariant start + 2 <= end <= |sql|
      invariant TagEnd(sql, end) == TagEnd(sql, start + 2)
    {
      end := end + 1;
    }
    if end < |sql| && sql[end] == '$' {
      return Some(sql[start..end + 1]);
    }
    return None;
  }

  /** Where the element being read in `state` ends. */
  function Resume(s: Bytes, i: nat, state: LexState): (e: nat)
    requires i <= |s| && (state.DollarQuote? ==> |state.delimiter| > 0)
    ensures i <= e <= |s|
  {
    match state
    case Normal => i
    case SingleQuote => SkipQuoted('\'', s, i)
    case DoubleQuote => SkipQuoted('"', s, i)
    case LineComment => SkipLine(s, i)
    case BlockComment => SkipBlock(s, i)
    case DollarQuote(d) => SkipDollar(d, s, i)
  }

  /** Whether the bodies still ahead of the loop, the current one included, are ASCII. */
  ghost predicate AsciiAhead(s: Bytes, i: nat, state: LexState)
    requires i <= |s| && (state.DollarQuote? ==> |state.delimiter| > 0)
  {
    && (state.DollarQuote? ==> AsciiBody(state.delimiter, s, i))
    && AsciiBodiesFrom(s, Resume(s, i, state))
  }

  /** One byte further into a dollar-quoted body. */
  lemma BodyRound(d: Bytes, s: Bytes, i: nat)
    requires i < |s| && |d| > 0 && d[0] == '$'
    ensures StartsAt(s, i, d) ==> s[i] == '$' && SkipDollar(d, s, i) == i + |d| && AsciiBody(d, s, i)
    ensures !StartsAt(s, i, d) ==>
              && SkipDollar(d, s, i) == SkipDollar(d, s, i + 1)
              && (AsciiBody(d, s, i) <==> IsAscii(s[i]) && AsciiBody(d, s, i + 1))
  {
    if StartsAt(s, i, d) {
      assert s[i..i + |d|][0] == s[i];
    }
  }

  /** What the loop still owes when it stands at `i` in `state`: the semicolons ahead, and whether a body ahead will make it panic. */
  ghost predicate Owes(s: Bytes, i: nat, state: LexState, ps: seq<nat>, ascii: bool) {
    && i <= |s|
    && (state.DollarQuote? ==> |state.delimiter| > 0 && state.delimiter[0] == '$')
    && ps == SemicolonsFrom(s, Resume(s, i, state))
    && (ascii <==> AsciiAhead(s, i, state))
  }

  /** The byte at `i` is inside a character of a dollar-quoted body. */
  ghost predicate MidCharacter(s: Bytes, i: nat, state: LexState) {
    state.DollarQuote? && i < |s| && IsContinuation(s[i])
  }

  /** One round of the loop outside every quote and comment: the state and position it leaves. */
  function NormalRound(s: Bytes, i: nat): (r: (LexState, nat))
    requires i < |s|
    ensures r.1 <= |s|
  {
    if s[i] == '\'' then (SingleQuote, i + 1)
    else if s[i] == '"' then (DoubleQuote, i + 1)
    else if LineCommentAt(s, i) then (LineComment, i + 2)
    else if BlockCommentAt(s, i) then (BlockComment, i + 2)
    else
      var n := DelimiterLength(s, i);
      if n > 0 then (DollarQuote(s[i..i + n]), i + n) else (Normal, i + 1)
  }

  lemma NormalRoundEnds(s: Bytes, i: nat)
    requires i < |s|
    ensures var (state, j) := NormalRound(s, i); Resume(s, j, state) == TokenEnd(s, i)
    ensures s[i] == ';' ==> TokenEnd(s, i) == i + 1
  {
  }

  lemma NormalRoundAscii(s: Bytes, i: nat)
    requires i < |s|
    ensures var (state, j) := NormalRound(s, i); AsciiBodiesFrom(s, i) <==> AsciiAhead(s, j, state)
  {
    NormalRoundEnds(s, i);
    var (state, j) := NormalRound(s, i);
    if DelimiterLength(s, i) > 0 {
      assert state == DollarQuote(s[i..j]);
    } else {
      assert AsciiBodiesFrom(s, i) <==> AsciiBodiesFrom(s, TokenEnd(s, i));
    }
  }

  lemma NormalRoundOwes(s: Bytes, i: nat, ps: seq<nat>, ascii: bool) returns (rest: seq<nat>)
    requires i < |s| && Owes(s, i, Normal, ps, ascii)
    ensures ps == if s[i] == ';' then [i] + rest else rest
    ensures var (state, j) := NormalRound(s, i); Owes(s, j, state, rest, ascii)
  {
    NormalRoundEnds(s, i);
    NormalRoundAscii(s, i);
    rest := SemicolonsFrom(s, TokenEnd(s, i));
  }

  /** One round inside a quote or a comment, dollar quotes apart. */
  function InsideRound(s: Bytes, i: nat, state: LexState): (r: (LexState, nat))
    requires i < |s| && !state.Normal? && !state.DollarQuote?
    ensures i < r.1 <= |s|
  {
    if state.LineComment? then (if s[i] == '\n' then Normal else state, i + 1)
    else if state.BlockComment? then
      if s[i] == '*' && i + 1 < |s| && s[i + 1] == '/' then (Normal, i + 2) else (state, i + 1)
    else
      var quote := if state.SingleQuote? then '\'' else '"';
      if s[i] != quote then (state, i + 1)
      else if i + 1 < |s| && s[i + 1] == quote then (state, i + 2)
      else (Normal, i + 1)
  }

  lemma InsideRoundOwes(s: Bytes, i: nat, state: LexState, ps: seq<nat>, ascii: bool)
    requires i < |s| && !state.Normal? && !state.DollarQuote? && Owes(s, i, state, ps, ascii)
    ensures var (next, j) := InsideRound(s, i, state); Owes(s, j, next, ps, ascii)
  {
    var (next, j) := InsideRound(s, i, state);
    assert Resume(s, j, next) == Resume(s, i, state);
  }

  lemma DollarRoundOwes(s: Bytes, i: nat, d: Bytes, ps: seq<nat>, ascii: bool)
    requires i < |s| && Utf8(s) && Owes(s, i, DollarQuote(d), ps, ascii)
    ensures IsContinuation(s[i]) ==> !ascii
    ensures StartsAt(s, i, d) ==> Owes(s, i + |d|, Normal, ps, ascii)
    ensures !StartsAt(s, i, d) && IsAscii(s[i]) ==> Owes(s, i + 1, DollarQuote(d), ps, ascii)
    ensures !StartsAt(s, i, d) && !IsAscii(s[i]) && !IsContinuation(s[i]) ==>
              !ascii && MidCharacter(s, i + 1, DollarQuote(d))
  {
    BodyRound(d, s, i);
    if !IsAscii(s[i]) && !IsContinuation(s[i]) {
      LeadIsFollowed(s, 0, i);
    }
  }

  /** What one round of the loop did: moved on (past a semicolon or not), or panicked. */
  datatype Round = Moved(state: LexState, i: nat, semicolon: bool) | Panic

  function RoundOf(s: Bytes, i: nat, state: LexState): Round
    requires i < |s|
  {
    if state.Normal? then
      var (next, j) := NormalRound(s, i);
      Moved(next, j, s[i] == ';')
    else if state.DollarQuote? then
      // Slicing the text from a continuation byte is slicing inside a character.
      if IsContinuation(s[i]) then Panic
      else if StartsAt(s, i, state.delimiter) then Moved(Normal, i + |state.delimiter|, false)
      else Moved(state, i + 1, false)
    else
      var (next, j) := InsideRound(s, i, state);
      Moved(next, j, false)
  }

  /** `r` leads from a position that owes `ps` to one that owes the rest of it. */
  ghost predicate Keeps(s: Bytes, i: nat, r: Round, ps: seq<nat>, ascii: bool) {
    && (r.Panic? ==> !ascii)
    && (r.Moved? ==>
          && i < r.i <= |s|
          && (r.semicolon ==> ps != [] && ps[0] == i)
          && ( || Owes(s, r.i, r.state, if r.semicolon then ps[1..] else ps, ascii)
               || (MidCharacter(s, r.i, r.state) && !r.semicolon && !ascii)))
  }

  lemma NormalRoundKeeps(s: Bytes, i: nat, ps: seq<nat>, ascii: bool)
    requires i < |s| && Owes(s, i, Normal, ps, ascii)
    ensures Keeps(s, i, RoundOf(s, i, Normal), ps, ascii)
  {
    var rest := NormalRoundOwes(s, i, ps, ascii);
    if s[i] == ';' {
      assert ps[1..] == rest;
    }
  }

  lemma DollarRoundKeeps(s: Bytes, i: nat, d: Bytes, ps: seq<nat>, ascii: bool)
    requires i < |s| && Utf8(s)
    requires Owes(s, i, DollarQuote(d), ps, ascii) || (MidCharacter(s, i, DollarQuote(d)) && !ascii)
    ensures Keeps(s, i, RoundOf(s, i, DollarQuote(d)), ps, ascii)
  {
    if Owes(s, i, DollarQuote(d), ps, ascii) {
      DollarRoundOwes(s, i, d, ps, ascii);
    }
  }

  lemma RoundKeeps(s: Bytes, i: nat, state: LexState, ps: seq<nat>, ascii: bool)
    requires i < |s| && Utf8(s)
    requires Owes(s, i, state, ps, ascii) || (MidCharacter(s, i, state) && !ascii)
    ensures Keeps(s, i, RoundOf(s, i, state), ps, ascii)
  {
    if state.Normal? {
      NormalRoundKeeps(s, i, ps, ascii);
    } else if state.DollarQuote? {
      DollarRoundKeeps(s, i, state.delimiter, ps, ascii);
    } else {
      InsideRoundOwes(s, i, state, ps, ascii);
    }
  }

  /** The body of the source's loop. */
  method LexRound(sql: Bytes, start: nat, state: LexState) returns (r: Round)
    requires start < |sql|
    ensures r == RoundOf(sql, start, state)
  {
    var c, i := sql[start], start;
    match state {
      case Normal =>
        var next, semicolon := state, false;
        if c == '\'' {
          next := SingleQuote;
        } else if c == '"' {
          next := DoubleQuote;
        } else if c == '-' && i + 1 < |sql| && sql[i + 1] == '-' {
          next := LineComment;
          i := i + 1;
        } else if c == '/' && i + 1 < |sql| && sql[i + 1] == '*' {
          next := BlockComment;
          i := i + 1;
        } else if c == '$' {
          var delimiter := DollarQuoteDelimiterAt(sql, i);
          if delimiter.Some? {
            next := DollarQuote(delimiter.value);
            i := i + |delimiter.value| - 1;
          }
        } else if c == ';' {
          semicolon := true;
        }
        return Moved(next, i + 1, semicolon);
      case SingleQuote =>
        var next := state;
        if c == '\'' {
          if i + 1 < |sql| && sql[i + 1] == '\'' {
            i := i + 1;
          } else {
            next := Normal;
          }
        }
        return Moved(next, i + 1, false);
      case DoubleQuote =>
        var next := state;
        if c == '"' {
          if i + 1 < |sql| && sql[i + 1] == '"' {
            i := i + 1;
          } else {
            next := Normal;
          }
        }
        return Moved(next, i + 1, false);
      case LineComment =>
        return Moved(if c == '\n' then Normal else state, i + 1, false);
      case BlockComment =>
        if c == '*' && i + 1 < |sql| && sql[i + 1] == '/' {
          return Moved(Normal, i + 2, false);
        }
        return Moved(state, i + 1, false);
      case DollarQuote(delimiter) =>
        if IsContinuation(c) {
          return Panic;
        }
        if StartsAt(sql, i, delimiter) {
          return Moved(Normal, i + |delimiter|, false);
        }
        return Moved(state, i + 1, false);
    }
  }

  /**
   The source's loop. It panics exactly on the texts with a non-ASCII byte in a
   dollar-quoted body, and otherwise returns the semicolon elements of the grammar.
   */
  method TopLevelSemicolons(sql: Bytes) returns (r: Checked<seq<nat>>)
    requires Utf8(sql)
    ensures r.Panicked? <==> !AsciiBodies(sql)
    ensures r.Returned? ==> r.value == Semicolons(sql)
  {
    var positions: seq<nat> := [];
    var i := 0;
    var state := Normal;
    ghost var all, ascii := Semicolons(sql), AsciiBodies(sql);
    ghost var rest := all;
    while i < |sql|
      invariant i <= |sql|
      invariant all == positions + rest
      invariant Owes(sql, i, state, rest, ascii) || (MidCharacter(sql, i, state) && !ascii)
    {
      RoundKeeps(sql, i, state, rest, ascii);
      var round := LexRound(sql, i, state);
      if round.Panic? {
        return Panicked;
      }
      if round.semicolon {
        assert positions + rest == positions + [i] + rest[1..];
        positions, rest := positions + [i], rest[1..];
      }
      i, state := round.i, round.state;
    }
    return Returned(positions);
  }

  /** Well-formed text on which it panics: a dollar-quoted body of one accented letter. */
  lemma NonAsciiBodyPanics()
    ensures var sql := "$$\U{C3}\U{A9}$$"; Utf8(sql) && !AsciiBodies(sql)
  {
    var sql := "$$\U{C3}\U{A9}$$";
    assert CharLength(sql[2]) == 2 && CharAt(sql, 2);
    assert Utf8From(sql, 5) && Utf8From(sql, 4) && Utf8From(sql, 2) && Utf8From(sql, 1);
    assert DelimiterLength(sql, 0) == 2;
    assert sql[0..2] == "$$";
    assert !AsciiBody("$$", sql, 2);
  }
}
