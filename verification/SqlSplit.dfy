/**
 Splitting a script into the statements to run first and the statement to page through.

 `IsMultiStatement` and `SplitAtLastStatement` are the source's expressions over the
 lexer's answer. Proved here: the two lexers agree, the answer depends on nothing
 before a semicolon, and a split loses, adds and reorders no statement.
 */
module SqlSplit {
  import opened Basics
  import opened Wrappers
  import opened Text
  import opened SqlLexer
  import opened SqlWindows

  // ----- Whitespace and comments only -----

  /** The four bytes the emptiness test skips; `Trim` knows more white space than these. */
  predicate IsBlankByte(b: char) {
    b == ' ' || b == '\t' || b == '\n' || b == '\r'
  }

  /** Only blank bytes and comments from `i` on. */
  predicate EmptyFrom(s: Bytes, i: nat)
    requires i <= |s|
    decreases |s| - i
  {
    || i == |s|
    || (IsBlankByte(s[i]) && EmptyFrom(s, i + 1))
    || ((LineCommentAt(s, i) || BlockCommentAt(s, i)) && EmptyFrom(s, TokenEnd(s, i)))
  }

  predicate EffectivelyEmpty(s: Bytes) {
    EmptyFrom(s, 0)
  }

  /** The bytes that are passed over by themselves are space, tab, line feed and carriage return. */
  lemma BlankBytes(b: char, s: Bytes)
    ensures EffectivelyEmpty([b]) <==> b == ' ' || b == '\t' || b == '\n' || b == '\r'
    ensures b == ' ' || b == '\t' || b == '\n' || b == '\r' ==> (EffectivelyEmpty([b] + s) <==> EmptyFrom([b] + s, 1))
  {
    assert EmptyFrom([b], 1);
  }

  datatype BlankState = InText | InLineComment | InBlockComment

  function ResumeBlank(s: Bytes, i: nat, state: BlankState): (e: nat)
    requires i <= |s|
    ensures e <= |s|
  {
    match state
    case InText => i
    case InLineComment => SkipLine(s, i)
    case InBlockComment => SkipBlock(s, i)
  }

  /** The source's three-state loop. */
  method IsEffectivelyEmpty(sql: Bytes) returns (r: bool)
    ensures r == EffectivelyEmpty(sql)
  {
    var i := 0;
    var state := InText;
    while i < |sql|
      invariant i <= |sql|
      invariant EmptyFrom(sql, ResumeBlank(sql, i, state)) == EffectivelyEmpty(sql)
    {
      var c := sql[i];
      match state {
        case InText =>
          if IsBlankByte(c) {
          } else if c == '-' && i + 1 < |sql| && sql[i + 1] == '-' {
            state := InLineComment;
            i := i + 1;
          } else if c == '/' && i + 1 < |sql| && sql[i + 1] == '*' {
            state := InBlockComment;
            i := i + 1;
          } else {
            return false;
          }
        case InLineComment =>
          if c == '\n' {
            state := InText;
          }
        case InBlockComment =>
          if c == '*' && i + 1 < |sql| && sql[i + 1] == '/' {
            state := InText;
            i := i + 1;
          }
      }
      i := i + 1;
    }
    return true;
  }

  /** The two lexers agree: text the small one calls empty has no semicolon for the large one. */
  lemma {:induction false} EmptyHasNoSemicolons(s: Bytes, i: nat)
    requires i <= |s| && EmptyFrom(s, i)
    ensures SemicolonsFrom(s, i) == []
    decreases |s| - i
  {
    if i < |s| {
      EmptyHasNoSemicolons(s, TokenEnd(s, i));
    }
  }

  // ----- The two questions of the source -----

  predicate IsMultiStatement(sql: Bytes) {
    var ps := Semicolons(sql);
    exists k | 0 <= k < |ps| :: ps[k] < |sql| && !EffectivelyEmpty(sql[ps[k] + 1..])
  }

  function SplitAtLastStatement(sql: Bytes): Option<(Bytes, Bytes)> {
    var ps := Semicolons(sql);
    if ps == [] || ps[|ps| - 1] >= |sql| then None
    else
      var split := ps[|ps| - 1];
      var tail := sql[split + 1..];
      if EffectivelyEmpty(tail) then None
      else
        var main := Trim(tail);
        var preamble := sql[..split + 1];
        if IsMultiStatement(main) then None else Some((preamble, main))
  }

  // ----- History-freedom at the semicolons -----

  /** `later` is what comes after `ps[k]`, counted from just past it. */
  ghost predicate IsLater(later: seq<nat>, ps: seq<nat>, k: nat)
    requires k < |ps|
  {
    && |later| == |ps| - k - 1
    && forall j :: 0 <= j < |later| ==> later[j] + ps[k] + 1 == ps[k + 1 + j]
  }

  lemma SemicolonFirst(s: Bytes, i: nat)
    requires i < |s| && s[i] == ';'
    ensures TokenEnd(s, i) == i + 1 && SemicolonsFrom(s, i) == [i] + SemicolonsFrom(s, i + 1)
  {
  }

  lemma {:induction false} RestAfter(s: Bytes, i: nat, k: nat, p: nat)
    requires i <= |s| && k < |SemicolonsFrom(s, i)| && SemicolonsFrom(s, i)[k] == p
    ensures i <= p < |s| && SemicolonsFrom(s, p + 1) == SemicolonsFrom(s, i)[k + 1..]
    decreases |s| - i
  {
    if s[i] == ';' {
      SemicolonFirst(s, i);
      if k > 0 {
        RestAfter(s, i + 1, k - 1, p);
      }
    } else {
      RestAfter(s, TokenEnd(s, i), k, p);
    }
  }

  lemma {:induction false} ClipAll(ps: seq<nat>, a: nat, b: nat)
    requires forall k :: 0 <= k < |ps| ==> ps[k] < b
    ensures |Clip(ps, a, b)| == |ps|
    ensures forall k :: 0 <= k < |ps| ==> Clip(ps, a, b)[k] == ps[k] - a
  {
    if ps != [] {
      ClipAll(ps[1..], a, b);
    }
  }

  lemma {:induction false} ClipSome(ps: seq<nat>, b: nat, n: nat)
    requires n <= |ps|
    requires forall k :: 0 <= k < n ==> ps[k] < b
    requires forall k :: n <= k < |ps| ==> b <= ps[k]
    ensures Clip(ps, 0, b) == ps[..n]
  {
    if ps != [] {
      if n > 0 {
        ClipSome(ps[1..], b, n - 1);
        assert ps[..n] == [ps[0]] + ps[1..][..n - 1];
      } else {
        ClipBeyond(ps, 0, b);
      }
    }
  }

  lemma SemicolonsOfRest(s: Bytes, i: nat)
    requires i <= |s|
    ensures Semicolons(s[i..]) == Clip(SemicolonsFrom(s, i), i, |s|)
  {
    assert s[i..] == s[i..|s|];
    SemicolonsWindow(s, i, |s|, i);
  }

  lemma LexingAfterSemicolon(s: Bytes, k: nat)
    requires k < |Semicolons(s)|
    ensures var ps := Semicolons(s);
            ps[k] < |s| && IsLater(Semicolons(s[ps[k] + 1..]), ps, k)
  {
    hide SemicolonsFrom, Clip;
    var ps := Semicolons(s);
    SemicolonsAscend(s, 0);
    RestAfter(s, 0, k, ps[k]);
    SemicolonsOfRest(s, ps[k] + 1);
    ClipAll(ps[k + 1..], ps[k] + 1, |s|);
  }

  lemma LexingUpToSemicolon(s: Bytes, k: nat)
    requires k < |Semicolons(s)|
    ensures var ps := Semicolons(s);
            ps[k] < |s| && Semicolons(s[..ps[k] + 1]) == ps[..k + 1]
  {
    var ps := Semicolons(s);
    SemicolonsAscend(s, 0);
    var a := ps[k] + 1;
    assert s[..a] == s[0..a];
    SemicolonsWindow(s, 0, a, 0);
    ClipSome(ps, a, k + 1);
  }

  /** For each semicolon found: lexing what follows it, or what leads up to it, finds the rest or the beginning of the answer. */
  lemma LexingRestartsAtSemicolons(s: Bytes, k: nat)
    requires k < |Semicolons(s)|
    ensures var ps := Semicolons(s);
            && ps[k] < |s| && s[ps[k]] == ';'
            && IsLater(Semicolons(s[ps[k] + 1..]), ps, k)
            && Semicolons(s[..ps[k] + 1]) == ps[..k + 1]
            && (forall m :: k < m < |ps| ==> ps[k] < ps[m])
  {
    SemicolonsAscend(s, 0);
    LexingAfterSemicolon(s, k);
    LexingUpToSemicolon(s, k);
  }

  function Last(ps: seq<nat>): nat
    requires ps != []
  {
    ps[|ps| - 1]
  }

  function Tail(sql: Bytes): Bytes
    requires Semicolons(sql) != []
  {
    var p := Last(Semicolons(sql));
    if p < |sql| then sql[p + 1..] else []
  }

  function Preamble(sql: Bytes): Bytes {
    if Semicolons(sql) != [] && Last(Semicolons(sql)) < |sql| then sql[..Last(Semicolons(sql)) + 1] else []
  }

  /** What `is_multi_statement` says, without a search: two semicolons, or one with real text after it. */
  lemma MultiStatementIff(sql: Bytes)
    ensures var ps := Semicolons(sql);
            IsMultiStatement(sql) <==> |ps| >= 2 || (|ps| == 1 && !EffectivelyEmpty(Tail(sql)))
  {
    var ps := Semicolons(sql);
    if ps != [] {
      LexingRestartsAtSemicolons(sql, 0);
      var after := sql[ps[0] + 1..];
      if |ps| >= 2 {
        assert Semicolons(after) != [];
        if EffectivelyEmpty(after) {
          EmptyHasNoSemicolons(after, 0);
        }
      } else {
        assert Tail(sql) == after;
      }
    }
  }

  // ----- The statement that is split off -----

  /** White-space characters are elements of their own, none of them a semicolon. */
  lemma {:induction false} TrimFrontIsQuiet(s: Bytes, i: nat)
    requires i <= |s|
    ensures SemicolonsFrom(s, i) == SemicolonsFrom(s, TrimFront(s, i))
    ensures AsciiBodiesFrom(s, i) ==> AsciiBodiesFrom(s, TrimFront(s, i))
    decreases |s| - i
  {
    hide SemicolonsFrom, AsciiBodiesFrom, WhiteAt;
    var n := WhiteAt(s, i);
    if n > 0 {
      WhiteIsPlain(s, i);
      PlainRun(s, i, i + n);
      TrimFrontIsQuiet(s, i + n);
    }
  }

  /** No byte of a white-space character opens an element or is a semicolon. */
  lemma WhiteIsPlain(s: Bytes, i: nat)
    requires i <= |s|
    ensures forall k :: i <= k < i + WhiteAt(s, i) ==> s[k] !in "'\"-/$;"
  {
  }

  lemma {:induction false} PlainRun(s: Bytes, i: nat, j: nat)
    requires i <= j <= |s| && forall k :: i <= k < j ==> s[k] !in "'\"-/$;"
    ensures SemicolonsFrom(s, i) == SemicolonsFrom(s, j)
    ensures AsciiBodiesFrom(s, i) ==> AsciiBodiesFrom(s, j)
    decreases j - i
  {
    if i < j {
      PlainByte(s, i);
      PlainRun(s, i + 1, j);
    }
  }

  lemma PlainByte(s: Bytes, i: nat)
    requires i < |s| && s[i] !in "'\"-/$;"
    ensures TokenEnd(s, i) == i + 1
    ensures SemicolonsFrom(s, i) == SemicolonsFrom(s, i + 1)
    ensures AsciiBodiesFrom(s, i) ==> AsciiBodiesFrom(s, i + 1)
  {
  }

  lemma TrimHasNoNewSemicolons(s: Bytes)
    requires Semicolons(s) == []
    ensures Semicolons(Trim(s)) == []
    ensures AsciiBodies(s) ==> AsciiBodies(Trim(s))
  {
    var a := TrimFront(s, 0);
    var b := TrimBack(s, a, |s|);
    TrimFrontIsQuiet(s, 0);
    SemicolonsWindow(s, a, b, a);
    if AsciiBodies(s) {
      AsciiBodiesWindow(s, a, b, a);
    }
  }

  lemma AsciiOfRest(s: Bytes, i: nat)
    requires i <= |s| && AsciiBodiesFrom(s, i)
    ensures AsciiBodies(s[i..])
  {
    hide AsciiBodiesFrom;
    assert s[i..] == s[i..|s|];
    AsciiBodiesWindow(s, i, |s|, i);
  }

  lemma TailIsQuiet(sql: Bytes)
    requires Semicolons(sql) != []
    ensures var p := Last(Semicolons(sql)); p < |sql| && Tail(sql) == sql[p + 1..]
    ensures Semicolons(Tail(sql)) == []
    ensures AsciiBodies(sql) ==> AsciiBodies(Tail(sql))
  {
    hide AsciiBodiesFrom, SemicolonsFrom;
    var ps := Semicolons(sql);
    var p := Last(ps);
    LexingRestartsAtSemicolons(sql, |ps| - 1);
    if AsciiBodies(sql) {
      AsciiAfter(sql, 0, |ps| - 1, p);
      AsciiOfRest(sql, p + 1);
    }
  }

  lemma AsciiStep(s: Bytes, i: nat)
    requires i < |s| && AsciiBodiesFrom(s, i)
    ensures AsciiBodiesFrom(s, TokenEnd(s, i))
  {
    AsciiUnfold(s, i);
  }

  lemma {:induction false} AsciiAfter(s: Bytes, i: nat, k: nat, p: nat)
    requires i <= |s| && k < |SemicolonsFrom(s, i)| && SemicolonsFrom(s, i)[k] == p
    requires AsciiBodiesFrom(s, i)
    ensures p < |s| && AsciiBodiesFrom(s, p + 1)
    decreases |s| - i
  {
    hide AsciiBodiesFrom, TokenEnd;
    AsciiStep(s, i);
    if s[i] != ';' {
      AsciiAfter(s, TokenEnd(s, i), k, p);
    } else {
      SemicolonFirst(s, i);
      if k > 0 {
        AsciiAfter(s, i + 1, k - 1, p);
      }
    }
  }

  /**
   A split happens exactly when real text follows the last semicolon: the defensive
   test on `main` never refuses, because `main` holds no semicolon, trimmed or not.
   */
  lemma SplitIff(sql: Bytes)
    ensures var ps := Semicolons(sql);
            SplitAtLastStatement(sql).Some? <==> ps != [] && !EffectivelyEmpty(Tail(sql))
    ensures SplitAtLastStatement(sql).Some? ==>
              var (preamble, main) := SplitAtLastStatement(sql).value;
              && preamble == Preamble(sql)
              && main == Trim(Tail(sql))
              && Semicolons(main) == []
              && !IsMultiStatement(main)
              && (AsciiBodies(sql) ==> AsciiBodies(main))
    ensures SplitAtLastStatement(sql).Some? ==> IsMultiStatement(sql)
  {
    if Semicolons(sql) != [] {
      TailIsQuiet(sql);
      TrimHasNoNewSemicolons(Tail(sql));
      MultiStatementIff(Trim(Tail(sql)));
    }
    MultiStatementIff(sql);
  }

  /** A multi-statement script without a split is one whose last tail is empty. */
  lemma MultiWithoutSplitIff(sql: Bytes)
    ensures IsMultiStatement(sql) && SplitAtLastStatement(sql).None? <==>
            |Semicolons(sql)| >= 2 && EffectivelyEmpty(Tail(sql))
  {
    SplitIff(sql);
    MultiStatementIff(sql);
  }

  // ----- The two questions, asked of text that may panic the lexer -----

  lemma TailIsText(sql: Bytes)
    requires Utf8(sql) && Semicolons(sql) != []
    ensures Utf8(Tail(sql)) && Utf8(Trim(Tail(sql)))
  {
    var ps := Semicolons(sql);
    var p := Last(ps);
    LexingRestartsAtSemicolons(sql, |ps| - 1);
    CutAtBoundary(sql, 0, p);
    assert Utf8From(sql, p + 1);
    SuffixIsText(sql, p + 1, p + 1);
    TrimKeepsText(Tail(sql));
  }

  method CheckMultiStatement(sql: Bytes) returns (r: Checked<bool>)
    requires Utf8(sql)
    ensures r.Panicked? <==> !AsciiBodies(sql)
    ensures r.Returned? ==> r.value == IsMultiStatement(sql)
  {
    var positions := TopLevelSemicolons(sql);
    if positions.Panicked? {
      return Panicked;
    }
    var ps := positions.value;
    var k := 0;
    while k < |ps|
      invariant k <= |ps|
      invariant forall j :: 0 <= j < k ==> ps[j] < |sql| && EffectivelyEmpty(sql[ps[j] + 1..])
    {
      LexingRestartsAtSemicolons(sql, k);
      var empty := IsEffectivelyEmpty(sql[ps[k] + 1..]);
      if !empty {
        return Returned(true);
      }
      k := k + 1;
    }
    return Returned(false);
  }

  /** Lexing `main` again cannot panic when lexing the script did not. */
  method CheckSplit(sql: Bytes) returns (r: Checked<Option<(Bytes, Bytes)>>)
    requires Utf8(sql)
    ensures r.Panicked? <==> !AsciiBodies(sql)
    ensures r.Returned? ==> r.value == SplitAtLastStatement(sql)
    ensures r.Returned? && r.value.Some? ==> Utf8(r.value.value.1)
  {
    SplitIff(sql);
    var positions := TopLevelSemicolons(sql);
    if positions.Panicked? {
      return Panicked;
    }
    var ps := positions.value;
    if ps == [] {
      return Returned(None);
    }
    TailIsQuiet(sql);
    TailIsText(sql);
    var split := ps[|ps| - 1];
    var tail := sql[split + 1..];
    var empty := IsEffectivelyEmpty(tail);
    if empty {
      return Returned(None);
    }
    var main := Trim(tail);
    var multi := CheckMultiStatement(main);
    if multi.Panicked? {
      return Panicked;
    }
    if multi.value {
      return Returned(None);
    }
    return Returned(Some((sql[..split + 1], main)));
  }

  // ----- The script as a sequence of statements -----

  /** The text between semicolons. */
  function Pieces(sql: Bytes): (r: seq<Bytes>)
    ensures r != []
    decreases |sql|
  {
    var ps := Semicolons(sql);
    if ps == [] || ps[0] >= |sql| then [sql] else [sql[..ps[0]]] + Pieces(sql[ps[0] + 1..])
  }

  function RealPart(piece: Bytes): seq<Bytes> {
    if EffectivelyEmpty(Trim(piece)) then [] else [Trim(piece)]
  }

  function Real(pieces: seq<Bytes>): seq<Bytes> {
    if pieces == [] then [] else RealPart(pieces[0]) + Real(pieces[1..])
  }

  /** The statements of a script, in order, without white space around them. */
  function Statements(sql: Bytes): seq<Bytes> {
    Real(Pieces(sql))
  }

  lemma RealUnfolds(piece: Bytes, pieces: seq<Bytes>)
    ensures Real([piece] + pieces) == RealPart(piece) + Real(pieces)
  {
    assert ([piece] + pieces)[1..] == pieces;
  }

  lemma RealOneMore(piece: Bytes, a: seq<Bytes>, b: seq<Bytes>)
    requires Real(a + b) == Real(a) + Real(b)
    ensures Real([piece] + (a + b)) == Real([piece] + a) + Real(b)
  {
    RealUnfolds(piece, a + b);
    RealUnfolds(piece, a);
    Regroup(RealPart(piece), Real(a), Real(b));
  }

  lemma {:induction false} RealConcat(a: seq<Bytes>, b: seq<Bytes>)
    ensures Real(a + b) == Real(a) + Real(b)
  {
    if a == [] {
      assert a + b == b;
    } else {
      RealConcat(a[1..], b);
      RealOneMore(a[0], a[1..], b);
      HeadFirst(a, b);
    }
  }

  /** The rest of a text, cut short or not, from past the first of two positions. */
  lemma CutPast(sql: Bytes, p: nat, q: nat)
    requires p < q < |sql|
    ensures sql[p + 1..][q - p - 1 + 1..] == sql[q + 1..]
    ensures sql[p + 1..][..q - p - 1 + 1] == sql[..q + 1][p + 1..]
  {
  }

  /** The semicolons past the first one are those of the rest, and the last one is the same. */
  lemma LastOfRest(sql: Bytes)
    requires |Semicolons(sql)| >= 2
    ensures var ps := Semicolons(sql);
            && ps[0] < Last(ps) < |sql|
            && |Semicolons(sql[ps[0] + 1..])| == |ps| - 1
            && Last(Semicolons(sql[ps[0] + 1..])) == Last(ps) - ps[0] - 1
  {
    var ps := Semicolons(sql);
    LexingRestartsAtSemicolons(sql, 0);
    LexingRestartsAtSemicolons(sql, |ps| - 1);
    var later := Semicolons(sql[ps[0] + 1..]);
    assert later[|ps| - 2] + ps[0] + 1 == ps[|ps| - 1];
  }

  lemma TailIs(sql: Bytes, q: nat)
    requires Semicolons(sql) != [] && q == Last(Semicolons(sql)) < |sql|
    ensures Tail(sql) == sql[q + 1..] && Preamble(sql) == sql[..q + 1]
  {
  }

  /** Past the first of several semicolons the script has the same tail, and a preamble without the first piece. */
  lemma DropFirstPiece(sql: Bytes)
    requires |Semicolons(sql)| >= 2
    ensures var ps := Semicolons(sql);
            && ps[0] < ps[|ps| - 1] < |sql|
            && |Semicolons(sql[ps[0] + 1..])| == |ps| - 1
            && Tail(sql[ps[0] + 1..]) == Tail(sql)
            && Preamble(sql[ps[0] + 1..]) == Preamble(sql)[ps[0] + 1..]
  {
    LastOfRest(sql);
    var p, q := Semicolons(sql)[0], Last(Semicolons(sql));
    TailIs(sql, q);
    TailIs(sql[p + 1..], q - p - 1);
    CutPast(sql, p, q);
  }

  lemma PreambleSemicolons(sql: Bytes)
    requires Semicolons(sql) != []
    ensures Semicolons(Preamble(sql)) == Semicolons(sql)
  {
    var ps := Semicolons(sql);
    LexingRestartsAtSemicolons(sql, |ps| - 1);
    assert ps[..|ps|] == ps;
  }

  lemma {:induction false} PiecesStep(sql: Bytes, p: nat)
    requires Semicolons(sql) != [] && Semicolons(sql)[0] == p < |sql|
    ensures Pieces(sql) == [sql[..p]] + Pieces(sql[p + 1..])
  {
  }

  /** Cutting after the last semicolon leaves all but the last piece before the cut. */
  lemma {:induction false} PiecesOfPreamble(sql: Bytes) returns (front: seq<Bytes>)
    requires Semicolons(sql) != []
    ensures Pieces(sql) == front + [Tail(sql)]
    ensures Pieces(Preamble(sql)) == front + [""]
    decreases |sql|
  {
    hide SemicolonsFrom, AsciiBodiesFrom, TokenEnd;
    var ps, preamble := Semicolons(sql), Preamble(sql);
    var p := ps[0];
    PreambleSemicolons(sql);
    TailIsQuiet(sql);
    LexingRestartsAtSemicolons(sql, 0);
    PiecesStep(sql, p);
    PiecesStep(preamble, p);
    assert preamble[..p] == sql[..p];
    if |ps| == 1 {
      front := [sql[..p]];
      assert sql[p + 1..] == Tail(sql) && preamble[p + 1..] == "";
    } else {
      DropFirstPiece(sql);
      var front' := PiecesOfPreamble(sql[p + 1..]);
      front := [sql[..p]] + front';
      Regroup([sql[..p]], front', [Tail(sql)]);
      Regroup([sql[..p]], front', [""]);
    }
  }

  lemma RealOfOne(piece: Bytes)
    ensures Real([piece]) == RealPart(piece)
  {
    assert Real([piece]) == RealPart(piece) + [];
  }

  lemma MainIsOneStatement(sql: Bytes)
    requires SplitAtLastStatement(sql).Some?
    ensures var main := SplitAtLastStatement(sql).value.1;
            Statements(main) == if EffectivelyEmpty(main) then [] else [main]
  {
    SplitIff(sql);
    var main := SplitAtLastStatement(sql).value.1;
    TrimIsTight(Tail(sql));
    assert Pieces(main) == [main];
    RealOfOne(main);
  }

  /** Nothing is lost, added or moved: the preamble's statements, then `main`, are the script's statements. */
  lemma SplitKeepsScript(sql: Bytes)
    requires SplitAtLastStatement(sql).Some?
    ensures var (preamble, main) := SplitAtLastStatement(sql).value;
            && Statements(sql) == Statements(preamble) + Statements(main)
            && Statements(main) == if EffectivelyEmpty(main) then [] else [main]
  {
    SplitIff(sql);
    MainIsOneStatement(sql);
    var front := PiecesOfPreamble(sql);
    RealConcat(front, [Tail(sql)]);
    RealConcat(front, [""]);
    RealOfOne(Tail(sql));
    RealOfOne("");
    assert Trim("") == "";
    assert Real(front) + [] == Real(front);
  }

  /**
   `Trim` strips white space that the emptiness test takes for text. A script that ends in
   such white space is split, its statement is run as preamble, and `main` is nothing at all.
   */
  lemma SplitMayYieldNothing()
    ensures SplitAtLastStatement("A;\U{0C}") == Some(("A;", ""))
  {
    var sql := "A;\U{0C}";
    PlainByte(sql, 0);
    PlainByte(sql, 2);
    assert Semicolons(sql) == [1];
    var tail := sql[2..];
    assert tail == "\U{0C}" && !EffectivelyEmpty(tail);
    assert TrimFront(tail, 0) == 1 && Trim(tail) == "";
    assert sql[..2] == "A;" && Semicolons("") == [];
    MultiStatementIff("");
  }

  // ----- Exactly which tails are split off -----

  /** White space in front is empty text only if it is made of blank bytes. */
  lemma {:induction false} FrontIsEmptyIff(s: Bytes, i: nat)
    requires i <= |s|
    ensures EmptyFrom(s, i) <==> (forall k :: i <= k < TrimFront(s, i) ==> IsBlankByte(s[k])) && EmptyFrom(s, TrimFront(s, i))
    decreases |s| - i
  {
    if WhiteAt(s, i) > 0 && IsBlankByte(s[i]) {
      FrontIsEmptyIff(s, i + 1);
    }
  }

  /** Where reading blanks and comments from `i` on first comes to `b` or past it: past it if a comment goes on there. */
  function Past(s: Bytes, i: nat, b: nat): (e: nat)
    requires i <= |s| && b <= |s|
    ensures i <= e <= |s| && b <= e
    decreases |s| - i
  {
    if i >= b then i else Past(s, TokenEnd(s, i), b)
  }

  lemma {:induction false} EmptyUpTo(s: Bytes, a: nat, b: nat, i: nat)
    requires a <= i <= |s| && a <= b <= |s| && EmptyFrom(s[a..b], Min(i, b) - a)
    ensures EmptyFrom(s, i) <==> EmptyFrom(s, Past(s, i, b))
    decreases |s| - i
  {
    if i < b {
      var t := s[a..b];
      assert t[i - a] == s[i];
      if IsBlankByte(s[i]) {
        EmptyUpTo(s, a, b, i + 1);
      } else {
        assert t[i - a + 1] == s[i + 1];
        CommentTokenWindow(s, a, b, i);
        EmptyUpTo(s, a, b, TokenEnd(s, i));
      }
    }
  }

  /** A stretch of empty text that cuts no comment mark in two is empty. */
  lemma {:induction false} EmptyWindow(s: Bytes, a: nat, b: nat, i: nat)
    requires a <= i <= |s| && a <= b <= |s| && EmptyFrom(s, i)
    requires b < |s| ==> s[b] !in "-*"
    ensures EmptyFrom(s[a..b], Min(i, b) - a)
    decreases |s| - i
  {
    if i < b {
      var t := s[a..b];
      assert t[i - a] == s[i];
      if IsBlankByte(s[i]) {
        EmptyWindow(s, a, b, i + 1);
      } else {
        assert i + 1 < b && t[i - a + 1] == s[i + 1];
        CommentTokenWindow(s, a, b, i);
        EmptyWindow(s, a, b, TokenEnd(s, i));
      }
    }
  }

  /** No comment starts in the white space behind. */
  lemma {:induction false} BackHasNoMarks(s: Bytes, i: nat, j: nat)
    requires i <= j <= |s|
    ensures forall k :: TrimBack(s, i, j) <= k < j ==> s[k] !in "/-*"
    decreases j
  {
    var n := WhiteBefore(s, i, j);
    if n > 0 {
      BackHasNoMarks(s, i, j - n);
    }
  }

  lemma {:induction false} BackIsEmptyIff(s: Bytes, p: nat)
    requires p <= |s| && forall k :: p <= k < |s| ==> s[k] !in "/-*"
    ensures EmptyFrom(s, p) <==> forall k :: p <= k < |s| ==> IsBlankByte(s[k])
    decreases |s| - p
  {
    if p < |s| && IsBlankByte(s[p]) {
      BackIsEmptyIff(s, p + 1);
    }
  }

  /** A byte that trimming strips, in no comment, and not one of the four. */
  predicate StrayWhite(tail: Bytes) {
    var a := TrimFront(tail, 0);
    var b := TrimBack(tail, a, |tail|);
    || (exists k :: 0 <= k < a && !IsBlankByte(tail[k]))
    || (exists k :: Past(tail, a, b) <= k < |tail| && !IsBlankByte(tail[k]))
  }

  /** A text passes the emptiness test exactly when the trimmed text does and trimming strips no such byte. */
  lemma EmptyIff(tail: Bytes)
    ensures EffectivelyEmpty(tail) <==> EffectivelyEmpty(Trim(tail)) && !StrayWhite(tail)
  {
    var a := TrimFront(tail, 0);
    var b := TrimBack(tail, a, |tail|);
    FrontIsEmptyIff(tail, 0);
    BackHasNoMarks(tail, a, |tail|);
    if EmptyFrom(tail, a) {
      EmptyWindow(tail, a, b, a);
    }
    if EffectivelyEmpty(Trim(tail)) {
      EmptyUpTo(tail, a, b, a);
      BackIsEmptyIff(tail, Past(tail, a, b));
    }
  }

  /**
   What follows the last semicolon is split off exactly when it is real text once trimmed, or when trimming
   strips a byte that is white space to it and neither blank nor comment to the emptiness test. In the
   second case alone the main statement is none.
   */
  lemma TailSplitsIff(sql: Bytes)
    requires Semicolons(sql) != []
    ensures SplitAtLastStatement(sql).Some? <==> !EffectivelyEmpty(Trim(Tail(sql))) || StrayWhite(Tail(sql))
    ensures SplitAtLastStatement(sql).Some? ==> SplitAtLastStatement(sql).value.1 == Trim(Tail(sql))
  {
    SplitIff(sql);
    EmptyIff(Tail(sql));
  }

  /** A comment between a form feed and the end does not make the main statement real either. */
  lemma SplitMayYieldAComment()
    ensures SplitAtLastStatement("A;\U{0C}--") == Some(("A;", "--")) && EffectivelyEmpty("--")
  {
    var sql := "A;\U{0C}--";
    PlainByte(sql, 0);
    PlainByte(sql, 2);
    assert LineCommentAt(sql, 3) && TokenEnd(sql, 3) == 5;
    assert Semicolons(sql) == [1];
    var tail := sql[2..];
    assert tail == "\U{0C}--" && !EffectivelyEmpty(tail);
    assert TrimFront(tail, 0) == 1 && TrimBack(tail, 1, 3) == 3 && tail[1..3] == "--";
    assert sql[..2] == "A;";
    assert LineCommentAt("--", 0) && TokenEnd("--", 0) == 2;
    EmptyHasNoSemicolons("--", 0);
  }

  /**
   A script with nothing but white space after its last semicolon is split, with nothing for
   `main`, exactly when a byte of that white space is not one of the four.
   */
  lemma WhiteTailSplitsIff(sql: Bytes)
    requires Semicolons(sql) != [] && TrimFront(Tail(sql), 0) == |Tail(sql)|
    ensures SplitAtLastStatement(sql).Some? <==> exists k :: 0 <= k < |Tail(sql)| && !IsBlankByte(Tail(sql)[k])
    ensures SplitAtLastStatement(sql).Some? ==> SplitAtLastStatement(sql).value.1 == ""
  {
    TailSplitsIff(sql);
    assert Trim(Tail(sql)) == "";
  }

  /** Only that white space does it: when the trimmed ends are blank bytes, `main` is real text. */
  lemma SplitYieldsRealText(sql: Bytes)
    requires SplitAtLastStatement(sql).Some?
    requires var tail := Tail(sql);
             var a := TrimFront(tail, 0);
             var b := TrimBack(tail, a, |tail|);
             forall k :: 0 <= k < a || b <= k < |tail| ==> IsBlankByte(tail[k])
    ensures !EffectivelyEmpty(SplitAtLastStatement(sql).value.1)
  {
    SplitIff(sql);
    TailSplitsIff(sql);
  }
}
