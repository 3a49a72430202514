/**
 Casts in the SQL text of edits: can the type spliced into `$1::text::type` end its cast?

 Brackets and commas are what ends one, short of another word. They are read over the
 lexer's elements, so those in quoted names do not count. Proved here: which types the
 validator accepts stay inside their cast, in whatever statement and whatever is open
 around it, and that with such types an insert has one value for each column.
 */
module SqlCasts {
  import opened Basics
  import opened Wrappers
  import opened Text
  import opened SqlLexer
  import opened SqlWindows
  import opened SqlEdit
  import Decimal

  // ----- Brackets and commas -----

  predicate IsMark(b: char) {
    b == '(' || b == ')' || b == '[' || b == ']' || b == ','
  }

  /** The brackets and commas that are elements of their own, reading elements from `i` up to `j`. */
  function Marks(s: Bytes, i: nat, j: nat): Bytes
    requires i <= |s|
    decreases |s| - i
  {
    if i >= j || i == |s| then []
    else if IsMark(s[i]) then [s[i]] + Marks(s, i + 1, j)
    else Marks(s, TokenEnd(s, i), j)
  }

  /** One mark, with `open` the closing brackets that are due, the nearest last. */
  function Read(mark: char, open: Bytes): Option<Bytes> {
    if mark == ',' then Some(open)
    else if mark == '(' then Some(open + [')'])
    else if mark == '[' then Some(open + [']'])
    else if open != [] && open[|open| - 1] == mark then Some(open[..|open| - 1])
    else None
  }

  /** What is open behind the marks; nothing, when a bracket closes that is not due. */
  function ReadAll(m: Bytes, open: Bytes): Option<Bytes> {
    if m == [] then Some(open)
    else
      match Read(m[0], open)
      case None => None
      case Some(open') => ReadAll(m[1..], open')
  }

  /** Every bracket is closed, by its own kind, and none is closed that was not opened. */
  predicate Balanced(m: Bytes) {
    ReadAll(m, []) == Some([])
  }

  /** The commas outside all brackets. */
  function TopCommas(m: Bytes, open: Bytes): nat {
    if m == [] then 0
    else
      (if m[0] == ',' && open == [] then 1 else 0) +
      match Read(m[0], open)
      case None => 0
      case Some(open') => TopCommas(m[1..], open')
  }

  /** Behind these marks, all of `base` is still open. */
  predicate Above(m: Bytes, base: Bytes) {
    ReadAll(m, base).Some? && base <= ReadAll(m, base).value
  }

  /** Nothing that was open around is closed on the way, and nothing more is open at the end. */
  ghost predicate KeepsDepth(m: Bytes, base: Bytes) {
    && (forall k :: 0 <= k <= |m| ==> Above(m[..k], base))
    && ReadAll(m, base) == Some(base)
  }

  /** Nor is there a comma at the depth around. */
  ghost predicate HoldsTogether(m: Bytes, base: Bytes) {
    && KeepsDepth(m, base)
    && forall k :: 0 <= k < |m| && m[k] == ',' ==> ReadAll(m[..k], base) != Some(base)
  }

  // ----- What is open around makes no difference -----

  lemma ReadAround(mark: char, base: Bytes, open: Bytes)
    ensures Read(mark, open).Some? ==> Read(mark, base + open) == Some(base + Read(mark, open).value)
    ensures Read(mark, open).None? && Read(mark, base + open).Some? ==> open == [] && |Read(mark, base + open).value| < |base|
  {
    if mark == '(' || mark == '[' {
      var c := if mark == '(' then ')' else ']';
      Regroup(base, open, [c]);
    } else if mark != ',' && open != [] {
      assert (base + open)[|base + open| - 1] == open[|open| - 1];
      assert (base + open)[..|base + open| - 1] == base + open[..|open| - 1];
    }
  }

  lemma ReadAllUnfold(m: Bytes, k: nat, open: Bytes)
    requires 0 < k <= |m|
    ensures m[..k] != [] && m[..k][0] == m[0]
    ensures Read(m[0], open).None? ==> ReadAll(m[..k], open) == None
    ensures Read(m[0], open).Some? ==> ReadAll(m[..k], open) == ReadAll(m[1..][..k - 1], Read(m[0], open).value)
  {
    assert m[..k][1..] == m[1..][..k - 1];
  }

  /** What is read without closing anything from before is read likewise with `base` around it, at every point. */
  lemma {:induction false} ReadAllAround(m: Bytes, base: Bytes, open: Bytes, k: nat)
    requires k <= |m| && ReadAll(m, open).Some?
    ensures ReadAll(m[..k], open).Some?
    ensures ReadAll(m[..k], base + open) == Some(base + ReadAll(m[..k], open).value)
    decreases |m|
  {
    if k > 0 {
      ReadAround(m[0], base, open);
      ReadAllUnfold(m, k, open);
      ReadAllUnfold(m, k, base + open);
      ReadAllAround(m[1..], base, Read(m[0], open).value, k - 1);
    }
  }

  /** Conversely, marks that keep `base` open close nothing from before. */
  lemma {:induction false} AboveIsOwn(m: Bytes, base: Bytes, open: Bytes)
    requires forall k :: 0 <= k <= |m| ==> ReadAll(m[..k], base + open).Some? && base <= ReadAll(m[..k], base + open).value
    ensures ReadAll(m, open).Some?
    decreases |m|
  {
    if m != [] {
      ReadAround(m[0], base, open);
      ReadAllUnfold(m, 1, base + open);
      assert m[1..][..0] == [];
      assert ReadAll(m[..1], base + open) == Read(m[0], base + open);
      var rest, open' := m[1..], Read(m[0], open).value;
      forall k | 0 <= k <= |rest| ensures ReadAll(rest[..k], base + open').Some? && base <= ReadAll(rest[..k], base + open').value {
        ReadAllUnfold(m, k + 1, base + open);
        assert ReadAll(m[..k + 1], base + open).Some?;
      }
      AboveIsOwn(rest, base, open');
    }
  }

  /** Whatever is open around: marks keep the depth exactly when they balance. */
  lemma KeepsDepthIff(m: Bytes, base: Bytes)
    ensures KeepsDepth(m, base) <==> Balanced(m)
  {
    assert m[..|m|] == m && base + [] == base;
    if Balanced(m) {
      forall k | 0 <= k <= |m| ensures Above(m[..k], base) {
        ReadAllAround(m, base, [], k);
      }
      ReadAllAround(m, base, [], |m|);
    }
    if KeepsDepth(m, base) {
      forall k | 0 <= k <= |m| ensures ReadAll(m[..k], base + []).Some? && base <= ReadAll(m[..k], base + []).value {
        assert Above(m[..k], base);
      }
      AboveIsOwn(m, base, []);
      ReadAllAround(m, base, [], |m|);
      assert base + ReadAll(m, []).value == base;
    }
  }

  lemma {:induction false} TopCommaThere(m: Bytes, open: Bytes, k: nat)
    requires k < |m| && m[k] == ',' && ReadAll(m[..k], open) == Some([])
    ensures TopCommas(m, open) > 0
    decreases k
  {
    if k > 0 {
      ReadAllUnfold(m, k, open);
      TopCommaThere(m[1..], Read(m[0], open).value, k - 1);
    }
  }

  lemma {:induction false} TopCommaAt(m: Bytes, open: Bytes) returns (k: nat)
    requires TopCommas(m, open) > 0
    ensures k < |m| && m[k] == ',' && ReadAll(m[..k], open) == Some([])
    decreases |m|
  {
    if m[0] == ',' && open == [] {
      k := 0;
    } else {
      var n := TopCommaAt(m[1..], Read(m[0], open).value);
      k := n + 1;
      ReadAllUnfold(m, k, open);
    }
  }

  lemma HoldsTogetherIff(m: Bytes, base: Bytes)
    ensures HoldsTogether(m, base) <==> Balanced(m) && TopCommas(m, []) == 0
  {
    KeepsDepthIff(m, base);
    assert base + [] == base;
    if Balanced(m) {
      forall k | 0 <= k < |m| && m[k] == ',' ensures ReadAll(m[..k], base) == Some(base) <==> ReadAll(m[..k], []) == Some([]) {
        ReadAllAround(m, base, [], k);
        assert |base + ReadAll(m[..k], []).value| == |base| + |ReadAll(m[..k], []).value|;
      }
      if TopCommas(m, []) > 0 {
        var k := TopCommaAt(m, []);
        assert ReadAll(m[..k], base) == Some(base);
      } else if k :| 0 <= k < |m| && m[k] == ',' && ReadAll(m[..k], base) == Some(base) {
        TopCommaThere(m, [], k);
      }
    }
  }

  // ----- The marks of a type -----

  /** The marks of a text outside its double quotes, by toggling at every quotation mark. */
  function Outline(ty: Bytes, i: nat, quoted: bool): Bytes
    requires i <= |ty|
    decreases |ty| - i
  {
    if i == |ty| then []
    else if ty[i] == '"' then Outline(ty, i + 1, !quoted)
    else if IsMark(ty[i]) && !quoted then [ty[i]] + Outline(ty, i + 1, quoted)
    else Outline(ty, i + 1, quoted)
  }

  function OutlineOf(ty: Bytes): Bytes {
    Outline(ty, 0, false)
  }

  lemma {:induction false} OutlineOfQuoted(ty: Bytes, i: nat)
    requires i <= |ty| && Closes(ty, i)
    ensures Outline(ty, i, true) == Outline(ty, SkipQuoted('"', ty, i), false)
    decreases |ty| - i
  {
    if ty[i] != '"' {
      OutlineOfQuoted(ty, i + 1);
    } else if i + 1 < |ty| && ty[i + 1] == '"' {
      OutlineOfQuoted(ty, i + 2);
    }
  }

  /** A byte that opens nothing: a mark or none. */
  lemma PlainStep(s: Bytes, i: nat, j: nat)
    requires i < j <= |s| && IsPlainByte(s[i])
    ensures Marks(s, i, j) == if IsMark(s[i]) then [s[i]] + Marks(s, i + 1, j) else Marks(s, i + 1, j)
  {
    assert TokenEnd(s, i) == i + 1;
  }

  /** A quoted name: no marks in it. */
  lemma QuotedStep(s: Bytes, i: nat, j: nat)
    requires i < j <= |s| && s[i] == '"'
    ensures Marks(s, i, j) == Marks(s, SkipQuoted('"', s, i + 1), j)
  {
  }

  lemma TypeByteIsPlain(b: char)
    requires IsTypeByte(b) && b != '"'
    ensures IsPlainByte(b)
  {
  }

  lemma NoneLeft(ty: Bytes, s: Bytes)
    requires |ty| <= |s|
    ensures Marks(s, |ty|, |ty|) == Outline(ty, |ty|, false) == []
  {
  }

  /** The lexer reads the marks of an accepted type as toggling does, whatever follows it. */
  lemma {:induction false} TypeMarks(ty: Bytes, s: Bytes, i: nat)
    requires i <= |ty| <= |s| && s[..|ty|] == ty && OnlyTypeBytes(ty) && ClosedFrom(ty, i) && NoQuoteNext(s[|ty|..])
    ensures Marks(s, i, |ty|) == Outline(ty, i, false)
    decreases |ty| - i
  {
    hide Marks, IsTypeByte, IsPlainByte, SkipQuoted, Closes;
    if i == |ty| {
      NoneLeft(ty, s);
    } else {
      assert s[i] == ty[i];
      if ty[i] == '"' {
        ClosesHere(ty, s, i + 1);
        OutlineOfQuoted(ty, i + 1);
        QuotedStep(s, i, |ty|);
        TypeMarks(ty, s, SkipQuoted('"', ty, i + 1));
      } else {
        TypeByteIsPlain(ty[i]);
        PlainStep(s, i, |ty|);
        TypeMarks(ty, s, i + 1);
      }
    }
  }

  // ----- Marks in their place -----

  lemma {:induction false} MarksJoin(s: Bytes, i: nat, j: nat, k: nat)
    requires i <= |s| && j <= |s| && j <= k && Walk(s, i, j)
    ensures Marks(s, i, k) == Marks(s, i, j) + Marks(s, j, k)
    decreases |s| - i
  {
    if i != j {
      WalkAhead(s, TokenEnd(s, i), j);
      MarksJoin(s, TokenEnd(s, i), j, k);
      if IsMark(s[i]) {
        assert TokenEnd(s, i) == i + 1;
        Regroup([s[i]], Marks(s, i + 1, j), Marks(s, j, k));
      }
    }
  }

  lemma TokenShifted(a: Bytes, s: Bytes, i: nat)
    requires i < |s|
    ensures (a + s)[|a| + i] == s[i]
    ensures DelimiterLength(s, i) == 0 ==> TokenEnd(a + s, |a| + i) == |a| + TokenEnd(s, i)
  {
    var t, k := a + s, |a| + i;
    assert t[|a|..|t|] == s;
    DelimiterWindow(t, |a|, |t|, k);
    TokenWindow(t, |a|, |t|, k);
  }

  lemma {:induction false} MarksShifted(a: Bytes, s: Bytes, i: nat, j: nat)
    requires i <= j <= |s| && Walk(s, i, j)
    ensures Marks(a + s, |a| + i, |a| + j) == Marks(s, i, j)
    decreases |s| - i
  {
    if i != j {
      TokenShifted(a, s, i);
      WalkAhead(s, TokenEnd(s, i), j);
      MarksShifted(a, s, TokenEnd(s, i), j);
    }
  }

  lemma PlaceInStatement(ps: seq<Piece>, k: nat)
    requires WellSpaced(ps) && k < |ps| && ps[k].Type?
    ensures var before, rest := Render(ps[..k]), Render(ps[k + 1..]);
            && Render(ps) == before + (ps[k].ty + rest)
            && |Render(ps[..k + 1])| == |before| + |ps[k].ty|
            && NoQuoteNext(rest)
    ensures Accepted(ps[k].ty)
  {
    assert Fits(ps[k]);
    RenderSplit(ps, k);
    RenderSplit(ps[..k + 1], k);
    assert ps[..k + 1][..k] == ps[..k] && ps[..k + 1][k..] == [ps[k]];
    assert Render([ps[k]]) == ps[k].ty + Render([]);
    assert ps[k..][0] == ps[k] && ps[k..][1..] == ps[k + 1..];
    if k + 1 < |ps| {
      assert ps[k + 1..][0] == ps[k + 1] && StartsPlain(ps[k + 1]);
      PieceIsInert(ps[k + 1]);
    }
  }

  lemma AcceptedReads(ty: Bytes, s: Bytes)
    requires Accepted(ty) && |ty| <= |s| && s[..|ty|] == ty && NoQuoteNext(s[|ty|..])
    ensures Walk(s, 0, |ty|) && Marks(s, 0, |ty|) == OutlineOf(ty)
  {
    TypeWalk(ty, s, 0);
    TypeMarks(ty, s, 0);
  }

  /** Whatever follows it, the lexer reads through `text` and finds these marks. */
  ghost predicate Yields(text: Bytes, m: Bytes) {
    forall b: Bytes {:trigger Marks(text + b, 0, |text|)} ::
      NoQuoteNext(b) ==> Walk(text + b, 0, |text|) && Marks(text + b, 0, |text|) == m
  }

  lemma {:induction false} YieldsBetween(before: Bytes, text: Bytes, after: Bytes, m: Bytes)
    requires Yields(text, m) && NoQuoteNext(after)
    ensures Marks(before + (text + after), |before|, |before| + |text|) == m
  {
    assert Marks(text + after, 0, |text|) == m;
    MarksShifted(before, text + after, 0, |text|);
  }

  lemma AcceptedYields(ty: Bytes)
    requires Accepted(ty)
    ensures Yields(ty, OutlineOf(ty))
  {
    forall b: Bytes | NoQuoteNext(b) ensures Walk(ty + b, 0, |ty|) && Marks(ty + b, 0, |ty|) == OutlineOf(ty) {
      assert (ty + b)[..|ty|] == ty && (ty + b)[|ty|..] == b;
      AcceptedReads(ty, ty + b);
    }
  }

  lemma {:induction false} AcceptedMarks(before: Bytes, ty: Bytes, rest: Bytes)
    requires Accepted(ty) && NoQuoteNext(rest)
    ensures Marks(before + (ty + rest), |before|, |before| + |ty|) == OutlineOf(ty)
  {
    AcceptedYields(ty);
    YieldsBetween(before, ty, rest, OutlineOf(ty));
  }

  /**
   At each cast of each statement built, and whatever is open around it: reading the type closes nothing from
   before and leaves nothing open exactly if the type's own brackets, those outside its quotes, balance. It
   also puts no comma beside the cast exactly if none of its commas is outside its brackets.
   */
  lemma CastHoldsIff(ps: seq<Piece>, k: nat, base: Bytes)
    requires WellSpaced(ps) && k < |ps| && ps[k].Type?
    ensures |Render(ps[..k])| <= |Render(ps)|
    ensures var m := Marks(Render(ps), |Render(ps[..k])|, |Render(ps[..k + 1])|);
            var own := OutlineOf(ps[k].ty);
            && (KeepsDepth(m, base) <==> Balanced(own))
            && (HoldsTogether(m, base) <==> Balanced(own) && TopCommas(own, []) == 0)
  {
    hide *;
    PlaceInStatement(ps, k);
    AcceptedMarks(Render(ps[..k]), ps[k].ty, Render(ps[k + 1..]));
    KeepsDepthIff(OutlineOf(ps[k].ty), base);
    HoldsTogetherIff(OutlineOf(ps[k].ty), base);
  }

  /** What the validator is there to let through: the type stays inside its cast. */
  predicate Holds(ty: Bytes) {
    Balanced(OutlineOf(ty)) && TopCommas(OutlineOf(ty), []) == 0
  }

  // ----- The marks of a statement -----

  lemma {:induction false} NoMarks(s: Bytes, i: nat, j: nat)
    requires i <= j <= |s| && forall k :: i <= k < j ==> IsPlainByte(s[k]) && !IsMark(s[k])
    ensures Marks(s, i, j) == []
    decreases j - i
  {
    if i < j {
      PlainStep(s, i, j);
      NoMarks(s, i + 1, j);
    }
  }

  lemma {:induction false} NoOutline(w: Bytes, i: nat, quoted: bool)
    requires i <= |w| && forall k :: i <= k < |w| ==> !IsMark(w[k])
    ensures Outline(w, i, quoted) == []
    decreases |w| - i
  {
    if i < |w| {
      NoOutline(w, i + 1, if w[i] == '"' then !quoted else quoted);
    }
  }

  lemma {:induction false} PlainMarks(w: Bytes, s: Bytes, i: nat)
    requires i <= |w| <= |s| && s[..|w|] == w && IsPlain(w)
    ensures Marks(s, i, |w|) == Outline(w, i, false)
    decreases |w| - i
  {
    if i < |w| {
      assert s[i] == w[i];
      PlainStep(s, i, |w|);
      PlainMarks(w, s, i + 1);
    }
  }

  function PieceMarks(p: Piece): Bytes {
    match p
    case Words(words) => OutlineOf(words)
    case Parameter(_) => []
    case Name(_) => []
    case Type(ty) => OutlineOf(ty)
  }

  function PiecesMarks(ps: seq<Piece>): Bytes {
    if ps == [] then [] else PieceMarks(ps[0]) + PiecesMarks(ps[1..])
  }

  lemma ParameterMarks(n: nat, b: Bytes)
    ensures var a := "$" + Decimal.Print(n); Marks(a + b, 0, |a|) == []
  {
    var digits := Decimal.Print(n);
    var s := "$" + digits + b;
    assert s[1] == digits[0] && Decimal.IsDigit(digits[0]);
    assert DelimiterLength(s, 0) == 0 && TokenEnd(s, 0) == 1;
    forall k | 1 <= k < 1 + |digits| ensures IsPlainByte(s[k]) && !IsMark(s[k]) {
      assert s[k] == digits[k - 1] && digits[k - 1] in digits;
    }
    NoMarks(s, 1, 1 + |digits|);
  }

  lemma NameMarks(name: Bytes, b: Bytes)
    requires NoQuoteNext(b)
    ensures var q := QuoteIdent(name); Marks(q + b, 0, |q|) == []
  {
    var q, d := QuoteIdent(name), DoubleQuotes(name);
    var s := q + b;
    assert s[1..1 + |d|] == d && s[1 + |d|] == '"' && s[1 + |d| + 1..] == b;
    SkipDoubled(name, s, 1);
    assert TokenEnd(s, 0) == |q|;
  }

  lemma PieceHasMarks(p: Piece, b: Bytes)
    requires Fits(p) && (StartsPlain(p) || NoQuoteNext(b))
    ensures Marks(Text1(p) + b, 0, |Text1(p)|) == PieceMarks(p)
  {
    assert (Text1(p) + b)[..|Text1(p)|] == Text1(p);
    match p {
      case Words(words) => PlainMarks(words, words + b, 0);
      case Parameter(n) => ParameterMarks(n, b);
      case Name(name) => NameMarks(name, b);
      case Type(ty) =>
        AcceptedYields(ty);
    }
  }

  lemma FirstPiece(ps: seq<Piece>, b: Bytes)
    requires WellSpaced(ps) && ps != [] && NoQuoteNext(b)
    ensures StartsPlain(ps[0]) || NoQuoteNext(Render(ps[1..]) + b)
    ensures WellSpaced(ps[1..])
  {
    if |ps| > 1 && !StartsPlain(ps[0]) {
      assert Fits(ps[1]);
      PieceIsInert(ps[1]);
      assert Render(ps[1..])[0] == Text1(ps[1])[0];
    } else if |ps| == 1 {
      assert Render(ps[1..]) + b == b;
    }
  }

  /** A stretch in front of another: its marks come first. */
  lemma MarksInFront(first: Bytes, rest: Bytes, b: Bytes)
    requires Walk(first + (rest + b), 0, |first|) && Walk(rest + b, 0, |rest|)
    ensures Marks((first + rest) + b, 0, |first + rest|) ==
            Marks(first + (rest + b), 0, |first|) + Marks(rest + b, 0, |rest|)
  {
    Regroup(first, rest, b);
    MarksJoin(first + (rest + b), 0, |first|, |first| + |rest|);
    MarksShifted(first, rest + b, 0, |rest|);
  }

  lemma PieceWalk(p: Piece, b: Bytes)
    requires Fits(p) && (StartsPlain(p) || NoQuoteNext(b))
    ensures Walk(Text1(p) + b, 0, |Text1(p)|)
  {
    PieceIsInert(p);
  }

  lemma RenderWalk(ps: seq<Piece>, b: Bytes)
    requires WellSpaced(ps) && NoQuoteNext(b)
    ensures Walk(Render(ps) + b, 0, |Render(ps)|)
  {
    WellSpacedIsInert(ps);
  }

  /** The marks of a statement are those of its words and types, in order: names and parameters have none. */
  lemma {:induction false} RenderMarks(ps: seq<Piece>, b: Bytes)
    requires WellSpaced(ps) && NoQuoteNext(b)
    ensures Marks(Render(ps) + b, 0, |Render(ps)|) == PiecesMarks(ps)
  {
    if ps != [] {
      var first, rest := Text1(ps[0]), Render(ps[1..]);
      FirstPiece(ps, b);
      PieceHasMarks(ps[0], rest + b);
      PieceWalk(ps[0], rest + b);
      RenderMarks(ps[1..], b);
      RenderWalk(ps[1..], b);
      MarksInFront(first, rest, b);
    }
  }

  lemma {:induction false} MarksOfBoth(a: seq<Piece>, b: seq<Piece>)
    ensures PiecesMarks(a + b) == PiecesMarks(a) + PiecesMarks(b)
  {
    if a == [] {
      assert a + b == b;
    } else {
      MarksOfBoth(a[1..], b);
      HeadFirst(a, b);
      Regroup(PieceMarks(a[0]), PiecesMarks(a[1..]), PiecesMarks(b));
    }
  }

  /** Words without brackets and commas. */
  predicate Markless(p: Piece) {
    match p
    case Words(words) => forall k :: 0 <= k < |words| ==> !IsMark(words[k])
    case Type(_) => false
    case _ => true
  }

  lemma {:induction false} MarklessPieces(ps: seq<Piece>)
    requires forall k :: 0 <= k < |ps| ==> Markless(ps[k])
    ensures PiecesMarks(ps) == []
  {
    if ps != [] {
      MarklessPieces(ps[1..]);
      if ps[0].Words? {
        NoOutline(ps[0].words, 0, false);
      }
    }
  }

  lemma MarksOfOne(before: seq<Piece>, ty: Bytes, after: seq<Piece>)
    requires PiecesMarks(before) == [] && PiecesMarks(after) == []
    ensures PiecesMarks(before + ([Type(ty)] + after)) == OutlineOf(ty)
  {
    MarksOfBoth(before, [Type(ty)] + after);
    MarksOfBoth([Type(ty)], after);
    assert PiecesMarks([Type(ty)]) == OutlineOf(ty) + PiecesMarks([]);
  }

  function BeforeType(schema: Bytes, table: Bytes, column: Bytes): seq<Piece> {
    [Words("UPDATE "), Name(schema), Words("."), Name(table), Words(" SET "), Name(column), Words(" = "), Parameter(1), Words("::text::")]
  }

  function AfterType(): seq<Piece> {
    [Words(" WHERE ctid = "), Parameter(2), Words("::text::tid")]
  }

  lemma UpdatePieces(schema: Bytes, table: Bytes, column: Bytes, columnType: Bytes)
    requires CheckedType(columnType).Ok?
    ensures UpdateCell(schema, table, column, columnType, false) ==
            Ok(BeforeType(schema, table, column) + ([Type(CheckedType(columnType).value)] + AfterType()))
  {
    var ty := CheckedType(columnType).value;
    assert [Words("UPDATE ")] + Qualified(schema, table) + [Words(" SET "), Name(column)] +
           [Words(" = "), Parameter(1), Words("::text::"), Type(ty), Words(" WHERE ctid = "), Parameter(2), Words("::text::tid")] ==
           BeforeType(schema, table, column) + ([Type(ty)] + AfterType());
  }

  lemma UpdateWordsHaveNoMarks()
    ensures Markless(Words("UPDATE ")) && Markless(Words(" SET ")) && Markless(Words(".")) && Markless(Words(" = "))
    ensures Markless(Words("::text::")) && Markless(Words(" WHERE ctid = ")) && Markless(Words("::text::tid"))
  {
  }

  lemma AroundTypeNoMarks(schema: Bytes, table: Bytes, column: Bytes)
    ensures PiecesMarks(BeforeType(schema, table, column)) == [] && PiecesMarks(AfterType()) == []
  {
    UpdateWordsHaveNoMarks();
    MarklessPieces(BeforeType(schema, table, column));
    MarklessPieces(AfterType());
  }

  lemma {:induction false} RenderYields(ps: seq<Piece>)
    requires WellSpaced(ps)
    ensures Yields(Render(ps), PiecesMarks(ps))
  {
    forall b: Bytes | NoQuoteNext(b)
      ensures Walk(Render(ps) + b, 0, |Render(ps)|) && Marks(Render(ps) + b, 0, |Render(ps)|) == PiecesMarks(ps)
    {
      RenderMarks(ps, b);
      RenderWalk(ps, b);
    }
  }

  lemma {:induction false} YieldsWhole(text: Bytes, m: Bytes)
    requires Yields(text, m)
    ensures Marks(text, 0, |text|) == m
  {
    assert text + [] == text;
    assert Marks(text + [], 0, |text|) == m;
  }

  /** An update has the brackets and commas of its type and no others, so it keeps its shape exactly if the type holds. */
  lemma UpdateMarks(schema: Bytes, table: Bytes, column: Bytes, columnType: Bytes)
    requires CheckedType(columnType).Ok?
    ensures var r := UpdateCell(schema, table, column, columnType, false);
            r.Ok? && Marks(Render(r.value), 0, |Render(r.value)|) == OutlineOf(CheckedType(columnType).value)
  {
    UpdatePieces(schema, table, column, columnType);
    UpdateIsWellSpaced(schema, table, column, columnType, false);
    AroundTypeNoMarks(schema, table, column);
    MarksOfOne(BeforeType(schema, table, column), CheckedType(columnType).value, AfterType());
    var ps := UpdateCell(schema, table, column, columnType, false).value;
    RenderYields(ps);
    YieldsWhole(Render(ps), OutlineOf(CheckedType(columnType).value));
  }

  // ----- The values of an insert -----

  lemma {:induction false} ReadBoth(a: Bytes, b: Bytes, open: Bytes)
    requires ReadAll(a, open).Some?
    ensures ReadAll(a + b, open) == ReadAll(b, ReadAll(a, open).value)
    ensures TopCommas(a + b, open) == TopCommas(a, open) + TopCommas(b, ReadAll(a, open).value)
    decreases |a|
  {
    if a == [] {
      assert a + b == b;
    } else {
      ReadBoth(a[1..], b, Read(a[0], open).value);
      assert (a + b)[0] == a[0] && (a + b)[1..] == a[1..] + b;
    }
  }

  lemma ValueMarks(n: nat, ty: Bytes)
    ensures PiecesMarks([Parameter(n), Words("::text::"), Type(ty)]) == OutlineOf(ty)
  {
    var head := [Parameter(n), Words("::text::")];
    MarklessPieces(head);
    MarksOfOne(head, ty, []);
    assert head + ([Type(ty)] + []) == [Parameter(n), Words("::text::"), Type(ty)];
  }

  lemma CommaMarks()
    ensures PiecesMarks([Words(", ")]) == ","
  {
    NoOutline(", ", 1, false);
    assert OutlineOf(", ") == [','] + [];
    assert PiecesMarks([Words(", ")]) == OutlineOf(", ") + PiecesMarks([]);
  }

  /** One more value in front, and a comma. */
  lemma OneMoreValue(own: Bytes, rest: Bytes)
    requires Balanced(own) && TopCommas(own, []) == 0 && Balanced(rest)
    ensures Balanced((own + ",") + rest) && TopCommas((own + ",") + rest, []) == 1 + TopCommas(rest, [])
  {
    assert ReadAll(",", []) == Some([]) && TopCommas(",", []) == 1 by {
      assert ","[1..] == [];
    }
    ReadBoth(own, ",", []);
    ReadBoth(own + ",", rest, []);
  }

  /** Every type of the inputs is accepted and holds. */
  predicate AllHold(inputs: seq<InsertColumnInput>) {
    forall k :: 0 <= k < |inputs| ==> CheckedType(inputs[k].typeName).Ok? && Holds(CheckedType(inputs[k].typeName).value)
  }

  lemma {:induction false} ValuesMarks(inputs: seq<InsertColumnInput>, n: nat)
    requires inputs != [] && Placeholders(inputs, n).Ok?
    requires AllHold(inputs)
    ensures var m := PiecesMarks(Placeholders(inputs, n).value); Balanced(m) && TopCommas(m, []) == |inputs| - 1
  {
    var ty := CheckedType(inputs[0].typeName).value;
    var first := [Parameter(n), Words("::text::"), Type(ty)];
    ValueMarks(n, ty);
    if |inputs| > 1 {
      var rest := Placeholders(inputs[1..], n + 1).value;
      ValuesMarks(inputs[1..], n + 1);
      MarksOfBoth(first + [Words(", ")], rest);
      MarksOfBoth(first, [Words(", ")]);
      CommaMarks();
      OneMoreValue(OutlineOf(ty), PiecesMarks(rest));
    }
  }

  lemma RenderBoth(a: seq<Piece>, b: seq<Piece>)
    ensures Render(a + b) == Render(a) + Render(b)
  {
    RenderSplit(a + b, |a|);
    assert (a + b)[..|a|] == a && (a + b)[|a|..] == b;
  }

  lemma RenderEndsIn(ps: seq<Piece>, words: Bytes)
    ensures Render(ps + [Words(words)]) == Render(ps) + words
  {
    RenderBoth(ps, [Words(words)]);
    assert Render([Words(words)]) == words + Render([]);
  }

  function Columns(schema: Bytes, table: Bytes, inputs: seq<InsertColumnInput>): seq<Piece> {
    [Words("INSERT INTO ")] + Qualified(schema, table) + [Words(" (")] + Names(inputs)
  }

  /** An insert is its columns, its values and what it returns. */
  lemma InsertParts(schema: Bytes, table: Bytes, inputs: seq<InsertColumnInput>, returnColumns: seq<Bytes>)
    requires inputs != [] && InsertRow(schema, table, inputs, returnColumns).Ok?
    ensures Placeholders(inputs, 1).Ok?
    ensures InsertRow(schema, table, inputs, returnColumns).value ==
            (Columns(schema, table, inputs) + [Words(") VALUES (")]) +
            (Placeholders(inputs, 1).value + ([Words(") RETURNING ")] + ReturnedColumns(returnColumns)))
  {
  }

  lemma RenderParts(a: seq<Piece>, w: Bytes, b: seq<Piece>, v: Bytes, c: seq<Piece>)
    ensures Render((a + [Words(w)]) + (b + ([Words(v)] + c))) == (Render(a) + w) + (Render(b) + (v + Render(c)))
  {
    RenderBoth(a + [Words(w)], b + ([Words(v)] + c));
    RenderEndsIn(a, w);
    RenderBoth(b, [Words(v)] + c);
    assert ([Words(v)] + c)[1..] == c;
  }

  /** Between `before` and `after` there are `n` values. */
  predicate HasValues(before: Bytes, values: Bytes, after: Bytes, n: nat) {
    var m := Marks(before + (values + after), |before|, |before| + |values|);
    Balanced(m) && TopCommas(m, []) + 1 == n
  }

  lemma {:induction false} ValuesAreAccepted(inputs: seq<InsertColumnInput>)
    requires AllHold(inputs)
    ensures Placeholders(inputs, 1).Ok? && WellSpaced(Placeholders(inputs, 1).value)
  {
    PlaceholdersAreWellSpaced(inputs, 1);
  }

  lemma {:induction false} ValuesBetween(before: Bytes, values: Bytes, after: Bytes, m: Bytes, n: nat)
    requires Yields(values, m) && Balanced(m) && TopCommas(m, []) + 1 == n && NoQuoteNext(after)
    ensures HasValues(before, values, after, n)
  {
    YieldsBetween(before, values, after, m);
  }

  /**
   With types that hold, the row of an insert has one value for each column, whatever the names and the
   returned columns.
   */
  lemma {:induction false} InsertHasAValueEach(schema: Bytes, table: Bytes, inputs: seq<InsertColumnInput>, returnColumns: seq<Bytes>)
    returns (columns: Bytes, values: Bytes, returned: Bytes)
    requires inputs != [] && AllHold(inputs)
    ensures var r := InsertRow(schema, table, inputs, returnColumns);
            r.Ok? && Render(r.value) == (columns + ") VALUES (") + (values + (") RETURNING " + returned))
    ensures HasValues(columns + ") VALUES (", values, ") RETURNING " + returned, |inputs|)
  {
    InsertIsWellSpaced(schema, table, inputs, returnColumns);
    ValuesAreAccepted(inputs);
    InsertParts(schema, table, inputs, returnColumns);
    var ps := Placeholders(inputs, 1).value;
    columns, values, returned := Render(Columns(schema, table, inputs)), Render(ps), Render(ReturnedColumns(returnColumns));
    RenderParts(Columns(schema, table, inputs), ") VALUES (", ps, ") RETURNING ", ReturnedColumns(returnColumns));
    ValuesMarks(inputs, 1);
    RenderYields(ps);
    ValuesBetween(columns + ") VALUES (", values, ") RETURNING " + returned, PiecesMarks(ps), |inputs|);
  }

  // ----- Types with arguments -----

  lemma {:induction false} OutlineGrows(a: Bytes, b: Bytes, i: nat)
    requires i <= |a| && '"' !in a
    ensures Outline(a + b, i, false) == Outline(a, i, false) + OutlineOf(b)
    decreases |a| - i
  {
    if i == |a| {
      OutlineShifted(a, b, 0, false);
    } else {
      assert (a + b)[i] == a[i] && a[i] in a;
      OutlineGrows(a, b, i + 1);
      if IsMark(a[i]) {
        Regroup([a[i]], Outline(a, i + 1, false), OutlineOf(b));
      }
    }
  }

  lemma {:induction false} OutlineShifted(a: Bytes, b: Bytes, i: nat, quoted: bool)
    requires i <= |b|
    ensures Outline(a + b, |a| + i, quoted) == Outline(b, i, quoted)
    decreases |b| - i
  {
    if i < |b| {
      assert (a + b)[|a| + i] == b[i];
      OutlineShifted(a, b, i + 1, if b[i] == '"' then !quoted else quoted);
    }
  }

  predicate OnlyCommas(m: Bytes) {
    forall k :: 0 <= k < |m| ==> m[k] == ','
  }

  lemma {:induction false} CommasInside(m: Bytes, open: Bytes)
    requires OnlyCommas(m) && open != []
    ensures ReadAll(m, open) == Some(open) && TopCommas(m, open) == 0
  {
    if m != [] {
      CommasInside(m[1..], open);
    }
  }

  /** No quotation mark and no bracket. */
  predicate Unbracketed(args: Bytes) {
    forall k :: 0 <= k < |args| ==> args[k] !in "()[]\""
  }

  lemma {:induction false} OutlineOfArguments(args: Bytes, i: nat)
    requires i <= |args| && Unbracketed(args)
    ensures OnlyCommas(Outline(args, i, false))
    decreases |args| - i
  {
    if i < |args| {
      OutlineOfArguments(args, i + 1);
    }
  }

  lemma ReadBrackets()
    ensures ReadAll("(", []) == Some(")") && TopCommas("(", []) == 0
    ensures ReadAll(")", ")") == Some([]) && TopCommas(")", ")") == 0
  {
    assert [] + [')'] == ")" && "("[1..] == [];
    assert ")"[..0] == [] && ")"[1..] == [];
  }

  lemma BracketedCommas(m: Bytes)
    requires OnlyCommas(m)
    ensures Balanced("(" + (m + ")")) && TopCommas("(" + (m + ")"), []) == 0
  {
    hide ReadAll, TopCommas;
    ReadBrackets();
    CommasInside(m, ")");
    ReadBoth(m, ")", ")");
    ReadBoth("(", m + ")", []);
  }

  lemma OutlineOfBracketed(args: Bytes)
    requires Unbracketed(args)
    ensures OutlineOf("(" + (args + ")")) == "(" + (OutlineOf(args) + ")")
  {
    OutlineGrows("(", args + ")", 0);
    OutlineGrows(args, ")", 0);
    assert Outline("(", 1, false) == [] && Outline(")", 1, false) == [];
  }

  /** A name with arguments in brackets, such as `numeric(10,2)`, stays in its cast. */
  lemma ArgumentsHold(name: Bytes, args: Bytes)
    requires Unbracketed(name) && ',' !in name && Unbracketed(args)
    ensures Holds(name + ("(" + (args + ")")))
  {
    NoOutline(name, 0, false);
    OutlineGrows(name, "(" + (args + ")"), 0);
    OutlineOfBracketed(args);
    OutlineOfArguments(args, 0);
    BracketedCommas(OutlineOf(args));
    assert [] + OutlineOf("(" + (args + ")")) == OutlineOf("(" + (args + ")"));
  }

  // ----- Types that end their cast -----

  lemma Checks(ty: Bytes)
    requires OnlyTypeBytes(ty) && '"' !in ty && Trim(ty) == ty && ty != []
    ensures CheckedType(ty) == Ok(ty)
  {
    NothingToClose(ty, 0);
  }

  lemma {:induction false} NothingToClose(ty: Bytes, i: nat)
    requires i <= |ty| && '"' !in ty
    ensures ClosedFrom(ty, i)
    decreases |ty| - i
  {
    if i < |ty| {
      NothingToClose(ty, i + 1);
    }
  }

  lemma OpenBracket()
    ensures CheckedType("i(") == Ok("i(") && OutlineOf("i(") == "("
  {
    Checks("i(");
    assert Outline("i(", 2, false) == [];
    assert Outline("i(", 1, false) == "(";
  }

  lemma ClosedBracketChecks()
    ensures CheckedType("i),(j") == Ok("i),(j")
  {
    var ty := "i),(j";
    assert OnlyTypeBytes(ty);
    assert WhiteAt(ty, 0) == 0 && WhiteBefore(ty, 0, 5) == 0;
    assert ty[0..5] == ty;
    Checks(ty);
  }

  lemma ClosedBracketOutline()
    ensures OutlineOf("i),(j") == "),("
  {
    var ty := "i),(j";
    NoOutline(ty, 4, false);
    assert Outline(ty, 3, false) == "(";
    assert Outline(ty, 2, false) == ",(";
    assert Outline(ty, 1, false) == "),(";
  }

  lemma OtherValue()
    ensures CheckedType("i,j") == Ok("i,j") && OutlineOf("i,j") == ","
  {
    Checks("i,j");
    NoOutline("i,j", 2, false);
    assert Outline("i,j", 1, false) == ",";
  }

  lemma ReadExamples()
    ensures !Balanced("(") && !Balanced("),(") && Balanced(",") && TopCommas(",", []) == 1
  {
    assert "("[1..] == [] && ","[1..] == [];
    assert Read('(', []) == Some([] + [')']);
    assert Read(')', []) == None;
  }

  /** The validator lets through types that leave a bracket open, close the one around them, or go on behind a comma. */
  lemma TypesCanEndTheirCast()
    ensures CheckedType("i(") == Ok("i(") && !Balanced(OutlineOf("i("))
    ensures CheckedType("i),(j") == Ok("i),(j") && !Balanced(OutlineOf("i),(j"))
    ensures CheckedType("i,j") == Ok("i,j") && Balanced(OutlineOf("i,j")) && !Holds("i,j")
  {
    OpenBracket();
    ClosedBracketChecks();
    ClosedBracketOutline();
    OtherValue();
    ReadExamples();
  }

  lemma RenderThree(a: Piece, b: Piece, c: Piece)
    ensures Render([a, b, c]) == Text1(a) + (Text1(b) + Text1(c))
  {
    assert Render([c]) == Text1(c) + Render([]);
    assert Render([b, c]) == Text1(b) + Render([c]);
  }

  /** The values of an insert of one column: the type follows its cast as it is, so `i),(j` begins a second row. */
  lemma OneValue(ty: Bytes)
    requires CheckedType(ty) == Ok(ty)
    ensures Placeholders([InsertColumnInput("c", ty)], 1) == Ok([Parameter(1), Words("::text::"), Type(ty)])
    ensures Render([Parameter(1), Words("::text::"), Type(ty)]) == "$1" + ("::text::" + ty)
  {
    hide CheckedType, Trim;
    RenderThree(Parameter(1), Words("::text::"), Type(ty));
    assert Decimal.Print(1) == "1";
  }
}
