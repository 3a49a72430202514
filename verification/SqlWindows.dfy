/**
 The lexer is history-free: what it says about a stretch of text that starts at an
 element does not depend on what surrounds the stretch.

 Each element ends, inside the window `s[a..b]`, where it ends in `s` or at the
 window's end, except for a dollar-quote opening that the window cuts in two.
 */
module SqlWindows {
  import opened Basics
  import opened Text
  import opened SqlLexer

  /** The positions below `b`, counted from `a`. */
  function Clip(ps: seq<nat>, a: nat, b: nat): (r: seq<int>) {
    if ps == [] then []
    else (if ps[0] < b then [ps[0] - a] else []) + Clip(ps[1..], a, b)
  }

  /** A slice of a window is a slice of the text. */
  lemma SliceWindow(s: Bytes, a: nat, b: nat, i: nat, j: nat)
    requires a <= i <= j <= b <= |s|
    ensures s[a..b][i - a..j - a] == s[i..j]
  {
    var t := s[a..b];
    assert |t[i - a..j - a]| == |s[i..j]|;
    assert forall k :: 0 <= k < j - i ==> t[i - a..j - a][k] == s[i..j][k];
  }

  lemma {:induction false} QuotedWindow(quote: char, s: Bytes, a: nat, b: nat, j: nat)
    requires a <= j <= b <= |s|
    ensures SkipQuoted(quote, s[a..b], j - a) == Min(SkipQuoted(quote, s, j), b) - a
    decreases b - j
  {
    if j + 1 < b && s[j] == quote && s[j + 1] == quote {
      QuotedWindow(quote, s, a, b, j + 2);
    } else if j < b && s[j] != quote {
      QuotedWindow(quote, s, a, b, j + 1);
    }
  }

  lemma {:induction false} LineWindow(s: Bytes, a: nat, b: nat, j: nat)
    requires a <= j <= b <= |s|
    ensures SkipLine(s[a..b], j - a) == Min(SkipLine(s, j), b) - a
    decreases b - j
  {
    if j < b && s[j] != '\n' {
      LineWindow(s, a, b, j + 1);
    }
  }

  lemma {:induction false} BlockWindow(s: Bytes, a: nat, b: nat, j: nat)
    requires a <= j <= b <= |s|
    ensures SkipBlock(s[a..b], j - a) == Min(SkipBlock(s, j), b) - a
    decreases b - j
  {
    if j < b {
      BlockWindow(s, a, b, j + 1);
    }
  }

  lemma StartsAtWindow(d: Bytes, s: Bytes, a: nat, b: nat, j: nat)
    requires a <= j <= b <= |s|
    ensures StartsAt(s[a..b], j - a, d) <==> j + |d| <= b && StartsAt(s, j, d)
  {
    if j + |d| <= b {
      SliceWindow(s, a, b, j, j + |d|);
    }
  }

  lemma {:induction false} BodyWindow(d: Bytes, s: Bytes, a: nat, b: nat, j: nat)
    requires a <= j <= b <= |s| && |d| > 0
    ensures var e := BodyEnd(d, s, j);
            BodyEnd(d, s[a..b], j - a) == (if StartsAt(s, e, d) && e + |d| <= b then e else b) - a
    ensures SkipDollar(d, s[a..b], j - a) == Min(SkipDollar(d, s, j), b) - a
    decreases b - j
  {
    StartsAtWindow(d, s, a, b, j);
    if j < b && !StartsAt(s, j, d) {
      BodyWindow(d, s, a, b, j + 1);
    } else if j < b && j + |d| > b {
      NoShortBody(d, s, a, b, j);
    }
  }

  /** No delimiter fits between `j` and the window's end. */
  lemma {:induction false} NoShortBody(d: Bytes, s: Bytes, a: nat, b: nat, j: nat)
    requires a <= j <= b <= |s| && j + |d| > b
    ensures BodyEnd(d, s[a..b], j - a) == b - a
    decreases b - j
  {
    if j < b {
      NoShortBody(d, s, a, b, j + 1);
    }
  }

  lemma {:induction false} TagWindow(s: Bytes, a: nat, b: nat, j: nat)
    requires a <= j <= b <= |s|
    ensures TagEnd(s[a..b], j - a) == Min(TagEnd(s, j), b) - a
    decreases b - j
  {
    if j < b && IsTagByte(s[j]) {
      TagWindow(s, a, b, j + 1);
    }
  }

  lemma DelimiterWindow(s: Bytes, a: nat, b: nat, i: nat)
    requires a <= i < b <= |s|
    ensures var n := DelimiterLength(s, i);
            DelimiterLength(s[a..b], i - a) == if i + n <= b then n else 0
  {
    if s[i] == '$' && i + 1 < b && IsTagStart(s[i + 1]) {
      TagWindow(s, a, b, i + 2);
    }
  }

  /** Tag bytes are elements of their own, none of them a semicolon. */
  lemma {:induction false} TagBytesAreQuiet(s: Bytes, i: nat)
    requires i <= |s| && forall k :: i <= k < |s| ==> IsTagByte(s[k])
    ensures SemicolonsFrom(s, i) == [] && AsciiBodiesFrom(s, i)
    decreases |s| - i
  {
    if i < |s| {
      TagBytesAreQuiet(s, i + 1);
    }
  }

  /** The window cuts the element at `i` in two; what is left of it holds no semicolon. */
  predicate CutsDelimiter(s: Bytes, i: nat, b: nat)
    requires i < |s|
  {
    i + DelimiterLength(s, i) > b
  }

  lemma QuotedTokenWindow(s: Bytes, a: nat, b: nat, i: nat)
    requires a <= i < b <= |s| && (s[i] == '\'' || s[i] == '"')
    ensures TokenEnd(s[a..b], i - a) == Min(TokenEnd(s, i), b) - a
  {
    assert s[a..b][i - a] == s[i];
    QuotedWindow(s[i], s, a, b, i + 1);
  }

  lemma CommentTokenWindow(s: Bytes, a: nat, b: nat, i: nat)
    requires a <= i < b <= |s| && (LineCommentAt(s, i) || BlockCommentAt(s, i))
    ensures TokenEnd(s[a..b], i - a) == Min(TokenEnd(s, i), b) - a
  {
    var t := s[a..b];
    assert t[i - a] == s[i];
    if i + 1 < b {
      assert t[i - a + 1] == s[i + 1];
      LineWindow(s, a, b, i + 2);
      BlockWindow(s, a, b, i + 2);
    }
  }

  /** The dollar quote with delimiter `d` that opens at `i`. */
  predicate OpensWith(s: Bytes, i: nat, d: Bytes)
    requires i < |s|
  {
    |d| > 0 && |d| == DelimiterLength(s, i) && s[i..i + |d|] == d
  }

  lemma DollarTokenEnd(s: Bytes, i: nat, d: Bytes)
    requires i < |s| && OpensWith(s, i, d)
    ensures TokenEnd(s, i) == SkipDollar(d, s, i + |d|)
  {
  }

  lemma OpeningWindow(s: Bytes, a: nat, b: nat, i: nat, d: Bytes)
    requires a <= i < b <= |s| && OpensWith(s, i, d) && i + |d| <= b
    ensures OpensWith(s[a..b], i - a, d)
  {
    DelimiterWindow(s, a, b, i);
    SliceWindow(s, a, b, i, i + |d|);
  }

  lemma DollarBodyWindow(d: Bytes, s: Bytes, a: nat, b: nat, j: nat)
    requires a <= j <= b <= |s| && |d| > 0
    ensures SkipDollar(d, s[a..b], j - a) == Min(SkipDollar(d, s, j), b) - a
  {
    BodyWindow(d, s, a, b, j);
  }

  lemma OpenedTokenWindow(s: Bytes, a: nat, b: nat, i: nat, d: Bytes)
    requires a <= i < b <= |s| && OpensWith(s, i, d) && OpensWith(s[a..b], i - a, d) && i + |d| <= b
    ensures TokenEnd(s[a..b], i - a) == Min(TokenEnd(s, i), b) - a
  {
    hide TokenEnd, SkipDollar;
    DollarTokenEnd(s[a..b], i - a, d);
    DollarTokenEnd(s, i, d);
    DollarBodyWindow(d, s, a, b, i + |d|);
    assert i - a + |d| == i + |d| - a;
  }

  lemma DollarTokenWindow(s: Bytes, a: nat, b: nat, i: nat)
    requires a <= i < b <= |s| && DelimiterLength(s, i) > 0 && !CutsDelimiter(s, i, b)
    ensures TokenEnd(s[a..b], i - a) == Min(TokenEnd(s, i), b) - a
  {
    var d := s[i..i + DelimiterLength(s, i)];
    OpeningWindow(s, a, b, i, d);
    OpenedTokenWindow(s, a, b, i, d);
  }

  lemma TokenWindow(s: Bytes, a: nat, b: nat, i: nat)
    requires a <= i < b <= |s| && !CutsDelimiter(s, i, b)
    ensures TokenEnd(s[a..b], i - a) == Min(TokenEnd(s, i), b) - a
  {
    if s[i] == '\'' || s[i] == '"' {
      QuotedTokenWindow(s, a, b, i);
    } else if LineCommentAt(s, i) || BlockCommentAt(s, i) {
      CommentTokenWindow(s, a, b, i);
    } else if DelimiterLength(s, i) > 0 {
      DollarTokenWindow(s, a, b, i);
    } else {
      assert s[a..b][i - a] == s[i];
      DelimiterWindow(s, a, b, i);
    }
  }

  lemma CutWindow(s: Bytes, a: nat, b: nat, i: nat)
    requires a <= i < b <= |s| && CutsDelimiter(s, i, b)
    ensures SemicolonsFrom(s[a..b], i - a) == [] && AsciiBodiesFrom(s[a..b], i - a)
    ensures s[i] != ';' && TokenEnd(s, i) >= b
  {
    var t := s[a..b];
    DelimiterWindow(s, a, b, i);
    DelimiterBytes(s, i);
    assert t[i - a] == '$';
    TagBytesAreQuiet(t, i - a + 1);
  }

  /** Strictly increasing positions of semicolon bytes, none before `lo`. */
  ghost predicate Ascends(s: Bytes, ps: seq<nat>, lo: nat) {
    && (forall k :: 0 <= k < |ps| ==> lo <= ps[k] < |s| && s[ps[k]] == ';')
    && (forall k, m :: 0 <= k < m < |ps| ==> ps[k] < ps[m])
  }

  lemma {:induction false} SemicolonsAscend(s: Bytes, i: nat)
    requires i <= |s|
    ensures Ascends(s, SemicolonsFrom(s, i), i)
    decreases |s| - i
  {
    if i < |s| && s[i] == ';' {
      SemicolonsAscend(s, i + 1);
      AscendsPrepend(s, SemicolonsFrom(s, i + 1), i);
    } else if i < |s| {
      SemicolonsAscend(s, TokenEnd(s, i));
      AscendsLower(s, SemicolonsFrom(s, i), TokenEnd(s, i), i);
    }
  }

  lemma AscendsPrepend(s: Bytes, ps: seq<nat>, i: nat)
    requires i < |s| && s[i] == ';' && Ascends(s, ps, i + 1)
    ensures Ascends(s, [i] + ps, i)
  {
  }

  lemma AscendsLower(s: Bytes, ps: seq<nat>, lo: nat, lower: nat)
    requires Ascends(s, ps, lo) && lower <= lo
    ensures Ascends(s, ps, lower)
  {
  }

  lemma {:induction false} ClipBeyond(ps: seq<nat>, a: nat, b: nat)
    requires forall k :: 0 <= k < |ps| ==> ps[k] >= b
    ensures Clip(ps, a, b) == []
  {
    if ps != [] {
      ClipBeyond(ps[1..], a, b);
    }
  }

  lemma ClipSplit(p: nat, ps: seq<nat>, a: nat, b: nat)
    ensures Clip([p] + ps, a, b) == (if p < b then [p - a] else []) + Clip(ps, a, b)
  {
    assert ([p] + ps)[1..] == ps;
  }

  lemma NothingInWindow(s: Bytes, a: nat, b: nat, i: nat)
    requires a <= b <= |s| && a <= i <= |s| && (i >= b || CutsDelimiter(s, i, b))
    ensures SemicolonsFrom(s[a..b], Min(i, b) - a) == []
    ensures Clip(SemicolonsFrom(s, i), a, b) == []
  {
    SemicolonsAscend(s, i);
    if i < b {
      CutWindow(s, a, b, i);
      SemicolonsAscend(s, TokenEnd(s, i));
    }
    ClipBeyond(SemicolonsFrom(s, i), a, b);
  }

  lemma SemicolonWindowStep(s: Bytes, a: nat, b: nat, i: nat)
    requires a <= i < b <= |s| && s[i] == ';'
    requires SemicolonsFrom(s[a..b], i + 1 - a) == Clip(SemicolonsFrom(s, i + 1), a, b)
    ensures SemicolonsFrom(s[a..b], i - a) == Clip(SemicolonsFrom(s, i), a, b)
  {
    assert s[a..b][i - a] == s[i];
    ClipSplit(i, SemicolonsFrom(s, i + 1), a, b);
  }

  lemma OtherWindowStep(s: Bytes, a: nat, b: nat, i: nat)
    requires a <= i < b <= |s| && s[i] != ';' && !CutsDelimiter(s, i, b)
    ensures SemicolonsFrom(s, i) == SemicolonsFrom(s, TokenEnd(s, i))
    ensures SemicolonsFrom(s[a..b], i - a) == SemicolonsFrom(s[a..b], Min(TokenEnd(s, i), b) - a)
  {
    hide TokenEnd, CutsDelimiter;
    assert s[a..b][i - a] == s[i];
    TokenWindow(s, a, b, i);
  }

  /** Lexing a window from an element on finds the window's share of the semicolons. */
  lemma {:induction false} SemicolonsWindow(s: Bytes, a: nat, b: nat, i: nat)
    requires a <= b <= |s| && a <= i <= |s|
    ensures SemicolonsFrom(s[a..b], Min(i, b) - a) == Clip(SemicolonsFrom(s, i), a, b)
    decreases |s| - i
  {
    hide SemicolonsFrom, TokenEnd, CutsDelimiter, Clip;
    if i >= b || CutsDelimiter(s, i, b) {
      NothingInWindow(s, a, b, i);
    } else if s[i] == ';' {
      SemicolonsWindow(s, a, b, i + 1);
      SemicolonWindowStep(s, a, b, i);
    } else {
      SemicolonsWindow(s, a, b, TokenEnd(s, i));
      OtherWindowStep(s, a, b, i);
    }
  }

  /** Cut short or not, an ASCII body stays ASCII in the window. */
  lemma AsciiBodyWindow(d: Bytes, s: Bytes, a: nat, b: nat, j: nat)
    requires a <= j <= b <= |s| && |d| > 0 && AllAscii(d) && AsciiBody(d, s, j)
    ensures AsciiBody(d, s[a..b], j - a)
  {
    BodyWindow(d, s, a, b, j);
    var e := BodyEnd(d, s, j);
    forall k | j <= k < a + BodyEnd(d, s[a..b], j - a) ensures IsAscii(s[k]) {
      if k >= e {
        assert StartsAt(s, e, d) && b < e + |d|;
        assert s[k] == s[e..e + |d|][k - e] == d[k - e];
      }
    }
  }

  lemma DelimiterIsAscii(s: Bytes, i: nat)
    requires i < |s| && DelimiterLength(s, i) > 0
    ensures AllAscii(s[i..i + DelimiterLength(s, i)])
  {
    DelimiterBytes(s, i);
  }

  lemma AsciiOpenedWindow(s: Bytes, a: nat, b: nat, i: nat, n: nat)
    requires a <= i < b <= |s| && 0 < n == DelimiterLength(s, i) && i + n <= b && AsciiBody(s[i..i + n], s, i + n)
    ensures AsciiBody(s[a..b][i - a..i - a + n], s[a..b], i - a + n)
  {
    hide DelimiterLength, AsciiBody, AllAscii;
    DelimiterIsAscii(s, i);
    SliceWindow(s, a, b, i, i + n);
    AsciiBodyWindow(s[i..i + n], s, a, b, i + n);
  }

  lemma AsciiTokenWindow(s: Bytes, a: nat, b: nat, i: nat)
    requires a <= i < b <= |s| && !CutsDelimiter(s, i, b) && AsciiTokenAt(s, i)
    ensures AsciiTokenAt(s[a..b], i - a)
  {
    DelimiterWindow(s, a, b, i);
    var n := DelimiterLength(s, i);
    if n > 0 {
      AsciiOpenedWindow(s, a, b, i, n);
    }
  }

  lemma {:induction false} AsciiAtEnd(s: Bytes)
    ensures AsciiBodiesFrom(s, |s|)
  {
  }

  lemma {:induction false} AsciiUnfold(s: Bytes, i: nat)
    requires i < |s| && AsciiBodiesFrom(s, i)
    ensures AsciiTokenAt(s, i) && AsciiBodiesFrom(s, TokenEnd(s, i))
  {
  }

  lemma {:induction false} AsciiFold(s: Bytes, i: nat, e: nat)
    requires i < |s| && e == TokenEnd(s, i) && AsciiTokenAt(s, i) && AsciiBodiesFrom(s, e)
    ensures AsciiBodiesFrom(s, i)
  {
  }

  lemma {:induction false} AsciiWindowStep(s: Bytes, a: nat, b: nat, i: nat, e: nat)
    requires a <= i < b <= |s| && !CutsDelimiter(s, i, b) && e == TokenEnd(s, i) && AsciiTokenAt(s, i)
    requires AsciiBodiesFrom(s[a..b], Min(e, b) - a)
    ensures AsciiBodiesFrom(s[a..b], i - a)
  {
    hide AsciiBodiesFrom, TokenEnd, AsciiTokenAt, CutsDelimiter;
    TokenWindow(s, a, b, i);
    AsciiTokenWindow(s, a, b, i);
    AsciiFold(s[a..b], i - a, Min(e, b) - a);
  }

  /** A window of a text with ASCII dollar-quoted bodies has ASCII dollar-quoted bodies. */
  lemma {:induction false} AsciiBodiesWindow(s: Bytes, a: nat, b: nat, i: nat)
    requires a <= b <= |s| && a <= i <= |s| && AsciiBodiesFrom(s, i)
    ensures AsciiBodiesFrom(s[a..b], Min(i, b) - a)
    decreases |s| - i
  {
    hide AsciiBodiesFrom, TokenEnd, CutsDelimiter;
    if i >= b {
      AsciiAtEnd(s[a..b]);
    } else if CutsDelimiter(s, i, b) {
      CutWindow(s, a, b, i);
    } else {
      AsciiUnfold(s, i);
      AsciiBodiesWindow(s, a, b, TokenEnd(s, i));
      AsciiWindowStep(s, a, b, i, TokenEnd(s, i));
    }
  }
}
