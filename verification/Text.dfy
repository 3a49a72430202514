/**
 Text as the Postgres crate's lexers see it.

 A Rust `str` is a run of UTF-8 bytes. A byte is written here as the char with
 that code, so byte positions are sequence positions and ASCII literals can be
 written as strings. `Utf8` is what decides where a `str` may be sliced: text is a
 run of characters, each a lead byte and its continuation bytes (RFC 3629, section 3).
 */
module Text {

  type Bytes = string

  predicate IsAscii(b: char) {
    b < '\U{80}'
  }

  predicate IsContinuation(b: char) {
    '\U{80}' <= b < '\U{C0}'
  }

  /** Length of the character a byte leads; 0 when it leads none. */
  function CharLength(b: char): nat {
    if IsAscii(b) then 1
    else if '\U{C2}' <= b <= '\U{DF}' then 2
    else if '\U{E0}' <= b <= '\U{EF}' then 3
    else if '\U{F0}' <= b <= '\U{F4}' then 4
    else 0
  }

  predicate CharAt(s: Bytes, i: nat)
    requires i < |s|
  {
    var n := CharLength(s[i]);
    n > 0 && i + n <= |s| && forall k :: i < k < i + n ==> IsContinuation(s[k])
  }

  predicate Utf8From(s: Bytes, i: nat)
    requires i <= |s|
    decreases |s| - i
  {
    i == |s| || (CharAt(s, i) && Utf8From(s, i + CharLength(s[i])))
  }

  predicate Utf8(s: Bytes) {
    Utf8From(s, 0)
  }

  /** A place where a `str` may be sliced. */
  predicate IsBoundary(s: Bytes, k: nat) {
    k == |s| || (k < |s| && !IsContinuation(s[k]))
  }

  /** A lead byte of a longer character is followed by a continuation byte. */
  lemma {:induction false} LeadIsFollowed(s: Bytes, i: nat, k: nat)
    requires i <= k < |s| && Utf8From(s, i) && !IsAscii(s[k]) && !IsContinuation(s[k])
    ensures k + 1 < |s| && IsContinuation(s[k + 1])
    decreases |s| - i
  {
    var n := CharLength(s[i]);
    if k < i + n {
      assert k == i;
    } else {
      LeadIsFollowed(s, i + n, k);
    }
  }

  /** Both halves of a text cut at a boundary are text. */
  lemma {:induction false} CutAtBoundary(s: Bytes, i: nat, k: nat)
    requires i <= k && IsBoundary(s, k) && Utf8From(s, i)
    ensures Utf8From(s, k) && Utf8From(s[..k], i)
    decreases |s| - i
  {
    if i < k {
      CutAtBoundary(s, i + CharLength(s[i]), k);
    }
  }

  lemma {:induction false} SuffixIsText(s: Bytes, a: nat, i: nat)
    requires a <= i <= |s| && Utf8From(s, i)
    ensures Utf8From(s[a..], i - a)
    decreases |s| - i
  {
    if i < |s| {
      var n := CharLength(s[i]);
      SuffixIsText(s, a, i + n);
      forall k | i - a < k < i - a + n ensures IsContinuation(s[a..][k]) {
        assert s[a..][k] == s[a + k];
      }
    }
  }

  predicate AllAscii(s: Bytes) {
    forall i :: 0 <= i < |s| ==> IsAscii(s[i])
  }

  // ----- White_Space characters, in their one, two and three byte encodings -----

  predicate IsAsciiWhite(b: char) {
    b == ' ' || '\t' <= b <= '\r'
  }

  predicate IsWhite2(b0: char, b1: char) {
    b0 == '\U{C2}' && (b1 == '\U{85}' || b1 == '\U{A0}')
  }

  predicate IsWhite3(b0: char, b1: char, b2: char) {
    || (b0 == '\U{E1}' && b1 == '\U{9A}' && b2 == '\U{80}')
    || (b0 == '\U{E2}' && b1 == '\U{80}' && ('\U{80}' <= b2 <= '\U{8A}' || b2 in "\U{A8}\U{A9}\U{AF}"))
    || (b0 == '\U{E2}' && b1 == '\U{81}' && b2 == '\U{9F}')
    || (b0 == '\U{E3}' && b1 == '\U{80}' && b2 == '\U{80}')
  }

  /** Bytes taken by the white-space character that starts at `i`; 0 when none does. */
  function WhiteAt(s: Bytes, i: nat): (n: nat)
    requires i <= |s|
    ensures i + n <= |s|
  {
    if i + 1 <= |s| && IsAsciiWhite(s[i]) then 1
    else if i + 2 <= |s| && IsWhite2(s[i], s[i + 1]) then 2
    else if i + 3 <= |s| && IsWhite3(s[i], s[i + 1], s[i + 2]) then 3
    else 0
  }

  /** Bytes taken by the white-space character that ends at `j` and starts no earlier than `i`. */
  function WhiteBefore(s: Bytes, i: nat, j: nat): (n: nat)
    requires i <= j <= |s|
    ensures i + n <= j
  {
    if i + 1 <= j && IsAsciiWhite(s[j - 1]) then 1
    else if i + 2 <= j && IsWhite2(s[j - 2], s[j - 1]) then 2
    else if i + 3 <= j && IsWhite3(s[j - 3], s[j - 2], s[j - 1]) then 3
    else 0
  }

  function TrimFront(s: Bytes, i: nat): (a: nat)
    requires i <= |s|
    ensures i <= a <= |s|
    ensures WhiteAt(s, a) == 0
    decreases |s| - i
  {
    if WhiteAt(s, i) == 0 then i else TrimFront(s, i + WhiteAt(s, i))
  }

  function TrimBack(s: Bytes, i: nat, j: nat): (b: nat)
    requires i <= j <= |s|
    ensures i <= b <= j
    ensures WhiteBefore(s, i, b) == 0
    decreases j
  {
    if WhiteBefore(s, i, j) == 0 then j else TrimBack(s, i, j - WhiteBefore(s, i, j))
  }

  /** `str::trim`. */
  function Trim(s: Bytes): (r: Bytes) {
    var a := TrimFront(s, 0);
    s[a..TrimBack(s, a, |s|)]
  }

  /** Trimming leaves no white-space character at either end. */
  lemma TrimIsTight(s: Bytes)
    ensures WhiteAt(Trim(s), 0) == 0
    ensures WhiteBefore(Trim(s), 0, |Trim(s)|) == 0
    ensures Trim(Trim(s)) == Trim(s)
  {
    var a := TrimFront(s, 0);
    var b := TrimBack(s, a, |s|);
    var t := s[a..b];
    assert WhiteAt(t, 0) == 0;
    assert WhiteBefore(t, 0, |t|) == WhiteBefore(s, a, b);
  }

  lemma {:induction false} TrimFrontKeepsText(s: Bytes, i: nat)
    requires i <= |s| && Utf8From(s, i)
    ensures Utf8From(s, TrimFront(s, i))
    decreases |s| - i
  {
    if WhiteAt(s, i) > 0 {
      assert CharLength(s[i]) == WhiteAt(s, i);
      TrimFrontKeepsText(s, i + WhiteAt(s, i));
    }
  }

  lemma {:induction false} TrimBackStopsAtBoundary(s: Bytes, i: nat, j: nat)
    requires i <= j <= |s| && IsBoundary(s, j)
    ensures IsBoundary(s, TrimBack(s, i, j))
    decreases j
  {
    var n := WhiteBefore(s, i, j);
    if n > 0 {
      assert !IsContinuation(s[j - n]);
      TrimBackStopsAtBoundary(s, i, j - n);
    }
  }

  lemma TrimKeepsText(s: Bytes)
    requires Utf8(s)
    ensures Utf8(Trim(s))
  {
    var a := TrimFront(s, 0);
    var b := TrimBack(s, a, |s|);
    TrimFrontKeepsText(s, 0);
    TrimBackStopsAtBoundary(s, a, |s|);
    CutAtBoundary(s, a, b);
    SuffixIsText(s[..b], a, a);
    assert s[..b][a..] == s[a..b];
  }
}
