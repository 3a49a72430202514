/**
 The text of the known-hosts file: what it is read as, and what is written.
 */
module KnownHosts {
  import opened Wrappers
  import opened Lines

  type HostId = string

  /** A public key in base64. */
  type Blob = string

  type Entries = map<HostId, Blob>

  // ----- Reading -----

  function WithoutCr(line: string): string {
    if line != "" && line[|line| - 1] == '\r' then line[..|line| - 1] else line
  }

  /** `str::lines`. */
  function FileLines(s: string): seq<string>
    decreases |s|
  {
    var n := FirstNewline(s);
    if s == "" then []
    else if n == |s| then [s]
    else [WithoutCr(s[..n])] + FileLines(s[n + 1..])
  }

  /** The index of the first white space, or the length. */
  function FirstWhite(s: string): (n: nat)
    ensures n <= |s| && NoWhite(s[..n]) && (n < |s| ==> IsWhite(s[n]))
  {
    if s == "" || IsWhite(s[0]) then 0 else 1 + FirstWhite(s[1..])
  }

  /** A line's entry; blank lines, comments and lines of one word have none. */
  function EntryOf(line: string): Option<(HostId, Blob)> {
    var trimmed := Trim(line);
    var n := FirstWhite(trimmed);
    if trimmed == "" || trimmed[0] == '#' || n == |trimmed| then None
    else Some((trimmed[..n], Trim(trimmed[n + 1..])))
  }

  function Add(m: Entries, line: string): Entries {
    match EntryOf(line)
    case None => m
    case Some((id, blob)) => m[id := blob]
  }

  function AddAll(m: Entries, lines: seq<string>): Entries
    decreases |lines|
  {
    if lines == [] then m else AddAll(Add(m, lines[0]), lines[1..])
  }

  function Parse(text: string): Entries {
    AddAll(map[], FileLines(text))
  }

  /** `load_from_disk`, on the text of a file that could be read. */
  method Load(text: string) returns (m: Entries)
    ensures m == Parse(text)
  {
    m := map[];
    var lines := FileLines(text);
    for i := 0 to |lines|
      invariant AddAll(m, lines[i..]) == Parse(text)
    {
      assert lines[i..][1..] == lines[i + 1..];
      var trimmed := Trim(lines[i]);
      if trimmed == "" || trimmed[0] == '#' {
        continue;
      }
      var n := FirstWhite(trimmed);
      if n < |trimmed| {
        m := m[trimmed[..n] := Trim(trimmed[n + 1..])];
      }
    }
  }

  // ----- Writing -----

  const TITLE := "# r-shell known hosts "
  const NOTE := "auto-managed, one entry per host"
  const HEADER := TITLE + "\U{2014} " + NOTE

  /** The order of Rust strings. */
  predicate Below(a: string, b: string) {
    if a == "" || b == "" then a == ""
    else a[0] < b[0] || (a[0] == b[0] && Below(a[1..], b[1..]))
  }

  function Insert(k: string, ks: seq<string>): seq<string> {
    if ks == [] || Below(k, ks[0]) then [k] + ks else [ks[0]] + Insert(k, ks[1..])
  }

  function Sort(ks: seq<string>): seq<string> {
    if ks == [] then [] else Insert(ks[0], Sort(ks[1..]))
  }

  function Line(k: HostId, v: Blob): string {
    k + " " + v
  }

  function Body(ks: seq<HostId>, m: Entries): string
    requires forall k :: k in ks ==> k in m
  {
    if ks == [] then "" else Line(ks[0], m[ks[0]]) + "\n" + Body(ks[1..], m)
  }

  /** `ks` lists the keys of `m`, in whatever order a hash map has them. */
  ghost predicate Enumerates(ks: seq<HostId>, m: Entries) {
    (forall k :: k in ks <==> k in m) && (forall i, j :: 0 <= i < j < |ks| ==> ks[i] != ks[j])
  }

  lemma {:induction false} InsertHas(k: string, ks: seq<string>)
    ensures forall x :: x in Insert(k, ks) <==> x == k || x in ks
  {
    if ks != [] && !Below(k, ks[0]) {
      InsertHas(k, ks[1..]);
      assert ks == [ks[0]] + ks[1..];
    }
  }

  lemma {:induction false} SortHas(ks: seq<string>)
    ensures forall x :: x in Sort(ks) <==> x in ks
  {
    if ks != [] {
      SortHas(ks[1..]);
      InsertHas(ks[0], Sort(ks[1..]));
      assert ks == [ks[0]] + ks[1..];
    }
  }

  /** The content of the file, for the keys in the order they came. */
  function Text(ks: seq<HostId>, m: Entries): string
    requires forall k :: k in ks ==> k in m
  {
    SortHas(ks);
    HEADER + "\n" + Body(Sort(ks), m)
  }

  // ----- The order of the keys does not matter -----

  lemma {:induction false} BelowIsTotal(a: string, b: string)
    ensures Below(a, b) || Below(b, a)
    ensures Below(a, b) && Below(b, a) ==> a == b
  {
    if a != "" && b != "" {
      BelowIsTotal(a[1..], b[1..]);
      assert a == [a[0]] + a[1..] && b == [b[0]] + b[1..];
    }
  }

  lemma {:induction false} BelowIsTransitive(a: string, b: string, c: string)
    requires Below(a, b) && Below(b, c)
    ensures Below(a, c)
  {
    if a != "" && b != "" && c != "" && a[0] == b[0] == c[0] {
      BelowIsTransitive(a[1..], b[1..], c[1..]);
    }
  }

  lemma {:induction false} InsertsCommute(a: string, b: string, ks: seq<string>)
    ensures Insert(a, Insert(b, ks)) == Insert(b, Insert(a, ks))
  {
    BelowIsTotal(a, b);
    if ks != [] {
      var x := ks[0];
      if Below(a, x) && Below(b, a) { BelowIsTransitive(b, a, x); }
      if Below(b, x) && Below(a, b) { BelowIsTransitive(a, b, x); }
      if !Below(a, x) && !Below(b, x) {
        InsertsCommute(a, b, ks[1..]);
      }
    }
  }

  /** Any element may be sorted in last. */
  lemma {:induction false} SortWithout(ks: seq<string>, i: nat)
    requires i < |ks|
    ensures Sort(ks) == Insert(ks[i], Sort(ks[..i] + ks[i + 1..]))
  {
    var others := ks[..i] + ks[i + 1..];
    if i == 0 {
      assert others == ks[1..];
    } else {
      SortWithout(ks[1..], i - 1);
      assert others[1..] == ks[1..][..i - 1] + ks[1..][i..];
      InsertsCommute(ks[0], ks[i], Sort(others[1..]));
    }
  }

  lemma Others(ks: seq<string>, i: nat, k: string)
    requires i < |ks| && forall i, j :: 0 <= i < j < |ks| ==> ks[i] != ks[j]
    ensures k in ks[..i] + ks[i + 1..] <==> k in ks && k != ks[i]
  {
    assert ks == ks[..i] + [ks[i]] + ks[i + 1..];
    var front, back := ks[..i], ks[i + 1..];
    assert forall j :: 0 <= j < |front| ==> front[j] == ks[j];
    assert forall j :: 0 <= j < |back| ==> back[j] == ks[i + 1 + j];
  }

  /** Two listings of the same keys sort to the same list. */
  lemma {:induction false} SortIsCanonical(ks: seq<string>, js: seq<string>)
    requires forall k :: k in ks <==> k in js
    requires forall i, j :: 0 <= i < j < |ks| ==> ks[i] != ks[j]
    requires forall i, j :: 0 <= i < j < |js| ==> js[i] != js[j]
    ensures Sort(ks) == Sort(js)
  {
    if |js| > 0 {
      assert js[0] in js;
    }
    if ks != [] {
      assert ks[0] in js;
      var i :| 0 <= i < |js| && js[i] == ks[0];
      var others := js[..i] + js[i + 1..];
      forall k ensures k in ks[1..] <==> k in others {
        Others(js, i, k);
        Others(ks, 0, k);
        assert ks[..0] + ks[0 + 1..] == ks[1..];
      }
      SortIsCanonical(ks[1..], others);
      SortWithout(js, i);
    }
  }

  /** The text written depends on the map alone, not on the order its keys were listed in. */
  lemma TextIsCanonical(ks: seq<HostId>, js: seq<HostId>, m: Entries)
    requires Enumerates(ks, m) && Enumerates(js, m)
    ensures Text(ks, m) == Text(js, m)
  {
    SortIsCanonical(ks, js);
  }

  // ----- Reading what was written -----

  predicate GoodId(id: HostId) {
    id != "" && NoWhite(id) && id[0] != '#'
  }

  predicate GoodBlob(v: Blob) {
    v != "" && Tight(v) && '\n' !in v
  }

  /** The maps the format can hold. */
  ghost predicate WellFormed(m: Entries) {
    forall k :: k in m ==> GoodId(k) && GoodBlob(m[k])
  }

  lemma {:induction false} FirstWhiteIs(id: string, rest: string)
    requires NoWhite(id)
    ensures FirstWhite(id + " " + rest) == |id|
  {
    var s := id + " " + rest;
    if id != "" {
      FirstWhiteIs(id[1..], rest);
      assert s[1..] == id[1..] + " " + rest;
      assert s[0] == id[0] && id[0] in id;
    }
  }

  /** A line written for a good entry is read as that entry. */
  lemma LineIsEntry(k: HostId, v: Blob)
    requires GoodId(k) && GoodBlob(v)
    ensures EntryOf(Line(k, v)) == Some((k, v))
    ensures '\n' !in Line(k, v) && WithoutCr(Line(k, v)) == Line(k, v)
  {
    var s := Line(k, v);
    assert k[0] in k && s[0] == k[0] && s[|s| - 1] == v[|v| - 1];
    TightTrim(s);
    TightTrim(v);
    FirstWhiteIs(k, v);
    assert s[..|k|] == k && s[|k| + 1..] == v;
    assert forall c :: c in s ==> c in k || c == ' ' || c in v;
  }

  lemma LineFirst(line: string, rest: string)
    requires '\n' !in line
    ensures FileLines(line + "\n" + rest) == [WithoutCr(line)] + FileLines(rest)
  {
    NewlineEnds(line, rest);
    var s := line + "\n" + rest;
    assert s[..|line|] == line && s[|line| + 1..] == rest;
  }

  /** The entries of `m` for the keys `ks`, added to `acc`. */
  function Sub(acc: Entries, ks: seq<HostId>, m: Entries): Entries
    requires forall k :: k in ks ==> k in m
    decreases |ks|
  {
    if ks == [] then acc else Sub(acc[ks[0] := m[ks[0]]], ks[1..], m)
  }

  lemma {:induction false} SubHas(acc: Entries, ks: seq<HostId>, m: Entries)
    requires forall k :: k in ks ==> k in m
    ensures forall k :: k in Sub(acc, ks, m) <==> k in acc || k in ks
    ensures forall k :: k in Sub(acc, ks, m) ==> Sub(acc, ks, m)[k] == if k in ks then m[k] else acc[k]
    decreases |ks|
  {
    if ks != [] {
      SubHas(acc[ks[0] := m[ks[0]]], ks[1..], m);
      assert ks == [ks[0]] + ks[1..];
    }
  }

  lemma {:induction false} ReadBody(acc: Entries, ks: seq<HostId>, m: Entries)
    requires WellFormed(m) && forall k :: k in ks ==> k in m
    ensures AddAll(acc, FileLines(Body(ks, m))) == Sub(acc, ks, m)
    decreases |ks|
  {
    if ks != [] {
      var k, rest := ks[0], Body(ks[1..], m);
      assert k in ks;
      LineIsEntry(k, m[k]);
      LineFirst(Line(k, m[k]), rest);
      ReadBody(acc[k := m[k]], ks[1..], m);
      assert FileLines(Body(ks, m))[1..] == FileLines(rest);
    }
  }

  /** A line that is a comment whatever white space is trimmed. */
  predicate Comment(h: string) {
    h != "" && h[0] == '#' && !IsWhite(h[|h| - 1]) && '\n' !in h
  }

  lemma CommentOfParts(a: string, b: string, c: string)
    requires a != "" && a[0] == '#' && c != "" && !IsWhite(c[|c| - 1])
    requires '\n' !in a && '\n' !in b && '\n' !in c
    ensures Comment(a + b + c)
  {
  }

  lemma CommentHasNoEntry(h: string)
    requires Comment(h)
    ensures EntryOf(h) == None && WithoutCr(h) == h
  {
    TightTrim(h);
  }

  lemma TitleIsComment()
    ensures |TITLE| > 0 && TITLE[0] == '#' && '\n' !in TITLE
  {
  }

  lemma NoteIsPlain()
    ensures |NOTE| > 0 && NOTE[|NOTE| - 1] == 't' && '\n' !in NOTE
  {
  }

  lemma ParseBelowComment(h: string, ks: seq<HostId>, m: Entries)
    requires Comment(h) && WellFormed(m) && forall k :: k in ks <==> k in m
    ensures Parse(h + "\n" + Body(ks, m)) == m
  {
    CommentHasNoEntry(h);
    LineFirst(h, Body(ks, m));
    ReadBody(map[], ks, m);
    SubHas(map[], ks, m);
  }

  /** Reading back a file written for a well-formed map gives the map. */
  lemma ParseText(ks: seq<HostId>, m: Entries)
    requires Enumerates(ks, m) && WellFormed(m)
    ensures Parse(Text(ks, m)) == m
  {
    TitleIsComment();
    NoteIsPlain();
    CommentOfParts(TITLE, "\U{2014} ", NOTE);
    SortHas(ks);
    ParseBelowComment(HEADER, Sort(ks), m);
  }

  // ----- One line more -----

  lemma {:induction false} LinesAppend(text: string, line: string)
    requires text == "" || text[|text| - 1] == '\n'
    requires '\n' !in line
    ensures FileLines(text + (line + "\n")) == FileLines(text) + [WithoutCr(line)]
    decreases |text|
  {
    hide FileLines, WithoutCr;
    if text == "" {
      LineFirst(line, "");
      NothingReads();
      assert text + (line + "\n") == line + "\n" + "";
    } else {
      var n := FirstNewline(text);
      assert text[|text| - 1] in text[..n] || n < |text|;
      var first, rest := text[..n], text[n + 1..];
      SplitThere(text, n, line + "\n");
      LinesAppend(rest, line);
      LineFirst(first, rest + (line + "\n"));
      LineFirst(first, rest);
    }
  }

  lemma NothingReads()
    ensures FileLines("") == []
  {
  }

  lemma SplitThere(text: string, n: nat, more: string)
    requires n < |text| && text[n] == '\n'
    ensures text == text[..n] + "\n" + text[n + 1..]
    ensures text + more == text[..n] + "\n" + (text[n + 1..] + more)
  {
  }

  lemma {:induction false} AddAllLast(m: Entries, lines: seq<string>, line: string)
    ensures AddAll(m, lines + [line]) == Add(AddAll(m, lines), line)
    decreases |lines|
  {
    if lines != [] {
      AddAllLast(Add(m, lines[0]), lines[1..], line);
      assert (lines + [line])[1..] == lines[1..] + [line];
    } else {
      assert [line][1..] == [];
    }
  }

  /**
   A line appended to a file: an entry takes the place of any the host had before, and a comment, a word alone
   or nothing at all is passed over.
   */
  lemma AppendedLine(text: string, line: string)
    requires text == "" || text[|text| - 1] == '\n'
    requires '\n' !in line
    ensures forall k, v :: GoodId(k) && GoodBlob(v) && line == k + " " + v ==> Parse(text + (line + "\n")) == Parse(text)[k := v]
    ensures line == "" || line[0] == '#' || NoWhite(line) ==> Parse(text + (line + "\n")) == Parse(text)
  {
    LinesAppend(text, line);
    AddAllLast(map[], FileLines(text), WithoutCr(line));
    forall k, v | GoodId(k) && GoodBlob(v) && line == k + " " + v ensures Parse(text + (line + "\n")) == Parse(text)[k := v] {
      LineIsEntry(k, v);
    }
    if line == "" || line[0] == '#' || NoWhite(line) {
      PassedOver(WithoutCr(line));
    }
  }

  lemma PassedOver(line: string)
    requires line == "" || line[0] == '#' || NoWhite(line)
    ensures EntryOf(line) == None
  {
    if line != "" && line[0] == '#' {
      assert TrimStart(line) == line;
      TrimKeepsHead(line);
    } else if line != "" {
      assert line[0] in line && line[|line| - 1] in line;
      TightTrim(line);
      assert forall k :: 0 <= k < |line| ==> line[k] in line;
    }
  }

  lemma {:induction false} TrimKeepsHead(s: string)
    requires s != "" && !IsWhite(s[0])
    ensures TrimEnd(s) != "" && TrimEnd(s)[0] == s[0]
  {
    if IsWhite(s[|s| - 1]) {
      TrimKeepsHead(s[..|s| - 1]);
    }
  }

  // ----- Whatever was read can be written -----

  lemma {:induction false} LinesHaveNoNewline(s: string)
    ensures forall line :: line in FileLines(s) ==> '\n' !in line
    decreases |s|
  {
    var n := FirstNewline(s);
    if s != "" && n < |s| {
      LinesHaveNoNewline(s[n + 1..]);
      assert '\n' !in WithoutCr(s[..n]);
    } else if s != "" {
      assert s[..n] == s;
    }
  }

  /** Trimming keeps a text that ends in something else than white space from vanishing. */
  lemma {:induction false} TrimKeepsEnd(s: string)
    requires s != "" && !IsWhite(s[|s| - 1])
    ensures Trim(s) != ""
  {
    if IsWhite(s[0]) {
      TrimKeepsEnd(s[1..]);
    }
  }

  lemma EntryIsGood(line: string)
    requires '\n' !in line && EntryOf(line).Some?
    ensures GoodId(EntryOf(line).value.0) && GoodBlob(EntryOf(line).value.1)
  {
    var trimmed := Trim(line);
    TrimIsTight(line);
    var n := FirstWhite(trimmed);
    assert n > 0 && n < |trimmed| - 1;
    assert trimmed[..n][0] == trimmed[0];
    var rest := trimmed[n + 1..];
    TrimIsTight(rest);
    TrimKeepsEnd(rest);
  }

  lemma {:induction false} AddAllIsGood(m: Entries, lines: seq<string>)
    requires WellFormed(m) && forall line :: line in lines ==> '\n' !in line
    ensures WellFormed(AddAll(m, lines))
    decreases |lines|
  {
    if lines != [] {
      assert lines[0] in lines;
      if EntryOf(lines[0]).Some? {
        EntryIsGood(lines[0]);
      }
      AddAllIsGood(Add(m, lines[0]), lines[1..]);
    }
  }

  /** Whatever the file holds, what is read from it is a well-formed map. */
  lemma ParseIsWellFormed(text: string)
    ensures WellFormed(Parse(text))
  {
    LinesHaveNoNewline(text);
    AddAllIsGood(map[], FileLines(text));
  }

  /** The maps that survive being written and read are the well-formed ones. */
  lemma RoundTripIff(ks: seq<HostId>, m: Entries)
    requires Enumerates(ks, m)
    ensures Parse(Text(ks, m)) == m <==> WellFormed(m)
  {
    if WellFormed(m) {
      ParseText(ks, m);
    }
    ParseIsWellFormed(Text(ks, m));
  }

  /** Reading, writing and reading again gives what was read first. */
  lemma LoadWriteLoad(text: string, m: Entries, ks: seq<HostId>)
    requires m == Parse(text) && Enumerates(ks, m)
    ensures Parse(Text(ks, m)) == m
  {
    ParseIsWellFormed(text);
    ParseText(ks, m);
  }

  // ----- Writing, step by step -----

  predicate Ordered(ks: seq<string>) {
    forall i, j :: 0 <= i < j < |ks| ==> Below(ks[i], ks[j])
  }

  lemma {:induction false} InsertIsOrdered(k: string, ks: seq<string>)
    requires Ordered(ks)
    ensures Ordered(Insert(k, ks))
  {
    if ks != [] {
      var t := ks[1..];
      assert forall i :: 0 <= i < |t| ==> t[i] == ks[i + 1];
      var r := Insert(k, ks);
      if Below(k, ks[0]) {
        forall j | 0 < j < |r| ensures Below(k, r[j]) {
          assert r[j] == ks[j - 1];
          BelowIsTotal(ks[0], ks[0]);
          BelowIsTransitive(k, ks[0], r[j]);
        }
      } else {
        InsertIsOrdered(k, t);
        InsertHas(k, t);
        BelowIsTotal(k, ks[0]);
        forall j | 0 < j < |r| ensures Below(ks[0], r[j]) {
          assert r[j] == Insert(k, t)[j - 1];
          assert r[j] in Insert(k, t);
        }
      }
    }
  }

  lemma {:induction false} SortIsOrdered(ks: seq<string>)
    ensures Ordered(Sort(ks))
  {
    if ks != [] {
      SortIsOrdered(ks[1..]);
      InsertIsOrdered(ks[0], Sort(ks[1..]));
    }
  }

  lemma {:induction false} BodyAppends(ks: seq<HostId>, k: HostId, m: Entries)
    requires k in m && forall x :: x in ks ==> x in m
    ensures Body(ks + [k], m) == Body(ks, m) + Line(k, m[k]) + "\n"
  {
    if ks == [] {
      assert [k][1..] == [];
    } else {
      BodyAppends(ks[1..], k, m);
      assert (ks + [k])[1..] == ks[1..] + [k];
    }
  }

  /** The loop that appends one line per key. */
  method PushLines(start: string, ks: seq<HostId>, entries: Entries) returns (content: string)
    requires forall k :: k in ks ==> k in entries
    ensures content == start + Body(ks, entries)
  {
    content := start;
    for i := 0 to |ks|
      invariant content == start + Body(ks[..i], entries)
    {
      var k := ks[i];
      assert ks[..i + 1] == ks[..i] + [k];
      BodyAppends(ks[..i], k, entries);
      content := content + (k + " " + entries[k]) + "\n";
    }
    assert ks[..|ks|] == ks;
  }

  /** `write_to_disk`, up to the write: the keys come in the map's own order and are sorted. */
  method Render(keys: seq<HostId>, entries: Entries) returns (content: string)
    requires Enumerates(keys, entries)
    ensures content == Text(keys, entries)
  {
    SortHas(keys);
    content := PushLines(HEADER + "\n", Sort(keys), entries);
  }
}
