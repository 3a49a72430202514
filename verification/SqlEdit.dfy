/**
 The SQL text of cell edits, inserts and deletes.

 Names, and types that pass the validator, are spliced into statement text. Proved
 here: the printer of quoted identifiers has a reader that undoes it, and every
 statement built is one statement to the lexer, whatever the names.
 */
module SqlEdit {
  import opened Wrappers
  import opened Text
  import opened SqlLexer
  import opened SqlWindows
  import opened SqlSplit
  import Decimal

  // ----- Quoted identifiers -----

  function DoubleQuotes(s: Bytes): Bytes {
    if s == [] then []
    else (if s[0] == '"' then "\"\"" else [s[0]]) + DoubleQuotes(s[1..])
  }

  function QuoteIdent(s: Bytes): Bytes {
    "\"" + DoubleQuotes(s) + "\""
  }

  /** Reads the rest of a double-quoted identifier: its name and the text after it (section 4.1.1 of the PostgreSQL manual). */
  function ReadIdentBody(s: Bytes): (r: Option<(Bytes, Bytes)>)
    ensures r.Some? ==> |r.value.1| < |s|
    decreases |s|
  {
    if s == [] then None
    else if s[0] != '"' then
      match ReadIdentBody(s[1..])
      case None => None
      case Some((name, rest)) => Some(([s[0]] + name, rest))
    else if |s| > 1 && s[1] == '"' then
      match ReadIdentBody(s[2..])
      case None => None
      case Some((name, rest)) => Some(("\"" + name, rest))
    else Some(([], s[1..]))
  }

  function ReadIdent(s: Bytes): (r: Option<(Bytes, Bytes)>)
    ensures r.Some? ==> |r.value.1| < |s|
  {
    if s != [] && s[0] == '"' then ReadIdentBody(s[1..]) else None
  }

  predicate NoQuoteNext(rest: Bytes) {
    rest == [] || rest[0] != '"'
  }

  lemma {:induction false} ReadDoubled(name: Bytes, rest: Bytes)
    requires NoQuoteNext(rest)
    ensures ReadIdentBody(DoubleQuotes(name) + "\"" + rest) == Some((name, rest))
  {
    var text := DoubleQuotes(name) + "\"" + rest;
    if name == [] {
      assert text == "\"" + rest && text[1..] == rest;
    } else {
      var tail := DoubleQuotes(name[1..]) + "\"" + rest;
      ReadDoubled(name[1..], rest);
      assert [name[0]] + name[1..] == name;
      if name[0] == '"' {
        assert text == "\"\"" + tail && text[2..] == tail;
      } else {
        assert text == [name[0]] + tail && text[1..] == tail;
      }
    }
  }

  /** A quoted name reads back as the name, and the reader stops right behind it. */
  lemma ReadQuoteIdent(name: Bytes, rest: Bytes)
    requires NoQuoteNext(rest)
    ensures ReadIdent(QuoteIdent(name) + rest) == Some((name, rest))
  {
    ReadDoubled(name, rest);
    assert (QuoteIdent(name) + rest)[1..] == DoubleQuotes(name) + "\"" + rest;
  }

  // ----- Type expressions -----

  datatype InvalidInput = EmptyType | UnsupportedType | UnterminatedType

  predicate IsTypeByte(b: char) {
    IsTagByte(b) || b in " \".,()[]"
  }

  predicate OnlyTypeBytes(s: Bytes) {
    forall i :: 0 <= i < |s| ==> IsTypeByte(s[i])
  }

  /** Whether the double-quoted text whose body starts at `i` ends. */
  predicate Closes(s: Bytes, i: nat)
    requires i <= |s|
    decreases |s| - i
  {
    if i == |s| then false
    else if s[i] != '"' then Closes(s, i + 1)
    else if i + 1 < |s| && s[i + 1] == '"' then Closes(s, i + 2)
    else true
  }

  /** Every double-quoted part from `i` on is closed. */
  predicate ClosedFrom(s: Bytes, i: nat)
    requires i <= |s|
    decreases |s| - i
  {
    if i == |s| then true
    else if s[i] == '"' then Closes(s, i + 1) && ClosedFrom(s, SkipQuoted('"', s, i + 1))
    else ClosedFrom(s, i + 1)
  }

  function CheckedType(s: Bytes): Result<Bytes, InvalidInput> {
    var trimmed := Trim(s);
    if trimmed == [] then Err(EmptyType)
    else if !OnlyTypeBytes(trimmed) then Err(UnsupportedType)
    else if !ClosedFrom(trimmed, 0) then Err(UnterminatedType)
    else Ok(trimmed)
  }

  /** The source's validator, with its quote-toggling loop. */
  method ValidateTypeExpression(s: Bytes) returns (r: Result<Bytes, InvalidInput>)
    ensures r == CheckedType(s)
  {
    var trimmed := Trim(s);
    if trimmed == [] {
      return Err(EmptyType);
    }
    if !OnlyTypeBytes(trimmed) {
      return Err(UnsupportedType);
    }
    var quoted := false;
    var i := 0;
    while i < |trimmed|
      invariant i <= |trimmed|
      invariant ClosedFrom(trimmed, 0) ==
                if quoted then Closes(trimmed, i) && ClosedFrom(trimmed, SkipQuoted('"', trimmed, i))
                else ClosedFrom(trimmed, i)
    {
      var ch := trimmed[i];
      i := i + 1;
      if ch == '"' {
        if quoted && i < |trimmed| && trimmed[i] == '"' {
          i := i + 1;
        } else {
          quoted := !quoted;
        }
      }
    }
    if quoted {
      return Err(UnterminatedType);
    }
    return Ok(trimmed);
  }

  /** How many quotation marks there are from `i` on. */
  function Quotes(s: Bytes, i: nat): nat
    requires i <= |s|
    decreases |s| - i
  {
    if i == |s| then 0 else (if s[i] == '"' then 1 else 0) + Quotes(s, i + 1)
  }

  /** Outside quotes everything is closed exactly if their number is even, inside if it is odd. */
  lemma {:induction false} ClosedIffEven(s: Bytes, i: nat)
    requires i <= |s|
    ensures ClosedFrom(s, i) <==> Quotes(s, i) % 2 == 0
    ensures Closes(s, i) && ClosedFrom(s, SkipQuoted('"', s, i)) <==> Quotes(s, i) % 2 == 1
    decreases |s| - i
  {
    if i < |s| {
      ClosedIffEven(s, i + 1);
      if s[i] == '"' && i + 1 < |s| && s[i + 1] == '"' {
        ClosedIffEven(s, i + 2);
      }
    }
  }

  /** A type is accepted exactly if, trimmed, it is not empty, has letters, digits and nine other characters only, and an even number of quotes. */
  lemma CheckedTypeIff(s: Bytes)
    ensures CheckedType(s).Ok? <==>
            && Trim(s) != [] && Quotes(Trim(s), 0) % 2 == 0
            && forall k :: 0 <= k < |Trim(s)| ==>
                 var b := Trim(s)[k];
                 || 'a' <= b <= 'z' || 'A' <= b <= 'Z' || '0' <= b <= '9'
                 || b == '_' || b == ' ' || b == '"' || b == '.' || b == ',' || b == '(' || b == ')' || b == '[' || b == ']'
    ensures CheckedType(s).Ok? ==> CheckedType(s).value == Trim(s)
  {
    ClosedIffEven(Trim(s), 0);
  }

  // ----- Statement text -----

  /** What a format string is made of: literal words, and the arguments spliced between them. */
  datatype Piece = Words(words: Bytes) | Parameter(n: nat) | Name(name: Bytes) | Type(ty: Bytes)

  function Text1(p: Piece): Bytes {
    match p
    case Words(words) => words
    case Parameter(n) => "$" + Decimal.Print(n)
    case Name(name) => QuoteIdent(name)
    case Type(ty) => ty
  }

  function Render(ps: seq<Piece>): Bytes {
    if ps == [] then [] else Text1(ps[0]) + Render(ps[1..])
  }

  function Qualified(schema: Bytes, table: Bytes): seq<Piece> {
    [Name(schema), Words("."), Name(table)]
  }

  function UpdateCell(schema: Bytes, table: Bytes, column: Bytes, columnType: Bytes, setNull: bool): Result<seq<Piece>, InvalidInput> {
    var head := [Words("UPDATE ")] + Qualified(schema, table) + [Words(" SET "), Name(column)];
    if setNull then
      Ok(head + [Words(" = NULL WHERE ctid = "), Parameter(1), Words("::text::tid")])
    else
      match CheckedType(columnType)
      case Err(e) => Err(e)
      case Ok(ty) =>
        Ok(head + [Words(" = "), Parameter(1), Words("::text::"), Type(ty),
                   Words(" WHERE ctid = "), Parameter(2), Words("::text::tid")])
  }

  function DeleteRows(schema: Bytes, table: Bytes): seq<Piece> {
    [Words("DELETE FROM ")] + Qualified(schema, table)
    + [Words(" WHERE ctid = ANY("), Parameter(1), Words("::text[]::tid[])")]
  }

  datatype InsertColumnInput = InsertColumnInput(name: Bytes, typeName: Bytes)

  function Names(inputs: seq<InsertColumnInput>): seq<Piece> {
    if inputs == [] then []
    else if |inputs| == 1 then [Name(inputs[0].name)]
    else [Name(inputs[0].name), Words(", ")] + Names(inputs[1..])
  }

  /** `$n::text::type` for each input, numbered from `n` on; the first type that is refused is the answer. */
  function Placeholders(inputs: seq<InsertColumnInput>, n: nat): Result<seq<Piece>, InvalidInput> {
    if inputs == [] then Ok([])
    else
      match CheckedType(inputs[0].typeName)
      case Err(e) => Err(e)
      case Ok(ty) =>
        var first := [Parameter(n), Words("::text::"), Type(ty)];
        if |inputs| == 1 then Ok(first)
        else
          match Placeholders(inputs[1..], n + 1)
          case Err(e) => Err(e)
          case Ok(rest) => Ok(first + [Words(", ")] + rest)
  }

  const ROW_ID: Bytes := "__pg_rowid__"

  function ReturnedColumn(name: Bytes): seq<Piece> {
    if name == ROW_ID then [Words("ctid::text AS "), Name(name)]
    else [Name(name), Words("::text AS "), Name(name)]
  }

  function ReturnedColumns(names: seq<Bytes>): seq<Piece> {
    if names == [] then ReturnedColumn(ROW_ID)
    else if |names| == 1 then ReturnedColumn(names[0])
    else ReturnedColumn(names[0]) + [Words(", ")] + ReturnedColumns(names[1..])
  }

  function InsertRow(
    schema: Bytes, table: Bytes, inputs: seq<InsertColumnInput>, returnColumns: seq<Bytes>): Result<seq<Piece>, InvalidInput>
  {
    var head := [Words("INSERT INTO ")] + Qualified(schema, table);
    var returning := ReturnedColumns(returnColumns);
    if inputs == [] then
      Ok(head + [Words(" DEFAULT VALUES RETURNING ")] + returning)
    else
      match Placeholders(inputs, 1)
      case Err(e) => Err(e)
      case Ok(values) =>
        Ok(head + [Words(" (")] + Names(inputs) + [Words(") VALUES (")] + values + [Words(") RETURNING ")] + returning)
  }

  // ----- Stretches of text that hold no semicolon, whatever follows them -----

  /** Elements lead from `i` to `j`; none is a semicolon or opens a dollar quote. */
  predicate Walk(s: Bytes, i: nat, j: nat)
    requires i <= |s|
    decreases |s| - i
  {
    i == j || (i < j && i < |s| && s[i] != ';' && DelimiterLength(s, i) == 0 && Walk(s, TokenEnd(s, i), j))
  }

  /** Whatever follows, the lexer gets through `a` and is outside every quote behind it. */
  ghost predicate Inert(a: Bytes) {
    forall b: Bytes :: Walk(a + b, 0, |a|)
  }

  /** The same for a text that a following quotation mark would continue. */
  ghost predicate InertUnlessQuoted(a: Bytes) {
    forall b: Bytes :: NoQuoteNext(b) ==> Walk(a + b, 0, |a|)
  }

  lemma {:induction false} WalkOn(s: Bytes, i: nat, j: nat, k: nat)
    requires i <= |s| && j <= |s| && Walk(s, i, j) && Walk(s, j, k)
    ensures Walk(s, i, k)
    decreases |s| - i
  {
    if i != j {
      WalkOn(s, TokenEnd(s, i), j, k);
      WalkAhead(s, TokenEnd(s, i), k);
    }
  }

  lemma {:induction false} WalkAhead(s: Bytes, i: nat, j: nat)
    requires i <= |s| && Walk(s, i, j)
    ensures i <= j
    decreases |s| - i
  {
  }

  lemma {:induction false} WalkShifted(a: Bytes, s: Bytes, i: nat, j: nat)
    requires i <= |s| && Walk(s, i, j)
    ensures Walk(a + s, |a| + i, |a| + j)
    decreases |s| - i
  {
    if i != j {
      var t, k := a + s, |a| + i;
      assert t[|a|..|t|] == s && t[k] == s[i];
      DelimiterWindow(t, |a|, |t|, k);
      TokenWindow(t, |a|, |t|, k);
      WalkShifted(a, s, TokenEnd(s, i), j);
    }
  }

  lemma InertThenQuoted(a: Bytes, b: Bytes)
    requires Inert(a) && InertUnlessQuoted(b)
    ensures InertUnlessQuoted(a + b)
  {
    forall c: Bytes | NoQuoteNext(c) ensures Walk(a + b + c, 0, |a + b|) {
      assert a + b + c == a + (b + c);
      WalkShifted(a, b + c, 0, |b|);
      WalkOn(a + (b + c), 0, |a|, |a| + |b|);
    }
  }

  lemma QuotedThenPlain(a: Bytes, b: Bytes)
    requires InertUnlessQuoted(a) && InertUnlessQuoted(b) && b != [] && b[0] != '"'
    ensures InertUnlessQuoted(a + b)
  {
    forall c: Bytes | NoQuoteNext(c) ensures Walk(a + b + c, 0, |a + b|) {
      assert a + b + c == a + (b + c);
      WalkShifted(a, b + c, 0, |b|);
      WalkOn(a + (b + c), 0, |a|, |a| + |b|);
    }
  }

  predicate IsPlainByte(b: char) {
    b !in "'\"-/$;"
  }

  predicate IsPlain(s: Bytes) {
    forall i :: 0 <= i < |s| ==> IsPlainByte(s[i])
  }

  lemma {:induction false} PlainWalk(s: Bytes, i: nat, j: nat)
    requires i <= j <= |s| && forall k :: i <= k < j ==> IsPlainByte(s[k])
    ensures Walk(s, i, j)
    decreases j - i
  {
    if i < j {
      PlainWalk(s, i + 1, j);
    }
  }

  lemma PlainIsInert(a: Bytes)
    requires IsPlain(a)
    ensures Inert(a)
  {
    forall b: Bytes ensures Walk(a + b, 0, |a|) {
      PlainWalk(a + b, 0, |a|);
    }
  }

  /** `$1` opens no dollar quote: a tag cannot start with a digit. */
  lemma ParameterIsInert(n: nat)
    ensures Inert("$" + Decimal.Print(n))
  {
    var digits := Decimal.Print(n);
    forall b: Bytes ensures Walk("$" + digits + b, 0, |"$" + digits|) {
      var s := "$" + digits + b;
      assert s[1] == digits[0];
      assert Decimal.IsDigit(digits[0]);
      assert DelimiterLength(s, 0) == 0 && TokenEnd(s, 0) == 1;
      forall k | 1 <= k < 1 + |digits| ensures IsPlainByte(s[k]) {
        assert s[k] == digits[k - 1] && digits[k - 1] in digits;
      }
      PlainWalk(s, 1, 1 + |digits|);
    }
  }

  lemma {:induction false} SkipDoubled(name: Bytes, s: Bytes, i: nat)
    requires i + |DoubleQuotes(name)| < |s|
    requires s[i..i + |DoubleQuotes(name)|] == DoubleQuotes(name)
    requires s[i + |DoubleQuotes(name)|] == '"' && NoQuoteNext(s[i + |DoubleQuotes(name)| + 1..])
    ensures SkipQuoted('"', s, i) == i + |DoubleQuotes(name)| + 1
  {
    if name != [] {
      var d := DoubleQuotes(name);
      var n := if name[0] == '"' then 2 else 1;
      assert d[n..] == DoubleQuotes(name[1..]);
      assert s[i + n..i + |d|] == s[i..i + |d|][n..];
      assert s[i] == s[i..i + |d|][0] == d[0];
      if n == 2 {
        assert s[i + 1] == s[i..i + |d|][1] == d[1];
      }
      SkipDoubled(name[1..], s, i + n);
    }
  }

  lemma QuoteIdentIsInert(name: Bytes)
    ensures InertUnlessQuoted(QuoteIdent(name))
  {
    var q, d := QuoteIdent(name), DoubleQuotes(name);
    forall b: Bytes | NoQuoteNext(b) ensures Walk(q + b, 0, |q|) {
      var s := q + b;
      assert s[1..1 + |d|] == d && s[1 + |d|] == '"' && s[1 + |d| + 1..] == b;
      SkipDoubled(name, s, 1);
      assert TokenEnd(s, 0) == |q| && DelimiterLength(s, 0) == 0;
    }
  }

  lemma {:induction false} ClosesHere(ty: Bytes, s: Bytes, i: nat)
    requires i <= |ty| <= |s| && s[..|ty|] == ty && Closes(ty, i) && NoQuoteNext(s[|ty|..])
    ensures SkipQuoted('"', s, i) == SkipQuoted('"', ty, i)
    decreases |ty| - i
  {
    assert s[i] == ty[i];
    if ty[i] != '"' {
      ClosesHere(ty, s, i + 1);
    } else if i + 1 < |ty| && ty[i + 1] == '"' {
      assert s[i + 1] == ty[i + 1];
      ClosesHere(ty, s, i + 2);
    } else if i + 1 < |ty| {
      assert s[i + 1] == ty[i + 1];
    } else if i + 1 < |s| {
      assert s[|ty|..][0] == s[i + 1];
    }
  }

  lemma {:induction false} TypeWalk(ty: Bytes, s: Bytes, i: nat)
    requires i <= |ty| <= |s| && s[..|ty|] == ty && OnlyTypeBytes(ty) && ClosedFrom(ty, i) && NoQuoteNext(s[|ty|..])
    ensures Walk(s, i, |ty|)
    decreases |ty| - i
  {
    if i < |ty| {
      assert s[i] == ty[i] && IsTypeByte(ty[i]);
      if ty[i] == '"' {
        ClosesHere(ty, s, i + 1);
        TypeWalk(ty, s, SkipQuoted('"', ty, i + 1));
      } else {
        TypeWalk(ty, s, i + 1);
      }
    }
  }

  /** What the validator lets through. */
  predicate Accepted(ty: Bytes) {
    OnlyTypeBytes(ty) && ClosedFrom(ty, 0)
  }

  lemma AcceptedIsInert(ty: Bytes)
    requires Accepted(ty)
    ensures InertUnlessQuoted(ty)
  {
    forall b: Bytes | NoQuoteNext(b) ensures Walk(ty + b, 0, |ty|) {
      assert (ty + b)[..|ty|] == ty && (ty + b)[|ty|..] == b;
      TypeWalk(ty, ty + b, 0);
    }
  }

  /** Behind a type the validator lets through the lexer is outside every quote and comment, and met no semicolon. */
  lemma CheckedTypeIsInert(s: Bytes)
    requires CheckedType(s).Ok?
    ensures InertUnlessQuoted(CheckedType(s).value)
  {
    AcceptedIsInert(CheckedType(s).value);
  }

  // ----- The statements -----

  /** One statement to the lexer: no semicolon, no panic, nothing to split. */
  ghost predicate SingleStatement(sql: Bytes) {
    && Semicolons(sql) == []
    && AsciiBodies(sql)
    && !IsMultiStatement(sql)
    && SplitAtLastStatement(sql) == None
    && Pieces(sql) == [sql]
  }

  lemma {:induction false} WalkIsQuiet(s: Bytes, i: nat)
    requires i <= |s| && Walk(s, i, |s|)
    ensures SemicolonsFrom(s, i) == [] && AsciiBodiesFrom(s, i)
    decreases |s| - i
  {
    if i < |s| {
      WalkIsQuiet(s, TokenEnd(s, i));
    }
  }

  /** Words are plain and not empty, types were checked. */
  predicate Fits(p: Piece) {
    match p
    case Words(words) => IsPlain(words) && words != []
    case Parameter(n) => true
    case Name(name) => true
    case Type(ty) => Accepted(ty)
  }

  predicate StartsPlain(p: Piece) {
    p.Words? || p.Parameter?
  }

  /** Between two names or types there are words. */
  predicate WellSpaced(ps: seq<Piece>) {
    && (forall k :: 0 <= k < |ps| ==> Fits(ps[k]))
    && (forall k :: 0 < k < |ps| ==> StartsPlain(ps[k - 1]) || StartsPlain(ps[k]))
  }

  lemma PieceIsInert(p: Piece)
    requires Fits(p)
    ensures StartsPlain(p) ==> Inert(Text1(p)) && Text1(p) != [] && Text1(p)[0] != '"'
    ensures InertUnlessQuoted(Text1(p))
  {
    match p {
      case Words(words) =>
        PlainIsInert(words);
        assert IsPlainByte(words[0]);
      case Parameter(n) => ParameterIsInert(n);
      case Name(name) => QuoteIdentIsInert(name);
      case Type(ty) => AcceptedIsInert(ty);
    }
  }

  lemma {:induction false} WellSpacedIsInert(ps: seq<Piece>)
    requires WellSpaced(ps)
    ensures InertUnlessQuoted(Render(ps))
  {
    if ps == [] {
      assert forall b: Bytes :: Walk([] + b, 0, 0);
    } else {
      PieceIsInert(ps[0]);
      WellSpacedIsInert(ps[1..]);
      if StartsPlain(ps[0]) {
        InertThenQuoted(Text1(ps[0]), Render(ps[1..]));
      } else if |ps| == 1 {
        assert Render(ps) == Text1(ps[0]);
      } else {
        PieceIsInert(ps[1]);
        assert Render(ps[1..])[0] == Text1(ps[1])[0];
        QuotedThenPlain(Text1(ps[0]), Render(ps[1..]));
      }
    }
  }

  /** A well-spaced text is one statement, whatever names are in it. */
  lemma WellSpacedIsSingle(ps: seq<Piece>)
    requires WellSpaced(ps)
    ensures SingleStatement(Render(ps))
  {
    WellSpacedIsInert(ps);
    var sql := Render(ps);
    assert sql + [] == sql && NoQuoteNext([]);
    assert Walk(sql + [], 0, |sql|);
    WalkIsQuiet(sql, 0);
  }

  lemma Spliced(a: seq<Piece>, b: seq<Piece>)
    requires WellSpaced(a) && WellSpaced(b)
    requires a != [] && b != [] ==> StartsPlain(a[|a| - 1]) || StartsPlain(b[0])
    ensures WellSpaced(a + b)
  {
  }

  lemma UpdateWordsArePlain()
    ensures IsPlain("UPDATE ") && IsPlain(" SET ") && IsPlain(" = NULL WHERE ctid = ")
    ensures IsPlain("::text::tid") && IsPlain(" = ") && IsPlain(" WHERE ctid = ")
  {
  }

  lemma DeleteWordsArePlain()
    ensures IsPlain("DELETE FROM ") && IsPlain(" WHERE ctid = ANY(") && IsPlain("::text[]::tid[])")
  {
  }

  lemma InsertWordsArePlain()
    ensures IsPlain("INSERT INTO ") && IsPlain(" DEFAULT VALUES RETURNING ")
    ensures IsPlain(" (") && IsPlain(") VALUES (") && IsPlain(") RETURNING ")
  {
  }

  lemma JoiningWordsArePlain()
    ensures IsPlain(".") && IsPlain("::text::") && IsPlain(", ")
    ensures IsPlain("ctid::text AS ") && IsPlain("::text AS ")
  {
  }

  lemma QualifiedIsWellSpaced(before: Bytes, schema: Bytes, table: Bytes, after: Bytes)
    requires Fits(Words(before)) && Fits(Words(after))
    ensures WellSpaced([Words(before)] + Qualified(schema, table) + [Words(after)])
  {
    JoiningWordsArePlain();
    var ps := [Words(before)] + Qualified(schema, table) + [Words(after)];
    assert ps == [Words(before), Name(schema), Words("."), Name(table), Words(after)];
  }

  lemma UpdateIsWellSpaced(schema: Bytes, table: Bytes, column: Bytes, columnType: Bytes, setNull: bool)
    ensures var r := UpdateCell(schema, table, column, columnType, setNull);
            && (r.Ok? <==> setNull || CheckedType(columnType).Ok?)
            && (r.Ok? ==> WellSpaced(r.value))
  {
    UpdateWordsArePlain();
    JoiningWordsArePlain();
    var r := UpdateCell(schema, table, column, columnType, setNull);
    QualifiedIsWellSpaced("UPDATE ", schema, table, " SET ");
    var head := [Words("UPDATE ")] + Qualified(schema, table) + [Words(" SET ")];
    Spliced(head, [Name(column)]);
    if setNull {
      Spliced(head + [Name(column)], [Words(" = NULL WHERE ctid = "), Parameter(1), Words("::text::tid")]);
      assert r.value == head + [Name(column)] + [Words(" = NULL WHERE ctid = "), Parameter(1), Words("::text::tid")];
    } else if r.Ok? {
      var cast := [Words(" = "), Parameter(1), Words("::text::"), Type(CheckedType(columnType).value)];
      var end := [Words(" WHERE ctid = "), Parameter(2), Words("::text::tid")];
      Spliced(cast, end);
      Spliced(head + [Name(column)], cast + end);
      assert r.value == head + [Name(column)] + (cast + end);
    }
  }

  /** Every update is one statement, for all names and every type the validator accepts. */
  lemma UpdateIsSingle(schema: Bytes, table: Bytes, column: Bytes, columnType: Bytes, setNull: bool)
    ensures var r := UpdateCell(schema, table, column, columnType, setNull);
            && (r.Ok? <==> setNull || CheckedType(columnType).Ok?)
            && (r.Ok? ==> WellSpaced(r.value) && SingleStatement(Render(r.value)))
  {
    UpdateIsWellSpaced(schema, table, column, columnType, setNull);
    var r := UpdateCell(schema, table, column, columnType, setNull);
    if r.Ok? {
      WellSpacedIsSingle(r.value);
    }
  }

  /** Every delete is one statement, for all names. */
  lemma DeleteIsSingle(schema: Bytes, table: Bytes)
    ensures WellSpaced(DeleteRows(schema, table)) && SingleStatement(Render(DeleteRows(schema, table)))
  {
    DeleteWordsArePlain();
    var head := [Words("DELETE FROM ")] + Qualified(schema, table) + [Words(" WHERE ctid = ANY(")];
    var end := [Parameter(1), Words("::text[]::tid[])")];
    QualifiedIsWellSpaced("DELETE FROM ", schema, table, " WHERE ctid = ANY(");
    Spliced(head, end);
    assert DeleteRows(schema, table) == head + end;
    WellSpacedIsSingle(head + end);
  }

  lemma {:induction false} NamesAreWellSpaced(inputs: seq<InsertColumnInput>)
    ensures WellSpaced(Names(inputs))
  {
    JoiningWordsArePlain();
    if |inputs| > 1 {
      NamesAreWellSpaced(inputs[1..]);
      Spliced([Name(inputs[0].name), Words(", ")], Names(inputs[1..]));
    }
  }

  lemma PlaceholderIsWellSpaced(n: nat, typeName: Bytes)
    requires CheckedType(typeName).Ok?
    ensures var first := [Parameter(n), Words("::text::"), Type(CheckedType(typeName).value)];
            WellSpaced(first) && WellSpaced(first + [Words(", ")])
  {
    JoiningWordsArePlain();
    var first := [Parameter(n), Words("::text::"), Type(CheckedType(typeName).value)];
    Spliced(first, [Words(", ")]);
  }

  lemma {:induction false} PlaceholdersAreWellSpaced(inputs: seq<InsertColumnInput>, n: nat)
    ensures Placeholders(inputs, n).Ok? <==> forall k :: 0 <= k < |inputs| ==> CheckedType(inputs[k].typeName).Ok?
    ensures Placeholders(inputs, n).Ok? ==> WellSpaced(Placeholders(inputs, n).value)
  {
    if inputs != [] && CheckedType(inputs[0].typeName).Ok? {
      PlaceholderIsWellSpaced(n, inputs[0].typeName);
      PlaceholdersAreWellSpaced(inputs[1..], n + 1);
      assert forall k :: 0 < k < |inputs| ==> inputs[k] == inputs[1..][k - 1];
      if |inputs| > 1 && Placeholders(inputs[1..], n + 1).Ok? {
        var first := [Parameter(n), Words("::text::"), Type(CheckedType(inputs[0].typeName).value)];
        Spliced(first + [Words(", ")], Placeholders(inputs[1..], n + 1).value);
      }
    }
  }

  lemma ReturnedColumnIsWellSpaced(name: Bytes)
    ensures WellSpaced(ReturnedColumn(name)) && WellSpaced(ReturnedColumn(name) + [Words(", ")])
  {
    JoiningWordsArePlain();
    Spliced(ReturnedColumn(name), [Words(", ")]);
  }

  lemma {:induction false} ReturnedColumnsAreWellSpaced(names: seq<Bytes>)
    ensures WellSpaced(ReturnedColumns(names))
  {
    if names == [] {
      ReturnedColumnIsWellSpaced(ROW_ID);
    } else {
      ReturnedColumnIsWellSpaced(names[0]);
      if |names| > 1 {
        ReturnedColumnsAreWellSpaced(names[1..]);
        Spliced(ReturnedColumn(names[0]) + [Words(", ")], ReturnedColumns(names[1..]));
      }
    }
  }

  lemma InsertIsWellSpaced(schema: Bytes, table: Bytes, inputs: seq<InsertColumnInput>, returnColumns: seq<Bytes>)
    ensures var r := InsertRow(schema, table, inputs, returnColumns);
            && (r.Ok? <==> forall k :: 0 <= k < |inputs| ==> CheckedType(inputs[k].typeName).Ok?)
            && (r.Ok? ==> WellSpaced(r.value))
  {
    var r := InsertRow(schema, table, inputs, returnColumns);
    var head := [Words("INSERT INTO ")] + Qualified(schema, table);
    var returning := ReturnedColumns(returnColumns);
    InsertWordsArePlain();
    ReturnedColumnsAreWellSpaced(returnColumns);
    PlaceholdersAreWellSpaced(inputs, 1);
    if inputs == [] {
      QualifiedIsWellSpaced("INSERT INTO ", schema, table, " DEFAULT VALUES RETURNING ");
      Spliced(head + [Words(" DEFAULT VALUES RETURNING ")], returning);
    } else if r.Ok? {
      var values := Placeholders(inputs, 1).value;
      QualifiedIsWellSpaced("INSERT INTO ", schema, table, " (");
      NamesAreWellSpaced(inputs);
      var columns := head + [Words(" (")] + Names(inputs);
      Spliced(head + [Words(" (")], Names(inputs));
      Spliced(columns, [Words(") VALUES (")]);
      Spliced(columns + [Words(") VALUES (")], values);
      Spliced(columns + [Words(") VALUES (")] + values, [Words(") RETURNING ")]);
      Spliced(columns + [Words(") VALUES (")] + values + [Words(") RETURNING ")], returning);
    }
  }

  /** Every insert is one statement, for all names and inputs; it is refused exactly when a type is. */
  lemma InsertIsSingle(schema: Bytes, table: Bytes, inputs: seq<InsertColumnInput>, returnColumns: seq<Bytes>)
    ensures var r := InsertRow(schema, table, inputs, returnColumns);
            && (r.Ok? <==> forall k :: 0 <= k < |inputs| ==> CheckedType(inputs[k].typeName).Ok?)
            && (r.Ok? ==> WellSpaced(r.value) && SingleStatement(Render(r.value)))
  {
    InsertIsWellSpaced(schema, table, inputs, returnColumns);
    var r := InsertRow(schema, table, inputs, returnColumns);
    if r.Ok? {
      WellSpacedIsSingle(r.value);
    }
  }

  /** In a well-spaced text each name can be read back, at its place, as the name that was put there. */
  lemma NamesReadBack(ps: seq<Piece>, k: nat)
    requires WellSpaced(ps) && k < |ps| && ps[k].Name?
    ensures |Render(ps[..k])| <= |Render(ps)|
    ensures ReadIdent(Render(ps)[|Render(ps[..k])|..]) == Some((ps[k].name, Render(ps[k + 1..])))
  {
    RenderSplit(ps, k);
    var rest := Render(ps[k + 1..]);
    if k + 1 < |ps| {
      assert ps[k + 1..][0] == ps[k + 1] && StartsPlain(ps[k + 1]);
      PieceIsInert(ps[k + 1]);
    }
    ReadQuoteIdent(ps[k].name, rest);
    assert Render(ps[k..]) == QuoteIdent(ps[k].name) + rest by {
      assert ps[k..][0] == ps[k] && ps[k..][1..] == ps[k + 1..];
    }
  }

  lemma {:induction false} RenderSplit(ps: seq<Piece>, k: nat)
    requires k <= |ps|
    ensures Render(ps) == Render(ps[..k]) + Render(ps[k..])
  {
    if k > 0 {
      RenderSplit(ps[1..], k - 1);
      assert ps[1..][..k - 1] == ps[..k][1..] && ps[1..][k - 1..] == ps[k..];
    } else {
      assert ps[..0] == [] && ps[0..] == ps;
    }
  }
}
