/**
 Readers of the SQL text of edits: what table, columns and values a statement names.

 Names are read with the reader of quoted identifiers, and everything around them word by
 word. Proved here: an update, an insert and a delete are read back as what they were
 built for, each column and each value at its place, for all names.
 */
module SqlReadBack {
  import opened Basics
  import opened Wrappers
  import opened Text
  import opened SqlEdit
  import opened SqlCasts
  import Decimal

  // ----- Readers -----

  /** The text behind these words, if it starts with them. */
  function Skip(words: Bytes, s: Bytes): (r: Option<Bytes>)
    ensures r.Some? ==> |r.value| <= |s|
  {
    if words <= s then Some(s[|words|..]) else None
  }

  /** A quoted identifier, and the words that must follow it. */
  function ReadIdentThen(words: Bytes, s: Bytes): (r: Option<(Bytes, Bytes)>)
    ensures r.Some? ==> |r.value.1| < |s|
  {
    match ReadIdent(s)
    case None => None
    case Some((name, rest)) =>
      match Skip(words, rest)
      case None => None
      case Some(rest') => Some((name, rest'))
  }

  datatype Target = Target(schema: Bytes, table: Bytes, rest: Bytes)

  /** `verb "schema"."table"words`. */
  function ReadTarget(verb: Bytes, words: Bytes, s: Bytes): Option<Target> {
    match Skip(verb, s)
    case None => None
    case Some(s1) =>
      match ReadIdentThen(".", s1)
      case None => None
      case Some((schema, s2)) =>
        match ReadIdentThen(words, s2)
        case None => None
        case Some((table, rest)) => Some(Target(schema, table, rest))
  }

  /** Identifiers with commas between them, as many as there are. */
  function ReadNames(s: Bytes): (r: Option<(seq<Bytes>, Bytes)>)
    decreases |s|
  {
    match ReadIdent(s)
    case None => None
    case Some((name, rest)) =>
      match Skip(", ", rest)
      case None => Some(([name], rest))
      case Some(rest') =>
        match ReadNames(rest')
        case None => None
        case Some((names, rest'')) => Some(([name] + names, rest''))
  }

  /** A returned column: its source, which is the row's address or a column, and its name. */
  datatype Returned = RowAddress(name: Bytes) | Column(column: Bytes, name: Bytes)

  function ReadReturnedOne(s: Bytes): (r: Option<(Returned, Bytes)>)
    ensures r.Some? ==> |r.value.1| < |s|
  {
    match Skip("ctid::text AS ", s)
    case Some(s1) =>
      (match ReadIdent(s1)
       case None => None
       case Some((name, rest)) => Some((RowAddress(name), rest)))
    case None =>
      match ReadIdentThen("::text AS ", s)
      case None => None
      case Some((column, s1)) =>
        match ReadIdent(s1)
        case None => None
        case Some((name, rest)) => Some((Column(column, name), rest))
  }

  function ReadReturned(s: Bytes): Option<seq<Returned>>
    decreases |s|
  {
    match ReadReturnedOne(s)
    case None => None
    case Some((first, rest)) =>
      if rest == [] then Some([first])
      else
        match Skip(", ", rest)
        case None => None
        case Some(rest') =>
          match ReadReturned(rest')
          case None => None
          case Some(more) => Some([first] + more)
  }

  /** Texts with commas between them. */
  function Join(texts: seq<Bytes>): Bytes {
    if texts == [] then [] else if |texts| == 1 then texts[0] else texts[0] + (", " + Join(texts[1..]))
  }

  // ----- Reading what was printed -----

  lemma SkipWords(words: Bytes, rest: Bytes)
    ensures Skip(words, words + rest) == Some(rest)
  {
  }

  lemma IdentThen(name: Bytes, words: Bytes, rest: Bytes)
    requires words != [] && words[0] != '"'
    ensures ReadIdentThen(words, QuoteIdent(name) + (words + rest)) == Some((name, rest))
  {
    ReadQuoteIdent(name, words + rest);
    SkipWords(words, rest);
  }

  lemma TargetReads(verb: Bytes, schema: Bytes, table: Bytes, words: Bytes, rest: Bytes)
    requires words != [] && words[0] != '"'
    ensures ReadTarget(verb, words, verb + (QuoteIdent(schema) + ("." + (QuoteIdent(table) + (words + rest))))) ==
            Some(Target(schema, table, rest))
  {
    hide ReadIdentThen, Skip, QuoteIdent;
    SkipWords(verb, QuoteIdent(schema) + ("." + (QuoteIdent(table) + (words + rest))));
    IdentThen(schema, ".", QuoteIdent(table) + (words + rest));
    IdentThen(table, words, rest);
  }

  lemma RenderCons(p: Piece, ps: seq<Piece>)
    ensures Render([p] + ps) == Text1(p) + Render(ps)
  {
    assert ([p] + ps)[1..] == ps;
  }

  lemma TargetText(before: Bytes, schema: Bytes, table: Bytes, words: Bytes, ps: seq<Piece>)
    ensures Render([Words(before), Name(schema), Words("."), Name(table), Words(words)] + ps) ==
            before + (QuoteIdent(schema) + ("." + (QuoteIdent(table) + (words + Render(ps)))))
  {
    RenderCons(Words(words), ps);
    RenderCons(Name(table), [Words(words)] + ps);
    RenderCons(Words("."), [Name(table)] + ([Words(words)] + ps));
    RenderCons(Name(schema), [Words(".")] + ([Name(table)] + ([Words(words)] + ps)));
    RenderCons(Words(before), [Name(schema)] + ([Words(".")] + ([Name(table)] + ([Words(words)] + ps))));
    assert [Words(before), Name(schema), Words("."), Name(table), Words(words)] + ps ==
           [Words(before)] + ([Name(schema)] + ([Words(".")] + ([Name(table)] + ([Words(words)] + ps))));
  }

  // ----- Deletes and updates -----

  /** A delete names its schema and its table, and takes the rows of its one parameter. */
  lemma DeleteReadsBack(schema: Bytes, table: Bytes)
    ensures ReadTarget("DELETE FROM ", " WHERE ctid = ANY(", Render(DeleteRows(schema, table))) ==
            Some(Target(schema, table, "$1" + "::text[]::tid[])"))
  {
    var ps := [Parameter(1), Words("::text[]::tid[])")];
    assert DeleteRows(schema, table) ==
           [Words("DELETE FROM "), Name(schema), Words("."), Name(table), Words(" WHERE ctid = ANY(")] + ps;
    TargetText("DELETE FROM ", schema, table, " WHERE ctid = ANY(", ps);
    RenderTwo(Parameter(1), Words("::text[]::tid[])"));
    PrintOne();
    TargetReads("DELETE FROM ", schema, table, " WHERE ctid = ANY(", Render(ps));
  }

  lemma PrintOne()
    ensures Text1(Parameter(1)) == "$1" && Text1(Parameter(2)) == "$2"
  {
  }

  lemma RenderTwo(a: Piece, b: Piece)
    ensures Render([a, b]) == Text1(a) + Text1(b)
  {
    assert Render([b]) == Text1(b) + Render([]);
  }

  /** What an update does to the column: the first parameter as the column's type, for the row of the second; or NULL, for the row of the first. */
  function Assignment(ty: Option<Bytes>): Bytes {
    match ty
    case None => "$1" + "::text::tid"
    case Some(ty) => "$1" + ("::text::" + (ty + (" WHERE ctid = " + ("$2" + "::text::tid"))))
  }

  lemma UpdatePiecesAre(schema: Bytes, table: Bytes, column: Bytes, columnType: Bytes, setNull: bool)
    requires setNull || CheckedType(columnType).Ok?
    ensures UpdateCell(schema, table, column, columnType, setNull).Ok?
    ensures UpdateCell(schema, table, column, columnType, setNull).value ==
            [Words("UPDATE "), Name(schema), Words("."), Name(table), Words(" SET ")] +
            ([Name(column)] +
             if setNull then [Words(" = NULL WHERE ctid = "), Parameter(1), Words("::text::tid")]
             else [Words(" = "), Parameter(1), Words("::text::"), Type(CheckedType(columnType).value),
                   Words(" WHERE ctid = "), Parameter(2), Words("::text::tid")])
  {
  }

  lemma RenderFour(a: Piece, b: Piece, c: Piece, ps: seq<Piece>)
    ensures Render([a, b, c] + ps) == Text1(a) + (Text1(b) + (Text1(c) + Render(ps)))
  {
    RenderCons(c, ps);
    RenderCons(b, [c] + ps);
    RenderCons(a, [b] + ([c] + ps));
    assert [a, b, c] + ps == [a] + ([b] + ([c] + ps));
  }

  lemma NullText()
    ensures Render([Words(" = NULL WHERE ctid = "), Parameter(1), Words("::text::tid")]) == " = NULL WHERE ctid = " + Assignment(None)
  {
    RenderTwo(Parameter(1), Words("::text::tid"));
    RenderCons(Words(" = NULL WHERE ctid = "), [Parameter(1), Words("::text::tid")]);
    assert [Words(" = NULL WHERE ctid = ")] + [Parameter(1), Words("::text::tid")] ==
           [Words(" = NULL WHERE ctid = "), Parameter(1), Words("::text::tid")];
    PrintOne();
  }

  lemma ValueText(ty: Bytes)
    ensures Render([Words(" = "), Parameter(1), Words("::text::"), Type(ty), Words(" WHERE ctid = "), Parameter(2), Words("::text::tid")]) ==
            " = " + Assignment(Some(ty))
  {
    var end := [Type(ty), Words(" WHERE ctid = "), Parameter(2)] + [Words("::text::tid")];
    RenderFour(Words(" = "), Parameter(1), Words("::text::"), end);
    RenderFour(Type(ty), Words(" WHERE ctid = "), Parameter(2), [Words("::text::tid")]);
    assert Render([Words("::text::tid")]) == "::text::tid" + Render([]);
    assert [Words(" = "), Parameter(1), Words("::text::"), Type(ty), Words(" WHERE ctid = "), Parameter(2), Words("::text::tid")] ==
           [Words(" = "), Parameter(1), Words("::text::")] + end;
    PrintOne();
  }

  /** An update names its schema, its table and its column, and sets that column of one row. */
  lemma UpdateReadsBack(schema: Bytes, table: Bytes, column: Bytes, columnType: Bytes, setNull: bool)
    requires setNull || CheckedType(columnType).Ok?
    ensures UpdateCell(schema, table, column, columnType, setNull).Ok?
    ensures var target := ReadTarget("UPDATE ", " SET ", Render(UpdateCell(schema, table, column, columnType, setNull).value));
            && target.Some? && target.value.schema == schema && target.value.table == table
            && ReadIdentThen(if setNull then " = NULL WHERE ctid = " else " = ", target.value.rest) ==
               Some((column, Assignment(if setNull then None else Some(CheckedType(columnType).value))))
  {
    hide CheckedType, ReadTarget, ReadIdentThen, Assignment;
    UpdatePiecesAre(schema, table, column, columnType, setNull);
    var words := if setNull then " = NULL WHERE ctid = " else " = ";
    var ty := if setNull then None else Some(CheckedType(columnType).value);
    var tail := if setNull then [Words(" = NULL WHERE ctid = "), Parameter(1), Words("::text::tid")]
                else [Words(" = "), Parameter(1), Words("::text::"), Type(ty.value),
                      Words(" WHERE ctid = "), Parameter(2), Words("::text::tid")];
    if setNull { NullText(); } else { ValueText(ty.value); }
    RenderCons(Name(column), tail);
    TargetText("UPDATE ", schema, table, " SET ", [Name(column)] + tail);
    TargetReads("UPDATE ", schema, table, " SET ", Render([Name(column)] + tail));
    IdentThen(column, words, Assignment(ty));
  }

  // ----- Inserts -----

  lemma {:induction false} NamesRead(inputs: seq<InsertColumnInput>, rest: Bytes)
    requires inputs != [] && rest != [] && rest[0] == ')'
    ensures var r := ReadNames(Render(Names(inputs)) + rest);
            && r.Some? && r.value.1 == rest && |r.value.0| == |inputs|
            && forall k :: 0 <= k < |inputs| ==> r.value.0[k] == inputs[k].name
  {
    var name := inputs[0].name;
    if |inputs| == 1 {
      assert Render([Name(name)]) == QuoteIdent(name) + Render([]) == QuoteIdent(name);
      ReadQuoteIdent(name, rest);
      assert Skip(", ", rest) == None;
    } else {
      NamesRead(inputs[1..], rest);
      var more := Render(Names(inputs[1..]));
      NamesUnfold(inputs);
      Regroup(", ", more, rest);
      Regroup(QuoteIdent(name), ", " + more, rest);
      ReadQuoteIdent(name, ", " + (more + rest));
      SkipWords(", ", more + rest);
    }
  }

  lemma NamesUnfold(inputs: seq<InsertColumnInput>)
    requires |inputs| > 1
    ensures Render(Names(inputs)) == QuoteIdent(inputs[0].name) + (", " + Render(Names(inputs[1..])))
  {
    var more := Names(inputs[1..]);
    RenderCons(Words(", "), more);
    RenderCons(Name(inputs[0].name), [Words(", ")] + more);
    assert [Name(inputs[0].name), Words(", ")] + more == [Name(inputs[0].name)] + ([Words(", ")] + more);
  }

  /** The value for the `k`th input: its parameter, counted from `n`, as its checked type. */
  predicate IsValue(text: Bytes, inputs: seq<InsertColumnInput>, k: nat, n: nat)
    requires k < |inputs|
  {
    && CheckedType(inputs[k].typeName).Ok?
    && text == ("$" + Decimal.Print(n + k)) + ("::text::" + CheckedType(inputs[k].typeName).value)
  }

  lemma {:induction false} ValueThen(n: nat, ty: Bytes, rest: seq<Piece>)
    ensures Render([Parameter(n), Words("::text::"), Type(ty)] + [Words(", ")] + rest) ==
            (("$" + Decimal.Print(n)) + ("::text::" + ty)) + (", " + Render(rest))
  {
    hide Render;
    var p, w, t := Parameter(n), Words("::text::"), Type(ty);
    RenderFour(p, w, t, [Words(", ")] + rest);
    RenderCons(Words(", "), rest);
    assert [p, w, t] + [Words(", ")] + rest == [p, w, t] + ([Words(", ")] + rest);
    Regroup("::text::", ty, ", " + Render(rest));
    Regroup("$" + Decimal.Print(n), "::text::" + ty, ", " + Render(rest));
  }

  lemma {:induction false} ValuesRead(inputs: seq<InsertColumnInput>, n: nat) returns (values: seq<Bytes>)
    requires inputs != [] && Placeholders(inputs, n).Ok?
    ensures |values| == |inputs| && forall k :: 0 <= k < |inputs| ==> IsValue(values[k], inputs, k, n)
    ensures Render(Placeholders(inputs, n).value) == Join(values)
  {
    hide CheckedType, Render;
    var ty := CheckedType(inputs[0].typeName).value;
    var first := ("$" + Decimal.Print(n)) + ("::text::" + ty);
    if |inputs| == 1 {
      values := [first];
      RenderThree(Parameter(n), Words("::text::"), Type(ty));
    } else {
      var rest := Placeholders(inputs[1..], n + 1).value;
      var more := ValuesRead(inputs[1..], n + 1);
      values := [first] + more;
      assert values[1..] == more;
      forall k | 0 <= k < |inputs| ensures IsValue(values[k], inputs, k, n) {
        if k > 0 {
          assert IsValue(more[k - 1], inputs[1..], k - 1, n + 1);
        }
      }
      ValueThen(n, ty, rest);
    }
  }

  function IsReturned(name: Bytes): Returned {
    if name == ROW_ID then RowAddress(name) else Column(name, name)
  }

  lemma ReturnedOneReads(name: Bytes, rest: Bytes)
    requires NoQuoteNext(rest)
    ensures ReadReturnedOne(Render(ReturnedColumn(name)) + rest) == Some((IsReturned(name), rest))
  {
    var q := QuoteIdent(name);
    if name == ROW_ID {
      RenderTwo(Words("ctid::text AS "), Name(name));
      Regroup("ctid::text AS ", q, rest);
      SkipWords("ctid::text AS ", q + rest);
      ReadQuoteIdent(name, rest);
    } else {
      RenderThree(Name(name), Words("::text AS "), Name(name));
      Regroup("::text AS ", q, rest);
      Regroup(q, "::text AS " + q, rest);
      IdentThen(name, "::text AS ", q + rest);
      ReadQuoteIdent(name, rest);
      assert (q + ("::text AS " + (q + rest)))[0] == '"';
    }
  }

  lemma {:induction false} ReturnedUnfold(names: seq<Bytes>)
    requires |names| > 1
    ensures Render(ReturnedColumns(names)) == Render(ReturnedColumn(names[0])) + (", " + Render(ReturnedColumns(names[1..])))
  {
    hide ReturnedColumn, Render;
    var rest := ReturnedColumns(names[1..]);
    RenderBoth(ReturnedColumn(names[0]), [Words(", ")] + rest);
    RenderCons(Words(", "), rest);
    assert ReturnedColumn(names[0]) + [Words(", ")] + rest == ReturnedColumn(names[0]) + ([Words(", ")] + rest);
  }

  lemma {:induction false} ReturnedStep(s: Bytes, first: Returned, more: Bytes, rest: seq<Returned>)
    requires ReadReturnedOne(s) == Some((first, ", " + more)) && ReadReturned(more) == Some(rest)
    ensures ReadReturned(s) == Some([first] + rest)
  {
    hide ReadReturnedOne;
    SkipWords(", ", more);
  }

  lemma {:induction false} ReturnedLast(s: Bytes, first: Returned)
    requires ReadReturnedOne(s) == Some((first, []))
    ensures ReadReturned(s) == Some([first])
  {
  }

  /** What `ReturnedColumns` prints reads back as the columns asked for, or the row's address if none was. */
  predicate ReadsAs(r: Option<seq<Returned>>, names: seq<Bytes>) {
    var asked := if names == [] then [ROW_ID] else names;
    r.Some? && |r.value| == |asked| && forall k :: 0 <= k < |asked| ==> r.value[k] == IsReturned(asked[k])
  }

  lemma {:induction false} ReturnedRead(names: seq<Bytes>)
    ensures ReadsAs(ReadReturned(Render(ReturnedColumns(names))), names)
  {
    hide ReturnedColumn, ReadReturnedOne, ReadReturned, Render;
    if |names| <= 1 {
      var name := if names == [] then ROW_ID else names[0];
      ReturnedOneReads(name, []);
      assert Render(ReturnedColumn(name)) + [] == Render(ReturnedColumn(name));
      ReturnedLast(Render(ReturnedColumn(name)), IsReturned(name));
    } else {
      ReturnedRead(names[1..]);
      var more := Render(ReturnedColumns(names[1..]));
      ReturnedUnfold(names);
      ReturnedOneReads(names[0], ", " + more);
      ReturnedStep(Render(ReturnedColumns(names)), IsReturned(names[0]), more, ReadReturned(more).value);
    }
  }

  lemma ColumnsText(schema: Bytes, table: Bytes, inputs: seq<InsertColumnInput>)
    ensures Render(Columns(schema, table, inputs)) ==
            "INSERT INTO " + (QuoteIdent(schema) + ("." + (QuoteIdent(table) + (" (" + Render(Names(inputs))))))
  {
    TargetText("INSERT INTO ", schema, table, " (", Names(inputs));
    assert Columns(schema, table, inputs) ==
           [Words("INSERT INTO "), Name(schema), Words("."), Name(table), Words(" (")] + Names(inputs);
  }

  lemma FiveThenMore(a: Bytes, b: Bytes, c: Bytes, d: Bytes, e: Bytes, f: Bytes, g: Bytes)
    ensures (a + (b + (c + (d + (e + f))))) + g == a + (b + (c + (d + (e + (f + g)))))
  {
    Regroup(e, f, g);
    Regroup(d, e + f, g);
    Regroup(c, d + (e + f), g);
    Regroup(b, c + (d + (e + f)), g);
    Regroup(a, b + (c + (d + (e + f))), g);
  }

  /**
   An insert names its schema and its table; the `k`th column it lists is that of the `k`th input, the `k`th
   value is the `k`th parameter as the type of that input, and the `k`th column it returns is the `k`th asked for.
   */
  lemma {:induction false} InsertReadsBack(schema: Bytes, table: Bytes, inputs: seq<InsertColumnInput>, returnColumns: seq<Bytes>)
    returns (names: seq<Bytes>, values: seq<Bytes>, returned: Bytes)
    requires inputs != [] && InsertRow(schema, table, inputs, returnColumns).Ok?
    ensures |names| == |values| == |inputs|
    ensures forall k :: 0 <= k < |inputs| ==> names[k] == inputs[k].name && IsValue(values[k], inputs, k, 1)
    ensures var target := ReadTarget("INSERT INTO ", " (", Render(InsertRow(schema, table, inputs, returnColumns).value));
            && target.Some? && target.value.schema == schema && target.value.table == table
            && ReadNames(target.value.rest) == Some((names, ") VALUES (" + (Join(values) + (") RETURNING " + returned))))
    ensures ReadsAs(ReadReturned(returned), returnColumns)
  {
    hide InsertRow, Render, ReadTarget, ReadNames, ReadReturned, CheckedType, Join;
    InsertParts(schema, table, inputs, returnColumns);
    RenderParts(Columns(schema, table, inputs), ") VALUES (", Placeholders(inputs, 1).value, ") RETURNING ", ReturnedColumns(returnColumns));
    returned := Render(ReturnedColumns(returnColumns));
    values := ValuesRead(inputs, 1);
    var rest := ") VALUES (" + (Join(values) + (") RETURNING " + returned));
    NamesRead(inputs, rest);
    names := ReadNames(Render(Names(inputs)) + rest).value.0;
    ColumnsText(schema, table, inputs);
    Regroup(Render(Columns(schema, table, inputs)), ") VALUES (", Join(values) + (") RETURNING " + returned));
    FiveThenMore("INSERT INTO ", QuoteIdent(schema), ".", QuoteIdent(table), " (", Render(Names(inputs)), rest);
    TargetReads("INSERT INTO ", schema, table, " (", Render(Names(inputs)) + rest);
    ReturnedRead(returnColumns);
  }

  /** Without inputs it takes the defaults. */
  lemma {:induction false} InsertDefaultsReadsBack(schema: Bytes, table: Bytes, returnColumns: seq<Bytes>) returns (returned: Bytes)
    ensures InsertRow(schema, table, [], returnColumns).Ok?
    ensures ReadTarget("INSERT INTO ", " DEFAULT VALUES RETURNING ", Render(InsertRow(schema, table, [], returnColumns).value)) ==
            Some(Target(schema, table, returned))
    ensures ReadsAs(ReadReturned(returned), returnColumns)
  {
    var ps := ReturnedColumns(returnColumns);
    returned := Render(ps);
    assert InsertRow(schema, table, [], returnColumns).value ==
           [Words("INSERT INTO "), Name(schema), Words("."), Name(table), Words(" DEFAULT VALUES RETURNING ")] + ps;
    TargetText("INSERT INTO ", schema, table, " DEFAULT VALUES RETURNING ", ps);
    TargetReads("INSERT INTO ", schema, table, " DEFAULT VALUES RETURNING ", returned);
    ReturnedRead(returnColumns);
  }
}
