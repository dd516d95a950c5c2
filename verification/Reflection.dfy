/** Which reflected tables become models, and what a database import makes of its column rows. */
module Reflection {
  import opened Wrappers
  import opened Naming
  import opened SchemaText

  datatype Column = Column(
    field: string, column: string, kind: Kind, members: seq<string>, optional: bool, note: string, primary: bool)

  datatype Table = Table(table: string, called: string, columns: seq<Column>, relations: seq<Relation>)

  datatype Reason = NoKey | NoTenancy

  datatype Skip = Skip(name: string, reason: Reason)

  const TENANCY_COLUMN := "organization_id"

  predicate IsBase(c: Column) {
    c.field in {"id", "organizationId"} || c.column in {"id", TENANCY_COLUMN}
  }

  predicate IsKey(c: Column) { c.primary || c.field == "id" || c.column == "id" }

  predicate IsTenancy(c: Column) { c.field == "organizationId" || c.column == TENANCY_COLUMN }

  predicate HasKey(columns: seq<Column>) { exists c :: c in columns && IsKey(c) }

  predicate HasTenancy(columns: seq<Column>) { exists c :: c in columns && IsTenancy(c) }

  predicate Adoptable(t: Table) { HasKey(t.columns) && HasTenancy(t.columns) }

  function FieldOf(c: Column): Field { Field(c.field, c.kind, c.members, c.optional, c.column, c.note) }

  // What passes a test, in order.
  function Where<T(!new)>(s: seq<T>, test: T -> bool): (kept: seq<T>)
    ensures forall x :: x in kept <==> x in s && test(x)
  {
    if s == [] then [] else (if test(s[0]) then [s[0]] else []) + Where(s[1..], test)
  }

  lemma {:induction false} WhereOfMore<T(!new)>(s: seq<T>, x: T, test: T -> bool)
    ensures Where(s + [x], test) == if test(x) then Where(s, test) + [x] else Where(s, test)
  {
    if s == [] {
      assert s + [x] == [x] && [x][1..] == [];
    } else {
      assert (s + [x])[1..] == s[1..] + [x];
      WhereOfMore(s[1..], x, test);
    }
  }

  // An element that passes has its place after those before it that pass.
  lemma {:induction false} WhereKeepsPlaces<T(!new)>(s: seq<T>, i: nat, test: T -> bool)
    requires i < |s| && test(s[i])
    ensures |Where(s[..i], test)| < |Where(s, test)| && Where(s, test)[|Where(s[..i], test)|] == s[i]
  {
    if i > 0 {
      WhereKeepsPlaces(s[1..], i - 1, test);
      assert s[..i][1..] == s[1..][..i - 1];
    }
  }

  // Filtering a prefix gives a prefix.
  lemma {:induction false} WhereOfPrefix<T(!new)>(s: seq<T>, i: nat, test: T -> bool)
    requires i <= |s|
    ensures Where(s[..i], test) <= Where(s, test)
  {
    if i > 0 {
      WhereOfPrefix(s[1..], i - 1, test);
      assert s[..i][1..] == s[1..][..i - 1];
    }
  }

  // The columns the engine does not own, in order.
  function Own(columns: seq<Column>): seq<Column> { Where(columns, (c: Column) => !IsBase(c)) }

  function FieldsOf(columns: seq<Column>): seq<Field> {
    var own := Own(columns);
    seq(|own|, i requires 0 <= i < |own| => FieldOf(own[i]))
  }

  function ModelOf(t: Table): Model { Model(t.table, FieldsOf(t.columns), t.relations) }

  function SkipOf(t: Table): Skip { Skip(t.called, if HasKey(t.columns) then NoTenancy else NoKey) }

  function AdoptedTables(tables: seq<Table>): seq<Table> { Where(tables, Adoptable) }

  function SkippedTables(tables: seq<Table>): seq<Table> { Where(tables, (t: Table) => !Adoptable(t)) }

  function Adopted(tables: seq<Table>): seq<Model> {
    var adopted := AdoptedTables(tables);
    seq(|adopted|, i requires 0 <= i < |adopted| => ModelOf(adopted[i]))
  }

  function Skipped(tables: seq<Table>): seq<Skip> {
    var skipped := SkippedTables(tables);
    seq(|skipped|, i requires 0 <= i < |skipped| => SkipOf(skipped[i]))
  }

  lemma AdoptedOfMore(tables: seq<Table>, t: Table)
    ensures Adopted(tables + [t]) == if Adoptable(t) then Adopted(tables) + [ModelOf(t)] else Adopted(tables)
  {
    WhereOfMore(tables, t, Adoptable);
  }

  lemma SkippedOfMore(tables: seq<Table>, t: Table)
    ensures Skipped(tables + [t]) == if Adoptable(t) then Skipped(tables) else Skipped(tables) + [SkipOf(t)]
  {
    WhereOfMore(tables, t, (other: Table) => !Adoptable(other));
  }

  lemma ScannedMore(columns: seq<Column>, c: Column)
    ensures HasKey(columns + [c]) == (HasKey(columns) || IsKey(c))
    ensures HasTenancy(columns + [c]) == (HasTenancy(columns) || IsTenancy(c))
  {
    assert forall other :: other in columns + [c] <==> other in columns || other == c;
  }

  lemma FieldsOfMore(columns: seq<Column>, c: Column)
    ensures FieldsOf(columns + [c]) == FieldsOf(columns) + if IsBase(c) then [] else [FieldOf(c)]
  {
    WhereOfMore(columns, c, (other: Column) => !IsBase(other));
  }

  // One table's columns: what the loop finds and the fields it pushes.
  method ScanColumns(columns: seq<Column>) returns (hasKey: bool, hasTenancy: bool, fields: seq<Field>)
    ensures hasKey == HasKey(columns) && hasTenancy == HasTenancy(columns) && fields == FieldsOf(columns)
  {
    hasKey, hasTenancy, fields := false, false, [];
    for i := 0 to |columns|
      invariant hasKey == HasKey(columns[..i]) && hasTenancy == HasTenancy(columns[..i])
      invariant fields == FieldsOf(columns[..i])
    {
      var c := columns[i];
      assert columns[..i + 1] == columns[..i] + [c];
      ScannedMore(columns[..i], c);
      FieldsOfMore(columns[..i], c);
      hasKey := hasKey || IsKey(c);
      hasTenancy := hasTenancy || IsTenancy(c);
      if !IsBase(c) { fields := fields + [FieldOf(c)]; }
    }
    assert columns[..|columns|] == columns;
  }

  /** `adoptReflection`. */
  method AdoptReflection(tables: seq<Table>) returns (models: seq<Model>, skipped: seq<Skip>)
    ensures models == Adopted(tables) && skipped == Skipped(tables)
  {
    models, skipped := [], [];
    for i := 0 to |tables|
      invariant models == Adopted(tables[..i]) && skipped == Skipped(tables[..i])
    {
      ReflectedMore(tables, i);
      var hasKey, hasTenancy, fields := ScanColumns(tables[i].columns);
      if !hasKey || !hasTenancy {
        skipped := skipped + [Skip(tables[i].called, if hasKey then NoTenancy else NoKey)];
      } else {
        models := models + [Model(tables[i].table, fields, tables[i].relations)];
      }
    }
    assert tables[..|tables|] == tables;
  }

  lemma ReflectedMore(tables: seq<Table>, i: nat)
    requires i < |tables|
    ensures var t, before, after := tables[i], tables[..i], tables[..i + 1];
      && Adopted(after) == (if Adoptable(t) then Adopted(before) + [ModelOf(t)] else Adopted(before))
      && Skipped(after) == (if Adoptable(t) then Skipped(before) else Skipped(before) + [SkipOf(t)])
  {
    AdoptedOfMore(tables[..i], tables[i]);
    SkippedOfMore(tables[..i], tables[i]);
    assert tables[..i + 1] == tables[..i] + [tables[i]];
  }

  /** Every table is adopted or skipped exactly once, in order: the counts add up, and a table's place in
      its list is the number of its kind before it. */
  lemma EachTableOnce(tables: seq<Table>, i: nat)
    requires i < |tables|
    ensures |Adopted(tables)| + |Skipped(tables)| == |tables|
    ensures Adoptable(tables[i]) ==>
      |Adopted(tables[..i])| < |Adopted(tables)| && Adopted(tables)[|Adopted(tables[..i])|] == ModelOf(tables[i])
    ensures !Adoptable(tables[i]) ==>
      |Skipped(tables[..i])| < |Skipped(tables)| && Skipped(tables)[|Skipped(tables[..i])|] == SkipOf(tables[i])
  {
    CountsAddUp(tables);
    if Adoptable(tables[i]) {
      WhereKeepsPlaces(tables, i, Adoptable);
    } else {
      WhereKeepsPlaces(tables, i, (t: Table) => !Adoptable(t));
    }
  }

  lemma {:induction false} CountsAddUp(tables: seq<Table>)
    ensures |AdoptedTables(tables)| + |SkippedTables(tables)| == |tables|
  {
    if tables != [] { CountsAddUp(tables[1..]); }
  }

  /** A column's fate: in an adopted table every column but the engine's own is declared, in order, for
      that very column. */
  lemma FieldsDeclareColumns(columns: seq<Column>)
    requires forall c :: c in columns ==> c.column != ""
    ensures |FieldsOf(columns)| == |Own(columns)|
    ensures forall i :: 0 <= i < |Own(columns)| ==> DeclaredBy(FieldsOf(columns)[i]).column == Own(columns)[i].column
  {
    forall i | 0 <= i < |Own(columns)| ensures DeclaredBy(FieldsOf(columns)[i]).column == Own(columns)[i].column {
      assert Own(columns)[i] in Own(columns);
    }
  }

  /** Database import. */

  datatype Row = Row(table: string, column: string, dataType: string, nullable: string)

  function Lowered(s: string): string { seq(|s|, i requires 0 <= i < |s| => ToLower(s[i])) }

  function PgTypeToKind(dataType: string): (Kind, string) {
    var t := Lowered(dataType);
    if t in {"text", "character varying", "varchar", "character", "char", "citext", "uuid", "name"} then (Text, "")
    else if t in {"integer", "bigint", "smallint", "numeric", "double precision", "real", "decimal"} then (Number, "")
    else if t == "boolean" then (Boolean, "")
    else if StartsWith(t, "timestamp") || t == "date" || StartsWith(t, "time") then (Date, "")
    else if t == "jsonb" || t == "json" then (Json, "")
    else if t == "array" || (|t| >= 2 && t[|t| - 2..] == "[]") then (Json, dataType + " \U{2014} stored as JSON")
    else (Text, "was " + dataType + " (verify type)")
  }

  function ColumnOf(r: Row): Column {
    Column(FieldNameForColumn(r.column), r.column, PgTypeToKind(r.dataType).0, [], r.nullable == "YES",
           PgTypeToKind(r.dataType).1, false)
  }

  // A table's rows, in order.
  function RowsOf(rows: seq<Row>, t: string): seq<Row> { Where(rows, (r: Row) => r.table == t) }

  lemma RowsOfMore(rows: seq<Row>, r: Row, t: string)
    ensures RowsOf(rows + [r], t) == if r.table == t then RowsOf(rows, t) + [r] else RowsOf(rows, t)
  {
    WhereOfMore(rows, r, (other: Row) => other.table == t);
  }

  function Group(byTable: map<string, seq<Row>>, t: string): seq<Row> { if t in byTable then byTable[t] else [] }

  ghost predicate GroupAt(byTable: map<string, seq<Row>>, rows: seq<Row>, t: string) {
    Group(byTable, t) == RowsOf(rows, t) && (t in byTable <==> RowsOf(rows, t) != [])
  }

  lemma GroupAtMore(byTable: map<string, seq<Row>>, rows: seq<Row>, r: Row, t: string)
    requires GroupAt(byTable, rows, r.table) && GroupAt(byTable, rows, t)
    ensures GroupAt(byTable[r.table := Group(byTable, r.table) + [r]], rows + [r], t)
  {
    RowsOfMore(rows, r, t);
  }

  // The grouping loop of `lowerColumnRows`.
  method GroupRows(rows: seq<Row>) returns (byTable: map<string, seq<Row>>)
    ensures forall t :: GroupAt(byTable, rows, t)
  {
    byTable := map[];
    for i := 0 to |rows|
      invariant forall t :: GroupAt(byTable, rows[..i], t)
    {
      var more := byTable[rows[i].table := Group(byTable, rows[i].table) + [rows[i]]];
      assert rows[..i + 1] == rows[..i] + [rows[i]];
      ghost var now := rows[..i + 1];
      forall t ensures GroupAt(more, now, t) { GroupAtMore(byTable, rows[..i], rows[i], t); }
      byTable := more;
    }
    assert rows[..|rows|] == rows;
  }

  /** Every row lands in its own table's group, at the place its predecessors leave, and in no other. */
  lemma EachRowOnce(rows: seq<Row>, i: nat, t: string)
    requires i < |rows|
    ensures rows[i] in RowsOf(rows, t) <==> t == rows[i].table
    ensures t == rows[i].table ==>
      |RowsOf(rows[..i], t)| < |RowsOf(rows, t)| && RowsOf(rows, t)[|RowsOf(rows[..i], t)|] == rows[i]
    ensures forall r :: r in RowsOf(rows, t) ==> r in rows && r.table == t
  {
    if t == rows[i].table { WhereKeepsPlaces(rows, i, (r: Row) => r.table == t); }
  }

  function ColumnsOf(own: seq<Row>): seq<Column> {
    seq(|own|, i requires 0 <= i < |own| => ColumnOf(own[i]))
  }

  function TableOf(rows: seq<Row>, t: string): Table { Table(t, t, ColumnsOf(RowsOf(rows, t)), []) }

  function Imported(rows: seq<Row>, order: seq<string>): seq<Table> {
    seq(|order|, i requires 0 <= i < |order| => TableOf(rows, order[i]))
  }

  // An order of the tables: each that has rows is listed, once, and no other.
  ghost predicate ListsTables(order: seq<string>, rows: seq<Row>) {
    && (forall i, j :: 0 <= i < j < |order| ==> order[i] != order[j])
    && forall t :: t in order <==> RowsOf(rows, t) != []
  }

  /** `lowerColumnRows`, with the tables in the order its sort gives. */
  method LowerColumnRows(rows: seq<Row>, order: seq<string>) returns (models: seq<Model>, skipped: seq<Skip>)
    requires ListsTables(order, rows)
    ensures models == Adopted(Imported(rows, order)) && skipped == Skipped(Imported(rows, order))
  {
    var byTable := GroupRows(rows);
    var tables: seq<Table> := [];
    for i := 0 to |order|
      invariant tables == Imported(rows, order)[..i]
    {
      assert order[i] in order;
      assert GroupAt(byTable, rows, order[i]);
      tables := tables + [Table(order[i], order[i], ColumnsOf(byTable[order[i]]), [])];
    }
    assert tables == Imported(rows, order);
    models, skipped := AdoptReflection(tables);
  }

  // Where a table of an import is reported: its place in the order, and in the list it falls into.
  datatype Place = Place(table: nat, entry: nat)

  // Exactly one entry of the result, adopted or skipped, bears the table's name, and it is the table's.
  ghost predicate ReportedOnce(rows: seq<Row>, order: seq<string>, t: string, at: Place) {
    var tables := Imported(rows, order);
    && at.table < |order| && order[at.table] == t && t !in order[..at.table] && t !in order[at.table + 1..]
    && if Adoptable(TableOf(rows, t)) then
         && at.entry < |Adopted(tables)| && Adopted(tables)[at.entry] == ModelOf(TableOf(rows, t))
         && (forall i :: 0 <= i < |Adopted(tables)| && Adopted(tables)[i].key == t ==> i == at.entry)
         && (forall i :: 0 <= i < |Skipped(tables)| ==> Skipped(tables)[i].name != t)
       else
         && at.entry < |Skipped(tables)| && Skipped(tables)[at.entry] == SkipOf(TableOf(rows, t))
         && (forall i :: 0 <= i < |Skipped(tables)| && Skipped(tables)[i].name == t ==> i == at.entry)
         && (forall i :: 0 <= i < |Adopted(tables)| ==> Adopted(tables)[i].key != t)
  }

  ghost predicate DistinctNames(tables: seq<Table>) {
    forall i, j :: 0 <= i < j < |tables| ==> tables[i].table != tables[j].table
  }

  lemma OneMoreName(t: Table, rest: seq<Table>)
    requires DistinctNames(rest) && forall other :: other in rest ==> other.table != t.table
    ensures DistinctNames([t] + rest)
  {
    var all := [t] + rest;
    forall i, j | 0 <= i < j < |all| ensures all[i].table != all[j].table { assert all[j] == rest[j - 1]; }
  }

  // What passes a test keeps distinct names.
  lemma {:induction false} WhereStaysDistinct(tables: seq<Table>, test: Table -> bool)
    requires DistinctNames(tables)
    ensures DistinctNames(Where(tables, test))
  {
    if tables != [] {
      assert forall k :: 0 <= k < |tables[1..]| ==> tables[1..][k] == tables[k + 1];
      WhereStaysDistinct(tables[1..], test);
      var rest := Where(tables[1..], test);
      assert Where(tables, test) == if test(tables[0]) then [tables[0]] + rest else rest;
      if test(tables[0]) { OneMoreName(tables[0], rest); }
    }
  }

  lemma ImportedTables(rows: seq<Row>, order: seq<string>)
    requires ListsTables(order, rows)
    ensures DistinctNames(Imported(rows, order))
    ensures forall t :: t in Imported(rows, order) ==> t == TableOf(rows, t.table)
  {}

  // Of one table's two places only its own bears its name.
  lemma OnlyPlace(tables: seq<Table>, t: Table, test: Table -> bool, m: nat)
    requires DistinctNames(tables) && t in tables && m < |Where(tables, test)| && Where(tables, test)[m] == t
    ensures var kept := Where(tables, test);
      forall i :: 0 <= i < |kept| && kept[i].table == t.table ==> i == m
  {
    WhereStaysDistinct(tables, test);
  }

  lemma NoPlace(tables: seq<Table>, t: Table, test: Table -> bool)
    requires DistinctNames(tables) && t in tables && !test(t)
    ensures var kept := Where(tables, test);
      forall i :: 0 <= i < |kept| ==> kept[i].table != t.table
  {
    var kept := Where(tables, test);
    forall i | 0 <= i < |kept| ensures kept[i].table != t.table { assert kept[i] in kept; }
  }

  lemma AdoptedReportedOnce(rows: seq<Row>, order: seq<string>, k: nat)
    requires ListsTables(order, rows) && k < |order| && Adoptable(TableOf(rows, order[k]))
    ensures ReportedOnce(rows, order, order[k], Place(k, |Adopted(Imported(rows, order)[..k])|))
  {
    var tables, t := Imported(rows, order), TableOf(rows, order[k]);
    assert tables[k] == t;
    ImportedTables(rows, order);
    EachTableOnce(tables, k);
    WhereKeepsPlaces(tables, k, Adoptable);
    OnlyPlace(tables, t, Adoptable, |AdoptedTables(tables[..k])|);
    NoPlace(tables, t, (other: Table) => !Adoptable(other));
    SkipsAreCalled(rows, order);
  }

  lemma SkippedReportedOnce(rows: seq<Row>, order: seq<string>, k: nat)
    requires ListsTables(order, rows) && k < |order| && !Adoptable(TableOf(rows, order[k]))
    ensures ReportedOnce(rows, order, order[k], Place(k, |Skipped(Imported(rows, order)[..k])|))
  {
    var tables, t := Imported(rows, order), TableOf(rows, order[k]);
    assert tables[k] == t;
    ImportedTables(rows, order);
    EachTableOnce(tables, k);
    WhereKeepsPlaces(tables, k, (other: Table) => !Adoptable(other));
    OnlyPlace(tables, t, (other: Table) => !Adoptable(other), |SkippedTables(tables[..k])|);
    NoPlace(tables, t, Adoptable);
    SkipsAreCalled(rows, order);
  }

  // An imported table is reported under its own name.
  lemma SkipsAreCalled(rows: seq<Row>, order: seq<string>)
    requires ListsTables(order, rows)
    ensures var tables := Imported(rows, order);
      forall i :: 0 <= i < |Skipped(tables)| ==> Skipped(tables)[i].name == SkippedTables(tables)[i].table
  {
    var tables := Imported(rows, order);
    forall i | 0 <= i < |Skipped(tables)| ensures Skipped(tables)[i].name == SkippedTables(tables)[i].table {
      assert SkippedTables(tables)[i] in SkippedTables(tables);
      ImportedTables(rows, order);
    }
  }

  lemma TableReportedOnce(rows: seq<Row>, order: seq<string>, k: nat) returns (at: Place)
    requires ListsTables(order, rows) && k < |order|
    ensures at.table == k && ReportedOnce(rows, order, order[k], at)
  {
    if Adoptable(TableOf(rows, order[k])) {
      AdoptedReportedOnce(rows, order, k);
      at := Place(k, |Adopted(Imported(rows, order)[..k])|);
    } else {
      SkippedReportedOnce(rows, order, k);
      at := Place(k, |Skipped(Imported(rows, order)[..k])|);
    }
  }

  // Where a row's own column stands among its table's fields.
  function FieldPlace(rows: seq<Row>, i: nat): nat
    requires i < |rows|
  {
    |Own(ColumnsOf(RowsOf(rows[..i], rows[i].table)))|
  }

  lemma ColumnsOfPrefix(own: seq<Row>, n: nat)
    requires n <= |own|
    ensures ColumnsOf(own)[..n] == ColumnsOf(own[..n])
  {}

  lemma FieldStands(rows: seq<Row>, i: nat)
    requires i < |rows| && !IsBase(ColumnOf(rows[i]))
    ensures var fields := FieldsOf(ColumnsOf(RowsOf(rows, rows[i].table)));
      FieldPlace(rows, i) < |fields| && fields[FieldPlace(rows, i)] == FieldOf(ColumnOf(rows[i]))
  {
    var t := rows[i].table;
    var own, before := RowsOf(rows, t), RowsOf(rows[..i], t);
    EachRowOnce(rows, i, t);
    WhereOfPrefix(rows, i, (r: Row) => r.table == t);
    assert own[..|before|] == before;
    ColumnsOfPrefix(own, |before|);
    WhereKeepsPlaces(ColumnsOf(own), |before|, (c: Column) => !IsBase(c));
  }

  /** An import loses nothing: every row's table is exactly one entry, adopted or skipped, and in an
      adopted table every row but those of the engine's own columns is the field at its own place,
      declared for its own column. */
  lemma EveryRowIsImported(rows: seq<Row>, order: seq<string>, i: nat) returns (at: Place)
    requires ListsTables(order, rows) && i < |rows|
    ensures ReportedOnce(rows, order, rows[i].table, at)
    ensures Adoptable(TableOf(rows, rows[i].table)) && !IsBase(ColumnOf(rows[i])) ==>
      var fields := Adopted(Imported(rows, order))[at.entry].fields;
      && FieldPlace(rows, i) < |fields| && fields[FieldPlace(rows, i)] == FieldOf(ColumnOf(rows[i]))
      && (rows[i].column != "" ==> DeclaredBy(fields[FieldPlace(rows, i)]).column == rows[i].column)
  {
    var t := rows[i].table;
    EachRowOnce(rows, i, t);
    assert t in order;
    var k :| 0 <= k < |order| && order[k] == t;
    at := TableReportedOnce(rows, order, k);
    if !IsBase(ColumnOf(rows[i])) { FieldStands(rows, i); }
  }

  /** And invents nothing: every field of every adopted model is some row's of that table, the engine's
      own columns aside, and every skip names a table with rows. */
  lemma EveryFieldIsARow(rows: seq<Row>, order: seq<string>)
    requires ListsTables(order, rows)
    ensures forall m, f :: m in Adopted(Imported(rows, order)) && f in m.fields ==>
      exists r :: r in rows && r.table == m.key && f == FieldOf(ColumnOf(r)) && !IsBase(ColumnOf(r))
    ensures forall skip :: skip in Skipped(Imported(rows, order)) ==> RowsOf(rows, skip.name) != []
  {
    ImportedTables(rows, order);
    var tables := Imported(rows, order);
    forall m, f | m in Adopted(tables) && f in m.fields
      ensures exists r :: r in rows && r.table == m.key && f == FieldOf(ColumnOf(r)) && !IsBase(ColumnOf(r))
    {
      var k :| 0 <= k < |Adopted(tables)| && Adopted(tables)[k] == m;
      assert AdoptedTables(tables)[k] in AdoptedTables(tables);
      FieldIsARow(rows, m.key, f);
    }
    forall skip | skip in Skipped(tables) ensures RowsOf(rows, skip.name) != [] {
      var k :| 0 <= k < |Skipped(tables)| && Skipped(tables)[k] == skip;
      assert SkippedTables(tables)[k] in SkippedTables(tables);
    }
  }

  lemma FieldIsARow(rows: seq<Row>, t: string, f: Field)
    requires f in FieldsOf(ColumnsOf(RowsOf(rows, t)))
    ensures exists r :: r in rows && r.table == t && f == FieldOf(ColumnOf(r)) && !IsBase(ColumnOf(r))
  {
    var columns := ColumnsOf(RowsOf(rows, t));
    var k :| 0 <= k < |Own(columns)| && f == FieldOf(Own(columns)[k]);
    assert Own(columns)[k] in Own(columns) && Own(columns)[k] in columns;
    var n :| 0 <= n < |columns| && columns[n] == Own(columns)[k];
    assert RowsOf(rows, t)[n] in RowsOf(rows, t);
  }

  // No name holds a line break.
  predicate Clean(rows: seq<Row>) {
    forall r :: r in rows ==> OneLine(r.table) && OneLine(r.column) && OneLine(r.dataType)
  }

  lemma FieldNameIsOneLine(column: string)
    requires OneLine(column)
    ensures OneLine(SnakeToCamel(column)) && OneLine(FieldNameForColumn(column))
  {
    CamelIsOneLine(column);
  }

  lemma {:induction false} CamelIsOneLine(s: string)
    requires OneLine(s)
    ensures OneLine(SnakeToCamel(s))
  {
    if s == "" {
    } else if Joins(s) {
      assert forall i :: 0 <= i < |s[2..]| ==> s[2..][i] == s[i + 2];
      CamelIsOneLine(s[2..]);
      assert SnakeToCamel(s) == [ToUpper(s[1])] + SnakeToCamel(s[2..]);
    } else {
      assert forall i :: 0 <= i < |s[1..]| ==> s[1..][i] == s[i + 1];
      CamelIsOneLine(s[1..]);
      assert SnakeToCamel(s) == [s[0]] + SnakeToCamel(s[1..]);
    }
  }

  lemma NoteIsOneLine(dataType: string)
    requires OneLine(dataType)
    ensures OneLine(PgTypeToKind(dataType).1)
  {
    var listed, unknown := dataType + " \U{2014} stored as JSON", "was " + dataType + " (verify type)";
    assert OneLine(listed) && OneLine(unknown);
    assert PgTypeToKind(dataType).1 in {"", listed, unknown};
  }

  lemma RowIsPrintable(r: Row)
    requires OneLine(r.column) && OneLine(r.dataType)
    ensures Printable(FieldOf(ColumnOf(r)))
  {
    FieldNameIsOneLine(r.column);
    NoteIsOneLine(r.dataType);
  }

  lemma ImportedIsPrintable(rows: seq<Row>, t: string)
    requires Clean(rows) && OneLine(t)
    ensures PrintableModel(ModelOf(TableOf(rows, t)))
  {
    var own := RowsOf(rows, t);
    var columns := ColumnsOf(own);
    forall c | c in Own(columns) ensures Printable(FieldOf(c)) {
      assert c in columns;
      var k :| 0 <= k < |own| && c == ColumnOf(own[k]);
      assert own[k] in own;
      RowIsPrintable(own[k]);
    }
    assert forall i :: 0 <= i < |Own(columns)| ==> Own(columns)[i] in Own(columns);
  }

  /** What an import prints, read back, declares every adopted model, field for field. */
  lemma ImportReadsBack(rows: seq<Row>, order: seq<string>)
    requires Clean(rows) && ListsTables(order, rows)
    ensures ReadSchema(SchemaLines(Adopted(Imported(rows, order))))
      == Some(DeclaredModels(Adopted(Imported(rows, order))))
  {
    var tables := Imported(rows, order);
    var models := Adopted(tables);
    forall t | t in tables ensures PrintableModel(ModelOf(t)) {
      var i :| 0 <= i < |tables| && t == tables[i];
      assert order[i] in order && RowsOf(rows, order[i]) != [];
      assert RowsOf(rows, order[i])[0] in RowsOf(rows, order[i]);
      ImportedIsPrintable(rows, order[i]);
    }
    AdoptedArePrintable(tables);
    SchemaReadsBack(models);
  }

  lemma AdoptedArePrintable(tables: seq<Table>)
    requires forall t :: t in tables ==> PrintableModel(ModelOf(t))
    ensures forall i :: 0 <= i < |Adopted(tables)| ==> PrintableModel(Adopted(tables)[i])
  {
    var adopted := AdoptedTables(tables);
    assert forall i :: 0 <= i < |adopted| ==> adopted[i] in adopted;
  }

  // Two columns of the list under one key.
  predicate Clash(columns: seq<string>, i: nat, j: nat) {
    i < |columns| && j < |columns| && i != j && FieldNameForColumn(columns[i]) == FieldNameForColumn(columns[j])
  }

  /** Distinct columns get distinct keys exactly when no column stands beside its own camel-case spelling;
      so always where no column has an upper-case letter. */
  lemma KeysAreDistinct(columns: seq<string>)
    requires forall i, j :: 0 <= i < j < |columns| ==> columns[i] != columns[j]
    ensures (exists i, j :: Clash(columns, i, j))
      <==> exists i, j :: 0 <= i < |columns| && 0 <= j < |columns| && Shadows(columns[i], columns[j])
    ensures (forall i :: 0 <= i < |columns| ==> !HasUpper(columns[i])) ==> !exists i, j :: Clash(columns, i, j)
  {
    forall i, j | 0 <= i < |columns| && 0 <= j < |columns| && i != j
      ensures Clash(columns, i, j) <==> Shadows(columns[i], columns[j]) || Shadows(columns[j], columns[i])
    {
      assert columns[i] != columns[j] by { if i < j {} else {} }
      WhenKeysCollide(columns[i], columns[j]);
    }
    forall i | 0 <= i < |columns| ensures !Shadows(columns[i], columns[i]) {
      SnakeHasNoUpper(columns[i]);
    }
  }

  /** Prisma fields. */

  // A scalar, enum or unknown field of a model; `mapped` is its @map name, never empty.
  datatype RawField = RawField(
    name: string, typeName: string, list: bool, optional: bool, mapped: Option<string>, isId: bool)

  function ScalarKind(typeName: string): Option<(Kind, string)> {
    if typeName == "String" then Some((Text, ""))
    else if typeName == "Boolean" then Some((Boolean, ""))
    else if typeName in {"Int", "BigInt", "Float"} then Some((Number, ""))
    else if typeName == "Decimal" then Some((Number, "Decimal \U{2192} number (precision not preserved)"))
    else if typeName == "DateTime" then Some((Date, ""))
    else if typeName == "Json" then Some((Json, ""))
    else if typeName == "Bytes" then Some((Json, "Bytes has no engine type \U{2014} review"))
    else None
  }

  // The kind and note before lists are considered.
  function Sort(typeName: string, enums: map<string, seq<string>>): (Kind, string) {
    var scalar := ScalarKind(typeName);
    if scalar.Some? then scalar.value
    else if typeName in enums && enums[typeName] != [] then (Enum, "")
    else if typeName in enums then (Text, "enum " + typeName + " had no members")
    else (Json, "unrecognized type \"" + typeName + "\" \U{2014} stored as JSON")
  }

  function LowerField(raw: RawField, enums: map<string, seq<string>>): Column {
    var (kind, note) := Sort(raw.typeName, enums);
    var list := (if kind == Enum then "enum list (" else "list (") + raw.typeName + "[]) \U{2014} stored as JSON";
    Column(raw.name, if raw.mapped.Some? then raw.mapped.value else CamelToSnake(raw.name),
           if raw.list then Json else kind,
           if kind == Enum && !raw.list then enums[raw.typeName] else [],
           raw.optional, if !raw.list || (note != "" && kind != Enum) then note else list, raw.isId)
  }

  /** A lowered field is declared as it was lowered: it is an enum exactly when its type is one with
      members and it is no list, its members are then that enum's, and it stands for the column it names,
      so the printer's fallback for an empty enum is never taken. */
  lemma LoweredIsDeclared(raw: RawField, enums: map<string, seq<string>>)
    requires raw.mapped.Some? ==> raw.mapped.value != ""
    ensures var c := LowerField(raw, enums);
      && (c.kind == Enum <==>
            ScalarKind(raw.typeName).None? && raw.typeName in enums && enums[raw.typeName] != [] && !raw.list)
      && (c.kind == Enum ==> c.members == enums[raw.typeName] && c.members != [])
      && DeclaredBy(FieldOf(c)) == Declared(raw.name, c.kind, c.members, raw.optional,
                                            if raw.mapped.Some? then raw.mapped.value else CamelToSnake(raw.name))
  {
    var c := LowerField(raw, enums);
    if c.column == "" { SnakeOfNothing(raw.name); }
  }

  /** Printed and read back, a lowered field is an enum exactly then, with those members and that column. */
  lemma LoweredReadsBack(raw: RawField, enums: map<string, seq<string>>, rest: string)
    requires raw.mapped.Some? ==> raw.mapped.value != ""
    requires Printable(FieldOf(LowerField(raw, enums))) && (rest == "" || rest[0] == ',')
    ensures var read := ReadField(raw.name, FieldExpr(FieldOf(LowerField(raw, enums))) + rest);
      && read.Some? && read.value.1 == rest && read.value.0.optional == raw.optional
      && read.value.0.column == (if raw.mapped.Some? then raw.mapped.value else CamelToSnake(raw.name))
      && (read.value.0.kind == Enum <==>
            ScalarKind(raw.typeName).None? && raw.typeName in enums && enums[raw.typeName] != [] && !raw.list)
      && (read.value.0.kind == Enum ==> read.value.0.members == enums[raw.typeName])
  {
    LoweredIsDeclared(raw, enums);
    FieldReadsBack(FieldOf(LowerField(raw, enums)), rest);
  }

  lemma SnakeOfNothing(name: string)
    ensures CamelToSnake(name) == "" ==> name == ""
  {}
}
