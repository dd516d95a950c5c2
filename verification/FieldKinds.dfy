/** What each kind of column is declared as, and which columns and tables are the engine's own. */
module FieldKinds {
  import opened Wrappers
  import opened Naming
  import opened SchemaText
  import opened Reflection

  /** Database types, whatever the case they are written in. */
  lemma TextTypes(dataType: string)
    requires Lowered(dataType) in
      ["text", "character varying", "varchar", "character", "char", "citext", "uuid", "name"]
    ensures PgTypeToKind(dataType) == (Text, "")
  {}

  lemma NumberTypes(dataType: string)
    requires Lowered(dataType) in
      ["smallint", "integer", "bigint", "decimal", "numeric", "real", "double precision"]
    ensures PgTypeToKind(dataType) == (Number, "")
  {}

  lemma BooleanType(dataType: string)
    requires Lowered(dataType) == "boolean"
    ensures PgTypeToKind(dataType) == (Boolean, "")
  {}

  lemma DateTypes(dataType: string)
    requires Lowered(dataType) == "date" || "time" <= Lowered(dataType)
    ensures PgTypeToKind(dataType) == (Date, "")
  {
    var t := Lowered(dataType);
    if t != "date" {
      assert t[..4] == "time" && t[0] == 't' && t[1] == 'i';
    }
  }

  lemma JsonTypes(dataType: string)
    requires Lowered(dataType) == "json" || Lowered(dataType) == "jsonb"
    ensures PgTypeToKind(dataType) == (Json, "")
  {
    assert Lowered(dataType)[0] == 'j';
  }

  // The types listed above.
  predicate IsKnown(t: string) {
    || t in ["text", "character varying", "varchar", "character", "char", "citext", "uuid", "name"]
    || t in ["smallint", "integer", "bigint", "decimal", "numeric", "real", "double precision"]
    || t in ["boolean", "date", "json", "jsonb"] || "time" <= t
  }

  lemma TimesStartAlike(t: string)
    ensures StartsWith(t, "time") <==> "time" <= t
    ensures StartsWith(t, "timestamp") ==> "time" <= t
  {
    if StartsWith(t, "timestamp") { assert t[..4] == t[..9][..4] == "time"; }
  }

  /** Any other type is an array, stored as JSON, or is taken as text and flagged; both say so in a note. */
  lemma OtherTypes(dataType: string)
    requires !IsKnown(Lowered(dataType))
    ensures var t := Lowered(dataType);
      if t == "array" || (|t| >= 2 && t[|t| - 2] == '[' && t[|t| - 1] == ']')
      then PgTypeToKind(dataType) == (Json, dataType + " \U{2014} stored as JSON")
      else PgTypeToKind(dataType) == (Text, "was " + dataType + " (verify type)")
  {
    TimesStartAlike(Lowered(dataType));
  }

  /** What one row of an import declares: its own column, optional exactly when it is nullable, under a field
      name the engine takes back to that column or under the column's own name. */
  lemma WhatARowDeclares(r: Row)
    ensures var c := ColumnOf(r);
      && c.column == r.column && c.members == [] && !c.primary && (c.optional <==> r.nullable == "YES")
      && (c.field == r.column || CamelToSnake(c.field) == r.column)
      && (c.kind, c.note) == PgTypeToKind(r.dataType)
  {}

  // A field is named after its column, or after the column the engine derives from it.
  lemma FieldIs(column: string)
    ensures FieldNameForColumn(column) == column || CamelToSnake(FieldNameForColumn(column)) == column
    ensures HasUpper(column) ==> FieldNameForColumn(column) == column
  {
    SnakeHasNoUpper(SnakeToCamel(column));
  }

  // Lower-case text passes through.
  lemma {:induction false} SnakeAfter(plain: string, rest: string)
    requires forall i :: 0 <= i < |plain| ==> !IsUpper(plain[i])
    ensures CamelToSnake(plain + rest) == plain + CamelToSnake(rest)
  {
    if plain == "" {
      assert plain + rest == rest;
    } else {
      assert (plain + rest)[1..] == plain[1..] + rest;
      SnakeAfter(plain[1..], rest);
    }
  }

  lemma TenantSpelled()
    ensures "organizationId" == "organization" + "Id" && "organization_id" == "organization" + "_id"
    ensures HasUpper("organizationId")
  {
    assert IsUpper("organizationId"[12]);
  }

  lemma SnakeOfId()
    ensures CamelToSnake("id") == "id" && CamelToSnake("Id") == "_id"
  {
    assert "d"[1..] == "" && CamelToSnake("d") == "d";
    assert "id"[1..] == "d" && "Id"[1..] == "d";
  }

  lemma SnakeOfSplit(whole: string, plain: string, rest: string, snake: string)
    requires whole == plain + rest && CamelToSnake(rest) == snake
    requires forall i :: 0 <= i < |plain| ==> !IsUpper(plain[i])
    ensures CamelToSnake(whole) == plain + snake
  {
    SnakeAfter(plain, rest);
  }

  lemma TenantIsPlain()
    ensures forall i :: 0 <= i < |"organization"| ==> !IsUpper("organization"[i])
  {}

  lemma SnakeOfTenant()
    ensures CamelToSnake("organizationId") == "organization_id"
  {
    TenantSpelled();
    TenantIsPlain();
    SnakeOfId();
    SnakeOfSplit("organizationId", "organization", "Id", "_id");
  }

  // A column whose field is the given name.
  lemma NamedAfter(column: string, field: string)
    requires FieldNameForColumn(column) == field
    ensures column == field || column == CamelToSnake(field)
  {
    FieldIs(column);
  }

  // A key that is its own column, and a tenant's camel-case and snake-case names.
  lemma OwnNames(column: string, field: string, key: string, tenant: string, tenancy: string)
    requires field == FieldNameForColumn(column)
    requires CamelToSnake(key) == key && CamelToSnake(tenant) == tenancy && FieldNameForColumn(tenant) == tenant
    ensures field == key || field == tenant || column == key || column == tenancy
      <==> column == key || column == tenancy || column == tenant
    ensures field == key || column == key <==> column == key
    ensures field == tenant || column == tenancy <==> column == tenancy || column == tenant
  {
    NamedAfter(column, field);
  }

  lemma FieldsOwnNames(column: string)
    ensures var field := FieldNameForColumn(column);
      && (field == "id" || field == "organizationId" || column == "id" || column == "organization_id"
          <==> column == "id" || column == "organization_id" || column == "organizationId")
      && (field == "id" || column == "id" <==> column == "id")
      && (field == "organizationId" || column == "organization_id"
          <==> column == "organization_id" || column == "organizationId")
  {
    SnakeOfId();
    SnakeOfTenant();
    TenantSpelled();
    FieldIs("organizationId");
    OwnNames(column, FieldNameForColumn(column), "id", "organizationId", "organization_id");
  }

  /** The engine's own columns are those called `id`, `organization_id` or `organizationId`, and no others: an
      imported field never declares one, and a camel-case name never turns another column into one. */
  lemma OwnColumns(r: Row)
    ensures IsBase(ColumnOf(r)) <==> r.column == "id" || r.column == "organization_id" || r.column == "organizationId"
    ensures IsKey(ColumnOf(r)) <==> r.column == "id"
    ensures IsTenancy(ColumnOf(r)) <==> r.column == "organization_id" || r.column == "organizationId"
  {
    FieldsOwnNames(r.column);
  }

  /** An import adopts exactly the tables with an `id` and a tenancy column; one without an `id` is skipped for
      that, and one without a tenancy column for that. */
  lemma WhichTablesAreAdopted(rows: seq<Row>, t: string)
    ensures var own := RowsOf(rows, t);
      var keyed, tenant := (exists r :: r in rows && r.table == t && r.column == "id"),
        (exists r :: r in rows && r.table == t && (r.column == "organization_id" || r.column == "organizationId"));
      && (Adoptable(TableOf(rows, t)) <==> keyed && tenant)
      && SkipOf(TableOf(rows, t)) == Skip(t, if keyed then NoTenancy else NoKey)
  {
    var own, columns := RowsOf(rows, t), ColumnsOf(RowsOf(rows, t));
    forall r ensures r in own <==> r in rows && r.table == t {}
    forall r | r in own
      ensures ColumnOf(r) in columns
    {
      var i :| 0 <= i < |own| && own[i] == r;
      assert columns[i] == ColumnOf(r);
    }
    forall c | c in columns ensures exists r :: r in own && c == ColumnOf(r) {
      var i :| 0 <= i < |columns| && columns[i] == c;
      assert own[i] in own;
    }
    forall r: Row { OwnColumns(r); }
    if HasKey(columns) {
      var c :| c in columns && IsKey(c);
      var r :| r in own && c == ColumnOf(r);
      assert r in rows && r.column == "id";
    }
    if HasTenancy(columns) {
      var c :| c in columns && IsTenancy(c);
      var r :| r in own && c == ColumnOf(r);
      assert r in rows;
    }
  }

  /** Any reflection: a table is adopted exactly when some column keys it and some column is its tenant's. */
  lemma WhenATableIsAdopted(t: Table)
    ensures Adoptable(t) <==>
      && (exists c :: c in t.columns && (c.primary || c.field == "id" || c.column == "id"))
      && exists c :: c in t.columns && (c.field == "organizationId" || c.column == "organization_id")
    ensures SkipOf(t).name == t.called
    ensures SkipOf(t).reason == NoKey <==>
      forall c | c in t.columns :: !c.primary && c.field != "id" && c.column != "id"
    ensures forall c :: c in Own(t.columns) <==>
      && c in t.columns && c.field != "id" && c.field != "organizationId"
      && c.column != "id" && c.column != "organization_id"
  {
    if HasKey(t.columns) {
      var c :| c in t.columns && IsKey(c);
      assert c in t.columns && (c.primary || c.field == "id" || c.column == "id");
    }
    if HasTenancy(t.columns) {
      var c :| c in t.columns && IsTenancy(c);
      assert c in t.columns && (c.field == "organizationId" || c.column == "organization_id");
    }
  }

  /** Prisma types: the scalar's own kind, an enum's if it has members, JSON for a list and for what is unknown;
      whatever is not carried over exactly says so in a note. */
  lemma WhatAPrismaTypeBecomes(raw: RawField, enums: map<string, seq<string>>)
    ensures var c, t := LowerField(raw, enums), raw.typeName;
      && c.field == raw.name && c.optional == raw.optional && c.primary == raw.isId
      && (raw.list ==> c.kind == Json && c.note != "" && c.members == [])
      && (raw.list && LowerField(raw.(list := false), enums).note != "" ==>
            c.note == LowerField(raw.(list := false), enums).note)
      && (raw.list && LowerField(raw.(list := false), enums).note == "" ==>
            c.note == (if ScalarKind(t).None? then "enum list (" else "list (") + t + "[]) \U{2014} stored as JSON")
      && (!raw.list && t == "String" ==> c.kind == Text && c.note == "")
      && (!raw.list && t == "Boolean" ==> c.kind == Boolean && c.note == "")
      && (!raw.list && (t == "Int" || t == "BigInt" || t == "Float") ==> c.kind == Number && c.note == "")
      && (!raw.list && t == "Decimal" ==> c.kind == Number && c.note != "")
      && (!raw.list && t == "DateTime" ==> c.kind == Date && c.note == "")
      && (!raw.list && t == "Json" ==> c.kind == Json && c.note == "")
      && (!raw.list && t == "Bytes" ==> c.kind == Json && c.note != "")
      && (!raw.list && ScalarKind(t).None? && t in enums && enums[t] == [] ==> c.kind == Text && c.note != "")
      && (!raw.list && ScalarKind(t).None? && t !in enums ==> c.kind == Json && c.note != "")
  {}

  /** The scalar types are these nine. */
  lemma ScalarTypes(t: string)
    ensures ScalarKind(t).Some? <==>
      t in ["String", "Boolean", "Int", "BigInt", "Float", "Decimal", "DateTime", "Json", "Bytes"]
  {}
}
