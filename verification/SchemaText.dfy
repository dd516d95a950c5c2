/** The schema printer, and a reader that takes a printed schema back. */
module SchemaText {
  import opened Wrappers
  import opened Naming

  datatype Kind = Text | Number | Boolean | Date | Json | Enum

  datatype Field = Field(name: string, kind: Kind, members: seq<string>, optional: bool, column: string, note: string)

  datatype Relation = Relation(name: string, target: string, fkField: string)

  datatype Model = Model(key: string, fields: seq<Field>, relations: seq<Relation>)

  /** Strings and keys. */

  predicate Escaped(c: char) { c == '\\' || c == '\'' }

  function Escape(s: string): string {
    if s == "" then "" else (if Escaped(s[0]) then ['\\', s[0]] else [s[0]]) + Escape(s[1..])
  }

  function QuoteString(s: string): string { "'" + Escape(s) + "'" }

  predicate StartsIdentifier(c: char) { IsUpper(c) || IsLower(c) || c == '_' }

  predicate ContinuesIdentifier(c: char) { StartsIdentifier(c) || IsDigit(c) }

  predicate IsIdentifier(s: string) {
    |s| > 0 && StartsIdentifier(s[0]) && forall i :: 0 <= i < |s| ==> ContinuesIdentifier(s[i])
  }

  function QuoteKey(s: string): string { if IsIdentifier(s) then s else QuoteString(s) }

  // A single-quoted literal may not hold a raw line break.
  predicate BreaksLine(c: char) { c == '\n' || c == '\r' }

  predicate OneLine(s: string) { forall i :: 0 <= i < |s| ==> !BreaksLine(s[i]) }

  // The rest of a literal after its opening quote: its value and what follows the closing quote. The only
  // escapes read are those of a quote and a backslash.
  function ReadLiteral(s: string): (r: Option<(string, string)>)
    ensures r.Some? ==> |r.value.1| < |s|
  {
    if s == "" || BreaksLine(s[0]) then None
    else if s[0] == '\'' then Some(("", s[1..]))
    else if s[0] == '\\' then
      if |s| >= 2 && Escaped(s[1]) then Prepend(s[1], ReadLiteral(s[2..])) else None
    else Prepend(s[0], ReadLiteral(s[1..]))
  }

  function Prepend(c: char, r: Option<(string, string)>): Option<(string, string)> {
    match r
    case None => None
    case Some((value, rest)) => Some(([c] + value, rest))
  }

  function ReadString(s: string): (r: Option<(string, string)>)
    ensures r.Some? ==> |r.value.1| < |s|
  {
    if s != "" && s[0] == '\'' then ReadLiteral(s[1..]) else None
  }

  lemma {:induction false} LiteralReadsBack(s: string, rest: string)
    ensures ReadLiteral(Escape(s) + "'" + rest) == if OneLine(s) then Some((s, rest)) else None
  {
    var text := Escape(s) + "'" + rest;
    if s == "" {
      assert text == "'" + rest;
    } else {
      LiteralReadsBack(s[1..], rest);
      var more := Escape(s[1..]) + "'" + rest;
      assert forall i :: 0 <= i < |s[1..]| ==> s[1..][i] == s[i + 1];
      assert OneLine(s) <==> !BreaksLine(s[0]) && OneLine(s[1..]) by {
        if !BreaksLine(s[0]) && OneLine(s[1..]) {
          forall i | 0 <= i < |s| ensures !BreaksLine(s[i]) { if i > 0 { assert s[i] == s[1..][i - 1]; } }
        }
      }
      if Escaped(s[0]) {
        assert text == ['\\', s[0]] + more && text[2..] == more;
      } else {
        assert text == [s[0]] + more && text[1..] == more;
      }
      assert s == [s[0]] + s[1..];
    }
  }

  /** Quoting and reading back is the identity, and stops exactly at the closing quote, exactly for the
      strings without a line break. */
  lemma QuotedReadsBack(s: string, rest: string)
    ensures ReadString(QuoteString(s) + rest) == if OneLine(s) then Some((s, rest)) else None
  {
    assert (QuoteString(s) + rest)[1..] == Escape(s) + "'" + rest;
    LiteralReadsBack(s, rest);
  }

  function IdentifierLength(s: string): (n: nat)
    ensures n <= |s|
  {
    if s != "" && ContinuesIdentifier(s[0]) then 1 + IdentifierLength(s[1..]) else 0
  }

  function ReadKey(s: string): Option<(string, string)> {
    if s == "" then None
    else if s[0] == '\'' then ReadString(s)
    else if StartsIdentifier(s[0]) then Some((s[..IdentifierLength(s)], s[IdentifierLength(s)..]))
    else None
  }

  lemma {:induction false} IdentifierEnds(s: string, rest: string)
    requires forall i :: 0 <= i < |s| ==> ContinuesIdentifier(s[i])
    requires rest == "" || !ContinuesIdentifier(rest[0])
    ensures IdentifierLength(s + rest) == |s|
  {
    if s == "" {
      assert s + rest == rest;
    } else {
      assert (s + rest)[1..] == s[1..] + rest;
      IdentifierEnds(s[1..], rest);
    }
  }

  lemma KeyReadsBack(s: string, rest: string)
    requires OneLine(s) && (rest == "" || !ContinuesIdentifier(rest[0]))
    ensures ReadKey(QuoteKey(s) + rest) == Some((s, rest))
  {
    var text := QuoteKey(s) + rest;
    if IsIdentifier(s) {
      IdentifierEnds(s, rest);
      assert text[0] == s[0] && text[..|s|] == s && text[|s|..] == rest;
    } else {
      QuotedReadsBack(s, rest);
    }
  }

  /** Field expressions. */

  function QuotedList(members: seq<string>): string {
    if members == [] then ""
    else if |members| == 1 then QuoteString(members[0])
    else QuoteString(members[0]) + ", " + QuotedList(members[1..])
  }

  function BaseFieldExpr(f: Field): string {
    match f.kind
    case Text => "field.string()"
    case Number => "field.number()"
    case Boolean => "field.boolean()"
    case Date => "field.date()"
    case Json => "field.json()"
    case Enum => if f.members == [] then "field.string()" else "field.enum([" + QuotedList(f.members) + "])"
  }

  function ColumnClause(f: Field): string {
    if f.column != "" && f.column != CamelToSnake(f.name) then ".from(" + QuoteString(f.column) + ")" else ""
  }

  function FieldExpr(f: Field): string {
    BaseFieldExpr(f) + ColumnClause(f) + if f.optional then ".optional()" else ""
  }

  // What a printed field says: its key, its kind and members, whether it is optional, and the column it
  // stands for, which without an override is the one derived from the key.
  datatype Declared = Declared(name: string, kind: Kind, members: seq<string>, optional: bool, column: string)

  function DeclaredBy(f: Field): Declared {
    var empty := f.kind == Enum && f.members == [];
    Declared(f.name, if empty then Text else f.kind, if f.kind == Enum then f.members else [], f.optional,
             if f.column == "" then CamelToSnake(f.name) else f.column)
  }

  predicate StartsWith(s: string, prefix: string) { |prefix| <= |s| && s[..|prefix|] == prefix }

  lemma Starts(prefix: string, rest: string)
    ensures StartsWith(prefix + rest, prefix) && (prefix + rest)[|prefix|..] == rest
  {}

  lemma NoStart(s: string, prefix: string, k: nat)
    requires k < |s| && k < |prefix| && s[k] != prefix[k]
    ensures !StartsWith(s, prefix)
  {
    if |prefix| <= |s| { assert s[..|prefix|][k] == s[k]; }
  }

  function ReadMembers(s: string): Option<(seq<string>, string)>
    decreases |s|
  {
    match ReadString(s)
    case None => None
    case Some((member, rest)) =>
      if StartsWith(rest, ", ") then
        match ReadMembers(rest[2..])
        case None => None
        case Some((members, end)) => Some(([member] + members, end))
      else Some(([member], rest))
  }

  lemma MoreMembers(s: string, member: string, more: string)
    requires ReadString(s) == Some((member, ", " + more))
    ensures ReadMembers(more).Some? ==>
      ReadMembers(s) == Some(([member] + ReadMembers(more).value.0, ReadMembers(more).value.1))
  {
    Starts(", ", more);
  }

  lemma LastMember(s: string, member: string, rest: string)
    requires ReadString(s) == Some((member, rest)) && (rest == "" || rest[0] != ',')
    ensures ReadMembers(s) == Some(([member], rest))
  {
    if rest != "" { NoStart(rest, ", ", 0); }
  }

  lemma Joined(a: string, b: string, c: string, d: string)
    ensures a + b + c + d == a + (b + (c + d))
  {}

  lemma {:induction false} MembersReadBack(members: seq<string>, rest: string)
    requires members != [] && forall i :: 0 <= i < |members| ==> OneLine(members[i])
    requires rest == "" || rest[0] != ','
    ensures ReadMembers(QuotedList(members) + rest) == Some((members, rest))
  {
    if |members| == 1 {
      QuotedReadsBack(members[0], rest);
      LastMember(QuoteString(members[0]) + rest, members[0], rest);
      assert members == [members[0]];
    } else {
      var more := QuotedList(members[1..]) + rest;
      Joined(QuoteString(members[0]), ", ", QuotedList(members[1..]), rest);
      QuotedReadsBack(members[0], ", " + more);
      MembersReadBack(members[1..], rest);
      MoreMembers(QuoteString(members[0]) + (", " + more), members[0], more);
      assert members == [members[0]] + members[1..];
    }
  }

  function ReadBase(s: string): Option<((Kind, seq<string>), string)> {
    if StartsWith(s, "field.string()") then Some(((Text, []), s[14..]))
    else if StartsWith(s, "field.number()") then Some(((Number, []), s[14..]))
    else if StartsWith(s, "field.boolean()") then Some(((Boolean, []), s[15..]))
    else if StartsWith(s, "field.date()") then Some(((Date, []), s[12..]))
    else if StartsWith(s, "field.json()") then Some(((Json, []), s[12..]))
    else if StartsWith(s, "field.enum([") then
      match ReadMembers(s[12..])
      case None => None
      case Some((members, rest)) => if StartsWith(rest, "])") then Some(((Enum, members), rest[2..])) else None
    else None
  }

  function ReadColumn(s: string): Option<(Option<string>, string)> {
    if !StartsWith(s, ".from(") then Some((None, s))
    else
      match ReadString(s[6..])
      case None => None
      case Some((column, rest)) => if StartsWith(rest, ")") then Some((Some(column), rest[1..])) else None
  }

  // A field expression and what follows it.
  function ReadField(name: string, s: string): Option<(Declared, string)> {
    match ReadBase(s)
    case None => None
    case Some((base, afterBase)) =>
      match ReadColumn(afterBase)
      case None => None
      case Some((column, rest)) =>
        var optional := StartsWith(rest, ".optional()");
        Some((Declared(name, base.0, base.1, optional, if column.Some? then column.value else CamelToSnake(name)),
              if optional then rest[11..] else rest))
  }

  predicate Printable(f: Field) {
    && OneLine(f.name) && OneLine(f.column) && OneLine(f.note)
    && forall i :: 0 <= i < |f.members| ==> OneLine(f.members[i])
  }

  lemma BaseReadsBack(f: Field, rest: string)
    requires Printable(f)
    ensures ReadBase(BaseFieldExpr(f) + rest) == Some(((DeclaredBy(f).kind, DeclaredBy(f).members), rest))
  {
    var text := BaseFieldExpr(f) + rest;
    Starts(BaseFieldExpr(f), rest);
    match f.kind
    case Text =>
    case Number => assert text[6] == 'n';
    case Boolean => assert text[6] == 'b';
    case Date => assert text[6] == 'd';
    case Json => assert text[6] == 'j';
    case Enum =>
      if f.members != [] {
        EnumReadsBack(f.members, rest);
      }
  }

  lemma EnumBase(more: string, members: seq<string>, rest: string)
    requires ReadMembers(more) == Some((members, "])" + rest))
    ensures ReadBase("field.enum([" + more) == Some(((Enum, members), rest))
  {
    var text := "field.enum([" + more;
    assert text[6] == 'e' && text[..12] == "field.enum([" && text[12..] == more;
    var tail := "])" + rest;
    assert tail[..2] == "])" && tail[2..] == rest;
  }

  lemma EnumReadsBack(members: seq<string>, rest: string)
    requires members != [] && forall i :: 0 <= i < |members| ==> OneLine(members[i])
    ensures ReadBase("field.enum([" + QuotedList(members) + "])" + rest) == Some(((Enum, members), rest))
  {
    var more := QuotedList(members) + ("])" + rest);
    Joined("field.enum([", QuotedList(members), "])", rest);
    MembersReadBack(members, "])" + rest);
    Starts("])", rest);
    EnumBase(more, members, rest);
  }

  lemma ColumnReadsBack(f: Field, rest: string)
    requires Printable(f) && !StartsWith(rest, ".from(")
    ensures ReadColumn(ColumnClause(f) + rest) == Some((if ColumnClause(f) == "" then None else Some(f.column), rest))
  {
    if ColumnClause(f) == "" {
      assert ColumnClause(f) + rest == rest;
    } else {
      var more := QuoteString(f.column) + (")" + rest);
      assert ColumnClause(f) + rest == ".from(" + more;
      Starts(".from(", more);
      Starts(")", rest);
      QuotedReadsBack(f.column, ")" + rest);
    }
  }

  lemma ReadFieldIs(
      name: string, s: string, base: (Kind, seq<string>), afterBase: string, column: Option<string>, rest: string)
    requires ReadBase(s) == Some((base, afterBase)) && ReadColumn(afterBase) == Some((column, rest))
    ensures ReadField(name, s) ==
      Some((Declared(name, base.0, base.1, StartsWith(rest, ".optional()"),
                     if column.Some? then column.value else CamelToSnake(name)),
            if StartsWith(rest, ".optional()") then rest[11..] else rest))
  {}

  lemma OptionalReadsBack(optional: bool, rest: string)
    requires rest == "" || rest[0] == ','
    ensures var text := (if optional then ".optional()" else "") + rest;
      && !StartsWith(text, ".from(") && StartsWith(text, ".optional()") == optional
      && (if optional then text[11..] else text) == rest
  {
    var text := (if optional then ".optional()" else "") + rest;
    if optional {
      Starts(".optional()", rest);
      NoStart(text, ".from(", 1);
    } else {
      assert text == rest;
      if rest != "" { NoStart(rest, ".from(", 0); NoStart(rest, ".optional()", 0); }
    }
  }

  /** Printing a field and reading it back gives its kind, its members, whether it is optional and the
      column it stands for. */
  lemma FieldReadsBack(f: Field, rest: string)
    requires Printable(f) && (rest == "" || rest[0] == ',')
    ensures ReadField(f.name, FieldExpr(f) + rest) == Some((DeclaredBy(f), rest))
  {
    var optional := if f.optional then ".optional()" else "";
    Joined(BaseFieldExpr(f), ColumnClause(f), optional, rest);
    OptionalReadsBack(f.optional, rest);
    BaseReadsBack(f, ColumnClause(f) + (optional + rest));
    ColumnReadsBack(f, optional + rest);
    ReadFieldIs(f.name, FieldExpr(f) + rest, (DeclaredBy(f).kind, DeclaredBy(f).members),
                ColumnClause(f) + (optional + rest),
                if ColumnClause(f) == "" then None else Some(f.column), optional + rest);
  }

  /** The whole printed schema, line by line. */

  // A key and what it is bound to, as one entry of an object literal.
  function Entry(indent: string, key: string, value: string): string { indent + (QuoteKey(key) + (": " + value)) }

  function AfterField(f: Field): string { "," + if f.note != "" then " // review: " + f.note else "" }

  function FieldLine(f: Field): string { Entry("    ", f.name, FieldExpr(f) + AfterField(f)) }

  function Ends(r: Relation): string { QuoteString(r.target) + (", " + (QuoteString(r.fkField) + "),")) }

  function RelationLine(r: Relation): string { Entry("    ", r.name, "relation.belongsTo(" + Ends(r)) }

  function ModelHead(m: Model): string { Entry("  ", m.key, "model({") }

  const MIDDLE := "  }, {"
  const CLOSE := "  }),"

  function FieldLines(fields: seq<Field>): seq<string> {
    seq(|fields|, i requires 0 <= i < |fields| => FieldLine(fields[i]))
  }

  function RelationLines(relations: seq<Relation>): seq<string> {
    seq(|relations|, i requires 0 <= i < |relations| => RelationLine(relations[i]))
  }

  function ModelLines(m: Model): seq<string> {
    [ModelHead(m)] + FieldLines(m.fields)
    + (if m.relations != [] then [MIDDLE] + RelationLines(m.relations) else []) + [CLOSE]
  }

  function SchemaLines(models: seq<Model>): seq<string> {
    if models == [] then ["});", ""] else ModelLines(models[0]) + SchemaLines(models[1..])
  }

  // What a printed model declares.
  datatype DeclaredModel = DeclaredModel(key: string, fields: seq<Declared>, relations: seq<Relation>)

  function DeclaredFields(fields: seq<Field>): seq<Declared> {
    seq(|fields|, i requires 0 <= i < |fields| => DeclaredBy(fields[i]))
  }

  function DeclaredModels(models: seq<Model>): seq<DeclaredModel> {
    if models == [] then []
    else
      [DeclaredModel(models[0].key, DeclaredFields(models[0].fields), models[0].relations)]
      + DeclaredModels(models[1..])
  }

  // A key, a colon and a space, after the indentation.
  function ReadEntry(line: string, indent: nat): Option<(string, string)>
    requires indent <= |line|
  {
    match ReadKey(line[indent..])
    case None => None
    case Some((key, rest)) => if StartsWith(rest, ": ") then Some((key, rest[2..])) else None
  }

  function ReadFieldLine(line: string): Option<Declared> {
    if !StartsWith(line, "    ") then None
    else
      match ReadEntry(line, 4)
      case None => None
      case Some((name, rest)) =>
        match ReadField(name, rest)
        case None => None
        case Some((declared, end)) => if StartsWith(end, ",") then Some(declared) else None
  }

  function ReadRelationLine(line: string): Option<Relation> {
    if !StartsWith(line, "    ") then None
    else
      match ReadEntry(line, 4)
      case None => None
      case Some((name, rest)) => if StartsWith(rest, "relation.belongsTo(") then ReadEnds(name, rest[19..]) else None
  }

  function ReadEnds(name: string, s: string): Option<Relation> {
    match ReadString(s)
    case None => None
    case Some((target, afterTarget)) =>
      if !StartsWith(afterTarget, ", ") then None
      else
        match ReadString(afterTarget[2..])
        case None => None
        case Some((fkField, rest)) => if rest == ")," then Some(Relation(name, target, fkField)) else None
  }

  function ReadModelHead(line: string): Option<string> {
    if !StartsWith(line, "  ") then None
    else
      match ReadEntry(line, 2)
      case None => None
      case Some((key, rest)) => if rest == "model({" then Some(key) else None
  }

  // The entries up to the first line that is not one, and the lines from there.
  function ReadEntries<T>(read: string -> Option<T>, lines: seq<string>): (r: (seq<T>, seq<string>))
    ensures |r.1| <= |lines|
  {
    if lines == [] || read(lines[0]).None? then ([], lines)
    else var more := ReadEntries(read, lines[1..]); ([read(lines[0]).value] + more.0, more.1)
  }

  function ReadModel(lines: seq<string>): (r: Option<(DeclaredModel, seq<string>)>)
    ensures r.Some? ==> |r.value.1| < |lines|
  {
    if lines == [] || ReadModelHead(lines[0]).None? then None
    else
      var key := ReadModelHead(lines[0]).value;
      var (fields, afterFields) := ReadEntries(ReadFieldLine, lines[1..]);
      var (relations, rest) :=
        if afterFields != [] && afterFields[0] == MIDDLE then ReadEntries(ReadRelationLine, afterFields[1..])
        else ([], afterFields);
      if rest != [] && rest[0] == CLOSE then Some((DeclaredModel(key, fields, relations), rest[1..])) else None
  }

  function ReadSchema(lines: seq<string>): Option<seq<DeclaredModel>>
    decreases |lines|
  {
    if lines == ["});", ""] then Some([])
    else
      match ReadModel(lines)
      case None => None
      case Some((m, rest)) =>
        match ReadSchema(rest)
        case None => None
        case Some(more) => Some([m] + more)
  }

  predicate PrintableModel(m: Model) {
    && OneLine(m.key)
    && (forall i :: 0 <= i < |m.fields| ==> Printable(m.fields[i]))
    && forall i :: 0 <= i < |m.relations| ==> PrintableRelation(m.relations[i])
  }

  predicate PrintableRelation(r: Relation) { OneLine(r.name) && OneLine(r.target) && OneLine(r.fkField) }

  lemma EntryReadsBack(indent: string, key: string, value: string)
    requires OneLine(key)
    ensures var line := Entry(indent, key, value);
      StartsWith(line, indent) && ReadEntry(line, |indent|) == Some((key, value))
  {
    Starts(indent, QuoteKey(key) + (": " + value));
    KeyReadsBack(key, ": " + value);
    Starts(": ", value);
  }

  lemma FieldLineReadsBack(f: Field)
    requires Printable(f)
    ensures ReadFieldLine(FieldLine(f)) == Some(DeclaredBy(f))
  {
    EntryReadsBack("    ", f.name, FieldExpr(f) + AfterField(f));
    FieldReadsBack(f, AfterField(f));
  }

  lemma EndsReadBack(r: Relation)
    requires PrintableRelation(r)
    ensures ReadEnds(r.name, Ends(r)) == Some(r)
  {
    var second := QuoteString(r.fkField) + "),";
    QuotedReadsBack(r.target, ", " + second);
    Starts(", ", second);
    QuotedReadsBack(r.fkField, "),");
  }

  lemma RelationLineReadsBack(r: Relation)
    requires PrintableRelation(r)
    ensures ReadRelationLine(RelationLine(r)) == Some(r)
  {
    EntryReadsBack("    ", r.name, "relation.belongsTo(" + Ends(r));
    Starts("relation.belongsTo(", Ends(r));
    EndsReadBack(r);
  }

  lemma HeadReadsBack(m: Model)
    requires OneLine(m.key)
    ensures ReadModelHead(ModelHead(m)) == Some(m.key)
  {
    EntryReadsBack("  ", m.key, "model({");
  }

  // Neither divider nor end is taken for an entry.
  lemma DividersAreNotEntries()
    ensures ReadFieldLine(MIDDLE).None? && ReadFieldLine(CLOSE).None? && ReadRelationLine(CLOSE).None?
  {
    NoStart(MIDDLE, "    ", 2);
    NoStart(CLOSE, "    ", 2);
  }

  lemma {:induction false} EntriesReadBack<T>(
      read: string -> Option<T>, lines: seq<string>, values: seq<T>, rest: seq<string>)
    requires |lines| == |values| && forall i :: 0 <= i < |lines| ==> read(lines[i]) == Some(values[i])
    requires rest == [] || read(rest[0]).None?
    ensures ReadEntries(read, lines + rest) == (values, rest)
  {
    if lines == [] {
      assert lines + rest == rest;
    } else {
      EntriesReadBack(read, lines[1..], values[1..], rest);
      assert (lines + rest)[1..] == lines[1..] + rest;
      assert values == [values[0]] + values[1..];
    }
  }

  lemma FieldsReadBack(fields: seq<Field>, rest: seq<string>)
    requires forall i :: 0 <= i < |fields| ==> Printable(fields[i])
    requires rest == [] || ReadFieldLine(rest[0]).None?
    ensures ReadEntries(ReadFieldLine, FieldLines(fields) + rest) == (DeclaredFields(fields), rest)
  {
    forall i | 0 <= i < |fields| ensures ReadFieldLine(FieldLines(fields)[i]) == Some(DeclaredFields(fields)[i]) {
      FieldLineReadsBack(fields[i]);
    }
    EntriesReadBack(ReadFieldLine, FieldLines(fields), DeclaredFields(fields), rest);
  }

  lemma RelationsReadBack(relations: seq<Relation>, rest: seq<string>)
    requires forall i :: 0 <= i < |relations| ==> PrintableRelation(relations[i])
    requires rest == [] || ReadRelationLine(rest[0]).None?
    ensures ReadEntries(ReadRelationLine, RelationLines(relations) + rest) == (relations, rest)
  {
    forall i | 0 <= i < |relations| ensures ReadRelationLine(RelationLines(relations)[i]) == Some(relations[i]) {
      RelationLineReadsBack(relations[i]);
    }
    EntriesReadBack(ReadRelationLine, RelationLines(relations), relations, rest);
  }

  // What ReadModel makes of its pieces.
  lemma ReadModelIs(head: string, key: string, fields: seq<Declared>, body: seq<string>, afterFields: seq<string>,
                    relations: seq<Relation>, rest: seq<string>)
    requires ReadModelHead(head) == Some(key) && ReadEntries(ReadFieldLine, body) == (fields, afterFields)
    requires afterFields != []
    requires (relations, [CLOSE] + rest)
      == if afterFields[0] == MIDDLE then ReadEntries(ReadRelationLine, afterFields[1..]) else ([], afterFields)
    ensures ReadModel([head] + body) == Some((DeclaredModel(key, fields, relations), rest))
  {
    assert ([head] + body)[1..] == body && ([CLOSE] + rest)[1..] == rest;
  }

  // The lines after a model's fields, with what follows the model.
  function AfterFields(m: Model, rest: seq<string>): seq<string> {
    if m.relations == [] then [CLOSE] + rest else [MIDDLE] + (RelationLines(m.relations) + ([CLOSE] + rest))
  }

  // Lists pushed one after another are one list.
  lemma Nested<T>(a: seq<T>, b: seq<T>, c: seq<T>, d: seq<T>, e: seq<T>)
    ensures a + b + c + d + e == a + (b + (c + (d + e)))
  {}

  lemma PushedAfter<T>(a: seq<T>, b: seq<T>, c: seq<T>)
    ensures a + b + c == a + (b + c) && [] + c == c
  {}

  lemma ModelText(m: Model, rest: seq<string>)
    ensures ModelLines(m) + rest == [ModelHead(m)] + (FieldLines(m.fields) + AfterFields(m, rest))
  {
    var relations := if m.relations != [] then [MIDDLE] + RelationLines(m.relations) else [];
    Nested([ModelHead(m)], FieldLines(m.fields), relations, [CLOSE], rest);
    PushedAfter([MIDDLE], RelationLines(m.relations), [CLOSE] + rest);
  }

  lemma AfterFieldsReadBack(m: Model, rest: seq<string>)
    requires PrintableModel(m)
    ensures var after := AfterFields(m, rest);
      && after != [] && ReadFieldLine(after[0]).None?
      && (m.relations, [CLOSE] + rest)
        == if after[0] == MIDDLE then ReadEntries(ReadRelationLine, after[1..]) else ([], after)
  {
    DividersAreNotEntries();
    if m.relations != [] {
      RelationsReadBack(m.relations, [CLOSE] + rest);
      assert AfterFields(m, rest)[1..] == RelationLines(m.relations) + ([CLOSE] + rest);
    }
  }

  lemma ModelReadsBack(m: Model, rest: seq<string>)
    requires PrintableModel(m)
    ensures ReadModel(ModelLines(m) + rest) == Some((DeclaredModel(m.key, DeclaredFields(m.fields), m.relations), rest))
  {
    var after := AfterFields(m, rest);
    HeadReadsBack(m);
    AfterFieldsReadBack(m, rest);
    FieldsReadBack(m.fields, after);
    ReadModelIs(ModelHead(m), m.key, DeclaredFields(m.fields), FieldLines(m.fields) + after, after, m.relations, rest);
    ModelText(m, rest);
  }

  /** A printed schema reads back as what it declares: every model in order, with its key, every field's
      kind, members, optionality and column, and every relation. */
  lemma {:induction false} SchemaReadsBack(models: seq<Model>)
    requires forall i :: 0 <= i < |models| ==> PrintableModel(models[i])
    ensures ReadSchema(SchemaLines(models)) == Some(DeclaredModels(models))
  {
    if models != [] {
      SchemaReadsBack(models[1..]);
      ModelReadsBack(models[0], SchemaLines(models[1..]));
      HeadReadsBack(models[0]);
      assert SchemaLines(models)[0] == ModelHead(models[0]);
      NoStart("});", "  ", 0);
    }
  }

  function Imports(models: seq<Model>): string {
    "import { defineSchema, model, "
    + (if exists m :: m in models && m.relations != [] then "relation, " else "")
    + "field } from "
  }

  function SchemaHead(models: seq<Model>, importPath: string): seq<string> {
    [Imports(models) + QuoteString(importPath) + ";", "", "export const schema = defineSchema({"]
  }

  lemma {:induction false} LinesOfMore(models: seq<Model>, n: nat, lines: seq<string>)
    requires n < |models|
    ensures lines + ModelLines(models[n]) + SchemaLines(models[n + 1..]) == lines + SchemaLines(models[n..])
  {
    assert models[n..][1..] == models[n + 1..];
  }

  lemma Pushed(lines: seq<string>, all: seq<string>, i: nat)
    requires i < |all|
    ensures lines + all[..i] + [all[i]] == lines + all[..i + 1]
  {}

  method PushFields(lines: seq<string>, fields: seq<Field>) returns (more: seq<string>)
    ensures more == lines + FieldLines(fields)
  {
    more := lines;
    ghost var all := FieldLines(fields);
    for i := 0 to |fields|
      invariant more == lines + all[..i]
    {
      more := more + [FieldLine(fields[i])];
      Pushed(lines, all, i);
    }
  }

  method PushRelations(lines: seq<string>, relations: seq<Relation>) returns (more: seq<string>)
    ensures more == lines + RelationLines(relations)
  {
    more := lines;
    ghost var all := RelationLines(relations);
    for i := 0 to |relations|
      invariant more == lines + all[..i]
    {
      more := more + [RelationLine(relations[i])];
      Pushed(lines, all, i);
    }
  }

  // One model's lines, pushed one at a time.
  method PushModel(lines: seq<string>, m: Model) returns (more: seq<string>)
    ensures more == lines + ModelLines(m)
  {
    more := PushFields(lines + [ModelHead(m)], m.fields);
    ghost var fields := more;
    if |m.relations| > 0 {
      more := PushRelations(more + [MIDDLE], m.relations);
      assert more == fields + ([MIDDLE] + RelationLines(m.relations));
    } else {
      assert more == fields + [];
    }
    more := more + [CLOSE];
    PushedModel(lines, m);
  }

  lemma Regroup<T>(a: seq<T>, b: seq<T>, c: seq<T>, d: seq<T>, e: seq<T>)
    ensures a + b + c + d + e == a + (b + c + d + e)
  {}

  lemma PushedModel(lines: seq<string>, m: Model)
    ensures lines + [ModelHead(m)] + FieldLines(m.fields)
      + (if m.relations != [] then [MIDDLE] + RelationLines(m.relations) else []) + [CLOSE] == lines + ModelLines(m)
  {
    Regroup(lines, [ModelHead(m)], FieldLines(m.fields),
            if m.relations != [] then [MIDDLE] + RelationLines(m.relations) else [], [CLOSE]);
  }

  method HasRelations(models: seq<Model>) returns (any: bool)
    ensures any <==> exists m :: m in models && m.relations != []
  {
    any := false;
    for i := 0 to |models|
      invariant any <==> exists m :: m in models[..i] && m.relations != []
    {
      assert models[..i + 1] == models[..i] + [models[i]];
      if models[i].relations != [] { any := true; }
    }
    assert models[..|models|] == models;
  }

  /** `emitSchemaSource`, for models in the order its sort left them: line by line, as the loops push
      them; a reader takes the models back. */
  method EmitSchemaSource(models: seq<Model>, importPath: string) returns (lines: seq<string>)
    ensures lines == SchemaHead(models, importPath) + SchemaLines(models)
    ensures (forall i :: 0 <= i < |models| ==> PrintableModel(models[i])) ==>
      ReadSchema(lines[3..]) == Some(DeclaredModels(models))
  {
    var hasRelations := HasRelations(models);
    var imports := "import { defineSchema, model, " + (if hasRelations then "relation, " else "") + "field } from ";
    lines := [imports + QuoteString(importPath) + ";", "", "export const schema = defineSchema({"];
    for n := 0 to |models|
      invariant lines + SchemaLines(models[n..]) == SchemaHead(models, importPath) + SchemaLines(models)
    {
      LinesOfMore(models, n, lines);
      lines := PushModel(lines, models[n]);
    }
    assert models[|models|..] == [];
    lines := lines + ["});", ""];
    AfterHead(SchemaHead(models, importPath), SchemaLines(models));
    if forall i :: 0 <= i < |models| ==> PrintableModel(models[i]) { SchemaReadsBack(models); }
  }

  lemma AfterHead(head: seq<string>, body: seq<string>)
    ensures |head| == 3 ==> (head + body)[3..] == body
  {}
}
