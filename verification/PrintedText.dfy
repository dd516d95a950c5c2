/** What a printed schema says beyond what is read back: bare keys, needed overrides, notes and imports. */
module PrintedText {
  import opened Naming
  import opened SchemaText

  /** A key is printed bare exactly when it is an identifier: letters, digits and underscores, not led by a
      digit. */
  lemma WhenAKeyIsBare(s: string)
    ensures QuoteKey(s) == s <==>
      && s != "" && !('0' <= s[0] <= '9')
      && forall i :: 0 <= i < |s| ==>
           'a' <= s[i] <= 'z' || 'A' <= s[i] <= 'Z' || '0' <= s[i] <= '9' || s[i] == '_'
  {
    if !IsIdentifier(s) { QuotedIsLonger(s); }
    if s != "" && IsIdentifier(s) { assert ContinuesIdentifier(s[0]); }
  }

  lemma {:induction false} EscapedIsNoShorter(s: string)
    ensures |Escape(s)| >= |s|
  {
    if s != "" { EscapedIsNoShorter(s[1..]); }
  }

  lemma QuotedIsLonger(s: string)
    ensures |QuoteString(s)| > |s|
  {
    EscapedIsNoShorter(s);
  }

  // A string is on one line when it holds neither of the two characters a literal may not hold.
  lemma OneLineIs(s: string)
    ensures OneLine(s) <==> '\n' !in s && '\r' !in s
  {
    if '\n' !in s && '\r' !in s {
      forall i | 0 <= i < |s| ensures !BreaksLine(s[i]) { assert s[i] in s; }
    }
  }

  /** A column is stated exactly when the engine would derive another one from the key. */
  lemma WhenAColumnIsStated(f: Field)
    ensures f.column == "" || f.column == CamelToSnake(f.name) <==> FieldExpr(f) == FieldExpr(f.(column := ""))
    ensures f.column != "" && f.column != CamelToSnake(f.name) ==>
      ColumnClause(f) == ".from(" + QuoteString(f.column) + ")"
  {
    var base, optional := BaseFieldExpr(f), if f.optional then ".optional()" else "";
    if f.column != "" && f.column != CamelToSnake(f.name) {
      assert |FieldExpr(f)| == |base| + |ColumnClause(f)| + |optional|;
      assert |FieldExpr(f.(column := ""))| == |base| + |optional|;
    }
  }

  lemma NoteText(f: Field)
    ensures AfterField(f) == if f.note == "" then "," else ", // review: " + f.note
  {
    var note := f.note;
    assert "," + (" // review: " + note) == ", // review: " + note;
  }

  // The builder's name for a kind.
  function Builder(k: Kind): string {
    match k
    case Text => "string"
    case Number => "number"
    case Boolean => "boolean"
    case Date => "date"
    case Json => "json"
    case Enum => "enum"
  }

  lemma BuildersAre(k: Kind)
    requires k != Enum
    ensures BaseFieldExpr(Field("", k, [], false, "", "")) == "field." + (Builder(k) + "()")
  {
    match k
    case Text => assert "field." + ("string" + "()") == "field.string()";
    case Number => assert "field." + ("number" + "()") == "field.number()";
    case Boolean => assert "field." + ("boolean" + "()") == "field.boolean()";
    case Date => assert "field." + ("date" + "()") == "field.date()";
    case Json => assert "field." + ("json" + "()") == "field.json()";
  }

  /** A field is printed as its kind's builder, an enum without members as a string, then the column where it is
      stated, then `.optional()` where it is. */
  lemma KindsArePrinted(f: Field)
    ensures f.kind != Enum ==> BaseFieldExpr(f) == "field." + (Builder(f.kind) + "()")
    ensures f.kind == Enum && f.members == [] ==> BaseFieldExpr(f) == "field." + (Builder(Text) + "()")
    ensures f.kind == Enum && f.members != [] ==> BaseFieldExpr(f) == "field.enum([" + QuotedList(f.members) + "])"
    ensures FieldExpr(f) == BaseFieldExpr(f) + ColumnClause(f) + if f.optional then ".optional()" else ""
  {
    BuildersAre(if f.kind == Enum then Text else f.kind);
  }

  /** A field's line ends with its note, where there is one to review. */
  lemma NotesAreShown(f: Field)
    ensures FieldLine(f) ==
      Entry("    ", f.name, FieldExpr(f) + if f.note == "" then "," else ", // review: " + f.note)
  {
    NoteText(f);
  }

  /** `relation` is imported exactly when some model has one. */
  lemma WhenRelationIsImported(models: seq<Model>, importPath: string)
    ensures var named := if exists m :: m in models && m.relations != []
                         then "import { defineSchema, model, relation, field } from "
                         else "import { defineSchema, model, field } from ";
      SchemaHead(models, importPath)[0] == named + QuoteString(importPath) + ";"
    ensures |SchemaHead(models, importPath)| == 3
  {
    ImportsAre(models);
  }

  lemma ImportsAre(models: seq<Model>)
    ensures Imports(models) == if exists m :: m in models && m.relations != []
                               then "import { defineSchema, model, relation, field } from "
                               else "import { defineSchema, model, field } from "
  {}
}
