/** The table and column forms of the interactive editor: the validators of
    their fields, and the column definition a submitted column form saves. */
module Forms {
  import opened Base
  import opened Schema
  import opened Parsers

  /** The accepted type names, in the order the editor lists them. */
  const TypeNames: seq<string> := ["string", "int", "float", "bool", "text", "multiple", "link", "email", "datetime"]

  function TypeName(t: ColumnType): string {
    match t
    case String => "string"
    case Int => "int"
    case Float => "float"
    case Bool => "bool"
    case Text => "text"
    case Multiple => "multiple"
    case Link => "link"
    case Email => "email"
    case Datetime => "datetime"
  }

  /** The column type a type name denotes, if it is one of the listed names. */
  function ParseType(s: string): (r: Option<ColumnType>)
    ensures r.Some? <==> s in TypeNames
    ensures r.Some? ==> TypeName(r.value) == s
  {
    if s == "string" then Some(String)
    else if s == "int" then Some(Int)
    else if s == "float" then Some(Float)
    else if s == "bool" then Some(Bool)
    else if s == "text" then Some(Text)
    else if s == "multiple" then Some(Multiple)
    else if s == "link" then Some(Link)
    else if s == "email" then Some(Email)
    else if s == "datetime" then Some(Datetime)
    else None
  }

  /** Every type has a listed name, and that name denotes it. */
  lemma TypeNameRoundTrip(t: ColumnType)
    ensures TypeName(t) in TypeNames
    ensures ParseType(TypeName(t)) == Some(t)
  {
  }

  // ---------------------------------------------------------------------
  // Field validators

  /** A character of the identifier class `[a-zA-Z0-9-_~]`. */
  predicate IdentifierChar(ch: char) {
    || 'a' <= ch <= 'z'
    || 'A' <= ch <= 'Z'
    || '0' <= ch <= '9'
    || ch == '-' || ch == '_' || ch == '~'
  }

  /** A match of `^[a-zA-Z0-9-_~]+$`. */
  predicate IsIdentifier(s: string) {
    |s| > 0 && forall k :: 0 <= k < |s| ==> IdentifierChar(s[k])
  }

  const IdentifierPattern := "/^[a-zA-Z0-9-_~]+$/"

  /** The name field of either form; `noun` is "Table" or "Column". */
  function ValidateName(noun: string, value: string): (r: Check)
    ensures r.Pass? <==> IsIdentifier(value)
  {
    if IsIdentifier(value) then Pass else Fail(noun + " name has to match " + IdentifierPattern)
  }

  function ValidateType(value: string): (r: Check)
    ensures r.Pass? <==> ParseType(value).Some?
    ensures r.Fail? ==> r.message == "Type needs to be one of " + Join(TypeNames, ", ")
  {
    if value in TypeNames then Pass else Fail("Type needs to be one of " + Join(TypeNames, ", "))
  }

  /** The link field: filled in exactly when the type field says `link`. */
  function ValidateLink(value: string, typeValue: string): (r: Check)
    ensures r.Pass? <==> (value != "" <==> typeValue == "link")
  {
    if typeValue == "link" then
      if value == "" then Fail("The link field must be filled the columns of type `link`") else Pass
    else if value != "" then Fail("The link field must not be filled unless the type of the column is `link`")
    else Pass
  }

  /** The default value field: checked only when the not-null field parses
      as true and a type is given; then the value must coerce. */
  function ValidateDefault(value: string, notNull: string, typeValue: string, host: Host): (r: Check)
    ensures ParseBoolean(Some(notNull)) != Parsed(true) ==> r.Pass?
    ensures r.Fail? <==>
      ParseBoolean(Some(notNull)) == Parsed(true) && typeValue != "" &&
      ParseDefaultValue(typeValue, value, host).None?
  {
    if ParseBoolean(Some(notNull)) == Parsed(true) && typeValue != "" then
      if ParseDefaultValue(typeValue, value, host).None? then
        Fail("Invalid default value for column type " + typeValue)
      else Pass
    else Pass
  }

  // ---------------------------------------------------------------------
  // The column form

  /** The text fields of the column form (the description field is never
      saved and is left out). */
  datatype ColumnForm = ColumnForm(
    name: string,
    typeName: string,
    link: string,
    unique: string,
    notNull: string,
    defaultValue: string)

  /** The form can be submitted: every field validator passes. */
  predicate Accepted(f: ColumnForm, host: Host) {
    && ValidateName("Column", f.name).Pass?
    && ValidateType(f.typeName).Pass?
    && ValidateLink(f.link, f.typeName).Pass?
    && ValidateOptionalBoolean(Some(f.unique)).Pass?
    && ValidateOptionalBoolean(Some(f.notNull)).Pass?
    && ValidateDefault(f.defaultValue, f.notNull, f.typeName, host).Pass?
  }

  /** `true || undefined` style: a flag is stored only when it parses as true. */
  function Flag(text: string): (r: Option<bool>)
    ensures r != Some(false)
    ensures r == Some(true) <==> ParseBoolean(Some(text)) == Parsed(true)
  {
    if ParseBoolean(Some(text)) == Parsed(true) then Some(true) else None
  }

  /** The column definition a submitted form saves. It agrees with the
      validators: the name is an identifier, the type is listed, a link is
      kept exactly for link columns, false flags are dropped, and a not-null
      column given a default value keeps one. */
  function SaveColumn(f: ColumnForm, host: Host): (d: ColumnDef)
    requires Accepted(f, host)
    ensures IsIdentifier(d.name) && d.name == f.name
    ensures TypeName(d.kind) == f.typeName
    ensures d.link.Some? <==> d.kind == Link
    ensures d.link.Some? ==> d.link.value == f.link && f.link != ""
    ensures d.unique != Some(false) && d.notNull != Some(false)
    ensures d.unique == Some(true) <==> ParseBoolean(Some(f.unique)) == Parsed(true)
    ensures d.notNull == Some(true) <==> ParseBoolean(Some(f.notNull)) == Parsed(true)
    ensures f.defaultValue != "" ==> d.defaultValue == ParseDefaultValue(f.typeName, f.defaultValue, host)
    ensures d.notNull == Some(true) && f.defaultValue != "" ==> d.defaultValue.Some?
    ensures f.defaultValue == "" ==> d.defaultValue.None?
  {
    var kind := ParseType(f.typeName).value;
    ColumnDef(
      f.name,
      kind,
      if f.link != "" && f.typeName == "link" then Some(f.link) else None,
      Flag(f.unique),
      Flag(f.notNull),
      if f.defaultValue != "" then ParseDefaultValue(f.typeName, f.defaultValue, host) else None)
  }

  /** The form's initial values for an existing column: each field, read
      back the way a submission reads it, gives the column's own value (a
      flag that is not true reads back as absent). */
  function FormFor(d: ColumnDef): (r: ColumnForm)
    ensures r.name == d.name
    ensures ParseType(r.typeName) == Some(d.kind)
    ensures r.link != "" ==> d.link == Some(r.link)
    ensures d.link.Some? ==> r.link == d.link.value
    ensures Flag(r.unique) == (if d.unique == Some(true) then Some(true) else None)
    ensures Flag(r.notNull) == (if d.notNull == Some(true) then Some(true) else None)
    ensures ValidateOptionalBoolean(Some(r.unique)).Pass? && ValidateOptionalBoolean(Some(r.notNull)).Pass?
    ensures r.defaultValue != "" ==> d.defaultValue == Some(r.defaultValue)
    ensures d.defaultValue.Some? ==> r.defaultValue == d.defaultValue.value
  {
    TypeNameRoundTrip(d.kind);
    FlagTexts();
    ColumnForm(
      d.name,
      TypeName(d.kind),
      if d.link.Some? then d.link.value else "",
      if d.unique == Some(true) then "true" else "",
      if d.notNull == Some(true) then "true" else "",
      if d.defaultValue.Some? then d.defaultValue.value else "")
  }

  /** The form's initial values for a new column. */
  const BlankForm := ColumnForm("", "", "", "", "", "")

  /** A new column cannot be saved from the blank form as it is. */
  lemma BlankFormRefused(host: Host)
    ensures !Accepted(BlankForm, host)
  {
    assert !IsIdentifier("");
  }

  /** A definition of the shape the editor saves. */
  predicate Canonical(d: ColumnDef, host: Host) {
    && IsIdentifier(d.name)
    && (d.link.Some? <==> d.kind == Link)
    && (d.link.Some? ==> d.link.value != "")
    && d.unique != Some(false) && d.notNull != Some(false)
    && (d.defaultValue.Some? ==>
          d.defaultValue.value != "" &&
          ParseDefaultValue(TypeName(d.kind), d.defaultValue.value, host) == d.defaultValue)
  }

  lemma FlagTexts()
    ensures Flag("true") == Some(true) && Flag("") == None
  {
    BoolTextRoundTrip(true);
  }

  /** Opening an existing column of canonical shape and submitting the form
      unchanged saves the very same definition. */
  lemma ResaveUnchanged(d: ColumnDef, host: Host)
    requires Canonical(d, host) && Accepted(FormFor(d), host)
    ensures SaveColumn(FormFor(d), host) == d
  {
    TypeNameRoundTrip(d.kind);
    FlagTexts();
    var f := FormFor(d);
    var r := SaveColumn(f, host);
    assert r.name == d.name;
    assert r.kind == d.kind;
    assert r.link == d.link;
    assert d.unique != Some(false);
    if d.unique.Some? {
      assert d.unique.value != false;
      assert d.unique == Some(true) && f.unique == "true";
    }
    assert d.notNull != Some(false);
    if d.notNull.Some? {
      assert d.notNull.value != false;
      assert d.notNull == Some(true) && f.notNull == "true";
    }
    assert r.unique == d.unique;
    assert r.notNull == d.notNull;
    assert r.defaultValue == d.defaultValue;
  }

  /** The host conversions are stable on their own results, as JavaScript's
      are: converting a converted text again gives it back. */
  ghost predicate StableHost(host: Host) {
    && (forall v :: host.finiteNumberText(v).Some? ==>
          host.finiteNumberText(v).value != "" &&
          host.finiteNumberText(host.finiteNumberText(v).value) == host.finiteNumberText(v))
    && (forall v :: host.isoTimestamp(v).Some? ==>
          host.isoTimestamp(v).value != "" &&
          host.isoTimestamp(host.isoTimestamp(v).value) == host.isoTimestamp(v))
  }

  /** Whatever a submitted form saves is of canonical shape. */
  lemma SavedIsCanonical(f: ColumnForm, host: Host)
    requires Accepted(f, host) && StableHost(host)
    ensures Canonical(SaveColumn(f, host), host)
  {
    var d := SaveColumn(f, host);
    if d.defaultValue.Some? {
      var typeName := TypeName(d.kind);
      assert typeName == f.typeName;
      if typeName in ["string", "int", "bool", "email", "link"] {
        DefaultIsStable(typeName, f.defaultValue, host);
      }
    }
  }

  /** Saving is idempotent: reopening a saved column and submitting its form
      unchanged saves the same definition again. */
  lemma SaveIdempotent(f: ColumnForm, host: Host)
    requires Accepted(f, host) && StableHost(host)
    ensures Accepted(FormFor(SaveColumn(f, host)), host)
    ensures SaveColumn(FormFor(SaveColumn(f, host)), host) == SaveColumn(f, host)
  {
    var d := SaveColumn(f, host);
    var g := FormFor(d);
    SavedIsCanonical(f, host);
    TypeNameRoundTrip(d.kind);
    FlagTexts();
    assert ValidateOptionalBoolean(Some(g.unique)).Pass?;
    assert ValidateOptionalBoolean(Some(g.notNull)).Pass?;
    assert ValidateDefault(g.defaultValue, g.notNull, g.typeName, host).Pass?;
    ResaveUnchanged(d, host);
  }

  /** Submitting the column form: an existing column `j` of table `i` is
      edited in place, otherwise the new column is appended to table `i`. */
  function SubmitColumnForm(ts: seq<Table>, i: nat, j: Option<nat>, f: ColumnForm, host: Host): (r: seq<Table>)
    requires i < |ts| && (j.Some? ==> j.value < |ts[i].columns|) && Accepted(f, host)
    ensures |r| == |ts| && forall k :: 0 <= k < |ts| && k != i ==> r[k] == ts[k]
    ensures r[i] == ts[i].(columns := r[i].columns)
    ensures j.Some? ==> |r[i].columns| == |ts[i].columns| && r[i].columns[j.value].def == SaveColumn(f, host)
    ensures j.Some? ==> forall k :: 0 <= k < |ts[i].columns| && k != j.value ==> r[i].columns[k] == ts[i].columns[k]
    ensures j.Some? ==> var c := ts[i].columns[j.value];
      r[i].columns[j.value] == c.(def := SaveColumn(f, host), initialName := TrackRename(c.Name(), c.initialName, c.added, f.name))
    ensures j.None? ==> |r[i].columns| == |ts[i].columns| + 1 && r[i].columns[..|ts[i].columns|] == ts[i].columns
    ensures j.None? ==> r[i].columns[|ts[i].columns|] == NewColumn(SaveColumn(f, host))
    ensures SchemaOk(ts) ==> SchemaOk(r)
  {
    var d := SaveColumn(f, host);
    if j.Some? then EditColumn(ts, i, j.value, d) else AddColumn(ts, i, d)
  }
}
