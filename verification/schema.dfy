/** The editable schema: the remote tables and columns, each carrying the
    bookkeeping the interactive editor adds (`added`, `deleted`,
    `initialName`), and the edit operations the editor applies to them. */
module Schema {
  import opened Base

  /** The nine column types the editor accepts. */
  datatype ColumnType = String | Int | Float | Bool | Text | Multiple | Link | Email | Datetime

  /** A column as the remote schema describes it; `link` holds the name of
      the linked table. This is also the payload of an add-column call. */
  datatype ColumnDef = ColumnDef(
    name: string,
    kind: ColumnType,
    link: Option<string>,
    unique: Option<bool>,
    notNull: Option<bool>,
    defaultValue: Option<string>)

  /** A column of the editable schema. `added`: not yet on the remote side;
      `deleted`: marked for removal; `initialName`: the remote name while a
      rename is pending. */
  datatype Column = Column(def: ColumnDef, added: bool, deleted: bool, initialName: Option<string>)
  {
    function Name(): string {
      def.name
    }
  }

  /** A table of the editable schema, with the same bookkeeping as a column. */
  datatype Table = Table(
    name: string,
    columns: seq<Column>,
    added: bool,
    deleted: bool,
    initialName: Option<string>)

  /** The bookkeeping invariants every edit keeps: a pending rename never
      names the current name, and an added entity has no pending rename and
      is never marked deleted (deleting it removes it instead). */
  predicate ColumnOk(c: Column) {
    && c.initialName != Some(c.Name())
    && (c.added ==> c.initialName.None? && !c.deleted)
  }

  predicate TableOk(t: Table) {
    && t.initialName != Some(t.name)
    && (t.added ==> t.initialName.None? && !t.deleted)
    && forall j :: 0 <= j < |t.columns| ==> ColumnOk(t.columns[j])
  }

  predicate SchemaOk(ts: seq<Table>) {
    forall i :: 0 <= i < |ts| ==> TableOk(ts[i])
  }

  /** A schema as fetched from the remote side: no bookkeeping at all. */
  predicate Pristine(ts: seq<Table>) {
    forall i :: 0 <= i < |ts| ==>
      && !ts[i].added && !ts[i].deleted && ts[i].initialName.None?
      && forall j :: 0 <= j < |ts[i].columns| ==>
           var c := ts[i].columns[j];
           !c.added && !c.deleted && c.initialName.None?
  }

  lemma PristineIsOk(ts: seq<Table>)
    requires Pristine(ts)
    ensures SchemaOk(ts)
  {
  }

  /** The `initialName` an entity holds after its name `current` is edited
      to `newName`: the old name is remembered on the first real rename of a
      remote entity, never overwritten later, and forgotten once the name is
      edited back to it. */
  function TrackRename(current: string, initial: Option<string>, added: bool, newName: string): (r: Option<string>)
    ensures r != Some(newName)
    ensures added && initial.None? ==> r.None?
    ensures initial.None? && !added && current != newName ==> r == Some(current)
    ensures initial.None? && current == newName ==> r.None?
    ensures initial.Some? ==> r == (if initial.value == newName then None else initial)
  {
    var recorded := if initial.None? && !added && current != newName then Some(current) else initial;
    if recorded == Some(newName) then None else recorded
  }

  /** `remote` is the entity's name on the remote side: either no rename is
      pending and the name is `remote`, or `remote` is remembered and the
      name differs from it. */
  predicate Tracks(remote: string, name: string, initial: Option<string>) {
    || (initial.None? && name == remote)
    || (initial == Some(remote) && name != remote)
  }

  /** One rename of a remote entity keeps the remote name it tracks. */
  lemma TrackRenameKeepsRemote(remote: string, name: string, initial: Option<string>, newName: string)
    requires Tracks(remote, name, initial)
    ensures Tracks(remote, newName, TrackRename(name, initial, false, newName))
  {
  }

  /** The pending rename after editing the name to each of `names` in turn. */
  function RenameChain(name: string, initial: Option<string>, added: bool, names: seq<string>): Option<string>
    decreases |names|
  {
    if |names| == 0 then initial
    else RenameChain(names[0], TrackRename(name, initial, added, names[0]), added, names[1..])
  }

  function LastName(name: string, names: seq<string>): string {
    if |names| == 0 then name else names[|names| - 1]
  }

  /** However often a remote entity is renamed, its pending rename still
      names it remotely; in particular, renaming it back to where it started
      leaves no rename pending. */
  lemma {:induction false} RenameChainKeepsRemote(remote: string, name: string, initial: Option<string>, names: seq<string>)
    requires Tracks(remote, name, initial)
    ensures Tracks(remote, LastName(name, names), RenameChain(name, initial, false, names))
    ensures LastName(name, names) == remote ==> RenameChain(name, initial, false, names).None?
    decreases |names|
  {
    if |names| > 0 {
      TrackRenameKeepsRemote(remote, name, initial, names[0]);
      RenameChainKeepsRemote(remote, names[0], TrackRename(name, initial, false, names[0]), names[1..]);
      assert LastName(names[0], names[1..]) == LastName(name, names);
    }
  }

  /** An added entity never acquires a pending rename, however often it is
      renamed before the migration. */
  lemma {:induction false} AddedNeverTracked(name: string, names: seq<string>)
    ensures RenameChain(name, None, true, names).None?
    decreases |names|
  {
    if |names| > 0 {
      AddedNeverTracked(names[0], names[1..]);
    }
  }

  // ---------------------------------------------------------------------
  // Table edits

  /** Submitting the table form of table `i` with a new name. */
  function RenameTable(ts: seq<Table>, i: nat, newName: string): (r: seq<Table>)
    requires i < |ts|
    ensures |r| == |ts|
    ensures forall k :: 0 <= k < |ts| && k != i ==> r[k] == ts[k]
    ensures r[i].name == newName && r[i].columns == ts[i].columns
    ensures r[i].added == ts[i].added && r[i].deleted == ts[i].deleted
    ensures !ts[i].added ==> forall remote :: Tracks(remote, ts[i].name, ts[i].initialName) ==>
              Tracks(remote, r[i].name, r[i].initialName)
    ensures SchemaOk(ts) ==> SchemaOk(r)
  {
    var t := ts[i];
    ts[i := t.(name := newName, initialName := TrackRename(t.name, t.initialName, t.added, newName))]
  }

  function NewTable(name: string): Table {
    Table(name, [], true, false, None)
  }

  /** Submitting the table form for a new table: it is appended, added and empty. */
  function AddTable(ts: seq<Table>, name: string): (r: seq<Table>)
    ensures |r| == |ts| + 1 && r[..|ts|] == ts
    ensures r[|ts|].name == name && r[|ts|].added && !r[|ts|].deleted
    ensures r[|ts|].columns == [] && r[|ts|].initialName.None?
    ensures SchemaOk(ts) ==> SchemaOk(r)
  {
    ts + [NewTable(name)]
  }

  /** Sequence `s` without its element at `i`, the rest in order. */
  function RemoveAt<T>(s: seq<T>, i: nat): (r: seq<T>)
    requires i < |s|
    ensures |r| == |s| - 1
    ensures forall k :: 0 <= k < i ==> r[k] == s[k]
    ensures forall k :: i <= k < |r| ==> r[k] == s[k + 1]
  {
    s[..i] + s[i + 1..]
  }

  /** The delete key on table `i`: an added table is removed outright; a
      remote one has its `deleted` mark toggled. */
  function ToggleTableDeletion(ts: seq<Table>, i: nat): (r: seq<Table>)
    requires i < |ts|
    ensures ts[i].added ==> r == RemoveAt(ts, i)
    ensures !ts[i].added ==> |r| == |ts| && r[i] == ts[i].(deleted := !ts[i].deleted)
    ensures !ts[i].added ==> forall k :: 0 <= k < |ts| && k != i ==> r[k] == ts[k]
    ensures SchemaOk(ts) ==> SchemaOk(r)
  {
    var t := ts[i];
    if t.added then RemoveAt(ts, i) else ts[i := t.(deleted := !t.deleted)]
  }

  /** Deleting a remote table twice restores the schema. */
  lemma ToggleTableTwice(ts: seq<Table>, i: nat)
    requires i < |ts| && !ts[i].added
    ensures ToggleTableDeletion(ToggleTableDeletion(ts, i), i) == ts
  {
  }

  /** Deleting a table just added restores the schema it was added to. */
  lemma AddThenDeleteTable(ts: seq<Table>, name: string)
    ensures ToggleTableDeletion(AddTable(ts, name), |ts|) == ts
  {
    assert AddTable(ts, name)[..|ts|] == ts;
  }

  // ---------------------------------------------------------------------
  // Column edits

  /** Submitting the column form of column `j` of table `i` with definition
      `d`: every field of the definition is replaced, the bookkeeping is kept
      and the rename is tracked. */
  function EditColumn(ts: seq<Table>, i: nat, j: nat, d: ColumnDef): (r: seq<Table>)
    requires i < |ts| && j < |ts[i].columns|
    ensures |r| == |ts| && forall k :: 0 <= k < |ts| && k != i ==> r[k] == ts[k]
    ensures r[i] == ts[i].(columns := r[i].columns)
    ensures |r[i].columns| == |ts[i].columns|
    ensures forall k :: 0 <= k < |ts[i].columns| && k != j ==> r[i].columns[k] == ts[i].columns[k]
    ensures r[i].columns[j].def == d
    ensures r[i].columns[j].added == ts[i].columns[j].added
    ensures r[i].columns[j].deleted == ts[i].columns[j].deleted
    ensures var c := ts[i].columns[j]; r[i].columns[j].initialName == TrackRename(c.Name(), c.initialName, c.added, d.name)
    ensures var c := ts[i].columns[j]; !c.added ==> forall remote :: Tracks(remote, c.Name(), c.initialName) ==>
              Tracks(remote, d.name, r[i].columns[j].initialName)
    ensures SchemaOk(ts) ==> SchemaOk(r)
  {
    var t := ts[i];
    var c := t.columns[j];
    var c' := c.(def := d, initialName := TrackRename(c.Name(), c.initialName, c.added, d.name));
    ts[i := t.(columns := t.columns[j := c'])]
  }

  function NewColumn(d: ColumnDef): Column {
    Column(d, true, false, None)
  }

  /** Submitting the column form for a new column of table `i`: it is
      appended to that table, added, with no pending rename. */
  function AddColumn(ts: seq<Table>, i: nat, d: ColumnDef): (r: seq<Table>)
    requires i < |ts|
    ensures |r| == |ts| && forall k :: 0 <= k < |ts| && k != i ==> r[k] == ts[k]
    ensures r[i] == ts[i].(columns := r[i].columns)
    ensures |r[i].columns| == |ts[i].columns| + 1
    ensures r[i].columns[..|ts[i].columns|] == ts[i].columns
    ensures var c := r[i].columns[|ts[i].columns|]; c.def == d && c.added && !c.deleted && c.initialName.None?
    ensures SchemaOk(ts) ==> SchemaOk(r)
  {
    var t := ts[i];
    ts[i := t.(columns := t.columns + [NewColumn(d)])]
  }

  /** The delete key on column `j` of table `i`: an added column is removed
      outright; a remote one has its `deleted` mark toggled. */
  function ToggleColumnDeletion(ts: seq<Table>, i: nat, j: nat): (r: seq<Table>)
    requires i < |ts| && j < |ts[i].columns|
    ensures |r| == |ts| && forall k :: 0 <= k < |ts| && k != i ==> r[k] == ts[k]
    ensures r[i] == ts[i].(columns := r[i].columns)
    ensures ts[i].columns[j].added ==> r[i].columns == RemoveAt(ts[i].columns, j)
    ensures var c := ts[i].columns[j]; !c.added ==> r[i].columns == ts[i].columns[j := c.(deleted := !c.deleted)]
    ensures SchemaOk(ts) ==> SchemaOk(r)
  {
    var t := ts[i];
    var c := t.columns[j];
    var cols := if c.added then RemoveAt(t.columns, j) else t.columns[j := c.(deleted := !c.deleted)];
    ts[i := t.(columns := cols)]
  }

  /** Deleting a remote column twice restores the schema. */
  lemma ToggleColumnTwice(ts: seq<Table>, i: nat, j: nat)
    requires i < |ts| && j < |ts[i].columns| && !ts[i].columns[j].added
    ensures ToggleColumnDeletion(ToggleColumnDeletion(ts, i, j), i, j) == ts
  {
    var r := ToggleColumnDeletion(ToggleColumnDeletion(ts, i, j), i, j);
    assert r[i].columns == ts[i].columns;
  }

  /** Deleting a column just added restores the schema it was added to. */
  lemma AddThenDeleteColumn(ts: seq<Table>, i: nat, d: ColumnDef)
    requires i < |ts|
    ensures ToggleColumnDeletion(AddColumn(ts, i, d), i, |ts[i].columns|) == ts
  {
    var r := ToggleColumnDeletion(AddColumn(ts, i, d), i, |ts[i].columns|);
    assert r[i].columns == ts[i].columns;
  }

  // ---------------------------------------------------------------------
  // Editing sessions

  /** One edit the user makes in the editor, addressing tables and columns
      by their position in the list. */
  datatype Edit =
    | RenameTableTo(table: nat, name: string)
    | NewTableNamed(name: string)
    | DeleteTableKey(table: nat)
    | EditColumnTo(table: nat, column: nat, definition: ColumnDef)
    | NewColumnIn(table: nat, definition: ColumnDef)
    | DeleteColumnKey(table: nat, column: nat)

  /** Whether `e` addresses an entity that exists; the editor only offers
      edits on the entries it lists. */
  predicate Applicable(ts: seq<Table>, e: Edit) {
    match e
    case NewTableNamed(_) => true
    case RenameTableTo(i, _) => i < |ts|
    case DeleteTableKey(i) => i < |ts|
    case NewColumnIn(i, _) => i < |ts|
    case EditColumnTo(i, j, _) => i < |ts| && j < |ts[i].columns|
    case DeleteColumnKey(i, j) => i < |ts| && j < |ts[i].columns|
  }

  /** The schema after one edit; an edit of a missing entity changes nothing. */
  function Apply(ts: seq<Table>, e: Edit): (r: seq<Table>)
    ensures !Applicable(ts, e) ==> r == ts
    ensures SchemaOk(ts) ==> SchemaOk(r)
  {
    if !Applicable(ts, e) then ts
    else match e
      case RenameTableTo(i, name) => RenameTable(ts, i, name)
      case NewTableNamed(name) => AddTable(ts, name)
      case DeleteTableKey(i) => ToggleTableDeletion(ts, i)
      case EditColumnTo(i, j, d) => EditColumn(ts, i, j, d)
      case NewColumnIn(i, d) => AddColumn(ts, i, d)
      case DeleteColumnKey(i, j) => ToggleColumnDeletion(ts, i, j)
  }

  /** The schema after the edits `es`, in order. */
  function ApplyAll(ts: seq<Table>, es: seq<Edit>): seq<Table>
    decreases |es|
  {
    if |es| == 0 then ts else ApplyAll(Apply(ts, es[0]), es[1..])
  }

  /** Every editing session keeps the bookkeeping invariants. */
  lemma {:induction false} EditsKeepSchemaOk(ts: seq<Table>, es: seq<Edit>)
    requires SchemaOk(ts)
    ensures SchemaOk(ApplyAll(ts, es))
    decreases |es|
  {
    if |es| > 0 {
      EditsKeepSchemaOk(Apply(ts, es[0]), es[1..]);
    }
  }

  /** Every schema the editor can reach from a fetched one satisfies the
      bookkeeping invariants. */
  lemma SessionFromFetchedIsOk(ts: seq<Table>, es: seq<Edit>)
    requires Pristine(ts)
    ensures SchemaOk(ApplyAll(ts, es))
  {
    PristineIsOk(ts);
    EditsKeepSchemaOk(ts, es);
  }
}
