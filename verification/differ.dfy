/** The change classifier: which tables and columns the pending edits add,
    delete or modify, including columns deleted implicitly because the table
    they link to is deleted, and the overview that summarises the counts. */
module Differ {
  import opened Base
  import opened Decimal
  import opened Schema

  /** The name the remote side knows a table by: its pending rename's old
      name if there is one, its current name otherwise. */
  function RemoteName(t: Table): string {
    if t.initialName.Some? then t.initialName.value else t.name
  }

  /** The first table at or after `from` whose remote name is `target`. */
  function FindByRemoteName(ts: seq<Table>, target: string, from: nat): (r: Option<nat>)
    requires from <= |ts|
    ensures r.Some? ==> from <= r.value < |ts| && RemoteName(ts[r.value]) == target
    ensures r.Some? ==> forall k :: from <= k < r.value ==> RemoteName(ts[k]) != target
    ensures r.None? ==> forall k :: from <= k < |ts| ==> RemoteName(ts[k]) != target
    decreases |ts| - from
  {
    if from == |ts| then None
    else if RemoteName(ts[from]) == target then Some(from)
    else FindByRemoteName(ts, target, from + 1)
  }

  /** The table a column links to, looked up by remote name. */
  function LinkedTable(ts: seq<Table>, c: Column): (r: Option<nat>)
    ensures r.Some? ==> c.def.link.Some? && r.value < |ts| && RemoteName(ts[r.value]) == c.def.link.value
    ensures r.Some? ==> forall m :: 0 <= m < r.value ==> RemoteName(ts[m]) != c.def.link.value
    ensures r.None? ==> c.def.link.None? || forall k :: 0 <= k < |ts| ==> RemoteName(ts[k]) != c.def.link.value
  {
    if c.def.link.None? then None else FindByRemoteName(ts, c.def.link.value, 0)
  }

  predicate LinkTargetDeleted(ts: seq<Table>, c: Column) {
    var k := LinkedTable(ts, c);
    k.Some? && ts[k.value].deleted
  }

  /** The test that makes the migration drop a column: the column is marked
      deleted, or the table it links to is. */
  predicate Dropped(ts: seq<Table>, c: Column) {
    c.deleted || LinkTargetDeleted(ts, c)
  }

  /** Cascade through links: a column linking to a deleted table is dropped
      even though it is not marked itself, as long as that table is the
      first one known remotely under the linked name. Conversely, a column
      dropped without its own mark links to such a table. */
  lemma CascadeThroughLink(ts: seq<Table>, c: Column)
    ensures (!c.deleted && Dropped(ts, c)) <==>
      (!c.deleted && c.def.link.Some? &&
       exists k :: 0 <= k < |ts| && ts[k].deleted && RemoteName(ts[k]) == c.def.link.value &&
         forall m :: 0 <= m < k ==> RemoteName(ts[m]) != c.def.link.value)
  {
    if !c.deleted && c.def.link.Some? {
      var target := c.def.link.value;
      var found := FindByRemoteName(ts, target, 0);
      if exists k :: 0 <= k < |ts| && ts[k].deleted && RemoteName(ts[k]) == target &&
           forall m :: 0 <= m < k ==> RemoteName(ts[m]) != target {
        var k :| 0 <= k < |ts| && ts[k].deleted && RemoteName(ts[k]) == target &&
           forall m :: 0 <= m < k ==> RemoteName(ts[m]) != target;
        assert found.Some?;
        assert !(found.value < k);
        assert !(k < found.value);
      }
    }
  }

  /** How the overview classifies an entity. */
  datatype Status = Unchanged | Added | Deleted | Modified

  /** A table is added, else deleted, else modified when renamed. */
  function TableStatus(t: Table): (r: Status)
    ensures r == Added <==> t.added
    ensures r == Deleted <==> !t.added && t.deleted
    ensures r == Modified <==> !t.added && !t.deleted && t.initialName.Some?
    ensures r == Unchanged <==> !t.added && !t.deleted && t.initialName.None?
  {
    if t.added then Added
    else if t.deleted then Deleted
    else if t.initialName.Some? then Modified
    else Unchanged
  }

  /** A column is added with its table or on its own, else deleted with its
      table, on its own or through its link, else modified when renamed. */
  function ColumnStatus(ts: seq<Table>, t: Table, c: Column): (r: Status)
    ensures r == Added <==> t.added || c.added
    ensures r == Deleted <==> !t.added && !c.added && (t.deleted || Dropped(ts, c))
    ensures r == Modified <==> !t.added && !c.added && !t.deleted && !Dropped(ts, c) && c.initialName.Some?
    ensures r == Unchanged <==> !t.added && !c.added && !t.deleted && !Dropped(ts, c) && c.initialName.None?
  {
    if t.added || c.added then Added
    else if t.deleted || c.deleted || LinkTargetDeleted(ts, c) then Deleted
    else if c.initialName.Some? then Modified
    else Unchanged
  }

  datatype Tally = Tally(added: nat, deleted: nat, modified: nat)
  {
    function Total(): nat {
      added + deleted + modified
    }

    /** The count kept for a status; unchanged entities are not counted. */
    function Get(s: Status): nat {
      match s
      case Unchanged => 0
      case Added => added
      case Deleted => deleted
      case Modified => modified
    }
  }

  const NoChanges := Tally(0, 0, 0)

  /** Every count of `a` is at most the matching count of `b`. */
  predicate Below(a: Tally, b: Tally) {
    a.added <= b.added && a.deleted <= b.deleted && a.modified <= b.modified
  }

  function Count(tally: Tally, s: Status): Tally {
    match s
    case Unchanged => tally
    case Added => tally.(added := tally.added + 1)
    case Deleted => tally.(deleted := tally.deleted + 1)
    case Modified => tally.(modified := tally.modified + 1)
  }

  datatype Overview = Overview(tables: Tally, columns: Tally)

  /** Tally of the columns `t.columns[j..]`. */
  function ColumnsTally(ts: seq<Table>, t: Table, j: nat, acc: Tally): Tally
    requires j <= |t.columns|
    decreases |t.columns| - j
  {
    if j == |t.columns| then acc
    else ColumnsTally(ts, t, j + 1, Count(acc, ColumnStatus(ts, t, t.columns[j])))
  }

  /** The loop over the tables `ts[i..]`, each table's own status counted
      before its columns'. */
  function Summarize(ts: seq<Table>, i: nat, acc: Overview): Overview
    requires i <= |ts|
    decreases |ts| - i
  {
    if i == |ts| then acc
    else
      var t := ts[i];
      Summarize(ts, i + 1, Overview(Count(acc.tables, TableStatus(t)), ColumnsTally(ts, t, 0, acc.columns)))
  }

  /** `getOverview`'s counts: each is the number of tables, respectively
      columns, of its status. */
  function GetOverview(ts: seq<Table>): (r: Overview)
    ensures r.tables == Tally(CountTables(ts, Added, 0), CountTables(ts, Deleted, 0), CountTables(ts, Modified, 0))
    ensures r.columns == Tally(CountColumns(ts, Added, 0), CountColumns(ts, Deleted, 0), CountColumns(ts, Modified, 0))
  {
    var zero := Overview(NoChanges, NoChanges);
    SummarizeCounts(ts, 0, zero, Added);
    SummarizeCounts(ts, 0, zero, Deleted);
    SummarizeCounts(ts, 0, zero, Modified);
    Summarize(ts, 0, zero)
  }

  function TotalColumns(ts: seq<Table>, i: nat): nat
    requires i <= |ts|
    decreases |ts| - i
  {
    if i == |ts| then 0 else |ts[i].columns| + TotalColumns(ts, i + 1)
  }

  // ---------------------------------------------------------------------
  // The counts, defined independently of the loop

  /** The number of tables from `i` on with status `s`. */
  function CountTables(ts: seq<Table>, s: Status, i: nat): nat
    requires i <= |ts|
    decreases |ts| - i
  {
    if i == |ts| then 0
    else (if TableStatus(ts[i]) == s then 1 else 0) + CountTables(ts, s, i + 1)
  }

  /** The number of columns of `t` from `j` on with status `s`. */
  function CountColumnsOf(ts: seq<Table>, t: Table, s: Status, j: nat): nat
    requires j <= |t.columns|
    decreases |t.columns| - j
  {
    if j == |t.columns| then 0
    else (if ColumnStatus(ts, t, t.columns[j]) == s then 1 else 0) + CountColumnsOf(ts, t, s, j + 1)
  }

  /** The number of columns of the tables from `i` on with status `s`. */
  function CountColumns(ts: seq<Table>, s: Status, i: nat): nat
    requires i <= |ts|
    decreases |ts| - i
  {
    if i == |ts| then 0 else CountColumnsOf(ts, ts[i], s, 0) + CountColumns(ts, s, i + 1)
  }

  /** The column loop adds to each count exactly the number of columns of
      that status. */
  lemma {:induction false} ColumnsTallyCounts(ts: seq<Table>, t: Table, j: nat, acc: Tally, s: Status)
    requires j <= |t.columns| && s != Unchanged
    ensures ColumnsTally(ts, t, j, acc).Get(s) == acc.Get(s) + CountColumnsOf(ts, t, s, j)
    decreases |t.columns| - j
  {
    if j < |t.columns| {
      ColumnsTallyCounts(ts, t, j + 1, Count(acc, ColumnStatus(ts, t, t.columns[j])), s);
    }
  }

  /** The table loop adds to each count exactly the number of tables,
      respectively columns, of that status. */
  lemma {:induction false} SummarizeCounts(ts: seq<Table>, i: nat, acc: Overview, s: Status)
    requires i <= |ts|
    ensures s != Unchanged ==> Summarize(ts, i, acc).tables.Get(s) == acc.tables.Get(s) + CountTables(ts, s, i)
    ensures s != Unchanged ==> Summarize(ts, i, acc).columns.Get(s) == acc.columns.Get(s) + CountColumns(ts, s, i)
    decreases |ts| - i
  {
    if i < |ts| && s != Unchanged {
      var t := ts[i];
      ColumnsTallyCounts(ts, t, 0, acc.columns, s);
      SummarizeCounts(ts, i + 1, Overview(Count(acc.tables, TableStatus(t)), ColumnsTally(ts, t, 0, acc.columns)), s);
    }
  }

  /** No column of `t` from `j` on is classified as changed. */
  predicate ColumnsUnchanged(ts: seq<Table>, t: Table, j: nat) {
    forall k :: j <= k < |t.columns| ==> ColumnStatus(ts, t, t.columns[k]) == Unchanged
  }

  lemma {:induction false} ColumnsTallyFacts(ts: seq<Table>, t: Table, j: nat, acc: Tally)
    requires j <= |t.columns|
    ensures var r := ColumnsTally(ts, t, j, acc);
      && Below(acc, r)
      && r.Total() <= acc.Total() + |t.columns| - j
      && (r == acc <==> ColumnsUnchanged(ts, t, j))
    decreases |t.columns| - j
  {
    if j < |t.columns| {
      var s := ColumnStatus(ts, t, t.columns[j]);
      ColumnsTallyFacts(ts, t, j + 1, Count(acc, s));
    }
  }

  /** Each entity counts at most once: the table counts never exceed the
      number of tables, nor the column counts the number of columns; and the
      counts stay all zero exactly when every table and every column is
      unchanged. */
  lemma {:induction false} SummarizeFacts(ts: seq<Table>, i: nat, acc: Overview)
    requires i <= |ts|
    ensures var r := Summarize(ts, i, acc);
      && Below(acc.tables, r.tables) && Below(acc.columns, r.columns)
      && r.tables.Total() <= acc.tables.Total() + |ts| - i
      && r.columns.Total() <= acc.columns.Total() + TotalColumns(ts, i)
      && (r == acc <==> forall k :: i <= k < |ts| ==>
            TableStatus(ts[k]) == Unchanged && ColumnsUnchanged(ts, ts[k], 0))
    decreases |ts| - i
  {
    if i < |ts| {
      var t := ts[i];
      var acc' := Overview(Count(acc.tables, TableStatus(t)), ColumnsTally(ts, t, 0, acc.columns));
      ColumnsTallyFacts(ts, t, 0, acc.columns);
      SummarizeFacts(ts, i + 1, acc');
      var r := Summarize(ts, i, acc);
      if r == acc {
        // counts only grow, so nothing was counted for table i either
        assert acc'.tables == acc.tables && acc'.columns == acc.columns;
      }
    }
  }

  /** The overview's counts are bounded by the number of entities, and are
      all zero exactly when nothing is classified as changed. */
  lemma OverviewFacts(ts: seq<Table>)
    ensures GetOverview(ts).tables.Total() <= |ts|
    ensures GetOverview(ts).columns.Total() <= TotalColumns(ts, 0)
    ensures GetOverview(ts) == Overview(NoChanges, NoChanges) <==>
      forall k :: 0 <= k < |ts| ==> TableStatus(ts[k]) == Unchanged && ColumnsUnchanged(ts, ts[k], 0)
  {
    var zero := Overview(NoChanges, NoChanges);
    SummarizeFacts(ts, 0, zero);
    var r := Summarize(ts, 0, zero);
    assert r == GetOverview(ts);
    assert r.tables.Total() <= |ts|;
    assert r.columns.Total() <= TotalColumns(ts, 0);
  }

  // ---------------------------------------------------------------------
  // The overview line shown as the hint of the migrate entry

  function Part(n: nat, sign: string): seq<string> {
    if n == 0 then [] else [sign + NatToString(n)]
  }

  /** "+a, -d, ·m tables", leaving out the zero counts, or nothing at all. */
  function Section(t: Tally, noun: string): seq<string> {
    var parts := Part(t.added, "+") + Part(t.deleted, "-") + Part(t.modified, "\U{00B7}");
    if |parts| > 0 then [Join(parts, ", ") + " " + noun] else []
  }

  /** The overview line; it is empty, and so the migrate entry disabled,
      exactly when all six counts are zero. */
  function OverviewMessage(o: Overview): (r: string)
    ensures r == "" <==> o == Overview(NoChanges, NoChanges)
  {
    var sections := Section(o.tables, "tables") + Section(o.columns, "columns");
    assert o != Overview(NoChanges, NoChanges) ==> |sections| > 0 && |sections[0]| > 0;
    Join(sections, ", ")
  }

  /** Whether the editor disables its "Run migration" entry. */
  predicate MigrateDisabled(ts: seq<Table>) {
    OverviewMessage(GetOverview(ts)) == ""
  }

  /** The migrate entry is disabled exactly when every table and column is
      classified unchanged. */
  lemma MigrateDisabledIffUnchanged(ts: seq<Table>)
    ensures MigrateDisabled(ts) <==>
      forall k :: 0 <= k < |ts| ==> TableStatus(ts[k]) == Unchanged && ColumnsUnchanged(ts, ts[k], 0)
  {
    OverviewFacts(ts);
  }
}
