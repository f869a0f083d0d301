/** The migration planner: the ordered list of remote operations that the
    "Run migration" entry issues for the edited schema. The editor issues
    them one by one from two loops over the tables; here each loop position
    that issues an operation contributes a step tagged with that position,
    and the plan is the sequence of the steps' operations. */
module Planner {
  import opened Base
  import opened Schema
  import opened Differ

  /** The six remote calls, under the names of the remote API. */
  datatype Op =
    | CreateTable(table: string)
    | UpdateTable(table: string, newName: string)
    | DeleteTable(table: string)
    | AddTableColumn(table: string, definition: ColumnDef)
    | UpdateColumn(table: string, column: string, newName: string)
    | DeleteColumn(table: string, column: string)

  /** The phase an operation kind belongs to: creations, renames and column
      drops first; table drops and column additions second. */
  function OpPhase(op: Op): nat {
    match op
    case CreateTable(_) => 1
    case UpdateTable(_, _) => 1
    case DeleteColumn(_, _) => 1
    case UpdateColumn(_, _, _) => 1
    case DeleteTable(_) => 2
    case AddTableColumn(_, _) => 2
  }

  // ---------------------------------------------------------------------
  // What each loop position issues

  /** Phase one, the table itself: create an added table, else rename a
      table with a pending rename. */
  function CreateOrRename(t: Table): Option<Op> {
    if t.added then Some(CreateTable(t.name))
    else if t.initialName.Some? then Some(UpdateTable(t.initialName.value, t.name))
    else None
  }

  /** Phase one, a column: drop it when it or its linked table is deleted,
      else rename it when a rename is pending. */
  function DropOrRename(ts: seq<Table>, t: Table, c: Column): Option<Op> {
    if Dropped(ts, c) then Some(DeleteColumn(t.name, c.Name()))
    else if c.initialName.Some? then Some(UpdateColumn(t.name, c.initialName.value, c.Name()))
    else None
  }

  /** Phase two, a column of a table that is kept: add it when it or its
      table is new. */
  function AddIfNew(t: Table, c: Column): Option<Op> {
    if t.added || c.added then Some(AddTableColumn(t.name, c.def)) else None
  }

  /** A loop position: a phase, a table, and a column of it, or -1 for the
      table's own operation (issued before the table's column loop). */
  predicate Position(ts: seq<Table>, phase: nat, i: nat, j: int) {
    (phase == 1 || phase == 2) && i < |ts| && -1 <= j < |ts[i].columns|
  }

  /** What the loops issue at a position, if anything. In phase two a
      deleted table is dropped and its columns are skipped. */
  function Emit(ts: seq<Table>, phase: nat, i: nat, j: int): (r: Option<Op>)
    requires Position(ts, phase, i, j)
    ensures r.Some? ==> OpPhase(r.value) == phase
    ensures r.Some? && j == -1 ==> r.value.CreateTable? || r.value.UpdateTable? || r.value.DeleteTable?
    ensures r.Some? && 0 <= j ==> r.value.table == ts[i].name
    ensures phase == 2 && ts[i].deleted && 0 <= j ==> r.None?
  {
    var t := ts[i];
    if phase == 1 then
      if j == -1 then CreateOrRename(t) else DropOrRename(ts, t, t.columns[j])
    else if j == -1 then
      if t.deleted then Some(DeleteTable(t.name)) else None
    else if t.deleted then None
    else AddIfNew(t, t.columns[j])
  }

  // ---------------------------------------------------------------------
  // The two loops

  datatype Step = Step(op: Op, phase: nat, table: nat, column: int)

  /** Lexicographic order of positions: phase, then table, then column. */
  predicate Precedes(a: Step, b: Step) {
    || a.phase < b.phase
    || (a.phase == b.phase && a.table < b.table)
    || (a.phase == b.phase && a.table == b.table && a.column < b.column)
  }

  predicate Ordered(s: seq<Step>) {
    forall k, l :: 0 <= k < l < |s| ==> Precedes(s[k], s[l])
  }

  /** Every step is issued at a real position and is what that position issues. */
  predicate Sound(ts: seq<Table>, s: seq<Step>) {
    forall st :: st in s ==>
      Position(ts, st.phase, st.table, st.column) &&
      Emit(ts, st.phase, st.table, st.column) == Some(st.op)
  }

  function Issue(o: Option<Op>, phase: nat, i: nat, j: int): seq<Step> {
    if o.Some? then [Step(o.value, phase, i, j)] else []
  }

  /** Phase one's column loop over `ts[i].columns[j..]`. */
  function ShrinkColumns(ts: seq<Table>, i: nat, j: nat): (r: seq<Step>)
    requires i < |ts| && j <= |ts[i].columns|
    ensures Sound(ts, r)
    ensures forall st :: st in r ==> st.phase == 1 && st.table == i && j <= st.column
    decreases |ts[i].columns| - j
  {
    if j == |ts[i].columns| then []
    else Issue(DropOrRename(ts, ts[i], ts[i].columns[j]), 1, i, j) + ShrinkColumns(ts, i, j + 1)
  }

  /** Phase one over the tables `ts[i..]`. */
  function PhaseOne(ts: seq<Table>, i: nat): (r: seq<Step>)
    requires i <= |ts|
    ensures Sound(ts, r)
    ensures forall st :: st in r ==> st.phase == 1 && i <= st.table
    decreases |ts| - i
  {
    if i == |ts| then []
    else Issue(CreateOrRename(ts[i]), 1, i, -1) + ShrinkColumns(ts, i, 0) + PhaseOne(ts, i + 1)
  }

  /** Phase two's column loop over `ts[i].columns[j..]` of a kept table. */
  function AddColumns(ts: seq<Table>, i: nat, j: nat): (r: seq<Step>)
    requires i < |ts| && j <= |ts[i].columns| && !ts[i].deleted
    ensures Sound(ts, r)
    ensures forall st :: st in r ==> st.phase == 2 && st.table == i && j <= st.column
    decreases |ts[i].columns| - j
  {
    if j == |ts[i].columns| then []
    else Issue(AddIfNew(ts[i], ts[i].columns[j]), 2, i, j) + AddColumns(ts, i, j + 1)
  }

  /** Phase two over the tables `ts[i..]`: a deleted table is dropped and
      its column loop skipped. */
  function PhaseTwo(ts: seq<Table>, i: nat): (r: seq<Step>)
    requires i <= |ts|
    ensures Sound(ts, r)
    ensures forall st :: st in r ==> st.phase == 2 && i <= st.table
    decreases |ts| - i
  {
    if i == |ts| then []
    else
      var own := if ts[i].deleted then [Step(DeleteTable(ts[i].name), 2, i, -1)] else AddColumns(ts, i, 0);
      own + PhaseTwo(ts, i + 1)
  }

  function Steps(ts: seq<Table>): (r: seq<Step>)
    ensures Sound(ts, r)
  {
    PhaseOne(ts, 0) + PhaseTwo(ts, 0)
  }

  function Ops(s: seq<Step>): (r: seq<Op>)
    ensures |r| == |s| && forall k :: 0 <= k < |s| ==> r[k] == s[k].op
  {
    seq(|s|, k requires 0 <= k < |s| => s[k].op)
  }

  /** The migration plan for the edited schema: every operation in it is
      issued by some loop position. */
  function Plan(ts: seq<Table>): (r: seq<Op>)
    ensures forall k :: 0 <= k < |r| ==>
      exists phase: nat, i: nat, j: int :: Position(ts, phase, i, j) && Emit(ts, phase, i, j) == Some(r[k])
  {
    var s := Steps(ts);
    assert forall k :: 0 <= k < |s| ==> s[k] in s;
    Ops(s)
  }

  // ---------------------------------------------------------------------
  // Order

  lemma OrderedConcat(a: seq<Step>, b: seq<Step>)
    requires Ordered(a) && Ordered(b)
    requires forall x, y :: x in a && y in b ==> Precedes(x, y)
    ensures Ordered(a + b)
  {
    forall k, l | 0 <= k < l < |a + b|
      ensures Precedes((a + b)[k], (a + b)[l])
    {
      if l < |a| {
        assert (a + b)[k] == a[k] && (a + b)[l] == a[l];
      } else if k >= |a| {
        assert (a + b)[k] == b[k - |a|] && (a + b)[l] == b[l - |a|];
      } else {
        assert (a + b)[k] in a && (a + b)[l] in b;
      }
    }
  }

  lemma {:induction false} ShrinkColumnsOrdered(ts: seq<Table>, i: nat, j: nat)
    requires i < |ts| && j <= |ts[i].columns|
    ensures Ordered(ShrinkColumns(ts, i, j))
    decreases |ts[i].columns| - j
  {
    if j < |ts[i].columns| {
      ShrinkColumnsOrdered(ts, i, j + 1);
      OrderedConcat(Issue(DropOrRename(ts, ts[i], ts[i].columns[j]), 1, i, j), ShrinkColumns(ts, i, j + 1));
    }
  }

  lemma {:induction false} AddColumnsOrdered(ts: seq<Table>, i: nat, j: nat)
    requires i < |ts| && j <= |ts[i].columns| && !ts[i].deleted
    ensures Ordered(AddColumns(ts, i, j))
    decreases |ts[i].columns| - j
  {
    if j < |ts[i].columns| {
      AddColumnsOrdered(ts, i, j + 1);
      OrderedConcat(Issue(AddIfNew(ts[i], ts[i].columns[j]), 2, i, j), AddColumns(ts, i, j + 1));
    }
  }

  lemma {:induction false} PhaseOneOrdered(ts: seq<Table>, i: nat)
    requires i <= |ts|
    ensures Ordered(PhaseOne(ts, i))
    decreases |ts| - i
  {
    if i < |ts| {
      var own := Issue(CreateOrRename(ts[i]), 1, i, -1);
      ShrinkColumnsOrdered(ts, i, 0);
      OrderedConcat(own, ShrinkColumns(ts, i, 0));
      PhaseOneOrdered(ts, i + 1);
      OrderedConcat(own + ShrinkColumns(ts, i, 0), PhaseOne(ts, i + 1));
    }
  }

  lemma {:induction false} PhaseTwoOrdered(ts: seq<Table>, i: nat)
    requires i <= |ts|
    ensures Ordered(PhaseTwo(ts, i))
    decreases |ts| - i
  {
    if i < |ts| {
      if !ts[i].deleted {
        AddColumnsOrdered(ts, i, 0);
      }
      var own := if ts[i].deleted then [Step(DeleteTable(ts[i].name), 2, i, -1)] else AddColumns(ts, i, 0);
      assert forall st :: st in own ==> st.phase == 2 && st.table == i;
      PhaseTwoOrdered(ts, i + 1);
      OrderedConcat(own, PhaseTwo(ts, i + 1));
    }
  }

  /** The plan follows the loop positions strictly: every phase-one step
      comes before every phase-two step; within a phase, steps follow table
      order; within a table, its own step comes before its columns' steps,
      and those follow column order. */
  lemma StepsOrdered(ts: seq<Table>)
    ensures Ordered(Steps(ts))
  {
    PhaseOneOrdered(ts, 0);
    PhaseTwoOrdered(ts, 0);
    OrderedConcat(PhaseOne(ts, 0), PhaseTwo(ts, 0));
  }

  /** Every phase-one operation (create table, rename table, drop column,
      rename column) is issued before every phase-two operation (drop
      table, add column). */
  lemma PlanPhasesSeparated(ts: seq<Table>)
    ensures forall k, l :: 0 <= k < l < |Plan(ts)| ==> OpPhase(Plan(ts)[k]) <= OpPhase(Plan(ts)[l])
  {
    var s := Steps(ts);
    StepsOrdered(ts);
    forall k, l | 0 <= k < l < |Plan(ts)|
      ensures OpPhase(Plan(ts)[k]) <= OpPhase(Plan(ts)[l])
    {
      assert s[k] in s && s[l] in s;
    }
  }

  // ---------------------------------------------------------------------
  // Contents

  lemma {:induction false} ShrinkColumnsComplete(ts: seq<Table>, i: nat, j: nat, k: nat)
    requires i < |ts| && j <= k < |ts[i].columns|
    requires Emit(ts, 1, i, k).Some?
    ensures Step(Emit(ts, 1, i, k).value, 1, i, k) in ShrinkColumns(ts, i, j)
    decreases |ts[i].columns| - j
  {
    if j < k {
      ShrinkColumnsComplete(ts, i, j + 1, k);
    }
  }

  lemma {:induction false} AddColumnsComplete(ts: seq<Table>, i: nat, j: nat, k: nat)
    requires i < |ts| && j <= k < |ts[i].columns| && !ts[i].deleted
    requires Emit(ts, 2, i, k).Some?
    ensures Step(Emit(ts, 2, i, k).value, 2, i, k) in AddColumns(ts, i, j)
    decreases |ts[i].columns| - j
  {
    if j < k {
      AddColumnsComplete(ts, i, j + 1, k);
    }
  }

  lemma {:induction false} PhaseOneComplete(ts: seq<Table>, from: nat, i: nat, j: int)
    requires from <= i && Position(ts, 1, i, j) && Emit(ts, 1, i, j).Some?
    ensures Step(Emit(ts, 1, i, j).value, 1, i, j) in PhaseOne(ts, from)
    decreases |ts| - from
  {
    var own := Issue(CreateOrRename(ts[from]), 1, from, -1);
    var cols := ShrinkColumns(ts, from, 0);
    var rest := PhaseOne(ts, from + 1);
    assert PhaseOne(ts, from) == own + cols + rest;
    if from < i {
      PhaseOneComplete(ts, from + 1, i, j);
      assert Step(Emit(ts, 1, i, j).value, 1, i, j) in rest;
    } else if j >= 0 {
      ShrinkColumnsComplete(ts, i, 0, j);
      assert Step(Emit(ts, 1, i, j).value, 1, i, j) in cols;
    } else {
      assert own == [Step(Emit(ts, 1, i, j).value, 1, i, j)];
    }
  }

  lemma {:induction false} PhaseTwoComplete(ts: seq<Table>, from: nat, i: nat, j: int)
    requires from <= i && Position(ts, 2, i, j) && Emit(ts, 2, i, j).Some?
    ensures Step(Emit(ts, 2, i, j).value, 2, i, j) in PhaseTwo(ts, from)
    decreases |ts| - from
  {
    var rest := PhaseTwo(ts, from + 1);
    var own := if ts[from].deleted then [Step(DeleteTable(ts[from].name), 2, from, -1)] else AddColumns(ts, from, 0);
    assert PhaseTwo(ts, from) == own + rest;
    if from < i {
      PhaseTwoComplete(ts, from + 1, i, j);
    } else if j >= 0 {
      assert !ts[i].deleted;
      AddColumnsComplete(ts, i, 0, j);
      assert Step(Emit(ts, 2, i, j).value, 2, i, j) in own;
    } else {
      assert own[0] == Step(Emit(ts, 2, i, j).value, 2, i, j);
    }
  }

  /** Every position that issues an operation contributes its step. */
  lemma StepsComplete(ts: seq<Table>, phase: nat, i: nat, j: int)
    requires Position(ts, phase, i, j) && Emit(ts, phase, i, j).Some?
    ensures Step(Emit(ts, phase, i, j).value, phase, i, j) in Steps(ts)
  {
    if phase == 1 {
      PhaseOneComplete(ts, 0, i, j);
    } else {
      PhaseTwoComplete(ts, 0, i, j);
    }
  }

  /** An operation is in the plan exactly when some loop position issues it. */
  lemma PlanMembership(ts: seq<Table>, op: Op)
    ensures op in Plan(ts) <==>
      exists phase: nat, i: nat, j: int :: Position(ts, phase, i, j) && Emit(ts, phase, i, j) == Some(op)
  {
    var s := Steps(ts);
    if op in Plan(ts) {
      var k :| 0 <= k < |Plan(ts)| && Plan(ts)[k] == op;
      assert s[k] in s;
    }
    if exists phase: nat, i: nat, j: int :: Position(ts, phase, i, j) && Emit(ts, phase, i, j) == Some(op) {
      var phase: nat, i: nat, j: int :| Position(ts, phase, i, j) && Emit(ts, phase, i, j) == Some(op);
      StepsComplete(ts, phase, i, j);
      var k :| 0 <= k < |s| && s[k] == Step(op, phase, i, j);
      assert Plan(ts)[k] == op;
    }
  }

  /** A table is created exactly when it is added. */
  lemma CreateTablePlanned(ts: seq<Table>, name: string)
    ensures CreateTable(name) in Plan(ts) <==>
      exists i :: 0 <= i < |ts| && ts[i].added && ts[i].name == name
  {
    PlanMembership(ts, CreateTable(name));
    if exists i :: 0 <= i < |ts| && ts[i].added && ts[i].name == name {
      var i :| 0 <= i < |ts| && ts[i].added && ts[i].name == name;
      assert Emit(ts, 1, i, -1) == Some(CreateTable(name));
    }
  }

  /** A table is renamed from its remembered name to its current one exactly
      when it is a remote table with a pending rename. */
  lemma UpdateTablePlanned(ts: seq<Table>, from: string, to: string)
    ensures UpdateTable(from, to) in Plan(ts) <==>
      exists i :: 0 <= i < |ts| && !ts[i].added && ts[i].initialName == Some(from) && ts[i].name == to
  {
    PlanMembership(ts, UpdateTable(from, to));
    if exists i :: 0 <= i < |ts| && !ts[i].added && ts[i].initialName == Some(from) && ts[i].name == to {
      var i :| 0 <= i < |ts| && !ts[i].added && ts[i].initialName == Some(from) && ts[i].name == to;
      assert Emit(ts, 1, i, -1) == Some(UpdateTable(from, to));
    }
  }

  /** A table is dropped exactly when it is marked deleted. */
  lemma DeleteTablePlanned(ts: seq<Table>, name: string)
    ensures DeleteTable(name) in Plan(ts) <==>
      exists i :: 0 <= i < |ts| && ts[i].deleted && ts[i].name == name
  {
    PlanMembership(ts, DeleteTable(name));
    if exists i :: 0 <= i < |ts| && ts[i].deleted && ts[i].name == name {
      var i :| 0 <= i < |ts| && ts[i].deleted && ts[i].name == name;
      assert Emit(ts, 2, i, -1) == Some(DeleteTable(name));
    }
  }

  /** The one position that can issue a given column drop. */
  lemma EmitsDeleteColumn(ts: seq<Table>, phase: nat, i: nat, j: int, table: string, column: string)
    requires Position(ts, phase, i, j)
    ensures Emit(ts, phase, i, j) == Some(DeleteColumn(table, column)) <==>
      phase == 1 && 0 <= j && ts[i].name == table &&
      ts[i].columns[j].Name() == column && Dropped(ts, ts[i].columns[j])
  {
  }

  /** A column is dropped exactly when it is marked deleted or its linked
      table is; a deleted owning table alone does not drop it. */
  lemma DeleteColumnPlanned(ts: seq<Table>, table: string, column: string)
    ensures DeleteColumn(table, column) in Plan(ts) <==>
      exists i, j :: 0 <= i < |ts| && 0 <= j < |ts[i].columns| && ts[i].name == table &&
        ts[i].columns[j].Name() == column && Dropped(ts, ts[i].columns[j])
  {
    PlanMembership(ts, DeleteColumn(table, column));
    if DeleteColumn(table, column) in Plan(ts) {
      var phase: nat, i: nat, j: int :| Position(ts, phase, i, j) && Emit(ts, phase, i, j) == Some(DeleteColumn(table, column));
      EmitsDeleteColumn(ts, phase, i, j, table, column);
    }
    if exists i, j :: 0 <= i < |ts| && 0 <= j < |ts[i].columns| && ts[i].name == table &&
        ts[i].columns[j].Name() == column && Dropped(ts, ts[i].columns[j]) {
      var i, j :| 0 <= i < |ts| && 0 <= j < |ts[i].columns| && ts[i].name == table &&
        ts[i].columns[j].Name() == column && Dropped(ts, ts[i].columns[j]);
      EmitsDeleteColumn(ts, 1, i, j, table, column);
    }
  }

  /** A column is renamed exactly when it has a pending rename and is not
      dropped. */
  lemma UpdateColumnPlanned(ts: seq<Table>, table: string, from: string, to: string)
    ensures UpdateColumn(table, from, to) in Plan(ts) <==>
      exists i, j :: 0 <= i < |ts| && 0 <= j < |ts[i].columns| && ts[i].name == table &&
        !Dropped(ts, ts[i].columns[j]) && ts[i].columns[j].initialName == Some(from) &&
        ts[i].columns[j].Name() == to
  {
    PlanMembership(ts, UpdateColumn(table, from, to));
    if exists i, j :: 0 <= i < |ts| && 0 <= j < |ts[i].columns| && ts[i].name == table &&
        !Dropped(ts, ts[i].columns[j]) && ts[i].columns[j].initialName == Some(from) &&
        ts[i].columns[j].Name() == to {
      var i, j :| 0 <= i < |ts| && 0 <= j < |ts[i].columns| && ts[i].name == table &&
        !Dropped(ts, ts[i].columns[j]) && ts[i].columns[j].initialName == Some(from) &&
        ts[i].columns[j].Name() == to;
      assert Emit(ts, 1, i, j) == Some(UpdateColumn(table, from, to));
    }
  }

  /** A column is added, with its full definition, exactly when it or its
      table is new and its table is not deleted. */
  lemma AddTableColumnPlanned(ts: seq<Table>, table: string, d: ColumnDef)
    ensures AddTableColumn(table, d) in Plan(ts) <==>
      exists i, j :: 0 <= i < |ts| && 0 <= j < |ts[i].columns| && ts[i].name == table &&
        !ts[i].deleted && (ts[i].added || ts[i].columns[j].added) && ts[i].columns[j].def == d
  {
    PlanMembership(ts, AddTableColumn(table, d));
    if exists i, j :: 0 <= i < |ts| && 0 <= j < |ts[i].columns| && ts[i].name == table &&
        !ts[i].deleted && (ts[i].added || ts[i].columns[j].added) && ts[i].columns[j].def == d {
      var i, j :| 0 <= i < |ts| && 0 <= j < |ts[i].columns| && ts[i].name == table &&
        !ts[i].deleted && (ts[i].added || ts[i].columns[j].added) && ts[i].columns[j].def == d;
      assert Emit(ts, 2, i, j) == Some(AddTableColumn(table, d));
    }
  }

  // ---------------------------------------------------------------------
  // Agreement with the overview

  /** Nothing is issued for table `i` exactly when it and its columns are
      classified unchanged. */
  lemma SilentIffUnchanged(ts: seq<Table>, i: nat)
    requires i < |ts|
    ensures (forall phase: nat, j: int :: Position(ts, phase, i, j) ==> Emit(ts, phase, i, j).None?) <==>
      (TableStatus(ts[i]) == Unchanged && ColumnsUnchanged(ts, ts[i], 0))
  {
    var t := ts[i];
    if TableStatus(t) == Unchanged && ColumnsUnchanged(ts, t, 0) {
      forall phase: nat, j: int | Position(ts, phase, i, j)
        ensures Emit(ts, phase, i, j).None?
      {
        if j >= 0 {
          assert ColumnStatus(ts, t, t.columns[j]) == Unchanged;
        }
      }
    } else if TableStatus(t) != Unchanged {
      if t.deleted {
        assert Emit(ts, 2, i, -1).Some?;
      } else {
        assert Emit(ts, 1, i, -1).Some?;
      }
    } else {
      var j :| 0 <= j < |t.columns| && ColumnStatus(ts, t, t.columns[j]) != Unchanged;
      if t.columns[j].added {
        assert Emit(ts, 2, i, j).Some?;
      } else {
        assert Emit(ts, 1, i, j).Some?;
      }
    }
  }

  /** The editor disables "Run migration" exactly when the plan is empty. */
  lemma PlanEmptyIffMigrateDisabled(ts: seq<Table>)
    ensures Plan(ts) == [] <==> MigrateDisabled(ts)
  {
    MigrateDisabledIffUnchanged(ts);
    if Plan(ts) != [] {
      var s := Steps(ts);
      assert s[0] in s;
      var st := s[0];
      SilentIffUnchanged(ts, st.table);
    }
    if !MigrateDisabled(ts) {
      var i :| 0 <= i < |ts| && !(TableStatus(ts[i]) == Unchanged && ColumnsUnchanged(ts, ts[i], 0));
      SilentIffUnchanged(ts, i);
      var phase: nat, j: int :| Position(ts, phase, i, j) && Emit(ts, phase, i, j).Some?;
      StepsComplete(ts, phase, i, j);
    }
  }

  // ---------------------------------------------------------------------
  // Worked sessions

  function TextColumn(name: string): ColumnDef {
    ColumnDef(name, String, None, None, None, None)
  }

  function Remote(d: ColumnDef): Column {
    Column(d, false, false, None)
  }

  /** Renaming table `users` to `people` and adding a column to it renames
      the table first and adds the column afterwards. */
  lemma RenameThenAddSession()
    ensures var email := TextColumn("email");
      Plan([Table("people", [Remote(TextColumn("id")), Remote(TextColumn("name")), NewColumn(email)], false, false, Some("users"))])
      == [UpdateTable("users", "people"), AddTableColumn("people", email)]
  {
    var email := TextColumn("email");
    var ts := [Table("people", [Remote(TextColumn("id")), Remote(TextColumn("name")), NewColumn(email)], false, false, Some("users"))];
    assert !Dropped(ts, ts[0].columns[0]) && !Dropped(ts, ts[0].columns[1]) && !Dropped(ts, ts[0].columns[2]);
    assert ShrinkColumns(ts, 0, 3) == [];
    assert ShrinkColumns(ts, 0, 2) == [];
    assert ShrinkColumns(ts, 0, 1) == [];
    assert ShrinkColumns(ts, 0, 0) == [];
    assert PhaseOne(ts, 1) == [];
    assert PhaseOne(ts, 0) == [Step(UpdateTable("users", "people"), 1, 0, -1)];
    assert AddColumns(ts, 0, 3) == [];
    assert AddColumns(ts, 0, 2) == [Step(AddTableColumn("people", email), 2, 0, 2)];
    assert AddColumns(ts, 0, 1) == AddColumns(ts, 0, 2);
    assert AddColumns(ts, 0, 0) == AddColumns(ts, 0, 2);
    assert PhaseTwo(ts, 1) == [];
    assert PhaseTwo(ts, 0) == AddColumns(ts, 0, 2);
  }

  /** Deleting table `teams`, which `users.teamId` links to, drops the link
      column in phase one before dropping the table in phase two. */
  lemma CascadeSession()
    ensures var teamId := ColumnDef("teamId", Link, Some("teams"), None, None, None);
      Plan([Table("users", [Remote(teamId)], false, false, None), Table("teams", [], false, true, None)])
      == [DeleteColumn("users", "teamId"), DeleteTable("teams")]
  {
    var teamId := ColumnDef("teamId", Link, Some("teams"), None, None, None);
    var ts := [Table("users", [Remote(teamId)], false, false, None), Table("teams", [], false, true, None)];
    assert FindByRemoteName(ts, "teams", 0) == Some(1);
    assert Dropped(ts, ts[0].columns[0]);
    assert ShrinkColumns(ts, 1, 0) == [];
    assert PhaseOne(ts, 2) == [] && PhaseOne(ts, 1) == [];
    assert ShrinkColumns(ts, 0, 1) == [];
    assert ShrinkColumns(ts, 0, 0) == [Step(DeleteColumn("users", "teamId"), 1, 0, 0)];
    assert PhaseOne(ts, 0) == [Step(DeleteColumn("users", "teamId"), 1, 0, 0)];
    assert PhaseTwo(ts, 2) == [];
    assert PhaseTwo(ts, 1) == [Step(DeleteTable("teams"), 2, 1, -1)];
    assert AddColumns(ts, 0, 1) == [] && AddColumns(ts, 0, 0) == [];
    assert PhaseTwo(ts, 0) == [Step(DeleteTable("teams"), 2, 1, -1)];
  }

  /** A new table with two new columns is created in phase one and gets its
      columns, in declaration order, in phase two. */
  lemma NewTableSession()
    ensures var a := TextColumn("col1"); var b := TextColumn("col2");
      Plan([Table("orders", [NewColumn(a), NewColumn(b)], true, false, None)])
      == [CreateTable("orders"), AddTableColumn("orders", a), AddTableColumn("orders", b)]
  {
    var a := TextColumn("col1");
    var b := TextColumn("col2");
    var ts := [Table("orders", [NewColumn(a), NewColumn(b)], true, false, None)];
    assert !Dropped(ts, ts[0].columns[0]) && !Dropped(ts, ts[0].columns[1]);
    assert ShrinkColumns(ts, 0, 2) == [] && ShrinkColumns(ts, 0, 1) == [] && ShrinkColumns(ts, 0, 0) == [];
    assert PhaseOne(ts, 1) == [];
    assert PhaseOne(ts, 0) == [Step(CreateTable("orders"), 1, 0, -1)];
    assert AddColumns(ts, 0, 2) == [];
    assert AddColumns(ts, 0, 1) == [Step(AddTableColumn("orders", b), 2, 0, 1)];
    assert AddColumns(ts, 0, 0) == [Step(AddTableColumn("orders", a), 2, 0, 0), Step(AddTableColumn("orders", b), 2, 0, 1)];
    assert PhaseTwo(ts, 1) == [];
    assert PhaseTwo(ts, 0) == AddColumns(ts, 0, 0);
  }
}
