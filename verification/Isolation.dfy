// What scoped() is for: over any run of statements from any contexts, a scope
// sees only itself.
module Isolation {
  import opened Wrappers
  import opened Scoped

  function Within(scope: Scope): Row -> bool {
    r => InScope(r, scope)
  }

  function Beyond(scope: Scope): Row -> bool {
    r => !InScope(r, scope)
  }

  /** The rows of a scope, in the table's order. */
  function View(rows: seq<Row>, scope: Scope): seq<Row> {
    Filter(rows, Within(scope))
  }

  function Foreign(rows: seq<Row>, scope: Scope): seq<Row> {
    Filter(rows, Beyond(scope))
  }

  /** Two contexts have the same scope or share no row. */
  lemma ScopesPartition(project: bool, a: Context, b: Context, row: Row)
    requires ScopeOf(project, a).Ok? && ScopeOf(project, b).Ok?
    requires ScopeOf(project, a) != ScopeOf(project, b)
    ensures !InScope(row, ScopeOf(project, a).value) || !InScope(row, ScopeOf(project, b).value)
  {
    OwnRowIsInScope(row, project, a);
    OwnRowIsInScope(row, project, b);
  }

  // ---- What the callers of scoped() must keep to ----

  predicate LeavesScopeColumns(columns: set<string>, scope: Scope) {
    forall i :: 0 <= i < |scope| ==> scope[i].0 !in columns
  }

  /** The column lists on which an insert may meet an existing row. */
  function MeetingLists(table: Table, conflict: OnConflict): seq<seq<string>> {
    if conflict.Fail? then table.unique else table.unique + [conflict.on]
  }

  ghost predicate MeetsNoForeign(rows: seq<Row>, row: Row, lists: seq<seq<string>>, scope: Scope) {
    forall r, u :: r in rows && !InScope(r, scope) && 0 <= u < |lists| ==> !Agree(r, row, lists[u])
  }

  ghost predicate MeetNoForeign(rows: seq<Row>, news: seq<Row>, lists: seq<seq<string>>, scope: Scope) {
    forall i :: 0 <= i < |news| ==> MeetsNoForeign(rows, news[i], lists, scope)
  }

  /** SET leaves every row it selects in the scope. */
  ghost predicate KeepsSelected(rows: seq<Row>, assign: Assignment, filter: Option<Expr>, scope: Scope) {
    forall r :: r in rows && Matches(r, WithScope(filter, scope)) ==> InScope(Assigned(r, assign), scope)
  }

  /**
   * SET keeps the rows it selects in the scope, DO UPDATE SET leaves the scope
   * columns alone (the plugin reads neither), and no inserted or updated row
   * meets a row of another scope on a unique or conflict column list. Of an
   * insert the plugin refuses nothing is asked.
   */
  ghost predicate StaysInScope(table: Table, rows: seq<Row>, q: Statement, scope: Scope) {
    match q
    case Update(assign, filter) =>
      && KeepsSelected(rows, assign, filter, scope)
      && MeetNoForeign(rows, MapRows(Filter(rows, Selects(WithScope(filter, scope))), Assigning(assign)), table.unique, scope)
    case Insert(columns, cells, conflict) =>
      CheckInsert(columns, cells, scope).Ok? ==>
        && (conflict.DoUpdate? ==> LeavesScopeColumns(conflict.merge.Keys, scope))
        && (WellFormedInsert(columns, cells) ==>
              MeetNoForeign(rows, NewRows(columns, cells), MeetingLists(table, conflict), scope))
    case _ => true
  }

  /** Column lists that include the scope columns never meet across scopes. */
  lemma ScopedListsMeetNoForeign(rows: seq<Row>, row: Row, lists: seq<seq<string>>, scope: Scope)
    requires InScope(row, scope)
    requires forall u, i :: 0 <= u < |lists| && 0 <= i < |scope| ==> scope[i].0 in lists[u]
    ensures MeetsNoForeign(rows, row, lists, scope)
  {
    forall r, u | r in rows && !InScope(r, scope) && 0 <= u < |lists|
      ensures !Agree(r, row, lists[u])
    {
      var i :| 0 <= i < |scope| && At(r, scope[i].0) != Text(scope[i].1);
      assert scope[i].0 in lists[u];
      var k :| 0 <= k < |lists[u]| && lists[u][k] == scope[i].0;
      assert At(row, lists[u][k]) == Text(scope[i].1);
    }
  }

  // ---- Inserts carry their scope ----

  lemma {:induction false} CheckedCarries(columns: seq<string>, cells: seq<seq<Cell>>, scope: Scope)
    ensures CheckInsert(columns, cells, scope).Ok? <==>
            forall i :: 0 <= i < |scope| ==> Carries(columns, cells, scope[i].0, scope[i].1)
    decreases |scope|
  {
    if scope == [] {
    } else {
      CheckedCarries(columns, cells, scope[1..]);
      assert forall i :: 0 < i < |scope| ==> scope[i] == scope[1..][i - 1];
      assert forall i :: 0 <= i < |scope[1..]| ==> scope[1..][i] == scope[i + 1];
    }
  }

  /** Every row of an insert the plugin lets through is a row of the context's scope. */
  lemma AcceptedInsertsAreInScope(columns: seq<string>, cells: seq<seq<Cell>>, scope: Scope)
    requires WellFormedInsert(columns, cells) && CheckInsert(columns, cells, scope).Ok?
    ensures forall i :: 0 <= i < |cells| ==> InScope(NewRows(columns, cells)[i], scope)
  {
    CheckedCarries(columns, cells, scope);
    forall i, k | 0 <= i < |cells| && 0 <= k < |scope|
      ensures At(NewRows(columns, cells)[i], scope[k].0) == Text(scope[k].1)
    {
      assert Carries(columns, cells, scope[k].0, scope[k].1);
      var j := IndexIn(columns, scope[k].0);
      assert Supplied(cells[i], j) == Some(Text(scope[k].1));
    }
  }

  /** stamp(): the caller's values, then the context's columns over them. */
  function Stamp(project: bool, ctx: Context): map<string, Value> {
    var tenant := map["tenant_id" := Text(ctx.tenantId)];
    if project then
      tenant["project_id" := if ctx.projectId.Some? then Text(ctx.projectId.value) else Null]
    else tenant
  }

  /** The cells of a record under a column list; a missing column takes its default. */
  function CellsOf(columns: seq<string>, record: map<string, Value>, defaults: map<string, Value>): seq<Cell> {
    seq(|columns|, i requires 0 <= i < |columns| =>
      if columns[i] in record then Plain(record[columns[i]]) else Computed(At(defaults, columns[i])))
  }

  function StampedCells(project: bool, ctx: Context, columns: seq<string>,
                        records: seq<map<string, Value>>, defaults: map<string, Value>): seq<seq<Cell>> {
    seq(|records|, i requires 0 <= i < |records| =>
      CellsOf(columns, records[i] + Stamp(project, ctx), defaults))
  }

  /** A stamped record has the context's values in the scope columns and its own, or the defaults, in every other. */
  lemma StampedCellsMean(project: bool, ctx: Context, columns: seq<string>,
                         records: seq<map<string, Value>>, defaults: map<string, Value>, i: nat, j: nat)
    requires i < |records| && j < |columns|
    ensures var cells, column := StampedCells(project, ctx, columns, records, defaults), columns[j];
      && |cells| == |records| && |cells[i]| == |columns|
      && cells[i][j] ==
         if column == "tenant_id" then Plain(Text(ctx.tenantId))
         else if column == "project_id" && project then
           Plain(if ctx.projectId.Some? then Text(ctx.projectId.value) else Null)
         else if column in records[i] then Plain(records[i][column])
         else Computed(if column in defaults then defaults[column] else Null)
  {
  }

  lemma StampCarries(project: bool, ctx: Context, columns: seq<string>,
                     records: seq<map<string, Value>>, defaults: map<string, Value>, i: nat)
    requires ScopeOf(project, ctx).Ok? && i < |ScopeOf(project, ctx).value|
    requires records != []
    requires Stamp(project, ctx).Keys <= (set c | c in columns)
    ensures var s := ScopeOf(project, ctx).value;
      Carries(columns, StampedCells(project, ctx, columns, records, defaults), s[i].0, s[i].1)
  {
    var s := ScopeOf(project, ctx).value;
    assert s[i].0 in Stamp(project, ctx).Keys;
    assert Stamp(project, ctx)[s[i].0] == Text(s[i].1);
    var cells := StampedCells(project, ctx, columns, records, defaults);
    var j := IndexIn(columns, s[i].0);
    forall r | 0 <= r < |cells| ensures Supplied(cells[r], j) == Some(Text(s[i].1)) {
      assert cells[r] == CellsOf(columns, records[r] + Stamp(project, ctx), defaults);
    }
  }

  /**
   * insertInto() is accepted exactly when there is a record to insert and the
   * context has the project the table needs -- whatever the records say
   * about tenant_id and project_id.
   */
  lemma StampedInsertIsAccepted(project: bool, ctx: Context, columns: seq<string>,
                                records: seq<map<string, Value>>, defaults: map<string, Value>, conflict: OnConflict)
    requires Stamp(project, ctx).Keys <= (set c | c in columns)
    ensures var q := Insert(columns, StampedCells(project, ctx, columns, records, defaults), conflict);
      Transform(project, ctx, q).Ok? <==> records != [] && (project ==> ctx.projectId.Some?)
  {
    var cells := StampedCells(project, ctx, columns, records, defaults);
    if ScopeOf(project, ctx).Ok? {
      var s := ScopeOf(project, ctx).value;
      CheckedCarries(columns, cells, s);
      if records == [] {
        assert !Carries(columns, cells, s[0].0, s[0].1);
      } else {
        forall i | 0 <= i < |s| ensures Carries(columns, cells, s[i].0, s[i].1) {
          StampCarries(project, ctx, columns, records, defaults, i);
        }
      }
    }
  }

  // ---- One statement ----

  lemma KeepsScope(before: Row, after: Row, scope: Scope)
    requires forall i :: 0 <= i < |scope| ==> At(after, scope[i].0) == At(before, scope[i].0)
    ensures InScope(after, scope) <==> InScope(before, scope)
  {
  }

  lemma AssignedKeepsScope(row: Row, assign: Assignment, scope: Scope)
    requires LeavesScopeColumns(assign.Keys, scope)
    ensures InScope(Assigned(row, assign), scope) <==> InScope(row, scope)
  {
    KeepsScope(row, Assigned(row, assign), scope);
  }

  lemma MergedKeepsScope(row: Row, excluded: Row, merge: Merge, scope: Scope)
    requires LeavesScopeColumns(merge.Keys, scope)
    ensures InScope(Merged(row, excluded, merge), scope) <==> InScope(row, scope)
  {
    KeepsScope(row, Merged(row, excluded, merge), scope);
  }

  /** A scoped filter finds in the table what it finds in the scope's own rows. */
  lemma SelectedInView(rows: seq<Row>, filter: Option<Expr>, scope: Scope)
    ensures Filter(View(rows, scope), Selects(WithScope(filter, scope))) == Filter(rows, Selects(WithScope(filter, scope)))
  {
    forall r: Row ensures Selects(WithScope(filter, scope))(r) ==> Within(scope)(r) {
      ScopeIsAnded(r, filter, scope);
    }
    FilterTwice(rows, Selects(WithScope(filter, scope)), Within(scope), Selects(WithScope(filter, scope)));
  }

  lemma UpdateActsInside(rows: seq<Row>, assign: Assignment, filter: Option<Expr>, scope: Scope)
    requires KeepsSelected(rows, assign, filter, scope)
    ensures var f := Updating(WithScope(filter, scope), assign);
      && View(MapRows(rows, f), scope) == MapRows(View(rows, scope), f)
      && Foreign(MapRows(rows, f), scope) == Foreign(rows, scope)
  {
    var f := Updating(WithScope(filter, scope), assign);
    forall r | r in rows ensures InScope(f(r), scope) == InScope(r, scope) && (!InScope(r, scope) ==> f(r) == r) {
      ScopeIsAnded(r, filter, scope);
    }
    FilterMap(rows, f, Within(scope));
    FilterMap(rows, f, Beyond(scope));
    FilterMembers(rows, Beyond(scope));
    MapRowsIdentity(Foreign(rows, scope), f);
  }

  lemma UpdateDoublesInside(rows: seq<Row>, assign: Assignment, filter: Option<Expr>, unique: seq<seq<string>>, scope: Scope)
    requires KeepsSelected(rows, assign, filter, scope)
    requires MeetNoForeign(rows, MapRows(Filter(rows, Selects(WithScope(filter, scope))), Assigning(assign)), unique, scope)
    ensures var f, selected := Updating(WithScope(filter, scope), assign), Filter(rows, Selects(WithScope(filter, scope)));
      UpdateDoubles(selected, MapRows(View(rows, scope), f), assign, unique)
      <==> UpdateDoubles(selected, MapRows(rows, f), assign, unique)
  {
    var f, selected := Updating(WithScope(filter, scope), assign), Filter(rows, Selects(WithScope(filter, scope)));
    var after, news := MapRows(rows, f), MapRows(selected, Assigning(assign));
    UpdateActsInside(rows, assign, filter, scope);
    ForeignDecidesMeeting(rows, after, news, unique, scope);
    forall i, u | 0 <= i < |selected| && 0 <= u < |unique|
      ensures Filter(View(after, scope), Agreeing(Assigned(selected[i], assign), unique[u]))
           == Filter(after, Agreeing(Assigned(selected[i], assign), unique[u]))
    {
      assert news[i] == Assigned(selected[i], assign);
      assert MeetsNoForeign(after, news[i], unique, scope);
      CollidesInView(after, news[i], unique[u], scope);
    }
  }

  lemma {:induction false} LeavingRowsShow(rows: seq<Row>, f: Row -> Row, scope: Scope)
    requires forall r :: r in rows && !InScope(r, scope) ==> !InScope(f(r), scope)
    ensures |Foreign(MapRows(rows, f), scope)| >= |Foreign(rows, scope)|
    ensures (exists r :: r in rows && InScope(r, scope) && !InScope(f(r), scope)) ==>
      |Foreign(MapRows(rows, f), scope)| > |Foreign(rows, scope)|
    decreases |rows|
  {
    if rows == [] {
    } else {
      assert forall r :: r in rows <==> r == rows[0] || r in rows[1..];
      LeavingRowsShow(rows[1..], f, scope);
      assert MapRows(rows, f)[1..] == MapRows(rows[1..], f);
    }
  }

  /** An UPDATE that goes through changes what other scopes see exactly when a row it selects leaves. */
  lemma UpdateIsContainedExactly(rows: seq<Row>, assign: Assignment, filter: Option<Expr>, scope: Scope)
    ensures Foreign(MapRows(rows, Updating(WithScope(filter, scope), assign)), scope) == Foreign(rows, scope)
            <==> KeepsSelected(rows, assign, filter, scope)
  {
    var f := Updating(WithScope(filter, scope), assign);
    forall r: Row ensures Matches(r, WithScope(filter, scope)) ==> InScope(r, scope) {
      ScopeIsAnded(r, filter, scope);
    }
    if KeepsSelected(rows, assign, filter, scope) {
      UpdateActsInside(rows, assign, filter, scope);
    } else {
      var r :| r in rows && Matches(r, WithScope(filter, scope)) && !InScope(Assigned(r, assign), scope);
      assert InScope(r, scope) && !InScope(f(r), scope);
      LeavingRowsShow(rows, f, scope);
    }
  }

  /** SET that names no scope column keeps every row where it is. */
  lemma OtherColumnsKeepSelected(rows: seq<Row>, assign: Assignment, filter: Option<Expr>, scope: Scope)
    requires LeavesScopeColumns(assign.Keys, scope)
    ensures KeepsSelected(rows, assign, filter, scope)
  {
    forall r | r in rows && Matches(r, WithScope(filter, scope)) ensures InScope(Assigned(r, assign), scope) {
      AssignedKeepsScope(r, assign, scope);
      ScopeIsAnded(r, filter, scope);
    }
  }

  lemma FiltersCommute(rows: seq<Row>, p: Row -> bool, q: Row -> bool)
    ensures Filter(Filter(rows, p), q) == Filter(Filter(rows, q), p)
  {
    var both := (r: Row) => p(r) && q(r);
    FilterTwice(rows, q, p, both);
    FilterTwice(rows, p, q, both);
  }

  lemma DeleteActsInside(rows: seq<Row>, filter: Option<Expr>, scope: Scope)
    ensures var keep := Rejects(WithScope(filter, scope));
      && View(Filter(rows, keep), scope) == Filter(View(rows, scope), keep)
      && Foreign(Filter(rows, keep), scope) == Foreign(rows, scope)
  {
    var keep := Rejects(WithScope(filter, scope));
    FiltersCommute(rows, keep, Within(scope));
    forall r: Row ensures Beyond(scope)(r) ==> keep(r) {
      ScopeIsAnded(r, filter, scope);
    }
    FilterTwice(rows, Beyond(scope), keep, Beyond(scope));
  }

  lemma FilterSplit(rows: seq<Row>, row: Row, keep: Row -> bool)
    ensures Filter(rows + [row], keep) == Filter(rows, keep) + if keep(row) then [row] else []
  {
    FilterConcat(rows, [row], keep);
    assert Filter([row], keep) == (if keep(row) then [row] else []) + Filter([], keep);
  }

  lemma CollidesInView(rows: seq<Row>, row: Row, columns: seq<string>, scope: Scope)
    requires forall r :: r in rows && !InScope(r, scope) ==> !Agree(r, row, columns)
    ensures Collides(View(rows, scope), row, columns) <==> Collides(rows, row, columns)
    ensures Filter(View(rows, scope), Agreeing(row, columns)) == Filter(rows, Agreeing(row, columns))
  {
    FilterMembers(rows, Within(scope));
    var view := View(rows, scope);
    if Collides(rows, row, columns) {
      var i :| 0 <= i < |rows| && Agree(rows[i], row, columns);
      assert rows[i] in view;
      var j :| 0 <= j < |view| && view[j] == rows[i];
      assert Agree(view[j], row, columns);
    }
    if Collides(view, row, columns) {
      var j :| 0 <= j < |view| && Agree(view[j], row, columns);
      assert view[j] in rows;
      var i :| 0 <= i < |rows| && rows[i] == view[j];
      assert Agree(rows[i], row, columns);
    }
    var both := (r: Row) => InScope(r, scope) && Agree(r, row, columns);
    FilterTwice(rows, Agreeing(row, columns), Within(scope), both);
    FilterSame(rows, Agreeing(row, columns), both);
  }

  lemma ViolatesInView(rows: seq<Row>, row: Row, unique: seq<seq<string>>, scope: Scope)
    requires MeetsNoForeign(rows, row, unique, scope)
    ensures Violates(View(rows, scope), row, unique) <==> Violates(rows, row, unique)
  {
    forall u | 0 <= u < |unique|
      ensures Collides(View(rows, scope), row, unique[u]) <==> Collides(rows, row, unique[u])
    {
      CollidesInView(rows, row, unique[u], scope);
    }
  }

  lemma MergeActsInside(rows: seq<Row>, row: Row, columns: seq<string>, merge: Merge, scope: Scope)
    requires LeavesScopeColumns(merge.Keys, scope)
    requires forall r :: r in rows && !InScope(r, scope) ==> !Agree(r, row, columns)
    ensures var f := Merging(row, columns, merge);
      && View(MapRows(rows, f), scope) == MapRows(View(rows, scope), f)
      && Foreign(MapRows(rows, f), scope) == Foreign(rows, scope)
  {
    var f := Merging(row, columns, merge);
    forall r: Row ensures InScope(f(r), scope) == InScope(r, scope) {
      MergedKeepsScope(r, row, merge, scope);
    }
    FilterMap(rows, f, Within(scope));
    FilterMap(rows, f, Beyond(scope));
    FilterMembers(rows, Beyond(scope));
    MapRowsIdentity(Foreign(rows, scope), f);
  }

  /** What one inserted row does to the scope's rows and to the others. */
  ghost predicate ActsInside(was: seq<Row>, whole: Option<(seq<Row>, seq<Row>)>, own: Option<(seq<Row>, seq<Row>)>, scope: Scope) {
    && (whole.Some? <==> own.Some?)
    && (whole.Some? ==>
      && View(whole.value.0, scope) == own.value.0
      && Foreign(whole.value.0, scope) == Foreign(was, scope)
      && whole.value.1 == own.value.1)
  }

  lemma InsertRowActsInside(table: Table, rows: seq<Row>, row: Row, conflict: OnConflict, scope: Scope)
    requires InScope(row, scope)
    requires conflict.DoUpdate? ==> LeavesScopeColumns(conflict.merge.Keys, scope)
    requires MeetsNoForeign(rows, row, MeetingLists(table, conflict), scope)
    ensures ActsInside(rows, InsertRow(table, rows, row, conflict), InsertRow(table, View(rows, scope), row, conflict), scope)
  {
    var lists := MeetingLists(table, conflict);
    assert forall u :: 0 <= u < |table.unique| ==> lists[u] == table.unique[u];
    assert MeetsNoForeign(rows, row, table.unique, scope);
    ViolatesInView(rows, row, table.unique, scope);
    if !conflict.Fail? {
      assert lists[|table.unique|] == conflict.on;
      CollidesInView(rows, row, conflict.on, scope);
      if conflict.DoUpdate? {
        MergeActsInside(rows, row, conflict.on, conflict.merge, scope);
      }
    }
    FilterSplit(rows, row, Within(scope));
    FilterSplit(rows, row, Beyond(scope));
  }

  lemma ForeignDecidesMeeting(was: seq<Row>, now: seq<Row>, news: seq<Row>, lists: seq<seq<string>>, scope: Scope)
    requires Foreign(was, scope) == Foreign(now, scope)
    requires MeetNoForeign(was, news, lists, scope)
    ensures MeetNoForeign(now, news, lists, scope)
  {
    FilterMembers(was, Beyond(scope));
    FilterMembers(now, Beyond(scope));
    forall i, r, u | 0 <= i < |news| && r in now && !InScope(r, scope) && 0 <= u < |lists|
      ensures !Agree(r, news[i], lists[u])
    {
      assert Beyond(scope)(r);
      assert r in Foreign(now, scope);
      assert r in was;
      assert MeetsNoForeign(was, news[i], lists, scope);
    }
  }

  lemma {:induction false} InsertRowsActInside(table: Table, rows: seq<Row>, news: seq<Row>, conflict: OnConflict, scope: Scope)
    requires forall i :: 0 <= i < |news| ==> InScope(news[i], scope)
    requires conflict.DoUpdate? ==> LeavesScopeColumns(conflict.merge.Keys, scope)
    requires MeetNoForeign(rows, news, MeetingLists(table, conflict), scope)
    ensures ActsInside(rows, InsertRows(table, rows, news, conflict), InsertRows(table, View(rows, scope), news, conflict), scope)
    decreases |news|
  {
    if news == [] {
    } else {
      assert MeetsNoForeign(rows, news[0], MeetingLists(table, conflict), scope);
      InsertRowActsInside(table, rows, news[0], conflict, scope);
      var first := InsertRow(table, rows, news[0], conflict);
      if first.Some? {
        assert forall i :: 0 <= i < |news[1..]| ==> news[1..][i] == news[i + 1];
        ForeignDecidesMeeting(rows, first.value.0, news[1..], MeetingLists(table, conflict), scope);
        InsertRowsActInside(table, first.value.0, news[1..], conflict, scope);
      }
    }
  }

  /**
   * A statement of a scope leaves every other row as it was, and does to the
   * scope's rows, and answers, what it would on a table holding only those.
   */
  lemma StatementActsInside(table: Table, rows: seq<Row>, call: Call)
    requires ScopeOf(table.project, call.ctx).Ok?
    requires StaysInScope(table, rows, call.statement, ScopeOf(table.project, call.ctx).value)
    ensures var scope := ScopeOf(table.project, call.ctx).value;
      var whole := Perform(table, rows, call);
      var own := Perform(table, View(rows, scope), call);
      && View(whole.0, scope) == own.0
      && Foreign(whole.0, scope) == Foreign(rows, scope)
      && whole.1 == own.1
  {
    var scope := ScopeOf(table.project, call.ctx).value;
    match call.statement
    case Select(filter) => SelectedInView(rows, filter, scope);
    case Update(assign, filter) =>
      SelectedInView(rows, filter, scope);
      UpdateActsInside(rows, assign, filter, scope);
      UpdateDoublesInside(rows, assign, filter, table.unique, scope);
    case Delete(filter) =>
      SelectedInView(rows, filter, scope);
      DeleteActsInside(rows, filter, scope);
    case Insert(columns, cells, conflict) =>
      if CheckInsert(columns, cells, scope).Ok? && WellFormedInsert(columns, cells) {
        AcceptedInsertsAreInScope(columns, cells, scope);
        InsertRowsActInside(table, rows, NewRows(columns, cells), conflict, scope);
      }
    case Other =>
  }

  /** The same statement, seen from a scope other than its own. */
  lemma OtherScopesAreUntouched(table: Table, rows: seq<Row>, call: Call, ctx: Context)
    requires ScopeOf(table.project, ctx).Ok?
    requires ScopeOf(table.project, call.ctx) != ScopeOf(table.project, ctx)
    requires ScopeOf(table.project, call.ctx).Ok? ==>
      StaysInScope(table, rows, call.statement, ScopeOf(table.project, call.ctx).value)
    ensures var scope := ScopeOf(table.project, ctx).value;
      View(Perform(table, rows, call).0, scope) == View(rows, scope)
  {
    if ScopeOf(table.project, call.ctx).Ok? {
      var own, scope := ScopeOf(table.project, call.ctx).value, ScopeOf(table.project, ctx).value;
      StatementActsInside(table, rows, call);
      forall r: Row ensures InScope(r, scope) ==> !InScope(r, own) {
        ScopesPartition(table.project, call.ctx, ctx, r);
      }
      FilterTwice(rows, Within(scope), Beyond(own), Within(scope));
      FilterTwice(Perform(table, rows, call).0, Within(scope), Beyond(own), Within(scope));
    }
  }

  // ---- Runs ----

  function RunAll(table: Table, rows: seq<Row>, calls: seq<Call>): (seq<Row>, seq<Answer>)
    decreases |calls|
  {
    if calls == [] then (rows, [])
    else
      var first := Perform(table, rows, calls[0]);
      var rest := RunAll(table, first.0, calls[1..]);
      (rest.0, [first.1] + rest.1)
  }

  ghost predicate WellBehaved(table: Table, rows: seq<Row>, calls: seq<Call>)
    decreases |calls|
  {
    calls == [] ||
    (&& (ScopeOf(table.project, calls[0].ctx).Ok? ==>
           StaysInScope(table, rows, calls[0].statement, ScopeOf(table.project, calls[0].ctx).value))
     && WellBehaved(table, Perform(table, rows, calls[0]).0, calls[1..]))
  }

  predicate SharesScope(project: bool, ctx: Context, call: Call) {
    ScopeOf(project, call.ctx) == ScopeOf(project, ctx)
  }

  function Mine(project: bool, calls: seq<Call>, ctx: Context): seq<Call> {
    if calls == [] then []
    else
      var rest := Mine(project, calls[1..], ctx);
      if SharesScope(project, ctx, calls[0]) then [calls[0]] + rest else rest
  }

  function AnswersToMine(project: bool, calls: seq<Call>, answers: seq<Answer>, ctx: Context): seq<Answer>
    requires |calls| == |answers|
  {
    if calls == [] then []
    else
      var rest := AnswersToMine(project, calls[1..], answers[1..], ctx);
      if SharesScope(project, ctx, calls[0]) then [answers[0]] + rest else rest
  }

  lemma {:induction false} OneAnswerEach(table: Table, rows: seq<Row>, calls: seq<Call>)
    ensures |RunAll(table, rows, calls).1| == |calls|
    decreases |calls|
  {
    if calls == [] {
    } else {
      OneAnswerEach(table, Perform(table, rows, calls[0]).0, calls[1..]);
    }
  }

  /**
   * Noninterference. After any run, the rows a scope sees and the answers it
   * got are those of the run made of its own statements alone, started on its
   * own rows alone.
   */
  lemma {:induction false} Noninterference(table: Table, rows: seq<Row>, calls: seq<Call>, ctx: Context)
    requires ScopeOf(table.project, ctx).Ok?
    requires WellBehaved(table, rows, calls)
    ensures |RunAll(table, rows, calls).1| == |calls|
    ensures var scope := ScopeOf(table.project, ctx).value;
      var whole := RunAll(table, rows, calls);
      var own := RunAll(table, View(rows, scope), Mine(table.project, calls, ctx));
      && View(whole.0, scope) == own.0
      && AnswersToMine(table.project, calls, whole.1, ctx) == own.1
    decreases |calls|
  {
    OneAnswerEach(table, rows, calls);
    if calls == [] {
    } else {
      var scope := ScopeOf(table.project, ctx).value;
      var first := Perform(table, rows, calls[0]);
      Noninterference(table, first.0, calls[1..], ctx);
      var rest := RunAll(table, first.0, calls[1..]);
      assert ([first.1] + rest.1)[1..] == rest.1;
      var mine := Mine(table.project, calls[1..], ctx);
      if SharesScope(table.project, ctx, calls[0]) {
        StatementActsInside(table, rows, calls[0]);
        assert ([calls[0]] + mine)[1..] == mine;
      } else {
        OtherScopesAreUntouched(table, rows, calls[0], ctx);
      }
    }
  }

  // ---- A discipline a caller can check ----

  predicate NamesScope(project: bool, columns: seq<string>) {
    "tenant_id" in columns && (project ==> "project_id" in columns)
  }

  predicate Spares(project: bool, columns: set<string>) {
    "tenant_id" !in columns && (project ==> "project_id" !in columns)
  }

  /** Every unique list of the table names the scope columns. */
  predicate UniqueWithinScope(table: Table) {
    forall u :: 0 <= u < |table.unique| ==> NamesScope(table.project, table.unique[u])
  }

  /** SET and DO UPDATE SET name no scope column, and a conflict list names them all. */
  predicate Disciplined(project: bool, q: Statement) {
    match q
    case Update(assign, _) => Spares(project, assign.Keys)
    case Insert(_, _, conflict) =>
      && (conflict.DoUpdate? ==> Spares(project, conflict.merge.Keys))
      && (!conflict.Fail? ==> NamesScope(project, conflict.on))
    case _ => true
  }

  lemma ScopedRowsMeetNoForeign(project: bool, ctx: Context, rows: seq<Row>, news: seq<Row>, lists: seq<seq<string>>)
    requires ScopeOf(project, ctx).Ok?
    requires forall i :: 0 <= i < |news| ==> InScope(news[i], ScopeOf(project, ctx).value)
    requires forall u :: 0 <= u < |lists| ==> NamesScope(project, lists[u])
    ensures MeetNoForeign(rows, news, lists, ScopeOf(project, ctx).value)
  {
    var scope := ScopeOf(project, ctx).value;
    forall i | 0 <= i < |news| ensures MeetsNoForeign(rows, news[i], lists, scope) {
      ScopedListsMeetNoForeign(rows, news[i], lists, scope);
    }
  }

  lemma UpdatedRowsMeetNoForeign(table: Table, ctx: Context, rows: seq<Row>, assign: Assignment, filter: Option<Expr>)
    requires ScopeOf(table.project, ctx).Ok? && UniqueWithinScope(table)
    requires KeepsSelected(rows, assign, filter, ScopeOf(table.project, ctx).value)
    ensures var scope := ScopeOf(table.project, ctx).value;
      MeetNoForeign(rows, MapRows(Filter(rows, Selects(WithScope(filter, scope))), Assigning(assign)), table.unique, scope)
  {
    var scope := ScopeOf(table.project, ctx).value;
    var selected := Filter(rows, Selects(WithScope(filter, scope)));
    var news := MapRows(selected, Assigning(assign));
    FilterMembers(rows, Selects(WithScope(filter, scope)));
    forall i | 0 <= i < |news| ensures InScope(news[i], scope) {
      assert selected[i] in selected && news[i] == Assigned(selected[i], assign);
    }
    ScopedRowsMeetNoForeign(table.project, ctx, rows, news, table.unique);
  }

  lemma DisciplinedStaysInScope(table: Table, rows: seq<Row>, call: Call)
    requires ScopeOf(table.project, call.ctx).Ok?
    requires UniqueWithinScope(table) && Disciplined(table.project, call.statement)
    ensures StaysInScope(table, rows, call.statement, ScopeOf(table.project, call.ctx).value)
  {
    var scope := ScopeOf(table.project, call.ctx).value;
    match call.statement {
      case Update(assign, filter) =>
        OtherColumnsKeepSelected(rows, assign, filter, scope);
        UpdatedRowsMeetNoForeign(table, call.ctx, rows, assign, filter);
      case Insert(columns, cells, conflict) =>
        if CheckInsert(columns, cells, scope).Ok? && WellFormedInsert(columns, cells) {
          AcceptedInsertsAreInScope(columns, cells, scope);
          ScopedRowsMeetNoForeign(table.project, call.ctx, rows, NewRows(columns, cells), MeetingLists(table, conflict));
        }
      case _ =>
    }
  }

  lemma {:induction false} DisciplinedRunsAreWellBehaved(table: Table, rows: seq<Row>, calls: seq<Call>)
    requires UniqueWithinScope(table)
    requires forall i :: 0 <= i < |calls| ==> Disciplined(table.project, calls[i].statement)
    ensures WellBehaved(table, rows, calls)
    decreases |calls|
  {
    if calls == [] {
    } else {
      if ScopeOf(table.project, calls[0].ctx).Ok? { DisciplinedStaysInScope(table, rows, calls[0]); }
      assert forall i :: 0 <= i < |calls[1..]| ==> calls[1..][i] == calls[i + 1];
      DisciplinedRunsAreWellBehaved(table, Perform(table, rows, calls[0]).0, calls[1..]);
    }
  }

  /**
   * Noninterference from what can be read off the table and the statements:
   * unique and conflict lists name the scope columns, SET and DO UPDATE SET do
   * not. What the statements insert, forged scope columns included, is free.
   */
  lemma DisciplinedNoninterference(table: Table, rows: seq<Row>, calls: seq<Call>, ctx: Context)
    requires ScopeOf(table.project, ctx).Ok? && UniqueWithinScope(table)
    requires forall i :: 0 <= i < |calls| ==> Disciplined(table.project, calls[i].statement)
    ensures |RunAll(table, rows, calls).1| == |calls|
    ensures var scope := ScopeOf(table.project, ctx).value;
      var whole := RunAll(table, rows, calls);
      var own := RunAll(table, View(rows, scope), Mine(table.project, calls, ctx));
      && View(whole.0, scope) == own.0
      && AnswersToMine(table.project, calls, whole.1, ctx) == own.1
  {
    DisciplinedRunsAreWellBehaved(table, rows, calls);
    Noninterference(table, rows, calls, ctx);
  }

  // ---- Many tables ----

  datatype TableCall = TableCall(table: string, call: Call)

  type Tables = map<string, Table>

  type Data = map<string, seq<Row>>

  function RowsIn(data: Data, table: string): seq<Row> {
    if table in data then data[table] else []
  }

  function RunDatabase(tables: Tables, data: Data, calls: seq<TableCall>): (Data, seq<Answer>)
    requires forall i :: 0 <= i < |calls| ==> calls[i].table in tables
    decreases |calls|
  {
    if calls == [] then (data, [])
    else
      var c := calls[0];
      var first := Perform(tables[c.table], RowsIn(data, c.table), c.call);
      var rest := RunDatabase(tables, data[c.table := first.0], calls[1..]);
      (rest.0, [first.1] + rest.1)
  }

  /** The calls made on one table, and their answers. */
  function CallsOn(calls: seq<TableCall>, table: string): seq<Call> {
    if calls == [] then []
    else
      var rest := CallsOn(calls[1..], table);
      if calls[0].table == table then [calls[0].call] + rest else rest
  }

  function AnswersOn(calls: seq<TableCall>, answers: seq<Answer>, table: string): seq<Answer>
    requires |calls| == |answers|
  {
    if calls == [] then []
    else
      var rest := AnswersOn(calls[1..], answers[1..], table);
      if calls[0].table == table then [answers[0]] + rest else rest
  }

  /** A table's part in a run over many is the run of the calls on it. */
  lemma {:induction false} TablesRunApart(tables: Tables, data: Data, calls: seq<TableCall>, table: string)
    requires forall i :: 0 <= i < |calls| ==> calls[i].table in tables
    requires table in tables
    ensures |RunDatabase(tables, data, calls).1| == |calls|
    ensures var whole := RunDatabase(tables, data, calls);
      var own := RunAll(tables[table], RowsIn(data, table), CallsOn(calls, table));
      RowsIn(whole.0, table) == own.0 && AnswersOn(calls, whole.1, table) == own.1
    decreases |calls|
  {
    if calls == [] {
    } else {
      var c := calls[0];
      var first := Perform(tables[c.table], RowsIn(data, c.table), c.call);
      TablesRunApart(tables, data[c.table := first.0], calls[1..], table);
      var rest := RunDatabase(tables, data[c.table := first.0], calls[1..]);
      assert ([first.1] + rest.1)[1..] == rest.1;
      var others := CallsOn(calls[1..], table);
      if c.table == table {
        assert ([c.call] + others)[1..] == others;
      }
    }
  }

  /**
   * Noninterference over a database: on every table a context can reach, by
   * the scope it has there -- tenant, or tenant and project -- it sees the run
   * of its own calls on its own rows.
   */
  lemma DatabaseNoninterference(tables: Tables, data: Data, calls: seq<TableCall>, ctx: Context, table: string)
    requires forall i :: 0 <= i < |calls| ==> calls[i].table in tables
    requires table in tables && ScopeOf(tables[table].project, ctx).Ok?
    requires WellBehaved(tables[table], RowsIn(data, table), CallsOn(calls, table))
    ensures |RunDatabase(tables, data, calls).1| == |calls|
    ensures |AnswersOn(calls, RunDatabase(tables, data, calls).1, table)| == |CallsOn(calls, table)|
    ensures var t, scope := tables[table], ScopeOf(tables[table].project, ctx).value;
      var whole := RunDatabase(tables, data, calls);
      var own := RunAll(t, View(RowsIn(data, table), scope), Mine(t.project, CallsOn(calls, table), ctx));
      && View(RowsIn(whole.0, table), scope) == own.0
      && AnswersToMine(t.project, CallsOn(calls, table), AnswersOn(calls, whole.1, table), ctx) == own.1
  {
    TablesRunApart(tables, data, calls, table);
    Noninterference(tables[table], RowsIn(data, table), CallsOn(calls, table), ctx);
  }

  // ---- When a foreign row shows in an answer ----

  lemma ForeignOrOwn(rows: seq<Row>, scope: Scope, r: Row)
    ensures r in rows <==> r in View(rows, scope) || r in Foreign(rows, scope)
    ensures r in Foreign(rows, scope) <==> r in rows && !InScope(r, scope)
  {
    FilterMembers(rows, Within(scope));
    FilterMembers(rows, Beyond(scope));
  }

  lemma CollidesMeans(rows: seq<Row>, row: Row, columns: seq<string>)
    ensures Collides(rows, row, columns) <==> exists r :: r in rows && Agree(r, row, columns)
  {
    if exists r :: r in rows && Agree(r, row, columns) {
      var r :| r in rows && Agree(r, row, columns);
      var i :| 0 <= i < |rows| && rows[i] == r;
      assert Agree(rows[i], row, columns);
    }
    if Collides(rows, row, columns) {
      var i :| 0 <= i < |rows| && Agree(rows[i], row, columns);
      assert rows[i] in rows;
    }
  }

  /** A collision in the table is one among the scope's rows, or one with a foreign row. */
  lemma CollidesSomewhere(rows: seq<Row>, more: seq<Row>, row: Row, columns: seq<string>, scope: Scope)
    ensures Collides(rows + more, row, columns) <==>
      || Collides(View(rows, scope) + more, row, columns)
      || exists r :: r in rows && !InScope(r, scope) && Agree(r, row, columns)
  {
    CollidesMeans(rows + more, row, columns);
    CollidesMeans(View(rows, scope) + more, row, columns);
    forall r ensures r in rows + more <==> r in View(rows, scope) + more || (r in rows && !InScope(r, scope)) {
      ForeignOrOwn(rows, scope, r);
    }
  }

  /** Some new row meets a row there, or a new one before it. */
  predicate Clash(rows: seq<Row>, news: seq<Row>, unique: seq<seq<string>>) {
    exists i :: 0 <= i < |news| && Violates(rows + news[..i], news[i], unique)
  }

  lemma ClashCons(rows: seq<Row>, news: seq<Row>, unique: seq<seq<string>>)
    requires news != []
    ensures Clash(rows, news, unique) <==>
            Violates(rows, news[0], unique) || Clash(rows + [news[0]], news[1..], unique)
  {
    assert rows + news[..0] == rows;
    forall i | 0 < i < |news|
      ensures rows + news[..i] == rows + [news[0]] + news[1..][..i - 1] && news[i] == news[1..][i - 1]
    {
      assert news[..i] == [news[0]] + news[1..][..i - 1];
    }
    if Clash(rows + [news[0]], news[1..], unique) {
      var j :| 0 <= j < |news[1..]| && Violates(rows + [news[0]] + news[1..][..j], news[1..][j], unique);
      assert Violates(rows + news[..j + 1], news[j + 1], unique);
    }
    if Clash(rows, news, unique) {
      var i :| 0 <= i < |news| && Violates(rows + news[..i], news[i], unique);
      if i > 0 { assert Violates(rows + [news[0]] + news[1..][..i - 1], news[1..][i - 1], unique); }
    }
  }

  /** A plain insert fails exactly on a clash, and otherwise appends its rows and answers them. */
  lemma {:induction false} PlainInsertMeans(table: Table, rows: seq<Row>, news: seq<Row>)
    ensures InsertRows(table, rows, news, Fail) ==
      if Clash(rows, news, table.unique) then None else Some((rows + news, news))
    decreases |news|
  {
    if news == [] {
      assert rows + news == rows;
    } else {
      ClashCons(rows, news, table.unique);
      if !Violates(rows, news[0], table.unique) {
        PlainInsertMeans(table, rows + [news[0]], news[1..]);
        assert rows + [news[0]] + news[1..] == rows + news;
        assert [news[0]] + news[1..] == news;
      }
    }
  }

  lemma ViolatesSomewhere(rows: seq<Row>, more: seq<Row>, row: Row, unique: seq<seq<string>>, scope: Scope)
    ensures Violates(rows + more, row, unique) <==>
            Violates(View(rows, scope) + more, row, unique) || !MeetsNoForeign(rows, row, unique, scope)
  {
    forall u | 0 <= u < |unique|
      ensures Collides(rows + more, row, unique[u]) <==>
        || Collides(View(rows, scope) + more, row, unique[u])
        || exists r :: r in rows && !InScope(r, scope) && Agree(r, row, unique[u])
    {
      CollidesSomewhere(rows, more, row, unique[u], scope);
    }
  }

  lemma ClashSomewhere(rows: seq<Row>, news: seq<Row>, unique: seq<seq<string>>, scope: Scope)
    ensures Clash(rows, news, unique) <==>
            Clash(View(rows, scope), news, unique) || !MeetNoForeign(rows, news, unique, scope)
  {
    forall i | 0 <= i < |news|
      ensures Violates(rows + news[..i], news[i], unique) <==>
              Violates(View(rows, scope) + news[..i], news[i], unique) || !MeetsNoForeign(rows, news[i], unique, scope)
    {
      ViolatesSomewhere(rows, news[..i], news[i], unique, scope);
    }
  }

  /**
   * A plain insert that is let through is answered as on the scope's rows alone
   * if and only if none of its rows meets a foreign row on a unique list, or
   * they clash among the scope's own anyway.
   */
  lemma InsertIsAnsweredAloneExactly(table: Table, rows: seq<Row>, call: Call)
    requires ScopeOf(table.project, call.ctx).Ok?
    requires call.statement.Insert? && call.statement.conflict.Fail?
    requires WellFormedInsert(call.statement.columns, call.statement.cells)
    requires CheckInsert(call.statement.columns, call.statement.cells, ScopeOf(table.project, call.ctx).value).Ok?
    ensures var scope := ScopeOf(table.project, call.ctx).value;
      var news := NewRows(call.statement.columns, call.statement.cells);
      Perform(table, rows, call).1 == Perform(table, View(rows, scope), call).1 <==>
        MeetNoForeign(rows, news, table.unique, scope) || Clash(View(rows, scope), news, table.unique)
  {
    var scope := ScopeOf(table.project, call.ctx).value;
    var news := NewRows(call.statement.columns, call.statement.cells);
    PlainInsertAnswer(table, rows, call);
    PlainInsertAnswer(table, View(rows, scope), call);
    ClashSomewhere(rows, news, table.unique, scope);
  }

  lemma PlainInsertAnswer(table: Table, rows: seq<Row>, call: Call)
    requires ScopeOf(table.project, call.ctx).Ok?
    requires call.statement.Insert? && call.statement.conflict.Fail?
    requires WellFormedInsert(call.statement.columns, call.statement.cells)
    requires CheckInsert(call.statement.columns, call.statement.cells, ScopeOf(table.project, call.ctx).value).Ok?
    ensures var news := NewRows(call.statement.columns, call.statement.cells);
      Perform(table, rows, call).1 == if Clash(rows, news, table.unique) then UniqueViolation else Rows(news)
  {
    PlainInsertMeans(table, rows, NewRows(call.statement.columns, call.statement.cells));
  }

  lemma {:induction false} FilterParts(rows: seq<Row>, scope: Scope, keep: Row -> bool)
    ensures |Filter(rows, keep)| == |Filter(View(rows, scope), keep)| + |Filter(Foreign(rows, scope), keep)|
    decreases |rows|
  {
    if rows == [] {
    } else {
      FilterParts(rows[1..], scope, keep);
      var own, others := View(rows[1..], scope), Foreign(rows[1..], scope);
      if InScope(rows[0], scope) {
        assert ([rows[0]] + own)[1..] == own && [] + others == others;
      } else {
        assert ([rows[0]] + others)[1..] == others && [] + own == own;
      }
    }
  }

  /** An own row is not alone in the table when it is not among its own, or when it meets a foreign row. */
  lemma DoubledSomewhere(rows: seq<Row>, row: Row, unique: seq<seq<string>>, scope: Scope)
    requires row in rows && InScope(row, scope)
    ensures Doubled(rows, row, unique) <==>
            Doubled(View(rows, scope), row, unique) || !MeetsNoForeign(rows, row, unique, scope)
  {
    ForeignOrOwn(rows, scope, row);
    forall u | 0 <= u < |unique|
      ensures var keep := Agreeing(row, unique[u]);
        && |Filter(rows, keep)| == |Filter(View(rows, scope), keep)| + |Filter(Foreign(rows, scope), keep)|
        && (Filter(Foreign(rows, scope), keep) == [] <==>
              forall r :: r in rows && !InScope(r, scope) ==> !Agree(r, row, unique[u]))
        && (Filter(Foreign(rows, scope), keep) != [] ==> Filter(View(rows, scope), keep) != [])
    {
      DoubledParts(rows, row, unique[u], scope);
    }
  }

  lemma DoubledParts(rows: seq<Row>, row: Row, columns: seq<string>, scope: Scope)
    requires row in rows && InScope(row, scope)
    ensures var keep := Agreeing(row, columns);
      && |Filter(rows, keep)| == |Filter(View(rows, scope), keep)| + |Filter(Foreign(rows, scope), keep)|
      && (Filter(Foreign(rows, scope), keep) == [] <==>
            forall r :: r in rows && !InScope(r, scope) ==> !Agree(r, row, columns))
      && (Filter(Foreign(rows, scope), keep) != [] ==> Filter(View(rows, scope), keep) != [])
  {
    var keep := Agreeing(row, columns);
    FilterParts(rows, scope, keep);
    var met, own := Filter(Foreign(rows, scope), keep), Filter(View(rows, scope), keep);
    FilterMembers(Foreign(rows, scope), keep);
    FilterMembers(View(rows, scope), keep);
    forall r ensures r in Foreign(rows, scope) <==> r in rows && !InScope(r, scope) {
      ForeignOrOwn(rows, scope, r);
    }
    ForeignOrOwn(rows, scope, row);
    if met != [] {
      assert met[0] in met && Agree(met[0], row, columns);
      assert Agree(row, row, columns);
      assert row in own;
    } else {
      forall r | r in rows && !InScope(r, scope) ensures !Agree(r, row, columns) {
        assert r in Foreign(rows, scope) && r !in met;
      }
    }
  }

  lemma SelectedShowAfter(rows: seq<Row>, assign: Assignment, filter: Option<Expr>, scope: Scope, i: nat)
    requires KeepsSelected(rows, assign, filter, scope)
    requires i < |Filter(rows, Selects(WithScope(filter, scope)))|
    ensures var x := Assigned(Filter(rows, Selects(WithScope(filter, scope)))[i], assign);
      x in MapRows(rows, Updating(WithScope(filter, scope), assign)) && InScope(x, scope)
  {
    var selected, f := Filter(rows, Selects(WithScope(filter, scope))), Updating(WithScope(filter, scope), assign);
    FilterMembers(rows, Selects(WithScope(filter, scope)));
    assert selected[i] in selected;
    var k :| 0 <= k < |rows| && rows[k] == selected[i];
    assert MapRows(rows, f)[k] == Assigned(selected[i], assign);
  }

  lemma UpdateDoublesSomewhere(rows: seq<Row>, assign: Assignment, filter: Option<Expr>, unique: seq<seq<string>>, scope: Scope)
    requires KeepsSelected(rows, assign, filter, scope)
    ensures var f, selected := Updating(WithScope(filter, scope), assign), Filter(rows, Selects(WithScope(filter, scope)));
      UpdateDoubles(selected, MapRows(rows, f), assign, unique) <==>
        || UpdateDoubles(selected, MapRows(View(rows, scope), f), assign, unique)
        || !MeetNoForeign(rows, MapRows(selected, Assigning(assign)), unique, scope)
  {
    var f, selected := Updating(WithScope(filter, scope), assign), Filter(rows, Selects(WithScope(filter, scope)));
    var after, news := MapRows(rows, f), MapRows(selected, Assigning(assign));
    UpdateActsInside(rows, assign, filter, scope);
    forall i | 0 <= i < |selected|
      ensures Doubled(after, Assigned(selected[i], assign), unique) <==>
        || Doubled(View(after, scope), Assigned(selected[i], assign), unique)
        || !MeetsNoForeign(rows, news[i], unique, scope)
    {
      SelectedShowAfter(rows, assign, filter, scope, i);
      DoubledSomewhere(after, news[i], unique, scope);
      SameForeignSameMeeting(rows, after, news[i], unique, scope);
    }
  }

  lemma SameForeignSameMeeting(was: seq<Row>, now: seq<Row>, row: Row, unique: seq<seq<string>>, scope: Scope)
    requires Foreign(was, scope) == Foreign(now, scope)
    ensures MeetsNoForeign(was, row, unique, scope) <==> MeetsNoForeign(now, row, unique, scope)
  {
    forall r ensures r in was && !InScope(r, scope) <==> r in now && !InScope(r, scope) {
      ForeignOrOwn(was, scope, r);
      ForeignOrOwn(now, scope, r);
    }
  }

  ghost predicate ForeignMeets(rows: seq<Row>, row: Row, columns: seq<string>, scope: Scope) {
    exists r :: r in rows && !InScope(r, scope) && Agree(r, row, columns)
  }

  /**
   * When one inserted row is answered as on the scope's rows alone. Otherwise
   * plain: no foreign row met, or an own one. DO NOTHING: an own row met on the
   * conflict list; or no foreign row there, and as for a plain one. DO UPDATE:
   * no foreign row on the conflict list, and an own one there or as for a plain
   * one.
   */
  ghost predicate AnsweredAlone(table: Table, rows: seq<Row>, row: Row, conflict: OnConflict, scope: Scope) {
    var plain := MeetsNoForeign(rows, row, table.unique, scope) || Violates(View(rows, scope), row, table.unique);
    match conflict
    case Fail => plain
    case DoNothing(on) => Collides(View(rows, scope), row, on) || (!ForeignMeets(rows, row, on, scope) && plain)
    case DoUpdate(on, _) => !ForeignMeets(rows, row, on, scope) && (Collides(View(rows, scope), row, on) || plain)
  }

  function RowAnswer(table: Table, rows: seq<Row>, row: Row, conflict: OnConflict): Answer {
    var r := InsertRow(table, rows, row, conflict);
    if r.None? then UniqueViolation else Rows(r.value.1)
  }

  lemma MeetsInTable(rows: seq<Row>, row: Row, conflict: OnConflict, unique: seq<seq<string>>, scope: Scope)
    ensures Violates(rows, row, unique) <==> Violates(View(rows, scope), row, unique) || !MeetsNoForeign(rows, row, unique, scope)
    ensures !conflict.Fail? ==>
      (Collides(rows, row, conflict.on) <==>
       Collides(View(rows, scope), row, conflict.on) || ForeignMeets(rows, row, conflict.on, scope))
  {
    assert rows + [] == rows && View(rows, scope) + [] == View(rows, scope);
    ViolatesSomewhere(rows, [], row, unique, scope);
    if !conflict.Fail? { CollidesSomewhere(rows, [], row, conflict.on, scope); }
  }

  /** DO UPDATE answers a foreign row it met as well as the own ones, and that row is not one of the scope's. */
  lemma ForeignMergeShows(rows: seq<Row>, row: Row, conflict: OnConflict, scope: Scope)
    requires conflict.DoUpdate? && LeavesScopeColumns(conflict.merge.Keys, scope) && InScope(row, scope)
    requires ForeignMeets(rows, row, conflict.on, scope)
    ensures var keep, merge := Agreeing(row, conflict.on), MergingAll(row, conflict.merge);
      var whole := MapRows(Filter(rows, keep), merge);
      whole != MapRows(Filter(View(rows, scope), keep), merge) && whole != [row]
  {
    var keep, merge := Agreeing(row, conflict.on), MergingAll(row, conflict.merge);
    var met, others := Filter(rows, keep), Filter(Foreign(rows, scope), keep);
    FilterParts(rows, scope, keep);
    var r :| r in rows && !InScope(r, scope) && Agree(r, row, conflict.on);
    ForeignOrOwn(rows, scope, r);
    FilterMembers(Foreign(rows, scope), keep);
    assert r in others;
    FilterMembers(rows, keep);
    assert r in met;
    var i :| 0 <= i < |met| && met[i] == r;
    MergedKeepsScope(r, row, conflict.merge, scope);
    assert MapRows(met, merge)[i] == Merged(r, row, conflict.merge);
  }

  lemma OneRowIsAnsweredAloneExactly(table: Table, rows: seq<Row>, row: Row, conflict: OnConflict, scope: Scope)
    requires InScope(row, scope)
    requires conflict.DoUpdate? ==> LeavesScopeColumns(conflict.merge.Keys, scope)
    ensures RowAnswer(table, rows, row, conflict) == RowAnswer(table, View(rows, scope), row, conflict) <==>
            AnsweredAlone(table, rows, row, conflict, scope)
  {
    MeetsInTable(rows, row, conflict, table.unique, scope);
    if conflict.DoUpdate? {
      if ForeignMeets(rows, row, conflict.on, scope) {
        ForeignMergeShows(rows, row, conflict, scope);
      } else {
        CollidesInView(rows, row, conflict.on, scope);
      }
    }
  }

  lemma OneRowAnswer(table: Table, rows: seq<Row>, call: Call)
    requires ScopeOf(table.project, call.ctx).Ok? && call.statement.Insert? && |call.statement.cells| == 1
    requires WellFormedInsert(call.statement.columns, call.statement.cells)
    requires CheckInsert(call.statement.columns, call.statement.cells, ScopeOf(table.project, call.ctx).value).Ok?
    ensures Perform(table, rows, call).1 ==
            RowAnswer(table, rows, NewRows(call.statement.columns, call.statement.cells)[0], call.statement.conflict)
  {
    var news := NewRows(call.statement.columns, call.statement.cells);
    assert news == [news[0]];
    OneRowInserted(table, rows, news[0], call.statement.conflict);
  }

  lemma OneRowInserted(table: Table, rows: seq<Row>, row: Row, conflict: OnConflict)
    ensures InsertRows(table, rows, [row], conflict) == InsertRow(table, rows, row, conflict)
  {
    assert [row][1..] == [];
    var first := InsertRow(table, rows, row, conflict);
    if first.Some? {
      assert InsertRows(table, first.value.0, [], conflict) == Some((first.value.0, []));
      assert first.value.1 + [] == first.value.1;
    }
  }

  /** A one-row insert that is let through, with any conflict clause. */
  lemma OneRowInsertIsAnsweredAloneExactly(table: Table, rows: seq<Row>, call: Call)
    requires ScopeOf(table.project, call.ctx).Ok? && call.statement.Insert? && |call.statement.cells| == 1
    requires WellFormedInsert(call.statement.columns, call.statement.cells)
    requires CheckInsert(call.statement.columns, call.statement.cells, ScopeOf(table.project, call.ctx).value).Ok?
    requires call.statement.conflict.DoUpdate? ==>
      LeavesScopeColumns(call.statement.conflict.merge.Keys, ScopeOf(table.project, call.ctx).value)
    ensures var scope, q := ScopeOf(table.project, call.ctx).value, call.statement;
      Perform(table, rows, call).1 == Perform(table, View(rows, scope), call).1 <==>
        AnsweredAlone(table, rows, NewRows(q.columns, q.cells)[0], q.conflict, scope)
  {
    var scope, q := ScopeOf(table.project, call.ctx).value, call.statement;
    AcceptedInsertsAreInScope(q.columns, q.cells, scope);
    OneRowAnswer(table, rows, call);
    OneRowAnswer(table, View(rows, scope), call);
    OneRowIsAnsweredAloneExactly(table, rows, NewRows(q.columns, q.cells)[0], q.conflict, scope);
  }

  /**
   * The same for an UPDATE that keeps its rows in the scope: it is answered as
   * on the scope's rows alone if and only if no updated row meets a foreign row
   * on a unique list, or it is refused on the scope's own rows anyway.
   */
  lemma UpdateIsAnsweredAloneExactly(table: Table, rows: seq<Row>, call: Call)
    requires ScopeOf(table.project, call.ctx).Ok? && call.statement.Update?
    requires KeepsSelected(rows, call.statement.assign, call.statement.filter, ScopeOf(table.project, call.ctx).value)
    ensures var scope, q := ScopeOf(table.project, call.ctx).value, call.statement;
      var selected := Filter(rows, Selects(WithScope(q.filter, scope)));
      var own := MapRows(View(rows, scope), Updating(WithScope(q.filter, scope), q.assign));
      Perform(table, rows, call).1 == Perform(table, View(rows, scope), call).1 <==>
        || MeetNoForeign(rows, MapRows(selected, Assigning(q.assign)), table.unique, scope)
        || UpdateDoubles(selected, own, q.assign, table.unique)
  {
    var scope, q := ScopeOf(table.project, call.ctx).value, call.statement;
    SelectedInView(rows, q.filter, scope);
    UpdateDoublesSomewhere(rows, q.assign, q.filter, table.unique, scope);
  }

  // ---- The hypotheses are needed ----

  lemma AloneOutside(row: Row, scope: Scope)
    requires !InScope(row, scope)
    ensures View([row], scope) == []
  {
    FilterSplit([], row, Within(scope));
    assert [] + [row] == [row];
  }

  /** The plugin lets an UPDATE assign the scope columns: the row changes hands. */
  lemma UpdateCanMoveARow()
    ensures exists table: Table, rows: seq<Row>, call: Call, ctx: Context ::
      && ScopeOf(table.project, ctx).Ok?
      && ScopeOf(table.project, call.ctx) != ScopeOf(table.project, ctx)
      && View(Perform(table, rows, call).0, ScopeOf(table.project, ctx).value)
           != View(rows, ScopeOf(table.project, ctx).value)
  {
    var table := Table(false, []);
    var row: Row := map["tenant_id" := Text("a")];
    var assign: Assignment := map["tenant_id" := (r: Row) => Text("b")];
    var call := Call(Context("a", None), Update(assign, None));
    var ctx := Context("b", None);
    var scope := ScopeOf(false, ctx).value;
    var moved := Assigned(row, assign);
    assert At(row, "tenant_id") == Text("a") && At(moved, "tenant_id") == Text("b");
    assert scope[0] == ("tenant_id", "b");
    assert !InScope(row, scope);
    assert InScope(moved, scope);
    var own := ScopeOf(false, call.ctx).value;
    assert own == [("tenant_id", "a")];
    assert InScope(row, own);
    ScopeIsAnded(row, None, own);
    assert Perform(table, [row], call).0 == [moved];
    AloneOutside(row, scope);
    FilterMembers([moved], Within(scope));
    assert moved in View([moved], scope);
  }

  /** A unique list without the scope columns lets one scope refuse another's insert. */
  lemma UniqueCollisionIsSeen()
    ensures exists table: Table, rows: seq<Row>, call: Call ::
      && ScopeOf(table.project, call.ctx).Ok?
      && Perform(table, rows, call).1 !=
           Perform(table, View(rows, ScopeOf(table.project, call.ctx).value), call).1
  {
    var table := Table(false, [["id"]]);
    var theirs: Row := map["tenant_id" := Text("b"), "id" := Number(1)];
    var columns, cells := ["tenant_id", "id"], [[Plain(Text("a")), Plain(Number(1))]];
    var call := Call(Context("a", None), Insert(columns, cells, Fail));
    var scope := ScopeOf(false, call.ctx).value;
    assert IndexIn(columns, "tenant_id") == 0;
    assert columns[1..] == ["id"];
    assert IndexIn(columns[1..], "id") == 0;
    assert IndexIn(columns, "id") == 1;
    assert Carries(columns, cells, "tenant_id", "a");
    assert scope == [("tenant_id", "a")];
    assert scope[1..] == [];
    assert CheckInsert(columns, cells, scope).Ok?;
    var mine := NewRows(columns, cells)[0];
    assert At(mine, "id") == Number(1);
    assert NewRows(columns, cells) == [mine];
    assert Agree(theirs, mine, ["id"]) && [theirs][0] == theirs && table.unique[0] == ["id"];
    assert Collides([theirs], mine, table.unique[0]);
    assert InsertRows(table, [theirs], [mine], Fail).None?;
    assert At(theirs, scope[0].0) == Text("b");
    AloneOutside(theirs, scope);
    assert !Violates([], mine, table.unique);
    assert InsertRow(table, [], mine, Fail).Some?;
    assert [mine][1..] == [];
    assert InsertRows(table, [], [mine], Fail).Some?;
    assert Perform(table, [theirs], call).1 == UniqueViolation;
    assert Perform(table, [], call).1 != UniqueViolation;
  }
}
