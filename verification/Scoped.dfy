// scoped(): the predicate a plugin ANDs onto every query tree, the check it
// makes on every insert, and the isolation of scopes that follows.
module Scoped {
  import opened Wrappers

  datatype Value = Null | Text(text: string) | Number(n: int)

  type Row = map<string, Value>

  function At(row: Row, column: string): Value {
    if column in row then row[column] else Null
  }

  datatype Context = Context(tenantId: string, projectId: Option<string>)

  // ---- Query trees, as the plugin sees them ----

  datatype Op = Eq | Ne | Lt | Le | Gt | Ge

  datatype Expr =
    | Compare(column: string, op: Op, value: Value)
    | IsNull(column: string)
    | And(left: Expr, right: Expr)
    | Or(left: Expr, right: Expr)
    | Not(inner: Expr)

  /** SET: a column's new value from the row. */
  type Assignment = map<string, Row -> Value>

  /** DO UPDATE SET: a column's new value from the existing and the excluded row. */
  type Merge = map<string, (Row, Row) -> Value>

  /** An insert's cell: a plain value, or an expression the plugin does not read. */
  datatype Cell = Plain(value: Value) | Computed(result: Value)

  datatype OnConflict = Fail | DoNothing(on: seq<string>) | DoUpdate(on: seq<string>, merge: Merge)

  datatype Statement =
    | Select(filter: Option<Expr>)
    | Update(assign: Assignment, filter: Option<Expr>)
    | Delete(filter: Option<Expr>)
    | Insert(columns: seq<string>, cells: seq<seq<Cell>>, conflict: OnConflict)
    | Other

  datatype ScopeError = NoProject | WrongScopeColumn(column: string) | Unsupported

  datatype BuilderCall = Where(expr: Expr) | ClearWhere

  /** where() ANDs onto what is there; clearWhere() forgets it. */
  function Build(filter: Option<Expr>, calls: seq<BuilderCall>): Option<Expr>
    decreases |calls|
  {
    if calls == [] then filter
    else match calls[0]
      case Where(e) => Build(AndWhere(filter, e), calls[1..])
      case ClearWhere => Build(None, calls[1..])
  }

  function AndWhere(filter: Option<Expr>, e: Expr): Option<Expr> {
    Some(if filter.None? then e else And(filter.value, e))
  }

  // ---- The plugin ----

  /** The scope columns of a table with the values a context gives them. */
  type Scope = seq<(string, string)>

  function ScopeOf(project: bool, ctx: Context): Result<Scope, ScopeError> {
    if project && ctx.projectId.None? then Err(NoProject)
    else if project then Ok([("tenant_id", ctx.tenantId), ("project_id", ctx.projectId.value)])
    else Ok([("tenant_id", ctx.tenantId)])
  }

  function WithScope(filter: Option<Expr>, scope: Scope): Option<Expr>
    decreases |scope|
  {
    if scope == [] then filter
    else WithScope(AndWhere(filter, Compare(scope[0].0, Eq, Text(scope[0].1))), scope[1..])
  }

  /** The index of the first occurrence of a column, or the count of columns. */
  function IndexIn(columns: seq<string>, column: string): (i: nat)
    ensures i <= |columns|
    ensures i < |columns| ==> columns[i] == column
    ensures column in columns ==> i < |columns|
  {
    if columns == [] || columns[0] == column then 0 else 1 + IndexIn(columns[1..], column)
  }

  /** What a row supplies at an index: a plain value, or nothing readable. */
  function Supplied(row: seq<Cell>, i: nat): Option<Value> {
    if i < |row| && row[i].Plain? then Some(row[i].value) else None
  }

  predicate Carries(columns: seq<string>, cells: seq<seq<Cell>>, column: string, value: string) {
    var i := IndexIn(columns, column);
    && cells != []
    && i < |columns|
    && forall r :: 0 <= r < |cells| ==> Supplied(cells[r], i) == Some(Text(value))
  }

  function CheckInsert(columns: seq<string>, cells: seq<seq<Cell>>, scope: Scope): Result<(), ScopeError>
    decreases |scope|
  {
    if scope == [] then Ok(())
    else if !Carries(columns, cells, scope[0].0, scope[0].1) then Err(WrongScopeColumn(scope[0].0))
    else CheckInsert(columns, cells, scope[1..])
  }

  /** The plugin's transformQuery. */
  function Transform(project: bool, ctx: Context, q: Statement): Result<Statement, ScopeError> {
    var scope :- ScopeOf(project, ctx);
    match q
    case Select(filter) => Ok(Select(WithScope(filter, scope)))
    case Update(assign, filter) => Ok(Update(assign, WithScope(filter, scope)))
    case Delete(filter) => Ok(Delete(WithScope(filter, scope)))
    case Insert(columns, cells, _) =>
      var accepted :- CheckInsert(columns, cells, scope);
      Ok(q)
    case Other => Err(Unsupported)
  }

  // ---- The meaning of a filter: SQL's three-valued logic ----

  datatype Truth = True | False | Unknown

  function Decide(b: bool): Truth {
    if b then True else False
  }

  predicate Ordered(op: Op, a: int, b: int) {
    match op
    case Eq => a == b case Ne => a != b
    case Lt => a < b case Le => a <= b case Gt => a > b case Ge => a >= b
  }

  function CompareValues(op: Op, a: Value, b: Value): Truth {
    if a == Null || b == Null then Unknown
    else if op == Eq then Decide(a == b)
    else if op == Ne then Decide(a != b)
    else if a.Number? && b.Number? then Decide(Ordered(op, a.n, b.n))
    else Unknown
  }

  function Both(a: Truth, b: Truth): Truth {
    if a == False || b == False then False else if a == True && b == True then True else Unknown
  }

  function Either(a: Truth, b: Truth): Truth {
    if a == True || b == True then True else if a == False && b == False then False else Unknown
  }

  function Negated(a: Truth): Truth {
    match a case True => False case False => True case Unknown => Unknown
  }

  function Eval(row: Row, e: Expr): Truth {
    match e
    case Compare(column, op, value) => CompareValues(op, At(row, column), value)
    case IsNull(column) => Decide(At(row, column) == Null)
    case And(l, r) => Both(Eval(row, l), Eval(row, r))
    case Or(l, r) => Either(Eval(row, l), Eval(row, r))
    case Not(inner) => Negated(Eval(row, inner))
  }

  predicate Matches(row: Row, filter: Option<Expr>) {
    filter.None? || Eval(row, filter.value) == True
  }

  predicate InScope(row: Row, scope: Scope) {
    forall i :: 0 <= i < |scope| ==> At(row, scope[i].0) == Text(scope[i].1)
  }

  lemma InScopeCons(row: Row, scope: Scope)
    requires scope != []
    ensures InScope(row, scope) <==> At(row, scope[0].0) == Text(scope[0].1) && InScope(row, scope[1..])
  {
    if At(row, scope[0].0) == Text(scope[0].1) && InScope(row, scope[1..]) {
      forall i | 0 <= i < |scope| ensures At(row, scope[i].0) == Text(scope[i].1) {
        if i > 0 { assert scope[i] == scope[1..][i - 1]; }
      }
    }
  }

  lemma AndWhereMeaning(row: Row, filter: Option<Expr>, column: string, value: string)
    ensures Matches(row, AndWhere(filter, Compare(column, Eq, Text(value)))) <==>
            Matches(row, filter) && At(row, column) == Text(value)
  {
    var e := Compare(column, Eq, Text(value));
    assert Eval(row, e) == CompareValues(Eq, At(row, column), Text(value));
    if filter.Some? {
      assert Eval(row, And(filter.value, e)) == Both(Eval(row, filter.value), Eval(row, e));
    }
  }

  /**
   * Whatever where/clearWhere calls produced the filter, the transformed one
   * selects exactly the rows of the scope that the built filter selects.
   */
  lemma {:induction false} ScopeIsAnded(row: Row, filter: Option<Expr>, scope: Scope)
    ensures Matches(row, WithScope(filter, scope)) <==> Matches(row, filter) && InScope(row, scope)
    decreases |scope|
  {
    if scope == [] {
    } else {
      ScopeIsAnded(row, AndWhere(filter, Compare(scope[0].0, Eq, Text(scope[0].1))), scope[1..]);
      AndWhereMeaning(row, filter, scope[0].0, scope[0].1);
      InScopeCons(row, scope);
    }
  }

  // ---- Execution on one table ----

  /** A table: whether it is project-owned, and the column lists its unique constraints name. */
  datatype Table = Table(project: bool, unique: seq<seq<string>>)

  function Filter<T>(rows: seq<T>, keep: T -> bool): seq<T> {
    if rows == [] then []
    else (if keep(rows[0]) then [rows[0]] else []) + Filter(rows[1..], keep)
  }

  function MapRows(rows: seq<Row>, f: Row -> Row): seq<Row> {
    seq(|rows|, i requires 0 <= i < |rows| => f(rows[i]))
  }

  function Assigned(row: Row, assign: Assignment): Row {
    map c | c in row.Keys + assign.Keys :: if c in assign then assign[c](row) else row[c]
  }

  function Merged(row: Row, excluded: Row, merge: Merge): Row {
    map c | c in row.Keys + merge.Keys :: if c in merge then merge[c](row, excluded) else row[c]
  }

  /** Equal and not NULL on every listed column. */
  predicate Agree(a: Row, b: Row, columns: seq<string>) {
    forall i :: 0 <= i < |columns| ==> At(a, columns[i]) == At(b, columns[i]) && At(a, columns[i]) != Null
  }

  predicate Collides(rows: seq<Row>, row: Row, columns: seq<string>) {
    exists i :: 0 <= i < |rows| && Agree(rows[i], row, columns)
  }

  predicate Violates(rows: seq<Row>, row: Row, unique: seq<seq<string>>) {
    exists u :: 0 <= u < |unique| && Collides(rows, row, unique[u])
  }

  function CellValue(c: Cell): Value {
    if c.Plain? then c.value else c.result
  }

  function MakeRow(columns: seq<string>, cells: seq<Cell>): Row
    requires |columns| == |cells|
  {
    map c | c in columns :: CellValue(cells[IndexIn(columns, c)])
  }

  /** What a statement answers: the rows it read, changed or inserted, or the database's error. */
  datatype Answer = Rows(rows: seq<Row>) | UniqueViolation | BadInsert | Refused(error: ScopeError)

  function Selects(filter: Option<Expr>): Row -> bool {
    r => Matches(r, filter)
  }

  function Rejects(filter: Option<Expr>): Row -> bool {
    r => !Matches(r, filter)
  }

  function Assigning(assign: Assignment): Row -> Row {
    r => Assigned(r, assign)
  }

  function Updating(filter: Option<Expr>, assign: Assignment): Row -> Row {
    r => if Matches(r, filter) then Assigned(r, assign) else r
  }

  function Agreeing(row: Row, columns: seq<string>): Row -> bool {
    r => Agree(r, row, columns)
  }

  function MergingAll(row: Row, merge: Merge): Row -> Row {
    r => Merged(r, row, merge)
  }

  function Merging(row: Row, columns: seq<string>, merge: Merge): Row -> Row {
    r => if Agree(r, row, columns) then Merged(r, row, merge) else r
  }

  /** One row of an insert; None is a violated constraint. */
  function InsertRow(table: Table, rows: seq<Row>, row: Row, conflict: OnConflict): Option<(seq<Row>, seq<Row>)> {
    if conflict.DoNothing? && Collides(rows, row, conflict.on) then Some((rows, []))
    else if conflict.DoUpdate? && Collides(rows, row, conflict.on) then
      Some((MapRows(rows, Merging(row, conflict.on, conflict.merge)),
            MapRows(Filter(rows, Agreeing(row, conflict.on)), MergingAll(row, conflict.merge))))
    else if Violates(rows, row, table.unique) then None
    else Some((rows + [row], [row]))
  }

  function InsertRows(table: Table, rows: seq<Row>, news: seq<Row>, conflict: OnConflict): Option<(seq<Row>, seq<Row>)>
    decreases |news|
  {
    if news == [] then Some((rows, []))
    else
      var first := InsertRow(table, rows, news[0], conflict);
      if first.None? then None
      else
        var rest := InsertRows(table, first.value.0, news[1..], conflict);
        if rest.None? then None else Some((rest.value.0, first.value.1 + rest.value.1))
  }

  /** The row is not alone on some unique list. */
  predicate Doubled(rows: seq<Row>, row: Row, unique: seq<seq<string>>) {
    exists u :: 0 <= u < |unique| && |Filter(rows, Agreeing(row, unique[u]))| >= 2
  }

  /** Some updated row is then not alone. */
  predicate UpdateDoubles(selected: seq<Row>, after: seq<Row>, assign: Assignment, unique: seq<seq<string>>) {
    exists i :: 0 <= i < |selected| && Doubled(after, Assigned(selected[i], assign), unique)
  }

  predicate WellFormedInsert(columns: seq<string>, cells: seq<seq<Cell>>) {
    && (forall i, j :: 0 <= i < j < |columns| ==> columns[i] != columns[j])
    && (forall r :: 0 <= r < |cells| ==> |cells[r]| == |columns|)
  }

  function NewRows(columns: seq<string>, cells: seq<seq<Cell>>): seq<Row>
    requires WellFormedInsert(columns, cells)
  {
    seq(|cells|, i requires 0 <= i < |cells| => MakeRow(columns, cells[i]))
  }

  function Execute(table: Table, rows: seq<Row>, q: Statement): (seq<Row>, Answer) {
    match q
    case Select(filter) => (rows, Rows(Filter(rows, Selects(filter))))
    case Update(assign, filter) =>
      var selected, after := Filter(rows, Selects(filter)), MapRows(rows, Updating(filter, assign));
      if UpdateDoubles(selected, after, assign, table.unique) then (rows, UniqueViolation)
      else (after, Rows(MapRows(selected, Assigning(assign))))
    case Delete(filter) => (Filter(rows, Rejects(filter)), Rows(Filter(rows, Selects(filter))))
    case Insert(columns, cells, conflict) =>
      if !WellFormedInsert(columns, cells) then (rows, BadInsert)
      else
        var inserted := InsertRows(table, rows, NewRows(columns, cells), conflict);
        if inserted.None? then (rows, UniqueViolation) else (inserted.value.0, Rows(inserted.value.1))
    case Other => (rows, Rows([]))
  }

  /** A statement issued through scoped(). */
  datatype Call = Call(ctx: Context, statement: Statement)

  function Perform(table: Table, rows: seq<Row>, call: Call): (seq<Row>, Answer) {
    var q := Transform(table.project, call.ctx, call.statement);
    if q.Err? then (rows, Refused(q.error)) else Execute(table, rows, q.value)
  }

  // ---- Lists ----

  lemma Associative<T>(a: seq<T>, b: seq<T>, c: seq<T>)
    ensures (a + b) + c == a + (b + c)
  {
  }

  lemma {:induction false} FilterConcat<T>(a: seq<T>, b: seq<T>, keep: T -> bool)
    ensures Filter(a + b, keep) == Filter(a, keep) + Filter(b, keep)
    decreases |a|
  {
    if a == [] {
      assert a + b == b;
    } else {
      assert (a + b)[0] == a[0] && (a + b)[1..] == a[1..] + b;
      FilterConcat(a[1..], b, keep);
      Associative(if keep(a[0]) then [a[0]] else [], Filter(a[1..], keep), Filter(b, keep));
    }
  }

  lemma {:induction false} FilterMembers<T>(rows: seq<T>, keep: T -> bool)
    ensures forall x :: x in Filter(rows, keep) <==> x in rows && keep(x)
    decreases |rows|
  {
    if rows == [] {
    } else {
      FilterMembers(rows[1..], keep);
      assert rows == [rows[0]] + rows[1..];
    }
  }

  /** Two ways of keeping that agree, the second after a first sieve. */
  lemma {:induction false} FilterTwice<T>(rows: seq<T>, outer: T -> bool, inner: T -> bool, both: T -> bool)
    requires forall x :: both(x) <==> inner(x) && outer(x)
    ensures Filter(Filter(rows, inner), outer) == Filter(rows, both)
    decreases |rows|
  {
    if rows == [] {
    } else {
      FilterTwice(rows[1..], outer, inner, both);
      var rest := Filter(rows[1..], inner);
      if inner(rows[0]) {
        assert ([rows[0]] + rest)[1..] == rest;
      } else {
        assert [] + rest == rest;
      }
    }
  }

  lemma {:induction false} FilterSame<T>(rows: seq<T>, p: T -> bool, q: T -> bool)
    requires forall x :: x in rows ==> p(x) == q(x)
    ensures Filter(rows, p) == Filter(rows, q)
    decreases |rows|
  {
    if rows == [] {
    } else {
      FilterSame(rows[1..], p, q);
    }
  }

  /** Mapping by a function that keeps members in and others out commutes with the sieve. */
  lemma {:induction false} FilterMap(rows: seq<Row>, f: Row -> Row, keep: Row -> bool)
    requires forall r :: r in rows ==> keep(f(r)) == keep(r)
    ensures Filter(MapRows(rows, f), keep) == MapRows(Filter(rows, keep), f)
    decreases |rows|
  {
    if rows == [] {
    } else {
      FilterMap(rows[1..], f, keep);
      assert MapRows(rows, f)[1..] == MapRows(rows[1..], f);
      var tail := Filter(rows[1..], keep);
      if keep(rows[0]) {
        assert MapRows([rows[0]] + tail, f) == [f(rows[0])] + MapRows(tail, f);
      } else {
        assert [] + tail == tail;
      }
    }
  }

  lemma MapRowsIdentity(rows: seq<Row>, f: Row -> Row)
    requires forall r :: r in rows ==> f(r) == r
    ensures MapRows(rows, f) == rows
  {
  }

  // ---- What a scoped statement does, in the caller's own terms ----

  /** The row's scope columns have the context's values. */
  predicate OwnRow(row: Row, project: bool, ctx: Context) {
    && At(row, "tenant_id") == Text(ctx.tenantId)
    && (project ==> ctx.projectId.Some? && At(row, "project_id") == Text(ctx.projectId.value))
  }

  lemma OwnRowIsInScope(row: Row, project: bool, ctx: Context)
    requires ScopeOf(project, ctx).Ok?
    ensures OwnRow(row, project, ctx) <==> InScope(row, ScopeOf(project, ctx).value)
  {
    var s := ScopeOf(project, ctx).value;
    assert s[0] == ("tenant_id", ctx.tenantId);
    assert project ==> s[1] == ("project_id", ctx.projectId.value);
  }

  /** The rows a filter meant, whatever where() and clearWhere() made of it: what was given since the last clear, all of it. */
  lemma {:induction false} BuiltMeans(row: Row, filter: Option<Expr>, calls: seq<BuilderCall>, k: nat)
    requires k <= |calls| && (k > 0 ==> calls[k - 1] == ClearWhere)
    requires forall i :: k <= i < |calls| ==> calls[i].Where?
    ensures Matches(row, Build(filter, calls)) <==>
      && (k == 0 ==> Matches(row, filter))
      && forall i :: k <= i < |calls| ==> Eval(row, calls[i].expr) == True
    decreases |calls|
  {
    if calls == [] {
    } else {
      var next := if calls[0].Where? then AndWhere(filter, calls[0].expr) else None;
      assert forall i :: 0 <= i < |calls| - 1 ==> calls[1..][i] == calls[i + 1];
      assert forall i :: 1 <= i < |calls| ==> calls[i] == calls[1..][i - 1];
      if k == 0 {
        if filter.Some? {
          assert Eval(row, And(filter.value, calls[0].expr)) == Both(Eval(row, filter.value), Eval(row, calls[0].expr));
        }
        BuiltMeans(row, next, calls[1..], 0);
      } else {
        BuiltMeans(row, next, calls[1..], k - 1);
      }
    }
  }

  predicate Selected(row: Row, filter: Option<Expr>, project: bool, ctx: Context) {
    Matches(row, filter) && OwnRow(row, project, ctx)
  }

  function Chosen(filter: Option<Expr>, project: bool, ctx: Context): Row -> bool {
    r => Selected(r, filter, project, ctx)
  }

  function Kept(filter: Option<Expr>, project: bool, ctx: Context): Row -> bool {
    r => !Selected(r, filter, project, ctx)
  }

  /**
   * The plugin keeps a statement what it was: of a read, an update or a delete
   * it narrows the filter to the caller's rows, an insert it passes on as it is
   * or refuses, and what it cannot read it refuses.
   */
  lemma TransformedMeans(project: bool, ctx: Context, q: Statement, row: Row)
    ensures var t := Transform(project, ctx, q);
      && (t == Err(NoProject) <==> project && ctx.projectId.None?)
      && (t == Err(Unsupported) <==> q.Other? && (project ==> ctx.projectId.Some?))
      && (t.Ok? ==> match q
            case Select(filter) =>
              t.value.Select? && (Matches(row, t.value.filter) <==> Selected(row, filter, project, ctx))
            case Update(assign, filter) =>
              && t.value.Update? && t.value.assign == assign
              && (Matches(row, t.value.filter) <==> Selected(row, filter, project, ctx))
            case Delete(filter) =>
              t.value.Delete? && (Matches(row, t.value.filter) <==> Selected(row, filter, project, ctx))
            case Insert(_, _, _) => t.value == q
            case Other => false)
      && ((q.Select? || q.Update? || q.Delete?) ==> (t.Ok? <==> (project ==> ctx.projectId.Some?)))
  {
    if ScopeOf(project, ctx).Ok? {
      var scope := ScopeOf(project, ctx).value;
      OwnRowIsInScope(row, project, ctx);
      if q.Select? || q.Update? || q.Delete? { ScopeIsAnded(row, q.filter, scope); }
      if q.Insert? { RefusedForAColumn(q.columns, q.cells, scope); }
    }
  }

  lemma {:induction false} RefusedForAColumn(columns: seq<string>, cells: seq<seq<Cell>>, scope: Scope)
    ensures CheckInsert(columns, cells, scope).Err? ==> CheckInsert(columns, cells, scope).error.WrongScopeColumn?
    decreases |scope|
  {
    if scope == [] {
    } else {
      RefusedForAColumn(columns, cells, scope[1..]);
    }
  }

  lemma ChosenBy(project: bool, ctx: Context, q: Statement)
    requires (q.Select? || q.Update? || q.Delete?) && (project ==> ctx.projectId.Some?)
    ensures var t := Transform(project, ctx, q).value;
      forall row :: Matches(row, t.filter) <==> Selected(row, q.filter, project, ctx)
  {
    var t := Transform(project, ctx, q).value;
    forall row ensures Matches(row, t.filter) <==> Selected(row, q.filter, project, ctx) {
      TransformedMeans(project, ctx, q, row);
    }
  }

  /** A scoped read answers the caller's rows that its own filter selects, in order, and changes nothing. */
  lemma SelectMeans(table: Table, rows: seq<Row>, ctx: Context, filter: Option<Expr>)
    requires table.project ==> ctx.projectId.Some?
    ensures Perform(table, rows, Call(ctx, Select(filter))) == (rows, Rows(Filter(rows, Chosen(filter, table.project, ctx))))
  {
    ChosenBy(table.project, ctx, Select(filter));
    FilterSame(rows, Selects(Transform(table.project, ctx, Select(filter)).value.filter), Chosen(filter, table.project, ctx));
  }

  /** A scoped delete removes and answers exactly those rows; every other one stays, in order. */
  lemma DeleteMeans(table: Table, rows: seq<Row>, ctx: Context, filter: Option<Expr>)
    requires table.project ==> ctx.projectId.Some?
    ensures Perform(table, rows, Call(ctx, Delete(filter))) ==
      (Filter(rows, Kept(filter, table.project, ctx)), Rows(Filter(rows, Chosen(filter, table.project, ctx))))
  {
    ChosenBy(table.project, ctx, Delete(filter));
    var narrowed := Transform(table.project, ctx, Delete(filter)).value.filter;
    FilterSame(rows, Selects(narrowed), Chosen(filter, table.project, ctx));
    FilterSame(rows, Rejects(narrowed), Kept(filter, table.project, ctx));
  }

  /** The row with its SET columns replaced and every other column as it was. */
  ghost predicate IsAssigned(row: Row, assign: Assignment, after: Row) {
    forall column :: At(after, column) == if column in assign then assign[column](row) else At(row, column)
  }

  /** After an update of the selected rows, one of these is equal to another row on a unique list. */
  ghost predicate MeetsAnother(after: seq<Row>, i: nat, unique: seq<seq<string>>)
    requires i < |after|
  {
    exists j: nat, u: nat :: j < |after| && j != i && u < |unique| && Agree(after[j], after[i], unique[u])
  }

  lemma AssignedMeans(row: Row, assign: Assignment)
    ensures IsAssigned(row, assign, Assigned(row, assign))
  {
  }

  function Setting(filter: Option<Expr>, project: bool, ctx: Context, assign: Assignment): Row -> Row {
    r => if Selected(r, filter, project, ctx) then Assigned(r, assign) else r
  }

  lemma UpdatePerforms(table: Table, rows: seq<Row>, ctx: Context, assign: Assignment, filter: Option<Expr>)
    requires table.project ==> ctx.projectId.Some?
    ensures var chosen := Filter(rows, Chosen(filter, table.project, ctx));
      var changed := MapRows(rows, Setting(filter, table.project, ctx, assign));
      Perform(table, rows, Call(ctx, Update(assign, filter))) ==
        if UpdateDoubles(chosen, changed, assign, table.unique) then (rows, UniqueViolation)
        else (changed, Rows(MapRows(chosen, Assigning(assign))))
  {
    ChosenBy(table.project, ctx, Update(assign, filter));
    var narrowed := Transform(table.project, ctx, Update(assign, filter)).value.filter;
    FilterSame(rows, Selects(narrowed), Chosen(filter, table.project, ctx));
    SameMap(rows, Updating(narrowed, assign), Setting(filter, table.project, ctx, assign));
  }

  /**
   * A scoped update sets exactly those rows where they stand; every other row
   * stays as it was. The database refuses it, and changes nothing, exactly when
   * one of them would then not be alone on a unique list.
   */
  lemma UpdateMeans(table: Table, rows: seq<Row>, ctx: Context, assign: Assignment, filter: Option<Expr>)
    requires table.project ==> ctx.projectId.Some?
    ensures var (after, answer) := Perform(table, rows, Call(ctx, Update(assign, filter)));
      var chosen, changed := Chosen(filter, table.project, ctx), MapRows(rows, Setting(filter, table.project, ctx, assign));
      && (answer == UniqueViolation <==>
            exists i: nat :: i < |rows| && chosen(rows[i]) && MeetsAnother(changed, i, table.unique))
      && (answer == UniqueViolation ==> after == rows)
      && (answer != UniqueViolation ==>
            after == changed && answer == Rows(MapRows(Filter(rows, chosen), Assigning(assign))))
  {
    var chosen, changed := Chosen(filter, table.project, ctx), MapRows(rows, Setting(filter, table.project, ctx, assign));
    UpdatePerforms(table, rows, ctx, assign, filter);
    SetsChosen(rows, filter, table.project, ctx, assign);
    DoublesMean(rows, chosen, changed, assign, table.unique);
  }

  lemma SameMap(rows: seq<Row>, f: Row -> Row, g: Row -> Row)
    requires forall r :: f(r) == g(r)
    ensures MapRows(rows, f) == MapRows(rows, g)
  {
  }

  lemma SetsChosen(rows: seq<Row>, filter: Option<Expr>, project: bool, ctx: Context, assign: Assignment)
    ensures var changed := MapRows(rows, Setting(filter, project, ctx, assign));
      && |changed| == |rows|
      && forall i :: 0 <= i < |rows| && Selected(rows[i], filter, project, ctx) ==> changed[i] == Assigned(rows[i], assign)
  {
  }

  /** At least two members of a sieve stand at two places. */
  lemma {:induction false} TwoKept<T>(rows: seq<T>, keep: T -> bool)
    ensures |Filter(rows, keep)| >= 1 <==> exists i :: 0 <= i < |rows| && keep(rows[i])
    ensures |Filter(rows, keep)| >= 2 <==> exists i, j :: 0 <= i < j < |rows| && keep(rows[i]) && keep(rows[j])
    decreases |rows|
  {
    if rows == [] {
    } else {
      TwoKept(rows[1..], keep);
      assert forall i :: 0 <= i < |rows[1..]| ==> rows[1..][i] == rows[i + 1];
      if i :| 0 <= i < |rows| && keep(rows[i]) {
        if i > 0 { assert keep(rows[1..][i - 1]); }
      }
      if i, j :| 0 <= i < j < |rows| && keep(rows[i]) && keep(rows[j]) {
        assert keep(rows[1..][j - 1]);
        if i > 0 { assert keep(rows[1..][i - 1]); }
      }
    }
  }

  lemma DoubledMeans(after: seq<Row>, i: nat, unique: seq<seq<string>>)
    requires i < |after|
    ensures Doubled(after, after[i], unique) ==> MeetsAnother(after, i, unique)
    ensures MeetsAnother(after, i, unique) ==> Doubled(after, after[i], unique)
  {
    if Doubled(after, after[i], unique) {
      var u: nat :| u < |unique| && |Filter(after, Agreeing(after[i], unique[u]))| >= 2;
      TwoKept(after, Agreeing(after[i], unique[u]));
      var a: nat, b: nat :| a < b < |after| && Agree(after[a], after[i], unique[u]) && Agree(after[b], after[i], unique[u]);
      var j := if a == i then b else a;
      assert Agree(after[j], after[i], unique[u]);
    }
    if j: nat, u: nat :| j < |after| && j != i && u < |unique| && Agree(after[j], after[i], unique[u]) {
      var keep := Agreeing(after[i], unique[u]);
      assert keep(after[i]) && keep(after[j]);
      TwoKept(after, keep);
    }
  }

  lemma {:induction false} KeptStand<T>(rows: seq<T>, keep: T -> bool)
    ensures forall x :: x in Filter(rows, keep) <==> exists i: nat :: i < |rows| && rows[i] == x && keep(x)
  {
    FilterMembers(rows, keep);
  }

  lemma DoublesMean(rows: seq<Row>, chosen: Row -> bool, after: seq<Row>, assign: Assignment, unique: seq<seq<string>>)
    requires |after| == |rows|
    requires forall i :: 0 <= i < |rows| && chosen(rows[i]) ==> after[i] == Assigned(rows[i], assign)
    ensures UpdateDoubles(Filter(rows, chosen), after, assign, unique) <==>
      exists i: nat :: i < |rows| && chosen(rows[i]) && MeetsAnother(after, i, unique)
  {
    var selected := Filter(rows, chosen);
    KeptStand(rows, chosen);
    forall k: nat | k < |selected| && Doubled(after, Assigned(selected[k], assign), unique)
      ensures exists i: nat :: i < |rows| && chosen(rows[i]) && MeetsAnother(after, i, unique)
    {
      assert selected[k] in selected;
      var i: nat :| i < |rows| && rows[i] == selected[k] && chosen(selected[k]);
      DoubledMeans(after, i, unique);
    }
    forall i: nat | i < |rows| && chosen(rows[i]) && MeetsAnother(after, i, unique)
      ensures UpdateDoubles(selected, after, assign, unique)
    {
      DoubledMeans(after, i, unique);
      assert rows[i] in selected;
      var k :| 0 <= k < |selected| && selected[k] == rows[i];
      assert Doubled(after, Assigned(selected[k], assign), unique);
    }
  }

  /** A row made of cells has each cell under its column, and nothing else. */
  lemma MadeRowMeans(columns: seq<string>, cells: seq<Cell>, column: string)
    requires |columns| == |cells| && forall i, j :: 0 <= i < j < |columns| ==> columns[i] != columns[j]
    ensures forall i :: 0 <= i < |columns| ==>
      At(MakeRow(columns, cells), columns[i]) == match cells[i] case Plain(value) => value case Computed(result) => result
    ensures column !in columns ==> At(MakeRow(columns, cells), column) == Null
  {
    forall i | 0 <= i < |columns| ensures IndexIn(columns, columns[i]) == i {
      assert columns[i] in columns;
    }
  }

  ghost predicate IsMerged(row: Row, excluded: Row, merge: Merge, after: Row) {
    forall column :: At(after, column) == if column in merge then merge[column](row, excluded) else At(row, column)
  }

  lemma MergedMeans(row: Row, excluded: Row, merge: Merge)
    ensures IsMerged(row, excluded, merge, Merged(row, excluded, merge))
  {
  }

  predicate Meets(rows: seq<Row>, row: Row, columns: seq<string>) {
    exists r :: r in rows && Agree(r, row, columns)
  }

  lemma CollidesIsMeets(rows: seq<Row>, row: Row, columns: seq<string>)
    ensures Collides(rows, row, columns) <==> Meets(rows, row, columns)
  {
    if Collides(rows, row, columns) {
      var i :| 0 <= i < |rows| && Agree(rows[i], row, columns);
      assert rows[i] in rows;
    }
    if r :| r in rows && Agree(r, row, columns) {
      var i :| 0 <= i < |rows| && rows[i] == r;
      assert Agree(rows[i], row, columns);
    }
  }

  lemma {:induction false} InsertsInTurn(table: Table, rows: seq<Row>, a: seq<Row>, b: seq<Row>, conflict: OnConflict)
    ensures var first := InsertRows(table, rows, a, conflict);
      InsertRows(table, rows, a + b, conflict) ==
        if first.None? then None
        else
          var second := InsertRows(table, first.value.0, b, conflict);
          if second.None? then None else Some((second.value.0, first.value.1 + second.value.1))
    decreases |a|
  {
    if a == [] {
      assert a + b == b;
      var second := InsertRows(table, rows, b, conflict);
      if second.Some? { assert [] + second.value.1 == second.value.1; }
    } else {
      assert (a + b)[0] == a[0] && (a + b)[1..] == a[1..] + b;
      var one := InsertRow(table, rows, a[0], conflict);
      if one.Some? {
        InsertsInTurn(table, one.value.0, a[1..], b, conflict);
        var rest := InsertRows(table, one.value.0, a[1..], conflict);
        if rest.Some? {
          var second := InsertRows(table, rest.value.0, b, conflict);
          if second.Some? { Associative(one.value.1, rest.value.1, second.value.1); }
        }
      }
    }
  }

  /**
   * One inserted row: where it meets a row on the conflict list it is dropped,
   * or merged into each row it meets; otherwise it is refused when it meets one
   * on a unique list, and added last when it meets none.
   */
  lemma InsertedRowMeans(table: Table, rows: seq<Row>, row: Row, conflict: OnConflict)
    ensures var r := InsertRows(table, rows, [row], conflict);
      var meets := !conflict.Fail? && Meets(rows, row, conflict.on);
      && (meets && conflict.DoNothing? ==> r == Some((rows, [])))
      && (meets && conflict.DoUpdate? ==>
            && r.Some? && |r.value.0| == |rows|
            && (forall i :: 0 <= i < |rows| && Agree(rows[i], row, conflict.on) ==>
                  r.value.0[i] == Merged(rows[i], row, conflict.merge))
            && (forall i :: 0 <= i < |rows| && !Agree(rows[i], row, conflict.on) ==> r.value.0[i] == rows[i])
            && r.value.1 == MapRows(Filter(rows, Agreeing(row, conflict.on)), MergingAll(row, conflict.merge)))
      && (!meets ==> (r.None? <==> exists u :: 0 <= u < |table.unique| && Meets(rows, row, table.unique[u])))
      && (!meets && r.Some? ==> r == Some((rows + [row], [row])))
  {
    assert [row][1..] == [];
    if !conflict.Fail? { CollidesIsMeets(rows, row, conflict.on); }
    forall u | 0 <= u < |table.unique|
      ensures Collides(rows, row, table.unique[u]) <==> Meets(rows, row, table.unique[u])
    {
      CollidesIsMeets(rows, row, table.unique[u]);
    }
    var one := InsertRow(table, rows, row, conflict);
    if one.Some? { assert one.value.1 + [] == one.value.1; }
  }

  /**
   * An insert is let through exactly when every row supplies every scope column
   * as a plain value of the context. Then its rows are inserted in turn, all of
   * them or, with an error, none.
   */
  lemma InsertMeans(table: Table, rows: seq<Row>, ctx: Context, columns: seq<string>, cells: seq<seq<Cell>>, conflict: OnConflict)
    requires table.project ==> ctx.projectId.Some?
    requires forall i, j :: 0 <= i < j < |columns| ==> columns[i] != columns[j]
    requires forall r :: 0 <= r < |cells| ==> |cells[r]| == |columns|
    ensures var (after, answer) := Perform(table, rows, Call(ctx, Insert(columns, cells, conflict)));
      var news := seq(|cells|, i requires 0 <= i < |cells| => MakeRow(columns, cells[i]));
      var inserted := InsertRows(table, rows, news, conflict);
      && (answer.Refused? <==>
            || !Carries(columns, cells, "tenant_id", ctx.tenantId)
            || (table.project && !Carries(columns, cells, "project_id", ctx.projectId.value)))
      && (answer.Refused? || inserted.None? ==> after == rows)
      && (!answer.Refused? && inserted.None? ==> answer == UniqueViolation)
      && (!answer.Refused? && inserted.Some? ==> after == inserted.value.0 && answer == Rows(inserted.value.1))
  {
    assert NewRows(columns, cells) == seq(|cells|, i requires 0 <= i < |cells| => MakeRow(columns, cells[i]));
    var tenant, rest := ("tenant_id", ctx.tenantId), if table.project then [("project_id", ctx.projectId.value)] else [];
    assert ScopeOf(table.project, ctx).value == [tenant] + rest;
    CheckCons(columns, cells, tenant, rest);
    if table.project {
      assert rest == [rest[0]] + [];
      CheckCons(columns, cells, rest[0], []);
    }
    RefusedForAColumn(columns, cells, [tenant] + rest);
  }

  lemma CheckCons(columns: seq<string>, cells: seq<seq<Cell>>, first: (string, string), rest: Scope)
    ensures CheckInsert(columns, cells, [first] + rest).Ok? <==>
            Carries(columns, cells, first.0, first.1) && CheckInsert(columns, cells, rest).Ok?
    ensures CheckInsert(columns, cells, []).Ok?
  {
    assert ([first] + rest)[1..] == rest;
  }
}
