// last_used_at: uses noted in memory, flushed in batches that may overlap, fail,
// or land late and out of order.
module LastUsed {
  import opened Wrappers

  /** last_used_at of every key row. */
  type Rows = map<string, Option<int>>

  /** Whether a write at a time changes what is there: only forward. */
  predicate Advances(current: Option<int>, at: int) {
    current.None? || current.value < at
  }

  function Recorded(rows: Rows, ids: set<string>, at: int): Rows {
    map id | id in rows :: if id in ids && Advances(rows[id], at) then Some(at) else rows[id]
  }

  // ---- One tracker, one call at a time ----

  class KeyTable {
    var rows: Rows

    constructor (rows: Rows)
      ensures this.rows == rows
    {
      this.rows := rows;
    }

    /** One guarded statement for all the keys. */
    method RecordUse(ids: set<string>, at: int)
      modifies this
      ensures rows == Recorded(old(rows), ids, at)
      ensures forall id :: id in old(rows) ==>
        && id in rows
        && (id !in ids ==> rows[id] == old(rows)[id])
        && (id in ids ==> rows[id] == Some(at) || (rows[id] == old(rows)[id] && rows[id].Some?))
        && (id in ids ==> rows[id].value >= at)
        && (id in ids && old(rows)[id].Some? ==> rows[id].value >= old(rows)[id].value)
    {
      if ids == {} {
        assert Recorded(rows, ids, at) == rows;
        return;
      }
      rows := map id | id in rows :: if id in ids && Advances(rows[id], at) then Some(at) else rows[id];
    }
  }

  class Tracker {
    var pending: set<string>

    constructor ()
      ensures pending == {}
    {
      pending := {};
    }

    method Seen(id: string)
      modifies this
      ensures pending == old(pending) + {id}
    {
      pending := pending + {id};
    }

    /** A write that throws, whether or not it took effect, puts its batch back. */
    method Flush(table: KeyTable, at: int, takesEffect: bool, throws: bool)
      requires !throws ==> takesEffect
      modifies this, table
      ensures pending == if throws then old(pending) else {}
      ensures table.rows == if takesEffect then Recorded(old(table.rows), old(pending), at) else old(table.rows)
    {
      if pending == {} {
        assert Recorded(table.rows, {}, at) == table.rows;
        return;
      }
      var batch := pending;
      pending := {};
      if takesEffect { table.RecordUse(batch, at); }
      if throws { pending := pending + batch; }
    }
  }

  // ---- Many trackers, overlapping flushes ----

  /** A write under way; one reported as failed may still land, or already have. */
  datatype Batch = Batch(tracker: nat, ids: set<string>, at: int, landed: bool, failed: bool)

  /** A use: where it was noted, of which key, when. */
  datatype Use = Use(tracker: nat, id: string, at: int)

  /** uses is the history of all that was noted; the programs do not keep it. */
  datatype State = State(now: int, pending: map<nat, set<string>>, batches: map<nat, Batch>, rows: Rows, uses: set<Use>)

  datatype Step =
    | Tick(to: int)
    | Seen(tracker: nat, id: string)
    | Flush(tracker: nat, batch: nat)
    | Land(batch: nat)
    | Succeed(batch: nat)
    | Fail(batch: nat)

  function Pending(s: State, tracker: nat): set<string> {
    if tracker in s.pending then s.pending[tracker] else {}
  }

  /** The clock is monotone, and a use is of a key that has a row. */
  predicate Enabled(s: State, step: Step) {
    match step
    case Tick(to) => s.now <= to
    case Seen(_, id) => id in s.rows
    case Flush(tracker, batch) => Pending(s, tracker) != {} && batch !in s.batches
    case Land(batch) => batch in s.batches && !s.batches[batch].landed
    case Succeed(batch) => batch in s.batches && s.batches[batch].landed && !s.batches[batch].failed
    case Fail(batch) => batch in s.batches && !s.batches[batch].failed
  }

  function Next(s: State, step: Step): State
    requires Enabled(s, step)
  {
    match step
    case Tick(to) => s.(now := to)
    case Seen(tracker, id) =>
      s.(pending := s.pending[tracker := Pending(s, tracker) + {id}], uses := s.uses + {Use(tracker, id, s.now)})
    case Flush(tracker, batch) =>
      s.(pending := s.pending[tracker := {}],
         batches := s.batches[batch := Batch(tracker, Pending(s, tracker), s.now, false, false)])
    case Land(batch) =>
      var b := s.batches[batch];
      s.(rows := Recorded(s.rows, b.ids, b.at), batches := s.batches[batch := b.(landed := true)])
    case Succeed(batch) => s.(batches := s.batches - {batch})
    case Fail(batch) =>
      var b := s.batches[batch];
      s.(pending := s.pending[b.tracker := Pending(s, b.tracker) + b.ids],
         batches := s.batches[batch := b.(failed := true)])
  }

  predicate InFlight(s: State, u: Use, batch: nat) {
    && batch in s.batches
    && !s.batches[batch].failed
    && s.batches[batch].tracker == u.tracker
    && u.id in s.batches[batch].ids
    && u.at <= s.batches[batch].at
  }

  predicate Written(s: State, u: Use) {
    u.id in s.rows && s.rows[u.id].Some? && u.at <= s.rows[u.id].value
  }

  /** A use is pending, in a batch under way, or written. */
  ghost predicate Kept(s: State, u: Use) {
    || u.id in Pending(s, u.tracker)
    || (exists batch :: InFlight(s, u, batch))
    || Written(s, u)
  }

  ghost predicate NoUseLost(s: State) {
    forall u :: u in s.uses ==> u.at <= s.now && u.id in s.rows && Kept(s, u)
  }

  /** What has landed shows in the rows. */
  predicate LandedShows(s: State) {
    forall b :: b in s.batches && s.batches[b].landed ==>
      forall id :: id in s.batches[b].ids && id in s.rows ==> s.rows[id].Some? && s.rows[id].value >= s.batches[b].at
  }

  /** What the rows and batches hold was noted, no later than they say. */
  ghost predicate NothingInvented(s: State) {
    && (forall t, id :: t in s.pending && id in s.pending[t] ==> WasUsedBy(s, id, s.now))
    && (forall b, id :: b in s.batches && id in s.batches[b].ids ==> WasUsedBy(s, id, s.batches[b].at))
    && (forall id :: id in s.rows && s.rows[id].Some? ==> WasUsedBy(s, id, s.rows[id].value))
  }

  ghost predicate WasUsedBy(s: State, id: string, at: int) {
    exists u :: u in s.uses && u.id == id && u.at <= at
  }

  ghost predicate Inv(s: State) {
    NoUseLost(s) && LandedShows(s) && NothingInvented(s)
  }

  /** No row forgets a later time for an earlier one. */
  predicate NeverBack(before: Rows, after: Rows) {
    forall id :: id in before ==>
      id in after && (before[id].Some? ==> after[id].Some? && before[id].value <= after[id].value)
  }

  lemma StepNeverGoesBack(s: State, step: Step)
    requires Enabled(s, step)
    ensures NeverBack(s.rows, Next(s, step).rows)
    ensures Next(s, step).rows.Keys == s.rows.Keys
  {
  }

  lemma StepKeepsLanded(s: State, step: Step)
    requires Enabled(s, step) && LandedShows(s)
    ensures LandedShows(Next(s, step))
  {
    StepNeverGoesBack(s, step);
  }

  /** One use, through one step. */
  lemma StepKeepsUse(s: State, step: Step, u: Use)
    requires Enabled(s, step) && LandedShows(s)
    requires u.at <= s.now && u.id in s.rows && Kept(s, u)
    ensures Kept(Next(s, step), u)
  {
    StepNeverGoesBack(s, step);
    var t := Next(s, step);
    if Written(s, u) {
      assert Written(t, u);
    } else if exists batch :: InFlight(s, u, batch) {
      var batch :| InFlight(s, u, batch);
      FlightGoesOn(s, step, u, batch);
    } else if step.Flush? && step.tracker == u.tracker {
      assert InFlight(t, u, step.batch);
    }
  }

  lemma FlightGoesOn(s: State, step: Step, u: Use, batch: nat)
    requires Enabled(s, step) && LandedShows(s)
    requires InFlight(s, u, batch) && u.id in s.rows
    ensures Kept(Next(s, step), u)
  {
    var t := Next(s, step);
    if step.Succeed? && step.batch == batch {
      assert Written(t, u);
    } else if step.Fail? && step.batch == batch {
      assert u.id in Pending(t, u.tracker);
    } else {
      assert InFlight(t, u, batch);
    }
  }

  lemma StepLosesNoUse(s: State, step: Step)
    requires Enabled(s, step) && LandedShows(s) && NoUseLost(s)
    ensures NoUseLost(Next(s, step))
  {
    var t := Next(s, step);
    StepNeverGoesBack(s, step);
    forall u | u in t.uses ensures u.at <= t.now && u.id in t.rows && Kept(t, u) {
      if u in s.uses {
        StepKeepsUse(s, step, u);
      } else {
        assert u.id in Pending(t, u.tracker);
      }
    }
  }

  lemma StillUsed(s: State, step: Step, id: string, at: int, later: int)
    requires Enabled(s, step) && WasUsedBy(s, id, at) && at <= later
    ensures WasUsedBy(Next(s, step), id, later)
  {
    var u :| u in s.uses && u.id == id && u.at <= at;
    assert u in Next(s, step).uses;
  }

  lemma PendingWasUsed(s: State, step: Step, tracker: nat, id: string)
    requires Enabled(s, step) && NothingInvented(s) && (forall u :: u in s.uses ==> u.at <= s.now)
    requires (forall b :: b in s.batches ==> s.batches[b].at <= s.now)
    requires id in Pending(Next(s, step), tracker)
    ensures WasUsedBy(Next(s, step), id, Next(s, step).now)
  {
    var t := Next(s, step);
    if id in Pending(s, tracker) {
      StillUsed(s, step, id, s.now, t.now);
    } else if step.Seen? {
      assert Use(tracker, id, s.now) in t.uses;
    } else {
      assert step.Fail? && id in s.batches[step.batch].ids;
      StillUsed(s, step, id, s.batches[step.batch].at, t.now);
    }
  }

  predicate BatchesInPast(s: State) {
    forall b :: b in s.batches ==> s.batches[b].at <= s.now
  }

  lemma BatchWasUsed(s: State, step: Step, b: nat, id: string)
    requires Enabled(s, step) && NothingInvented(s)
    requires b in Next(s, step).batches && id in Next(s, step).batches[b].ids
    ensures WasUsedBy(Next(s, step), id, Next(s, step).batches[b].at)
  {
    var t := Next(s, step);
    if b in s.batches {
      StillUsed(s, step, id, s.batches[b].at, t.batches[b].at);
    } else {
      assert step.tracker in s.pending && id in s.pending[step.tracker];
      StillUsed(s, step, id, s.now, t.batches[b].at);
    }
  }

  lemma RowWasUsed(s: State, step: Step, id: string)
    requires Enabled(s, step) && NothingInvented(s)
    requires id in Next(s, step).rows && Next(s, step).rows[id].Some?
    ensures WasUsedBy(Next(s, step), id, Next(s, step).rows[id].value)
  {
    var t := Next(s, step);
    if t.rows[id] == s.rows[id] {
      StillUsed(s, step, id, s.rows[id].value, t.rows[id].value);
    } else {
      assert step.Land? && id in s.batches[step.batch].ids;
      StillUsed(s, step, id, s.batches[step.batch].at, t.rows[id].value);
    }
  }

  lemma StepInventsNothing(s: State, step: Step)
    requires Enabled(s, step) && NothingInvented(s) && NoUseLost(s) && BatchesInPast(s)
    ensures NothingInvented(Next(s, step)) && BatchesInPast(Next(s, step))
  {
    var t := Next(s, step);
    forall k, id | k in t.pending && id in t.pending[k] ensures WasUsedBy(t, id, t.now) {
      PendingWasUsed(s, step, k, id);
    }
    forall b, id | b in t.batches && id in t.batches[b].ids ensures WasUsedBy(t, id, t.batches[b].at) {
      BatchWasUsed(s, step, b, id);
    }
    forall id | id in t.rows && t.rows[id].Some? ensures WasUsedBy(t, id, t.rows[id].value) {
      RowWasUsed(s, step, id);
    }
  }

  predicate IsRun(s: State, steps: seq<Step>)
    decreases |steps|
  {
    steps == [] || (Enabled(s, steps[0]) && IsRun(Next(s, steps[0]), steps[1..]))
  }

  function After(s: State, steps: seq<Step>): State
    requires IsRun(s, steps)
    decreases |steps|
  {
    if steps == [] then s else After(Next(s, steps[0]), steps[1..])
  }

  /** What the calls of seen() among some steps noted, each at the time of its call. */
  function UsesIn(steps: seq<Step>, now: int): set<Use>
    decreases |steps|
  {
    if steps == [] then {}
    else match steps[0]
      case Tick(to) => UsesIn(steps[1..], to)
      case Seen(tracker, id) => {Use(tracker, id, now)} + UsesIn(steps[1..], now)
      case _ => UsesIn(steps[1..], now)
  }

  lemma {:induction false} UsesAreNoted(s: State, steps: seq<Step>)
    requires IsRun(s, steps)
    ensures After(s, steps).uses == s.uses + UsesIn(steps, s.now)
    decreases |steps|
  {
    if steps == [] {
    } else {
      UsesAreNoted(Next(s, steps[0]), steps[1..]);
    }
  }

  /** No key has been used yet. */
  function Initial(ids: set<string>, now: int): State {
    State(now, map[], map[], map id | id in ids :: None, {})
  }

  lemma {:induction false} RunKeepsInv(s: State, steps: seq<Step>)
    requires Inv(s) && BatchesInPast(s) && IsRun(s, steps)
    ensures Inv(After(s, steps)) && BatchesInPast(After(s, steps))
    decreases |steps|
  {
    if steps == [] {
    } else {
      StepKeepsLanded(s, steps[0]);
      StepLosesNoUse(s, steps[0]);
      StepInventsNothing(s, steps[0]);
      RunKeepsInv(Next(s, steps[0]), steps[1..]);
    }
  }

  /**
   * Over every run: each use noted by a call is pending, in a batch under way,
   * or written with its time or a later one; and every time written was a
   * use's, or later than one.
   */
  lemma UsesAreAccounted(ids: set<string>, now: int, steps: seq<Step>)
    requires IsRun(Initial(ids, now), steps)
    ensures var s := After(Initial(ids, now), steps);
      && (forall u :: u in UsesIn(steps, now) ==> Kept(s, u))
      && (forall id :: id in s.rows && s.rows[id].Some? ==>
            exists u :: u in UsesIn(steps, now) && u.id == id && u.at <= s.rows[id].value)
  {
    RunKeepsInv(Initial(ids, now), steps);
    UsesAreNoted(Initial(ids, now), steps);
    var s := After(Initial(ids, now), steps);
    forall id | id in s.rows && s.rows[id].Some?
      ensures exists u :: u in UsesIn(steps, now) && u.id == id && u.at <= s.rows[id].value
    {
      assert WasUsedBy(s, id, s.rows[id].value);
    }
  }

  predicate Drained(s: State) {
    (forall t :: t in s.pending ==> s.pending[t] == {}) && (forall b :: b in s.batches ==> s.batches[b].failed)
  }

  /** With nothing pending and no write under way, every use has been written. */
  lemma DrainedUsesAreWritten(ids: set<string>, now: int, steps: seq<Step>)
    requires IsRun(Initial(ids, now), steps)
    requires Drained(After(Initial(ids, now), steps))
    ensures var s := After(Initial(ids, now), steps);
      forall u :: u in UsesIn(steps, now) ==> Written(s, u)
  {
    RunKeepsInv(Initial(ids, now), steps);
    UsesAreNoted(Initial(ids, now), steps);
    var s := After(Initial(ids, now), steps);
    assert Drained(s) && NoUseLost(s);
    forall u | u in s.uses ensures Written(s, u) {
      assert Kept(s, u);
    }
  }

  /** last_used_at never goes back, however late a batch lands. */
  lemma {:induction false} RunNeverGoesBack(s: State, steps: seq<Step>)
    requires IsRun(s, steps)
    ensures NeverBack(s.rows, After(s, steps).rows)
    decreases |steps|
  {
    if steps == [] {
    } else {
      StepNeverGoesBack(s, steps[0]);
      RunNeverGoesBack(Next(s, steps[0]), steps[1..]);
    }
  }
}
