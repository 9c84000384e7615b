// Any number of processes sharing the table through separate statements.
module IdempotencyProtocol {
  import opened Wrappers
  import opened IdempotencyTable

  /** Where a process is; the times are what it read from its clock. */
  datatype Pc =
    | ToDelete(since: int)
    | ToInsert(since: int)
    | ToFind
    | Working(expiresAt: int)
    | ToComplete(expiresAt: int, response: Response)
    | ToRelease(expiresAt: int, error: string)
    | Finished(outcome: Outcome)
    | Crashed

  datatype Proc = Proc(slot: Slot, hash: string, pc: Pc, retries: nat, deletionsBefore: nat)

  /** What happened to a slot, in order. */
  datatype Event =
    | Claimed(slot: Slot)
    | Worked(slot: Slot, hash: string, response: Response)
    | Committed(slot: Slot, acknowledged: bool)
    | Expired(slot: Slot)
    | Released(slot: Slot)

  datatype State = State(now: int, rows: Table, procs: seq<Proc>, log: seq<Event>)

  datatype Step =
    | Tick(to: int)
    | Start(slot: Slot, hash: string)
    | Delete(p: nat, cutoff: int)
    | Insert(p: nat, at: int)
    | Find(p: nat)
    | WorkReturns(p: nat, response: Response)
    | WorkThrows(p: nat, error: string)
    | Complete(p: nat)
    | CompleteFails(p: nat, applied: bool, error: string)
    | Release(p: nat)
    | Crash(p: nat)

  predicate At(s: State, p: nat) {
    p < |s.procs|
  }

  predicate Enabled(s: State, step: Step) {
    match step
    case Tick(to) => s.now <= to
    case Start(_, _) => true
    case Delete(p, cutoff) => At(s, p) && s.procs[p].pc.ToDelete? && s.procs[p].pc.since <= cutoff <= s.now
    case Insert(p, at) => At(s, p) && s.procs[p].pc.ToInsert? && s.procs[p].pc.since <= at <= s.now
    case Find(p) => At(s, p) && s.procs[p].pc.ToFind?
    case WorkReturns(p, _) => At(s, p) && s.procs[p].pc.Working?
    case WorkThrows(p, _) => At(s, p) && s.procs[p].pc.Working?
    case Complete(p) => At(s, p) && s.procs[p].pc.ToComplete?
    case CompleteFails(p, _, _) => At(s, p) && s.procs[p].pc.ToComplete?
    case Release(p) => At(s, p) && s.procs[p].pc.ToRelease?
    case Crash(p) => At(s, p) && !s.procs[p].pc.Finished?
  }

  function Goto(s: State, p: nat, pc: Pc): State
    requires At(s, p)
  {
    s.(procs := s.procs[p := s.procs[p].(pc := pc)])
  }

  function Log(s: State, event: Event): State {
    s.(log := s.log + [event])
  }

  function AfterFind(s: State, p: nat): State
    requires At(s, p)
  {
    var proc := s.procs[p];
    if proc.slot !in s.rows then
      // Released meanwhile: run again from the start.
      s.(procs := s.procs[p := proc.(pc := ToDelete(s.now), retries := proc.retries + 1)])
    else
      var row := s.rows[proc.slot];
      if row.requestHash != proc.hash then Goto(s, p, Finished(KeyReused))
      else match row.status
        case InProgress => Goto(s, p, Finished(StillRunning))
        case Completed(response) => Goto(s, p, Finished(Answered(response, true)))
  }

  function Next(s: State, step: Step): State
    requires Enabled(s, step)
  {
    match step
    case Tick(to) => s.(now := to)
    case Start(slot, hash) =>
      s.(procs := s.procs + [Proc(slot, hash, ToDelete(s.now), 0, Deletions(s.log, slot))])
    case Delete(p, cutoff) =>
      var slot := s.procs[p].slot;
      var rows := WithoutExpired(s.rows, slot, cutoff);
      var s' := Goto(s.(rows := rows), p, ToInsert(s.now));
      if rows != s.rows then Log(s', Expired(slot)) else s'
    case Insert(p, at) =>
      var proc := s.procs[p];
      if proc.slot in s.rows then Goto(s, p, ToFind)
      else
        var rows := WithClaim(s.rows, proc.slot, proc.hash, at + TTL);
        Log(Goto(s.(rows := rows), p, Working(at + TTL)), Claimed(proc.slot))
    case Find(p) => AfterFind(s, p)
    case WorkReturns(p, response) =>
      var proc := s.procs[p];
      Log(Goto(s, p, ToComplete(proc.pc.expiresAt, response)), Worked(proc.slot, proc.hash, response))
    case WorkThrows(p, error) => Goto(s, p, ToRelease(s.procs[p].pc.expiresAt, error))
    case Complete(p) =>
      var proc := s.procs[p];
      var rows := WithCompletion(s.rows, proc.slot, proc.pc.response);
      Log(Goto(s.(rows := rows), p, Finished(Answered(proc.pc.response, false))), Committed(proc.slot, true))
    case CompleteFails(p, applied, error) =>
      // The statement's error may hide that it took effect.
      var proc := s.procs[p];
      var rows := if applied then WithCompletion(s.rows, proc.slot, proc.pc.response) else s.rows;
      var s' := Goto(s.(rows := rows), p, ToRelease(proc.pc.expiresAt, error));
      if applied then Log(s', Committed(proc.slot, false)) else s'
    case Release(p) =>
      var proc := s.procs[p];
      var s' := Goto(s.(rows := WithoutSlot(s.rows, proc.slot)), p, Finished(Failed(proc.pc.error)));
      if proc.slot in s.rows then Log(s', Released(proc.slot)) else s'
    case Crash(p) => Goto(s, p, Crashed)
  }

  // ---- Runs ----

  predicate Init(s: State) {
    s.rows == map[] && s.procs == [] && s.log == []
  }

  ghost predicate IsRun(states: seq<State>, steps: seq<Step>) {
    && |states| == |steps| + 1
    && Init(states[0])
    && forall i :: 0 <= i < |steps| ==> Enabled(states[i], steps[i]) && states[i + 1] == Next(states[i], steps[i])
  }

  // ---- What the steps answer and log ----

  /** A process just answered, by this step. */
  predicate Answers(s: State, step: Step, p: nat, outcome: Outcome)
    requires Enabled(s, step)
  {
    At(Next(s, step), p) && Next(s, step).procs[p].pc == Finished(outcome) && (At(s, p) ==> !s.procs[p].pc.Finished?)
  }

  /**
   * Each outcome, by what the answering step found: a key is refused as reused
   * when the row is another request's, as in progress when the same request is
   * still running, and replayed when it completed; a first answer is the
   * process's own work, and so is a failure.
   */
  lemma OutcomesMean(s: State, step: Step, p: nat)
    requires Enabled(s, step) && At(s, p)
    ensures var proc := s.procs[p];
      var row := if step == Find(p) && proc.slot in s.rows then Some(s.rows[proc.slot]) else None;
      && (Answers(s, step, p, KeyReused) <==> row.Some? && row.value.requestHash != proc.hash)
      && (Answers(s, step, p, StillRunning) <==>
            row.Some? && row.value.requestHash == proc.hash && row.value.status == InProgress)
      && (forall response :: Answers(s, step, p, Answered(response, true)) <==>
            row.Some? && row.value.requestHash == proc.hash && row.value.status == Completed(response))
      && (forall response :: Answers(s, step, p, Answered(response, false)) <==>
            step == Complete(p) && proc.pc.response == response)
      && (forall error :: Answers(s, step, p, Failed(error)) <==> step == Release(p) && proc.pc.error == error)
  {
  }

  /** The log tells exactly what was done: rows claimed and gone, works run, and completions that took effect. */
  lemma LogTells(s: State, step: Step)
    requires Enabled(s, step)
    ensures var s' := Next(s, step);
      && s.log <= s'.log && |s'.log| <= |s.log| + 1
      && (forall e :: s'.log == s.log + [e] <==>
            match e
            case Claimed(slot) => step.Insert? && s.procs[step.p].slot == slot && slot !in s.rows
            case Worked(slot, hash, response) =>
              step.WorkReturns? && s.procs[step.p].slot == slot && s.procs[step.p].hash == hash && step.response == response
            case Committed(slot, acknowledged) =>
              && (if acknowledged then step.Complete? else step.CompleteFails? && step.applied)
              && s.procs[step.p].slot == slot
            case Expired(slot) =>
              step.Delete? && s.procs[step.p].slot == slot && slot in s.rows && s.rows[slot].expiresAt <= step.cutoff
            case Released(slot) => step.Release? && s.procs[step.p].slot == slot && slot in s.rows)
  {
    var s' := Next(s, step);
    if s'.log != s.log { assert s'.log[|s.log|] == (s.log + [s'.log[|s.log|]])[|s.log|]; }
    forall e ensures s'.log == s.log + [e] <==> s'.log != s.log && s'.log[|s.log|] == e {
      assert (s.log + [e])[|s.log|] == e;
    }
  }

  // ---- One request alone ----

  predicate Leads(s: State, steps: seq<Step>, last: State)
    decreases |steps|
  {
    if steps == [] then s == last else Enabled(s, steps[0]) && Leads(Next(s, steps[0]), steps[1..], last)
  }

  lemma LeadsCons(s: State, step: Step, steps: seq<Step>, last: State)
    requires Enabled(s, step) && Leads(Next(s, step), steps, last)
    ensures Leads(s, [step] + steps, last)
  {
    assert ([step] + steps)[0] == step && ([step] + steps)[1..] == steps;
  }

  lemma {:induction false} LeadsOn(s: State, a: seq<Step>, middle: State, b: seq<Step>, last: State)
    requires Leads(s, a, middle) && Leads(middle, b, last)
    ensures Leads(s, a + b, last)
    decreases |a|
  {
    if a == [] {
      assert a + b == b;
    } else {
      LeadsOn(Next(s, a[0]), a[1..], middle, b, last);
      assert (a + b)[0] == a[0] && (a + b)[1..] == a[1..] + b;
    }
  }

  lemma DeleteAlone(s: State, slot: Slot, hash: string) returns (steps: seq<Step>, last: State)
    ensures Leads(s, steps, last) && |last.procs| == |s.procs| + 1 && last.now == s.now
    ensures last.rows == WithoutExpired(s.rows, slot, s.now)
    ensures var proc := last.procs[|s.procs|];
      proc.slot == slot && proc.hash == hash && proc.pc == ToInsert(s.now)
  {
    var p := |s.procs|;
    var started := Next(s, Start(slot, hash));
    last := Next(started, Delete(p, s.now));
    assert Leads(last, [], last);
    LeadsCons(started, Delete(p, s.now), [], last);
    LeadsCons(s, Start(slot, hash), [Delete(p, s.now)], last);
    steps := [Start(slot, hash)] + [Delete(p, s.now)];
  }

  lemma InsertAlone(s: State, p: nat, claimedAt: int) returns (steps: seq<Step>, last: State)
    requires At(s, p) && s.procs[p].pc == ToInsert(s.now) && s.now <= claimedAt
    ensures Leads(s, steps, last) && |last.procs| == |s.procs|
    ensures last.rows == WithClaim(s.rows, s.procs[p].slot, s.procs[p].hash, claimedAt + TTL)
    ensures last.procs[p].slot == s.procs[p].slot && last.procs[p].hash == s.procs[p].hash
    ensures last.procs[p].pc == if s.procs[p].slot in s.rows then ToFind else Working(claimedAt + TTL)
  {
    var ticked := Next(s, Tick(claimedAt));
    last := Next(ticked, Insert(p, claimedAt));
    assert Leads(last, [], last);
    LeadsCons(ticked, Insert(p, claimedAt), [], last);
    LeadsCons(s, Step.Tick(claimedAt), [Insert(p, claimedAt)], last);
    steps := [Step.Tick(claimedAt)] + [Insert(p, claimedAt)];
  }

  /** The rest of a request that has tried to claim its key. */
  lemma RestAlone(s: State, p: nat, work: WorkResult) returns (steps: seq<Step>, last: State)
    requires At(s, p) && s.procs[p].slot in s.rows && (s.procs[p].pc.Working? || s.procs[p].pc == ToFind)
    ensures Leads(s, steps, last) && |last.procs| == |s.procs|
    ensures var slot := s.procs[p].slot;
      if s.procs[p].pc == ToFind then
        && last.rows == s.rows
        && last.procs[p].pc == Finished(
             if s.rows[slot].requestHash != s.procs[p].hash then KeyReused
             else match s.rows[slot].status
               case InProgress => StillRunning
               case Completed(response) => Answered(response, true))
      else match work
        case Returned(response) =>
          && last.rows == s.rows[slot := s.rows[slot].(status := Completed(response))]
          && last.procs[p].pc == Finished(Answered(response, false))
        case Threw(error) => last.rows == s.rows - {slot} && last.procs[p].pc == Finished(Failed(error))
  {
    if s.procs[p].pc == ToFind {
      last := Next(s, Find(p));
      assert Leads(last, [], last);
      LeadsCons(s, Find(p), [], last);
      steps := [Find(p)] + [];
    } else {
      steps, last := WorkAlone(s, p, work);
    }
  }

  /** A request served alone is the protocol's steps with no other process between them. */
  lemma ServedIsARun(s: State, slot: Slot, hash: string, claimedAt: int, work: WorkResult) returns (steps: seq<Step>, last: State)
    requires s.now <= claimedAt
    ensures Leads(s, steps, last) && |last.procs| == |s.procs| + 1
    ensures var (rows, outcome) := Served(s.rows, slot, hash, s.now, claimedAt, work);
      last.rows == rows && last.procs[|s.procs|].pc == Finished(outcome)
  {
    var first, deleted := DeleteAlone(s, slot, hash);
    var second, claimed := InsertAlone(deleted, |s.procs|, claimedAt);
    var third, end := RestAlone(claimed, |s.procs|, work);
    LeadsOn(deleted, second, claimed, third, end);
    LeadsOn(s, first, deleted, second + third, end);
    steps, last := first + (second + third), end;
    if !Live(s.rows, slot, s.now) {
      var own := Row(hash, InProgress, claimedAt + TTL);
      assert claimed.rows[slot] == own;
      if work.Returned? {
        assert last.rows == s.rows[slot := Row(hash, Completed(work.response), claimedAt + TTL)];
      } else {
        assert last.rows == s.rows - {slot};
      }
    }
  }

  lemma WorkAlone(s: State, p: nat, work: WorkResult) returns (steps: seq<Step>, last: State)
    requires At(s, p) && s.procs[p].pc.Working? && s.procs[p].slot in s.rows
    ensures Leads(s, steps, last) && |last.procs| == |s.procs|
    ensures match work
      case Returned(response) =>
        && last.rows == s.rows[s.procs[p].slot := s.rows[s.procs[p].slot].(status := Completed(response))]
        && last.procs[p].pc == Finished(Answered(response, false))
      case Threw(error) => last.rows == s.rows - {s.procs[p].slot} && last.procs[p].pc == Finished(Failed(error))
  {
    var first, second := WorkReturns(p, Response(0, "")), Step.Complete(p);
    match work {
      case Returned(response) => first := WorkReturns(p, response);
      case Threw(error) => first, second := WorkThrows(p, error), Step.Release(p);
    }
    var worked := Next(s, first);
    last := Next(worked, second);
    steps := [first] + [second];
    assert Leads(last, [], last);
    LeadsCons(worked, second, [], last);
    LeadsCons(s, first, [second], last);
  }

  // ---- Counting events ----

  predicate IsDeletion(e: Event, slot: Slot) {
    e == Expired(slot) || e == Released(slot)
  }

  function Deletions(log: seq<Event>, slot: Slot): nat {
    if log == [] then 0
    else Deletions(log[..|log| - 1], slot) + (if IsDeletion(log[|log| - 1], slot) then 1 else 0)
  }

  function Claims(log: seq<Event>, slot: Slot): nat {
    if log == [] then 0
    else Claims(log[..|log| - 1], slot) + (if log[|log| - 1] == Claimed(slot) then 1 else 0)
  }

  /**
   * The last completion of the slot that still stands, by whether it was
   * acknowledged: it ends when the row expires, and one whose process saw an
   * error also when that process releases the key.
   */
  function Standing(log: seq<Event>, slot: Slot): Option<bool> {
    if log == [] then None
    else
      var earlier := Standing(log[..|log| - 1], slot);
      match log[|log| - 1]
      case Committed(at, acknowledged) => if at == slot then Some(acknowledged) else earlier
      case Expired(at) => if at == slot then None else earlier
      case Released(at) => if at == slot && earlier != Some(true) then None else earlier
      case _ => earlier
  }

  lemma CountsSnoc(log: seq<Event>, e: Event, slot: Slot)
    ensures Deletions(log + [e], slot) == Deletions(log, slot) + (if IsDeletion(e, slot) then 1 else 0)
    ensures Claims(log + [e], slot) == Claims(log, slot) + (if e == Claimed(slot) then 1 else 0)
    ensures Standing(log + [e], slot) ==
      if e.Committed? && e.slot == slot then Some(e.acknowledged)
      else if e == Expired(slot) || (e == Released(slot) && Standing(log, slot) != Some(true)) then None
      else Standing(log, slot)
  {
    assert (log + [e])[..|log|] == log;
  }

  // ---- Claims are paid for by deletions, in every run ----

  ghost predicate Balanced(s: State) {
    forall slot :: Claims(s.log, slot) == Deletions(s.log, slot) + (if slot in s.rows then 1 else 0)
  }

  /** Each retry of a process is charged to a deletion of its slot since it started. */
  predicate Charged(s: State, p: nat)
    requires At(s, p)
  {
    var proc := s.procs[p];
    proc.deletionsBefore + proc.retries + (if proc.pc.ToFind? && proc.slot !in s.rows then 1 else 0)
    <= Deletions(s.log, proc.slot)
  }

  ghost predicate AllCharged(s: State) {
    forall p :: 0 <= p < |s.procs| ==> Charged(s, p)
  }

  /** A step logs at most one event, and logs exactly the rows that come and go. */
  predicate LogsRow(rows: Table, rows': Table, slot: Slot, e: Event) {
    && (IsDeletion(e, slot) <==> slot in rows && slot !in rows')
    && (e == Claimed(slot) <==> slot !in rows && slot in rows')
  }

  lemma LoggedSlot(s: State, step: Step, slot: Slot)
    requires Enabled(s, step)
    ensures var s' := Next(s, step);
      || (s'.log == s.log && (slot in s'.rows <==> slot in s.rows))
      || (s'.log == s.log + [s'.log[|s.log|]] && LogsRow(s.rows, s'.rows, slot, s'.log[|s.log|]))
  {
  }

  lemma CountedSlot(s: State, step: Step, slot: Slot)
    requires Enabled(s, step)
    ensures var s' := Next(s, step);
      && Deletions(s'.log, slot) ==
         Deletions(s.log, slot) + (if slot in s.rows && slot !in s'.rows then 1 else 0)
      && Claims(s'.log, slot) ==
         Claims(s.log, slot) + (if slot !in s.rows && slot in s'.rows then 1 else 0)
  {
    LoggedSlot(s, step, slot);
    var s' := Next(s, step);
    if s'.log != s.log { CountsSnoc(s.log, s'.log[|s.log|], slot); }
  }

  lemma StepKeepsBalance(s: State, step: Step)
    requires Enabled(s, step) && Balanced(s)
    ensures Balanced(Next(s, step))
  {
    var s' := Next(s, step);
    forall slot
      ensures Claims(s'.log, slot) == Deletions(s'.log, slot) + (if slot in s'.rows then 1 else 0)
    {
      CountedSlot(s, step, slot);
    }
  }

  /** A retry is counted exactly when a find comes up empty. */
  lemma RetryStep(s: State, step: Step, p: nat)
    requires Enabled(s, step) && At(s, p)
    ensures var s' := Next(s, step);
      && At(s', p)
      && s'.procs[p].slot == s.procs[p].slot && s'.procs[p].deletionsBefore == s.procs[p].deletionsBefore
      && s'.procs[p].retries ==
         s.procs[p].retries + (if step == Find(p) && s.procs[p].slot !in s.rows then 1 else 0)
      && (step == Find(p) ==> s.procs[p].pc.ToFind? && !s'.procs[p].pc.ToFind? && s'.rows == s.rows)
      && (step != Find(p) && s'.procs[p].pc.ToFind? ==> s.procs[p].pc.ToFind? || s.procs[p].slot in s'.rows)
  {
  }

  lemma StepKeepsCharge(s: State, step: Step, p: nat)
    requires Enabled(s, step) && At(s, p) && Charged(s, p)
    ensures At(Next(s, step), p) && Charged(Next(s, step), p)
  {
    CountedSlot(s, step, s.procs[p].slot);
    RetryStep(s, step, p);
  }

  lemma NewcomersAreCharged(s: State, step: Step, p: nat)
    requires Enabled(s, step) && !At(s, p) && At(Next(s, step), p)
    ensures Charged(Next(s, step), p)
  {
  }

  lemma StepKeepsCharges(s: State, step: Step)
    requires Enabled(s, step) && AllCharged(s)
    ensures AllCharged(Next(s, step))
  {
    forall p | 0 <= p < |Next(s, step).procs| ensures Charged(Next(s, step), p) {
      if At(s, p) { StepKeepsCharge(s, step, p); } else { NewcomersAreCharged(s, step, p); }
    }
  }

  lemma {:induction false} RunsKeepBalance(states: seq<State>, steps: seq<Step>, n: nat)
    requires IsRun(states, steps) && n < |states|
    ensures Balanced(states[n]) && AllCharged(states[n])
    decreases n
  {
    if n == 0 {
    } else {
      RunsKeepBalance(states, steps, n - 1);
      StepKeepsBalance(states[n - 1], steps[n - 1]);
      StepKeepsCharges(states[n - 1], steps[n - 1]);
    }
  }

  /**
   * Work is at most once per life of the row, in every interleaving and
   * whatever the timing: the successful claims of a slot are its deletions,
   * plus one while a row is there.
   */
  lemma ClaimsAreDeletions(states: seq<State>, steps: seq<Step>, n: nat, slot: Slot)
    requires IsRun(states, steps) && n < |states|
    ensures Claims(states[n].log, slot) ==
            Deletions(states[n].log, slot) + (if slot in states[n].rows then 1 else 0)
  {
    RunsKeepBalance(states, steps, n);
  }

  /** A process retries at most once per deletion of its row since it started. */
  lemma RetriesArePaidFor(states: seq<State>, steps: seq<Step>, n: nat, p: nat)
    requires IsRun(states, steps) && n < |states| && At(states[n], p)
    ensures var proc := states[n].procs[p];
      proc.retries <= Deletions(states[n].log, proc.slot) - proc.deletionsBefore
  {
    RunsKeepBalance(states, steps, n);
    assert Charged(states[n], p);
  }

  // ---- Exclusion, exactly while no held row is deleted as expired ----

  predicate Holds(pc: Pc) {
    pc.Working? || pc.ToComplete? || pc.ToRelease?
  }

  predicate HeldBy(s: State, slot: Slot, p: nat) {
    At(s, p) && s.procs[p].slot == slot && Holds(s.procs[p].pc)
  }

  /** The step deletes, as expired, the row of a slot some process holds. */
  ghost predicate TakesHeld(s: State, step: Step)
    requires Enabled(s, step)
  {
    step.Delete?
    && var slot := s.procs[step.p].slot;
       slot in s.rows && s.rows[slot].expiresAt <= step.cutoff && exists q :: HeldBy(s, slot, q)
  }

  /** The row of a holder is the one it inserted. */
  predicate Owns(s: State, p: nat)
    requires At(s, p)
  {
    var proc := s.procs[p];
    Holds(proc.pc) ==>
      && proc.slot in s.rows
      && s.rows[proc.slot].requestHash == proc.hash
      && s.rows[proc.slot].expiresAt == proc.pc.expiresAt
      && (!proc.pc.ToRelease? ==> s.rows[proc.slot].status == InProgress)
  }

  predicate Apart(s: State, p: nat, q: nat)
    requires At(s, p) && At(s, q)
  {
    Holds(s.procs[p].pc) && Holds(s.procs[q].pc) && s.procs[p].slot == s.procs[q].slot ==> p == q
  }

  ghost predicate Exclusive(s: State) {
    && (forall p :: 0 <= p < |s.procs| ==> Owns(s, p))
    && (forall p, q :: 0 <= p < |s.procs| && 0 <= q < |s.procs| ==> Apart(s, p, q))
  }

  /** The process a step moves; the count of processes for a clock tick or a new process. */
  function Mover(s: State, step: Step): nat {
    match step
    case Tick(_) => |s.procs|
    case Start(_, _) => |s.procs|
    case Delete(p, _) => p
    case Insert(p, _) => p
    case Find(p) => p
    case WorkReturns(p, _) => p
    case WorkThrows(p, _) => p
    case Complete(p) => p
    case CompleteFails(p, _, _) => p
    case Release(p) => p
    case Crash(p) => p
  }

  /** A step changes no process but its mover, and no row but the mover's. */
  lemma StepIsLocal(s: State, step: Step)
    requires Enabled(s, step)
    ensures var s', m := Next(s, step), Mover(s, step);
      && |s.procs| <= |s'.procs|
      && (forall q :: 0 <= q < |s.procs| && q != m ==> s'.procs[q] == s.procs[q])
      && (m < |s.procs| ==>
            && |s'.procs| == |s.procs|
            && s'.procs[m].slot == s.procs[m].slot && s'.procs[m].hash == s.procs[m].hash)
      && (forall slot :: m == |s.procs| || slot != s.procs[m].slot ==>
            (slot in s'.rows <==> slot in s.rows) && (slot in s.rows ==> s'.rows[slot] == s.rows[slot]))
      && (forall q :: |s.procs| <= q < |s'.procs| ==> !Holds(s'.procs[q].pc))
  {
  }

  /** A step keeps the row of every holder that is not its mover. */
  lemma OthersKeepTheirRows(s: State, step: Step, q: nat)
    requires Enabled(s, step) && Exclusive(s) && !TakesHeld(s, step)
    requires At(s, q) && q != Mover(s, step) && Holds(s.procs[q].pc)
    ensures Owns(Next(s, step), q)
  {
    StepIsLocal(s, step);
    assert Owns(s, q);
    var m := Mover(s, step);
    if m < |s.procs| {
      assert Apart(s, m, q) && Owns(s, m);
      if step.Delete? && s.procs[m].slot == s.procs[q].slot { assert HeldBy(s, s.procs[m].slot, q); }
    }
  }

  lemma MoverOwns(s: State, step: Step)
    requires Enabled(s, step) && Exclusive(s) && Mover(s, step) < |s.procs|
    ensures At(Next(s, step), Mover(s, step)) && Owns(Next(s, step), Mover(s, step))
    ensures Holds(Next(s, step).procs[Mover(s, step)].pc) ==>
            Holds(s.procs[Mover(s, step)].pc) || s.procs[Mover(s, step)].slot !in s.rows
  {
    assert Owns(s, Mover(s, step));
  }

  lemma StepKeepsExclusion(s: State, step: Step)
    requires Enabled(s, step) && Exclusive(s) && !TakesHeld(s, step)
    ensures Exclusive(Next(s, step))
  {
    var s', m := Next(s, step), Mover(s, step);
    StepIsLocal(s, step);
    if m < |s.procs| { MoverOwns(s, step); }
    forall q | 0 <= q < |s'.procs| ensures Owns(s', q) {
      if q < |s.procs| && q != m && Holds(s.procs[q].pc) { OthersKeepTheirRows(s, step, q); }
    }
    forall p, q | 0 <= p < |s'.procs| && 0 <= q < |s'.procs| ensures Apart(s', p, q) {
      if p < |s.procs| && q < |s.procs| {
        assert Apart(s, p, q) && Owns(s, p) && Owns(s, q);
      }
    }
  }

  /** A holder whose row is deleted owns nothing from then on. */
  lemma TakingBreaksExclusion(s: State, step: Step)
    requires Enabled(s, step) && TakesHeld(s, step)
    ensures !Exclusive(Next(s, step))
  {
    var slot := s.procs[step.p].slot;
    var q :| HeldBy(s, slot, q);
    StepIsLocal(s, step);
    assert q != step.p;
    assert !Owns(Next(s, step), q);
  }

  /** None of the first n steps deletes, as expired, a row that is held. */
  ghost predicate NoneTaken(states: seq<State>, steps: seq<Step>, n: nat)
    requires IsRun(states, steps) && n < |states|
  {
    forall i :: 0 <= i < n ==> !TakesHeld(states[i], steps[i])
  }

  lemma {:induction false} RunsAreExclusive(states: seq<State>, steps: seq<Step>, n: nat)
    requires IsRun(states, steps) && n < |states| && NoneTaken(states, steps, n)
    ensures Exclusive(states[n])
    decreases n
  {
    if n == 0 {
    } else {
      RunsAreExclusive(states, steps, n - 1);
      StepKeepsExclusion(states[n - 1], steps[n - 1]);
    }
  }

  /**
   * In every run, up to any point of it, every holder has been alone with its
   * own row throughout if and only if no delete-expired statement has taken
   * the row of a slot while a process held it.
   */
  lemma ExclusionHoldsExactly(states: seq<State>, steps: seq<Step>, n: nat)
    requires IsRun(states, steps) && n < |states|
    ensures (forall m :: 0 <= m <= n ==> Exclusive(states[m])) <==> NoneTaken(states, steps, n)
  {
    if NoneTaken(states, steps, n) {
      forall m | 0 <= m <= n ensures Exclusive(states[m]) {
        RunsAreExclusive(states, steps, m);
      }
    } else {
      var i :| 0 <= i < n && TakesHeld(states[i], steps[i]);
      TakingBreaksExclusion(states[i], steps[i]);
      assert !Exclusive(states[i + 1]);
    }
  }

  /**
   * While no held row is deleted as expired, at most one process per slot is
   * between a successful claim and its complete or release, and the row is its
   * own: in progress until it is completed, under its request hash and its
   * expiry.
   */
  lemma AtMostOneHolder(states: seq<State>, steps: seq<Step>, n: nat, p: nat, q: nat)
    requires IsRun(states, steps) && n < |states| && NoneTaken(states, steps, n)
    requires At(states[n], p) && At(states[n], q)
    requires Holds(states[n].procs[p].pc) && Holds(states[n].procs[q].pc)
    requires states[n].procs[p].slot == states[n].procs[q].slot
    ensures p == q
    ensures states[n].procs[p].slot in states[n].rows
    ensures states[n].rows[states[n].procs[p].slot].requestHash == states[n].procs[p].hash
    ensures states[n].rows[states[n].procs[p].slot].expiresAt == states[n].procs[p].pc.expiresAt
    ensures !states[n].procs[p].pc.ToRelease? ==> states[n].rows[states[n].procs[p].slot].status == InProgress
  {
    RunsAreExclusive(states, steps, n);
    assert Apart(states[n], p, q) && Owns(states[n], p);
  }

  // ---- Timely work is enough ----

  /** Every process between its claim and its complete or release is within its claim's lifetime. */
  predicate Timely(s: State) {
    forall p :: 0 <= p < |s.procs| && Holds(s.procs[p].pc) ==> s.now < s.procs[p].pc.expiresAt
  }

  ghost predicate TimelyRun(states: seq<State>) {
    forall i :: 0 <= i < |states| ==> Timely(states[i])
  }

  lemma TimelyStepTakesNothing(s: State, step: Step)
    requires Enabled(s, step) && Exclusive(s) && Timely(s)
    ensures !TakesHeld(s, step)
  {
    if step.Delete? {
      var slot := s.procs[step.p].slot;
      forall q: nat | HeldBy(s, slot, q) ensures slot in s.rows && s.now < s.rows[slot].expiresAt {
        assert Owns(s, q);
      }
    }
  }

  /** When working processes finish before their claims expire, no held row is ever taken. */
  lemma {:induction false} TimelyRunsTakeNothing(states: seq<State>, steps: seq<Step>, n: nat)
    requires IsRun(states, steps) && TimelyRun(states) && n < |states|
    ensures NoneTaken(states, steps, n)
    decreases n
  {
    if n == 0 {
    } else {
      TimelyRunsTakeNothing(states, steps, n - 1);
      RunsAreExclusive(states, steps, n - 1);
      TimelyStepTakesNothing(states[n - 1], steps[n - 1]);
    }
  }

  // ---- Replays are faithful ----

  /** Some run of the work under this key and request hash produced this response. */
  predicate WorkProduced(s: State, slot: Slot, hash: string, response: Response) {
    Worked(slot, hash, response) in s.log
  }

  ghost predicate Faithful(s: State) {
    && (forall slot :: slot in s.rows && s.rows[slot].status.Completed? ==>
          WorkProduced(s, slot, s.rows[slot].requestHash, s.rows[slot].status.response))
    && (forall p :: 0 <= p < |s.procs| ==> Honest(s, p))
  }

  predicate Honest(s: State, p: nat)
    requires At(s, p)
  {
    var proc := s.procs[p];
    && (proc.pc.ToComplete? ==> WorkProduced(s, proc.slot, proc.hash, proc.pc.response))
    && (proc.pc.Finished? && proc.pc.outcome.Answered? ==>
          WorkProduced(s, proc.slot, proc.hash, proc.pc.outcome.response))
  }

  lemma LogGrows(s: State, step: Step, e: Event)
    requires Enabled(s, step) && e in s.log
    ensures e in Next(s, step).log
  {
  }

  lemma MoverStaysHonest(s: State, step: Step)
    requires Enabled(s, step) && Exclusive(s) && Faithful(s) && Mover(s, step) < |s.procs|
    ensures At(Next(s, step), Mover(s, step)) && Honest(Next(s, step), Mover(s, step))
    ensures var s', slot := Next(s, step), s.procs[Mover(s, step)].slot;
      slot in s'.rows && s'.rows[slot].status.Completed? ==>
        WorkProduced(s', slot, s'.rows[slot].requestHash, s'.rows[slot].status.response)
  {
    var m := Mover(s, step);
    assert Honest(s, m) && Owns(s, m);
  }

  lemma StepKeepsFaith(s: State, step: Step)
    requires Enabled(s, step) && Exclusive(s) && Faithful(s)
    ensures Faithful(Next(s, step))
  {
    var s', m := Next(s, step), Mover(s, step);
    StepIsLocal(s, step);
    if m < |s.procs| { MoverStaysHonest(s, step); }
    forall p | 0 <= p < |s'.procs| ensures Honest(s', p) {
      if p < |s.procs| && p != m {
        assert Honest(s, p);
        OtherStaysHonest(s, step, p);
      }
    }
    forall slot | slot in s'.rows && s'.rows[slot].status.Completed?
      ensures WorkProduced(s', slot, s'.rows[slot].requestHash, s'.rows[slot].status.response)
    {
      if m == |s.procs| || slot != s.procs[m].slot {
        LogGrows(s, step, Worked(slot, s.rows[slot].requestHash, s.rows[slot].status.response));
      }
    }
  }

  lemma OtherStaysHonest(s: State, step: Step, p: nat)
    requires Enabled(s, step) && At(s, p) && p != Mover(s, step) && Honest(s, p)
    ensures At(Next(s, step), p) && Honest(Next(s, step), p)
  {
    StepIsLocal(s, step);
    var proc := s.procs[p];
    if proc.pc.ToComplete? { LogGrows(s, step, Worked(proc.slot, proc.hash, proc.pc.response)); }
    if proc.pc.Finished? && proc.pc.outcome.Answered? {
      LogGrows(s, step, Worked(proc.slot, proc.hash, proc.pc.outcome.response));
    }
  }

  // ---- Completions that took effect are separated ----

  /**
   * A slot whose last completion stands has its completed row; nobody holds it,
   * but for the process that saw an error and is about to release it.
   */
  ghost predicate Kept(s: State, slot: Slot) {
    Standing(s.log, slot).Some? ==>
      && slot in s.rows && s.rows[slot].status.Completed?
      && forall p: nat :: HeldBy(s, slot, p) ==> Standing(s.log, slot) == Some(false) && s.procs[p].pc.ToRelease?
  }

  ghost predicate AllKept(s: State) {
    forall slot :: Kept(s, slot)
  }

  lemma StandingStep(s: State, step: Step, slot: Slot)
    requires Enabled(s, step)
    ensures var s', m := Next(s, step), Mover(s, step);
      || Standing(s'.log, slot) == Standing(s.log, slot)
      || Standing(s'.log, slot) == None
      || ((step.Complete? || step.CompleteFails?) && s.procs[m].slot == slot
          && Standing(s'.log, slot) == Some(step.Complete?) && (step.CompleteFails? ==> step.applied))
    ensures step.Delete? && slot in s.rows && slot !in Next(s, step).rows ==> Standing(Next(s, step).log, slot) == None
  {
    var s' := Next(s, step);
    if s'.log != s.log {
      assert s'.log == s.log + [s'.log[|s.log|]];
      CountsSnoc(s.log, s'.log[|s.log|], slot);
    }
  }

  lemma CompletionKeepsSettled(s: State, step: Step)
    requires Enabled(s, step) && Exclusive(s)
    requires step.Complete? || (step.CompleteFails? && step.applied)
    ensures Kept(Next(s, step), s.procs[step.p].slot)
  {
    var s', slot := Next(s, step), s.procs[step.p].slot;
    StepIsLocal(s, step);
    assert Owns(s, step.p);
    assert s'.log == s.log + [s'.log[|s.log|]];
    CountsSnoc(s.log, s'.log[|s.log|], slot);
    forall p: nat | HeldBy(s', slot, p) ensures Standing(s'.log, slot) == Some(false) && s'.procs[p].pc.ToRelease? {
      assert Apart(s, step.p, p);
    }
  }

  lemma ReleaseKeepsSettled(s: State, step: Step, slot: Slot)
    requires step.Release? && Enabled(s, step) && Exclusive(s) && Kept(s, slot)
    ensures Kept(Next(s, step), slot)
  {
    var s' := Next(s, step);
    StepIsLocal(s, step);
    assert Owns(s, step.p);
    if s'.log != s.log {
      assert s'.log == s.log + [s'.log[|s.log|]];
      CountsSnoc(s.log, s'.log[|s.log|], slot);
    }
    if s.procs[step.p].slot == slot { assert HeldBy(s, slot, step.p); }
    forall p: nat | HeldBy(s', slot, p) ensures HeldBy(s, slot, p) && s'.procs[p].pc == s.procs[p].pc {
    }
  }

  lemma StepKeepsSettled(s: State, step: Step, slot: Slot)
    requires Enabled(s, step) && Exclusive(s) && !TakesHeld(s, step) && Kept(s, slot)
    ensures Kept(Next(s, step), slot)
  {
    if (step.Complete? || (step.CompleteFails? && step.applied)) && s.procs[step.p].slot == slot {
      CompletionKeepsSettled(s, step);
    } else if step.Release? {
      ReleaseKeepsSettled(s, step, slot);
    } else {
      QuietStepKeepsSettled(s, step, slot);
    }
  }

  lemma QuietStepKeepsSettled(s: State, step: Step, slot: Slot)
    requires Enabled(s, step) && Exclusive(s) && Kept(s, slot) && !step.Release?
    requires !((step.Complete? || (step.CompleteFails? && step.applied)) && s.procs[step.p].slot == slot)
    ensures Kept(Next(s, step), slot)
  {
    var s', m := Next(s, step), Mover(s, step);
    StepIsLocal(s, step);
    StandingStep(s, step, slot);
    if Standing(s'.log, slot).Some? {
      assert Standing(s.log, slot) == Standing(s'.log, slot);
      if m < |s.procs| && s.procs[m].slot == slot { assert Owns(s, m); }
      forall p: nat | HeldBy(s', slot, p) ensures Standing(s'.log, slot) == Some(false) && s'.procs[p].pc.ToRelease? {
        if p != m || Holds(s.procs[p].pc) { assert HeldBy(s, slot, p); }
      }
    }
  }

  /** The completion at i has ended before j: its row expired, or it was unacknowledged and released. */
  ghost predicate EndedBetween(log: seq<Event>, i: nat, j: nat)
    requires i < j <= |log| && log[i].Committed?
  {
    exists k :: i < k < j &&
      (log[k] == Expired(log[i].slot) || (!log[i].acknowledged && log[k] == Released(log[i].slot)))
  }

  predicate CompletesAt(log: seq<Event>, slot: Slot, i: nat) {
    i < |log| && log[i].Committed? && log[i].slot == slot
  }

  ghost predicate SeparatedCommits(log: seq<Event>) {
    forall slot, i, j :: CompletesAt(log, slot, i) && CompletesAt(log, slot, j) && i < j ==> EndedBetween(log, i, j)
  }

  /** What stands is the last completion. */
  lemma {:induction false} StandingIsLast(log: seq<Event>, slot: Slot) returns (j: nat)
    requires Standing(log, slot).Some?
    ensures CompletesAt(log, slot, j) && log[j].acknowledged == Standing(log, slot).value
    ensures forall k: nat :: CompletesAt(log, slot, k) ==> k <= j
    decreases |log|
  {
    var last := |log| - 1;
    if CompletesAt(log, slot, last) {
      j := last;
    } else {
      j := StandingIsLast(log[..last], slot);
      forall k: nat | CompletesAt(log, slot, k) ensures k <= j {
        assert CompletesAt(log[..last], slot, k);
      }
    }
  }

  lemma EndedLonger(log: seq<Event>, i: nat, j: nat, e: seq<Event>)
    requires i < j <= |log| && log[i].Committed? && EndedBetween(log, i, j)
    ensures EndedBetween(log + e, i, j) && forall j' :: j <= j' <= |log + e| ==> EndedBetween(log + e, i, j')
  {
    var k :| i < k < j &&
      (log[k] == Expired(log[i].slot) || (!log[i].acknowledged && log[k] == Released(log[i].slot)));
    assert (log + e)[k] == log[k] && (log + e)[i] == log[i];
  }

  /** When nothing stands, every completion so far has ended. */
  lemma {:induction false} NothingStandsMeansEnded(log: seq<Event>, slot: Slot, i: nat)
    requires SeparatedCommits(log) && CompletesAt(log, slot, i) && Standing(log, slot).None?
    ensures EndedBetween(log, i, |log|)
    decreases |log|
  {
    var last := |log| - 1;
    var before := log[..last];
    assert log == before + [log[last]];
    if log[last] == Expired(slot) {
    } else if Standing(before, slot).None? {
      PrefixIsSeparated(before, [log[last]]);
      assert CompletesAt(before, slot, i);
      NothingStandsMeansEnded(before, slot, i);
      EndedLonger(before, i, last, [log[last]]);
    } else {
      var j := StandingIsLast(before, slot);
      assert CompletesAt(before, slot, i) && CompletesAt(log, slot, j);
      if i < j {
        assert EndedBetween(log, i, j);
        EndedLonger(log, i, j, []);
        assert log + [] == log;
      }
    }
  }

  lemma PrefixIsSeparated(log: seq<Event>, e: seq<Event>)
    requires SeparatedCommits(log + e)
    ensures SeparatedCommits(log)
  {
    forall slot, i, j | CompletesAt(log, slot, i) && CompletesAt(log, slot, j) && i < j ensures EndedBetween(log, i, j) {
      assert CompletesAt(log + e, slot, i) && CompletesAt(log + e, slot, j);
      assert EndedBetween(log + e, i, j);
    }
  }

  lemma CommitsStaySeparated(log: seq<Event>, e: Event)
    requires SeparatedCommits(log)
    requires e.Committed? ==> Standing(log, e.slot).None?
    ensures SeparatedCommits(log + [e])
  {
    var log' := log + [e];
    forall slot, i, j | CompletesAt(log', slot, i) && CompletesAt(log', slot, j) && i < j
      ensures EndedBetween(log', i, j)
    {
      assert CompletesAt(log, slot, i);
      if j == |log| {
        NothingStandsMeansEnded(log, slot, i);
        EndedLonger(log, i, |log|, [e]);
      } else {
        assert CompletesAt(log, slot, j);
        EndedLonger(log, i, j, [e]);
      }
    }
  }

  lemma StepSeparatesCommits(s: State, step: Step)
    requires Enabled(s, step) && Exclusive(s) && AllKept(s) && SeparatedCommits(s.log)
    ensures SeparatedCommits(Next(s, step).log)
  {
    var s', m := Next(s, step), Mover(s, step);
    if s'.log != s.log {
      var e := s'.log[|s.log|];
      assert s'.log == s.log + [e];
      if e.Committed? {
        assert Owns(s, m);
        assert Kept(s, e.slot);
      }
      CommitsStaySeparated(s.log, e);
    }
  }

  lemma {:induction false} RunsAreFaithful(states: seq<State>, steps: seq<Step>, n: nat)
    requires IsRun(states, steps) && n < |states| && NoneTaken(states, steps, n)
    ensures Faithful(states[n]) && AllKept(states[n]) && SeparatedCommits(states[n].log)
    decreases n
  {
    if n == 0 {
    } else {
      var s, step := states[n - 1], steps[n - 1];
      RunsAreFaithful(states, steps, n - 1);
      RunsAreExclusive(states, steps, n - 1);
      StepKeepsFaith(s, step);
      forall slot ensures Kept(states[n], slot) {
        assert Kept(s, slot);
        StepKeepsSettled(s, step, slot);
      }
      StepSeparatesCommits(s, step);
    }
  }

  /** Every answer, replayed or not, is the response of a run of the work under the same key and request hash. */
  lemma AnswersAreFaithful(states: seq<State>, steps: seq<Step>, n: nat, p: nat, response: Response, replayed: bool)
    requires IsRun(states, steps) && n < |states| && NoneTaken(states, steps, n) && At(states[n], p)
    requires states[n].procs[p].pc == Finished(Answered(response, replayed))
    ensures Worked(states[n].procs[p].slot, states[n].procs[p].hash, response) in states[n].log
  {
    RunsAreFaithful(states, steps, n);
    assert Honest(states[n], p);
  }

  /**
   * Between two completions of one key that took effect, its row expired, or
   * the first was one whose process saw an error and then released the key.
   */
  lemma CompletionsAreSeparated(states: seq<State>, steps: seq<Step>, n: nat, slot: Slot, i: nat, j: nat)
    requires IsRun(states, steps) && n < |states| && NoneTaken(states, steps, n)
    requires i < j && CompletesAt(states[n].log, slot, i) && CompletesAt(states[n].log, slot, j)
    ensures var log := states[n].log;
      exists k :: i < k < j && (log[k] == Expired(slot) || (!log[i].acknowledged && log[k] == Released(slot)))
  {
    RunsAreFaithful(states, steps, n);
    assert EndedBetween(states[n].log, i, j);
  }

  /** All three promises, for work that finishes before its claim expires. */
  lemma TimelyWorkKeepsThePromises(states: seq<State>, steps: seq<Step>, n: nat)
    requires IsRun(states, steps) && TimelyRun(states) && n < |states|
    ensures Exclusive(states[n]) && Faithful(states[n]) && SeparatedCommits(states[n].log)
  {
    TimelyRunsTakeNothing(states, steps, n);
    RunsAreExclusive(states, steps, n);
    RunsAreFaithful(states, steps, n);
  }

  // ---- Where the promises end ----

  lemma ExtendRun(states: seq<State>, steps: seq<Step>, step: Step) returns (states': seq<State>, steps': seq<Step>)
    requires IsRun(states, steps) && Enabled(states[|steps|], step)
    ensures states' == states + [Next(states[|steps|], step)] && steps' == steps + [step]
    ensures IsRun(states', steps') && states <= states' && states'[|steps'|] == Next(states[|steps|], step)
  {
    states', steps' := states + [Next(states[|steps|], step)], steps + [step];
  }

  lemma StartAndClaim(states: seq<State>, steps: seq<Step>, slot: Slot, hash: string)
    returns (states': seq<State>, steps': seq<Step>)
    requires IsRun(states, steps)
    requires slot in states[|steps|].rows ==> states[|steps|].rows[slot].expiresAt <= states[|steps|].now
    ensures IsRun(states', steps')
    ensures var s, s' := states[|steps|], states'[|steps'|];
      && s'.now == s.now
      && s'.rows == s.rows[slot := Row(hash, InProgress, s.now + TTL)]
      && s'.procs == s.procs + [Proc(slot, hash, Working(s.now + TTL), 0, Deletions(s.log, slot))]
      && (forall h, r :: Worked(slot, h, r) in s'.log ==> Worked(slot, h, r) in s.log)
  {
    var s, p := states[|steps|], |states[|steps|].procs|;
    states', steps' := ExtendRun(states, steps, Start(slot, hash));
    states', steps' := ExtendRun(states', steps', Delete(p, s.now));
    states', steps' := ExtendRun(states', steps', Insert(p, s.now));
  }

  lemma StartAndReplay(states: seq<State>, steps: seq<Step>, slot: Slot, hash: string, response: Response)
    returns (states': seq<State>, steps': seq<Step>)
    requires IsRun(states, steps)
    requires var s := states[|steps|];
      && slot in s.rows && s.rows[slot].expiresAt > s.now
      && s.rows[slot].requestHash == hash && s.rows[slot].status == Completed(response)
    ensures IsRun(states', steps') && states <= states'
    ensures var s, s' := states[|steps|], states'[|steps'|];
      && s'.log == s.log
      && s'.procs == s.procs + [Proc(slot, hash, Finished(Answered(response, true)), 0, Deletions(s.log, slot))]
  {
    var s, p := states[|steps|], |states[|steps|].procs|;
    states', steps' := ExtendRun(states, steps, Start(slot, hash));
    states', steps' := ExtendRun(states', steps', Delete(p, s.now));
    states', steps' := ExtendRun(states', steps', Insert(p, s.now));
    states', steps' := ExtendRun(states', steps', Find(p));
  }

  /**
   * A process that works past its claim's expiry breaks both promises: from
   * the initial state, two processes come to hold one slot, and then a request
   * is answered with a response that no work under its hash produced.
   */
  lemma LateWorkBreaksThePromises(slot: Slot, h1: string, h2: string, response: Response)
    returns (states: seq<State>, steps: seq<Step>, overlap: nat)
    requires h1 != h2
    ensures IsRun(states, steps) && overlap < |states|
    ensures HeldBy(states[overlap], slot, 0) && HeldBy(states[overlap], slot, 1)
    ensures var last := states[|steps|];
      && At(last, 2) && last.procs[2].slot == slot && last.procs[2].hash == h2
      && last.procs[2].pc == Finished(Answered(response, true))
      && Worked(slot, h2, response) !in last.log
  {
    states, steps := [State(0, map[], [], [])], [];
    states, steps := StartAndClaim(states, steps, slot, h1);
    states, steps := ExtendRun(states, steps, Tick(TTL));
    states, steps := StartAndClaim(states, steps, slot, h2);
    overlap := |steps|;
    states, steps := ExtendRun(states, steps, WorkReturns(0, response));
    states, steps := ExtendRun(states, steps, Complete(0));
    assert Worked(slot, h2, response) !in states[|steps|].log;
    states, steps := StartAndReplay(states, steps, slot, h2, response);
  }

  /** Only the clock, or an insert by an old reading of it, can make a holder late. */
  lemma StepStaysTimely(s: State, step: Step)
    requires Enabled(s, step) && Timely(s)
    requires !step.Tick? && (step.Insert? ==> s.now < step.at + TTL)
    ensures Timely(Next(s, step))
  {
  }

  lemma ExtendTimelyRun(states: seq<State>, steps: seq<Step>, step: Step) returns (states': seq<State>, steps': seq<Step>)
    requires IsRun(states, steps) && TimelyRun(states)
    requires Enabled(states[|steps|], step)
    requires !step.Tick? && (step.Insert? ==> states[|steps|].now < step.at + TTL)
    ensures IsRun(states', steps') && TimelyRun(states') && |steps'| == |steps| + 1
    ensures states <= states' && states'[|steps'|] == Next(states[|steps|], step)
  {
    StepStaysTimely(states[|steps|], step);
    states', steps' := ExtendRun(states, steps, step);
  }

  /** What a process that finds its slot free does to the state, statement by statement. */
  lemma ClaimsFreeSlot(s: State, slot: Slot, hash: string)
    requires slot !in s.rows
    ensures var p := |s.procs|;
      && Enabled(s, Start(slot, hash))
      && var s1 := Next(s, Start(slot, hash));
      && Enabled(s1, Delete(p, s.now))
      && var s2 := Next(s1, Delete(p, s.now));
      && Enabled(s2, Insert(p, s.now)) && s2.now == s.now
      && Next(s2, Insert(p, s.now)) ==
         State(s.now, s.rows[slot := Row(hash, InProgress, s.now + TTL)],
               s.procs + [Proc(slot, hash, Working(s.now + TTL), 0, Deletions(s.log, slot))], s.log + [Claimed(slot)])
  {
    var p, before := |s.procs|, Deletions(s.log, slot);
    var s1 := Next(s, Start(slot, hash));
    assert s1.procs[p] == Proc(slot, hash, ToDelete(s.now), 0, before);
    var s2 := Next(s1, Delete(p, s.now));
    assert s2.procs == s.procs + [Proc(slot, hash, ToInsert(s.now), 0, before)];
  }

  lemma ClaimInTime(states: seq<State>, steps: seq<Step>, slot: Slot, hash: string)
    returns (states': seq<State>, steps': seq<Step>)
    requires IsRun(states, steps) && TimelyRun(states) && slot !in states[|steps|].rows
    ensures IsRun(states', steps') && TimelyRun(states') && |steps| < |steps'| && states <= states'
    ensures var s := states[|steps|];
      states'[|steps'|] ==
         State(s.now, s.rows[slot := Row(hash, InProgress, s.now + TTL)],
               s.procs + [Proc(slot, hash, Working(s.now + TTL), 0, Deletions(s.log, slot))], s.log + [Claimed(slot)])
  {
    var s, p := states[|steps|], |states[|steps|].procs|;
    ClaimsFreeSlot(s, slot, hash);
    states', steps' := ExtendTimelyRun(states, steps, Start(slot, hash));
    states', steps' := ExtendTimelyRun(states', steps', Delete(p, s.now));
    states', steps' := ExtendTimelyRun(states', steps', Insert(p, s.now));
  }

  /**
   * A completion that took effect though its statement reported an error is
   * released, and a retry completes anew: two stored responses, in time and
   * with no expiry between them.
   */
  lemma UnacknowledgedCompletionIsRepeated(slot: Slot, hash: string, r1: Response, r2: Response)
    returns (states: seq<State>, steps: seq<Step>, first: nat)
    ensures IsRun(states, steps) && TimelyRun(states) && first < |steps|
    ensures slot in states[first].rows && states[first].rows[slot].status == Completed(r1)
    ensures slot in states[|steps|].rows && states[|steps|].rows[slot].status == Completed(r2)
    ensures Expired(slot) !in states[|steps|].log
  {
    states, steps := CompleteUnacknowledged(slot, hash, r1);
    first := |steps|;
    states, steps := ExtendTimelyRun(states, steps, Release(0));
    states, steps := CompleteAnew(states, steps, slot, hash, r2);
  }

  lemma CompleteUnacknowledged(slot: Slot, hash: string, response: Response)
    returns (states: seq<State>, steps: seq<Step>)
    ensures IsRun(states, steps) && TimelyRun(states)
    ensures states[|steps|] ==
      State(0, map[slot := Row(hash, Completed(response), TTL)], [Proc(slot, hash, ToRelease(TTL, "timeout"), 0, 0)],
            [Claimed(slot), Worked(slot, hash, response), Committed(slot, false)])
  {
    states, steps := [State(0, map[], [], [])], [];
    states, steps := ClaimInTime(states, steps, slot, hash);
    states, steps := ExtendTimelyRun(states, steps, WorkReturns(0, response));
    states, steps := ExtendTimelyRun(states, steps, CompleteFails(0, true, "timeout"));
  }

  /** After one process is done with a free slot, a second claims and completes it, in time. */
  lemma CompleteAnew(states: seq<State>, steps: seq<Step>, slot: Slot, hash: string, response: Response)
    returns (states': seq<State>, steps': seq<Step>)
    requires IsRun(states, steps) && TimelyRun(states) && slot !in states[|steps|].rows
    requires |states[|steps|].procs| == 1 && !Holds(states[|steps|].procs[0].pc)
    ensures IsRun(states', steps') && TimelyRun(states') && |steps| < |steps'| && states <= states'
    ensures slot in states'[|steps'|].rows && states'[|steps'|].rows[slot].status == Completed(response)
    ensures forall e :: e in states'[|steps'|].log && e.Expired? ==> e in states[|steps|].log
  {
    states', steps' := ClaimInTime(states, steps, slot, hash);
    states', steps' := ExtendTimelyRun(states', steps', WorkReturns(1, response));
    states', steps' := ExtendTimelyRun(states', steps', Complete(1));
  }
}
