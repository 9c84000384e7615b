// Any number of recorders, overlapping flushes, failing enqueues and repeated
// deliveries, in every interleaving.
module MeteringPipeline {
  import opened Wrappers
  import opened Metering

  /** A flush between its swap and its last enqueue. */
  datatype Flight = Flight(recorder: nat, rest: seq<Bucket>, sending: Option<Event>)

  datatype State = State(
    recorders: seq<seq<Bucket>>, flights: seq<Flight>, queue: seq<Event>, store: Store, nextId: nat)

  datatype Step =
    | Join
    | Record(r: nat, key: Key, amount: int)
    | BeginFlush(r: nat)
    | Stop(r: nat)
    | Send(f: nat)
    | AddSucceeds(f: nat)
    | AddThrows(f: nat, landed: bool)
    | Deliver(i: nat)

  predicate Enabled(s: State, step: Step) {
    match step
    case Join => true
    case Record(r, _, _) => r < |s.recorders|
    case BeginFlush(r) => r < |s.recorders| && s.recorders[r] != []
    case Stop(r) => r < |s.recorders|
    case Send(f) => f < |s.flights| && s.flights[f].sending.None? && s.flights[f].rest != []
    case AddSucceeds(f) => f < |s.flights| && s.flights[f].sending.Some?
    case AddThrows(f, _) => f < |s.flights| && s.flights[f].sending.Some? && s.flights[f].recorder < |s.recorders|
    case Deliver(i) => i < |s.queue|
  }

  /** The buckets swapped out, their flush begun. */
  function Swapped(s: State, r: nat): State
    requires r < |s.recorders|
  {
    s.(recorders := s.recorders[r := []], flights := s.flights + [Flight(r, s.recorders[r], None)])
  }

  function Next(s: State, step: Step): State
    requires Enabled(s, step)
  {
    match step
    case Join => s.(recorders := s.recorders + [[]])
    case Record(r, key, amount) =>
      if amount <= 0 then s
      else s.(recorders := s.recorders[r := AddTo(s.recorders[r], key, amount)])
    case BeginFlush(r) => Swapped(s, r)
    case Stop(r) => if s.recorders[r] == [] then s else Swapped(s, r)
    case Send(f) =>
      var flight := s.flights[f];
      var event := Event(s.nextId, flight.rest[0].key, flight.rest[0].amount);
      s.(flights := s.flights[f := flight.(rest := flight.rest[1..], sending := Some(event))], nextId := s.nextId + 1)
    case AddSucceeds(f) =>
      s.(flights := s.flights[f := s.flights[f].(sending := None)], queue := s.queue + [s.flights[f].sending.value])
    case AddThrows(f, landed) =>
      var flight := s.flights[f];
      var event := flight.sending.value;
      s.(flights := s.flights[f := flight.(sending := None)],
         recorders := s.recorders[flight.recorder := AddTo(s.recorders[flight.recorder], event.key, event.amount)],
         queue := if landed then s.queue + [event] else s.queue)
    case Deliver(i) => s.(store := Applied(s.store, s.queue[i]))
  }

  predicate Init(s: State) {
    s == State([], [], [], Store({}, map[]), 0)
  }

  ghost predicate IsRun(states: seq<State>, steps: seq<Step>) {
    IsPath(states, steps) && Init(states[0])
  }

  /** A stretch of a run, from any state on. */
  ghost predicate IsPath(states: seq<State>, steps: seq<Step>) {
    && |states| == |steps| + 1
    && forall i :: 0 <= i < |steps| ==> Enabled(states[i], steps[i]) && states[i + 1] == Next(states[i], steps[i])
  }

  // ---- Where a count can be ----

  function InBuckets(recorders: seq<seq<Bucket>>, k: Key): nat {
    if recorders == [] then 0 else Sum(recorders[0], k) + InBuckets(recorders[1..], k)
  }

  function InFlight(flight: Flight, k: Key): nat {
    Sum(flight.rest, k)
    + (if flight.sending.Some? && flight.sending.value.key == k then flight.sending.value.amount else 0)
  }

  function InFlights(flights: seq<Flight>, k: Key): nat {
    if flights == [] then 0 else InFlight(flights[0], k) + InFlights(flights[1..], k)
  }

  function Held(s: State, k: Key): nat {
    InBuckets(s.recorders, k) + InFlights(s.flights, k) + Unapplied(s.queue, s.store.ledger, k) + UsageOf(s.store, k)
  }

  lemma {:induction false} BucketsUpdate(recorders: seq<seq<Bucket>>, r: nat, b: seq<Bucket>, k: Key)
    requires r < |recorders|
    ensures InBuckets(recorders[r := b], k) + Sum(recorders[r], k) == InBuckets(recorders, k) + Sum(b, k)
  {
    if r > 0 {
      assert recorders[r := b][1..] == recorders[1..][r - 1 := b];
      BucketsUpdate(recorders[1..], r - 1, b, k);
    } else {
      assert recorders[r := b][1..] == recorders[1..];
    }
  }

  lemma {:induction false} BucketsSnoc(recorders: seq<seq<Bucket>>, b: seq<Bucket>, k: Key)
    ensures InBuckets(recorders + [b], k) == InBuckets(recorders, k) + Sum(b, k)
  {
    if recorders == [] {
      assert recorders + [b] == [b] && [b][1..] == [];
    } else {
      assert (recorders + [b])[1..] == recorders[1..] + [b];
      BucketsSnoc(recorders[1..], b, k);
    }
  }

  lemma {:induction false} FlightsUpdate(flights: seq<Flight>, f: nat, x: Flight, k: Key)
    requires f < |flights|
    ensures InFlights(flights[f := x], k) + InFlight(flights[f], k) == InFlights(flights, k) + InFlight(x, k)
  {
    if f > 0 {
      assert flights[f := x][1..] == flights[1..][f - 1 := x];
      FlightsUpdate(flights[1..], f - 1, x, k);
    } else {
      assert flights[f := x][1..] == flights[1..];
    }
  }

  lemma {:induction false} FlightsSnoc(flights: seq<Flight>, x: Flight, k: Key)
    ensures InFlights(flights + [x], k) == InFlights(flights, k) + InFlight(x, k)
  {
    if flights == [] {
      assert flights + [x] == [x] && [x][1..] == [];
    } else {
      assert (flights + [x])[1..] == flights[1..] + [x];
      FlightsSnoc(flights[1..], x, k);
    }
  }

  // ---- Event ids are used once ----

  predicate Sending(s: State, f: int) {
    0 <= f < |s.flights| && s.flights[f].sending.Some?
  }

  function SentId(s: State, f: int): nat
    requires Sending(s, f)
  {
    s.flights[f].sending.value.id
  }

  /** Used ids are below the next one, and an event being sent is nowhere else. */
  ghost predicate FreshIds(s: State) {
    && UniqueIds(s.queue)
    && (forall i :: 0 <= i < |s.queue| ==> s.queue[i].id < s.nextId)
    && (forall id :: id in s.store.ledger ==> id < s.nextId)
    && (forall f :: Sending(s, f) ==> Unused(s, SentId(s, f)))
    && (forall f, g :: Sending(s, f) && Sending(s, g) && f != g ==> SentId(s, f) != SentId(s, g))
  }

  ghost predicate Unused(s: State, id: nat) {
    id < s.nextId && id !in s.store.ledger && forall i :: 0 <= i < |s.queue| ==> s.queue[i].id != id
  }

  ghost predicate FlightNonEmpty(s: State, f: nat)
    requires f < |s.flights|
  {
    && s.flights[f].recorder < |s.recorders|
    && (forall i :: 0 <= i < |s.flights[f].rest| ==> s.flights[f].rest[i].amount > 0)
    && (s.flights[f].sending.Some? ==> s.flights[f].sending.value.amount > 0)
  }

  ghost predicate NoneEmpty(s: State) {
    && (forall r :: 0 <= r < |s.recorders| ==> WellFormed(s.recorders[r]))
    && (forall f :: 0 <= f < |s.flights| ==> FlightNonEmpty(s, f))
  }

  lemma SendUsesNextId(s: State, f: nat)
    requires Enabled(s, Send(f)) && FreshIds(s)
    ensures FreshIds(Next(s, Send(f)))
  {
    var s' := Next(s, Send(f));
    forall g | Sending(s', g) ensures Unused(s', SentId(s', g)) && (g != f ==> Sending(s, g) && SentId(s', g) == SentId(s, g)) {
      if g != f { assert Sending(s, g) && Unused(s, SentId(s, g)); }
    }
  }

  /** The sent event leaves its flight, for the queue or for nowhere. */
  lemma LandingKeepsFreshIds(s: State, s': State, f: nat, landed: bool)
    requires FreshIds(s) && Sending(s, f)
    requires s'.flights == s.flights[f := s.flights[f].(sending := None)]
    requires s'.queue == if landed then s.queue + [s.flights[f].sending.value] else s.queue
    requires s'.store == s.store && s'.nextId == s.nextId
    ensures FreshIds(s')
  {
    assert Unused(s, SentId(s, f));
    forall g | Sending(s', g) ensures Sending(s, g) && SentId(s', g) == SentId(s, g) && Unused(s', SentId(s', g)) {
      assert Sending(s, g) && Unused(s, SentId(s, g)) && SentId(s, g) != SentId(s, f);
    }
  }

  /** No event starts or stops being sent; the ledger gains only ids of the queue. */
  lemma QuietKeepsFreshIds(s: State, s': State)
    requires FreshIds(s)
    requires s'.queue == s.queue && s'.nextId == s.nextId
    requires forall id :: id in s'.store.ledger && id !in s.store.ledger ==>
               exists i :: 0 <= i < |s.queue| && s.queue[i].id == id
    requires forall g :: Sending(s', g) ==> Sending(s, g) && s'.flights[g] == s.flights[g]
    ensures FreshIds(s')
  {
    forall g | Sending(s', g) ensures Sending(s, g) && SentId(s', g) == SentId(s, g) && Unused(s', SentId(s', g)) {
      assert Unused(s, SentId(s, g));
    }
  }

  lemma StepKeepsFreshIds(s: State, step: Step)
    requires Enabled(s, step) && FreshIds(s)
    ensures FreshIds(Next(s, step))
  {
    match step
    case Send(f) => SendUsesNextId(s, f);
    case AddSucceeds(f) => LandingKeepsFreshIds(s, Next(s, step), f, true);
    case AddThrows(f, landed) => LandingKeepsFreshIds(s, Next(s, step), f, landed);
    case _ => QuietKeepsFreshIds(s, Next(s, step));
  }

  lemma StepKeepsRecorders(s: State, step: Step)
    requires Enabled(s, step) && NoneEmpty(s)
    ensures forall r :: 0 <= r < |Next(s, step).recorders| ==> WellFormed(Next(s, step).recorders[r])
  {
    match step
    case Record(r, key, amount) =>
      if amount > 0 { AddToWellFormed(s.recorders[r], key, amount); }
    case AddThrows(f, _) =>
      assert FlightNonEmpty(s, f);
      AddToWellFormed(s.recorders[s.flights[f].recorder], s.flights[f].sending.value.key, s.flights[f].sending.value.amount);
    case _ =>
  }

  lemma StepKeepsNoneEmpty(s: State, step: Step)
    requires Enabled(s, step) && NoneEmpty(s)
    ensures NoneEmpty(Next(s, step))
  {
    var s' := Next(s, step);
    StepKeepsRecorders(s, step);
    forall f | 0 <= f < |s'.flights| ensures FlightNonEmpty(s', f) {
      if f < |s.flights| { assert FlightNonEmpty(s, f); }
    }
  }

  // ---- What the steps of a run ask for ----

  /** What the record calls among some steps counted for a key. */
  function RecordedIn(steps: seq<Step>, k: Key): nat {
    if steps == [] then 0
    else
      var last := steps[|steps| - 1];
      RecordedIn(steps[..|steps| - 1], k) + if last.Record? && last.key == k && last.amount > 0 then last.amount else 0
  }

  /** An add throws though its event of the key was enqueued. */
  predicate LandsTwice(s: State, step: Step, k: Key) {
    && step.AddThrows? && step.landed
    && step.f < |s.flights| && s.flights[step.f].sending.Some? && s.flights[step.f].sending.value.key == k
  }

  /** What such adds sent in the first n steps, and will be sent again. */
  function SentTwice(states: seq<State>, steps: seq<Step>, n: nat, k: Key): nat
    requires n <= |steps| && n <= |states|
  {
    if n == 0 then 0
    else
      SentTwice(states, steps, n - 1, k)
      + if LandsTwice(states[n - 1], steps[n - 1], k)
        then states[n - 1].flights[steps[n - 1].f].sending.value.amount else 0
  }

  // ---- Conservation ----

  /** One step adds to what is held what it records or sends twice. */
  predicate Grows(s: State, step: Step, k: Key)
    requires Enabled(s, step)
  {
    Held(Next(s, step), k) ==
    Held(s, k) + RecordedIn([step], k)
    + if LandsTwice(s, step, k) then s.flights[step.f].sending.value.amount else 0
  }

  lemma OneRecorded(step: Step, k: Key)
    ensures RecordedIn([step], k) == if step.Record? && step.key == k && step.amount > 0 then step.amount else 0
  {
    assert [step][..0] == [];
  }

  lemma RecordGrows(s: State, r: nat, key: Key, amount: int, k: Key)
    requires r < |s.recorders|
    ensures Grows(s, Record(r, key, amount), k)
  {
    OneRecorded(Record(r, key, amount), k);
    if amount > 0 {
      BucketsUpdate(s.recorders, r, AddTo(s.recorders[r], key, amount), k);
      AddToSum(s.recorders[r], key, amount, k);
    }
  }

  lemma SwapHolds(s: State, r: nat, k: Key)
    requires r < |s.recorders|
    ensures Held(Swapped(s, r), k) == Held(s, k)
  {
    BucketsUpdate(s.recorders, r, [], k);
    FlightsSnoc(s.flights, Flight(r, s.recorders[r], None), k);
  }

  lemma SendHolds(s: State, f: nat, k: Key)
    requires Enabled(s, Send(f))
    ensures Held(Next(s, Send(f)), k) == Held(s, k)
  {
    FlightsUpdate(s.flights, f, Next(s, Send(f)).flights[f], k);
  }

  lemma AddHolds(s: State, f: nat, k: Key)
    requires Enabled(s, AddSucceeds(f)) && FreshIds(s)
    ensures Held(Next(s, AddSucceeds(f)), k) == Held(s, k)
  {
    assert Unused(s, SentId(s, f));
    FlightsUpdate(s.flights, f, Next(s, AddSucceeds(f)).flights[f], k);
    UnappliedSnoc(s.queue, s.flights[f].sending.value, s.store.ledger, k);
  }

  lemma ThrowGrows(s: State, f: nat, landed: bool, k: Key)
    requires Enabled(s, AddThrows(f, landed)) && FreshIds(s)
    ensures Grows(s, AddThrows(f, landed), k)
  {
    var r, event := s.flights[f].recorder, s.flights[f].sending.value;
    assert Unused(s, SentId(s, f));
    OneRecorded(AddThrows(f, landed), k);
    FlightsUpdate(s.flights, f, s.flights[f].(sending := None), k);
    BucketsUpdate(s.recorders, r, AddTo(s.recorders[r], event.key, event.amount), k);
    AddToSum(s.recorders[r], event.key, event.amount, k);
    UnappliedSnoc(s.queue, event, s.store.ledger, k);
  }

  lemma StepGrows(s: State, step: Step, k: Key)
    requires Enabled(s, step) && FreshIds(s)
    ensures Grows(s, step, k)
  {
    OneRecorded(step, k);
    match step
    case Join => BucketsSnoc(s.recorders, [], k);
    case Record(r, key, amount) => RecordGrows(s, r, key, amount, k);
    case BeginFlush(r) => SwapHolds(s, r, k);
    case Stop(r) => SwapHolds(s, r, k);
    case Send(f) => SendHolds(s, f, k);
    case AddSucceeds(f) => AddHolds(s, f, k);
    case AddThrows(f, landed) => ThrowGrows(s, f, landed, k);
    case Deliver(i) => DeliveryConserves(s.queue, s.store, i, k);
  }

  lemma {:induction false} RunsConserve(states: seq<State>, steps: seq<Step>, n: nat, k: Key)
    requires IsRun(states, steps) && n < |states|
    ensures FreshIds(states[n]) && NoneEmpty(states[n])
    ensures Held(states[n], k) == RecordedIn(steps[..n], k) + SentTwice(states, steps, n, k)
    decreases n
  {
    if n == 0 {
      assert steps[..0] == [];
    } else {
      RunsConserve(states, steps, n - 1, k);
      StepKeepsFreshIds(states[n - 1], steps[n - 1]);
      StepKeepsNoneEmpty(states[n - 1], steps[n - 1]);
      StepGrows(states[n - 1], steps[n - 1], k);
      OneRecorded(steps[n - 1], k);
      assert steps[..n][..n - 1] == steps[..n - 1];
    }
  }

  lemma {:induction false} SumPositive(buckets: seq<Bucket>, k: Key)
    requires forall i :: 0 <= i < |buckets| ==> buckets[i].amount > 0
    ensures Sum(buckets, k) > 0 <==> exists i :: 0 <= i < |buckets| && buckets[i].key == k
  {
    if buckets == [] {
    } else {
      SumPositive(buckets[1..], k);
      if Sum(buckets[1..], k) > 0 {
        var i :| 0 <= i < |buckets[1..]| && buckets[1..][i].key == k;
        assert buckets[i + 1].key == k;
      }
      forall i | 0 <= i < |buckets| && buckets[i].key == k ensures Sum(buckets, k) > 0 {
        if i > 0 { assert buckets[1..][i - 1].key == k; }
      }
    }
  }

  lemma {:induction false} SentTwicePositive(states: seq<State>, steps: seq<Step>, n: nat, k: Key)
    requires IsRun(states, steps) && n < |states|
    ensures SentTwice(states, steps, n, k) > 0 <==> exists i :: 0 <= i < n && LandsTwice(states[i], steps[i], k)
    decreases n
  {
    if n == 0 {
    } else {
      SentTwicePositive(states, steps, n - 1, k);
      if LandsTwice(states[n - 1], steps[n - 1], k) {
        RunsConserve(states, steps, n - 1, k);
        assert FlightNonEmpty(states[n - 1], steps[n - 1].f);
      }
    }
  }

  /**
   * Metering conserves counts: in every reachable state, what the record calls
   * so far counted for a key is what its buckets, its flushes under way, its
   * enqueued events outside the ledger and its usage value hold -- exactly when
   * no add that threw had enqueued an event of that key. Such an add, and
   * nothing else, counts twice.
   */
  lemma CountsAreConserved(states: seq<State>, steps: seq<Step>, n: nat, k: Key)
    requires IsRun(states, steps) && n < |states|
    ensures RecordedIn(steps[..n], k) <= Held(states[n], k)
    ensures RecordedIn(steps[..n], k) == Held(states[n], k) <==>
            !exists i :: 0 <= i < n && LandsTwice(states[i], steps[i], k)
  {
    RunsConserve(states, steps, n, k);
    SentTwicePositive(states, steps, n, k);
  }

  /** Once everything is flushed and applied, usage is what was recorded, exactly when nothing was sent twice. */
  lemma DrainedUsageIsExact(states: seq<State>, steps: seq<Step>, n: nat, k: Key)
    requires IsRun(states, steps) && n < |states|
    requires forall r :: 0 <= r < |states[n].recorders| ==> states[n].recorders[r] == []
    requires forall f :: 0 <= f < |states[n].flights| ==> states[n].flights[f].rest == [] && states[n].flights[f].sending.None?
    requires forall i :: 0 <= i < |states[n].queue| ==> states[n].queue[i].id in states[n].store.ledger
    ensures UsageOf(states[n].store, k) == RecordedIn(steps[..n], k) <==>
            !exists i :: 0 <= i < n && LandsTwice(states[i], steps[i], k)
  {
    CountsAreConserved(states, steps, n, k);
    NothingLeft(states[n].queue, states[n].store.ledger, k);
    EmptyBuckets(states[n].recorders, k);
    EmptyFlights(states[n].flights, k);
  }

  predicate Delivers(s: State, step: Step, id: nat) {
    step.Deliver? && step.i < |s.queue| && s.queue[step.i].id == id
  }

  /** Every delivery takes effect: the ledger is the ids delivered so far. */
  lemma {:induction false} LedgerIsDelivered(states: seq<State>, steps: seq<Step>, n: nat, id: nat)
    requires IsRun(states, steps) && n < |states|
    ensures id in states[n].store.ledger <==> exists i :: 0 <= i < n && Delivers(states[i], steps[i], id)
    decreases n
  {
    if n == 0 {
    } else {
      LedgerIsDelivered(states, steps, n - 1, id);
      assert id in states[n].store.ledger <==> id in states[n - 1].store.ledger || Delivers(states[n - 1], steps[n - 1], id);
    }
  }

  lemma {:induction false} EmptyBuckets(recorders: seq<seq<Bucket>>, k: Key)
    requires forall r :: 0 <= r < |recorders| ==> recorders[r] == []
    ensures InBuckets(recorders, k) == 0
  {
    if recorders == [] {
    } else {
      EmptyBuckets(recorders[1..], k);
    }
  }

  lemma {:induction false} EmptyFlights(flights: seq<Flight>, k: Key)
    requires forall f :: 0 <= f < |flights| ==> flights[f].rest == [] && flights[f].sending.None?
    ensures InFlights(flights, k) == 0
  {
    if flights == [] {
    } else {
      EmptyFlights(flights[1..], k);
    }
  }

  // ---- Stopping a recorder ----

  predicate Done(flight: Flight) {
    flight.rest == [] && flight.sending.None?
  }

  /** No flush of the recorder is under way. */
  predicate NoneUnderWay(s: State, r: nat) {
    forall f :: 0 <= f < |s.flights| && s.flights[f].recorder == r ==> Done(s.flights[f])
  }

  /** The flush that stop() begins and awaits, if there is anything to flush. */
  function Awaited(called: State, r: nat): Option<nat>
    requires r < |called.recorders|
  {
    if called.recorders[r] == [] then None else Some(|called.flights|)
  }

  /** The stop() called in one state has returned by another: its own flush is over. */
  predicate StopReturned(called: State, s: State, r: nat)
    requires r < |called.recorders|
  {
    var awaited := Awaited(called, r);
    awaited.Some? ==> awaited.value < |s.flights| && Done(s.flights[awaited.value])
  }

  function OwnFlights(flights: seq<Flight>, r: nat, k: Key): nat {
    if flights == [] then 0
    else (if flights[0].recorder == r then InFlight(flights[0], k) else 0) + OwnFlights(flights[1..], r, k)
  }

  /** What a recorder still has in memory: its buckets and its flushes under way. */
  function InMemory(s: State, r: nat, k: Key): nat
    requires r < |s.recorders|
  {
    Sum(s.recorders[r], k) + OwnFlights(s.flights, r, k)
  }

  lemma {:induction false} OwnFlightsHold(flights: seq<Flight>, r: nat, f: nat, k: Key)
    requires f < |flights| && flights[f].recorder == r
    ensures OwnFlights(flights, r, k) >= InFlight(flights[f], k)
  {
    if f == 0 {
    } else {
      OwnFlightsHold(flights[1..], r, f - 1, k);
    }
  }

  lemma {:induction false} DoneFlightsHoldNothing(flights: seq<Flight>, r: nat, k: Key)
    requires forall f :: 0 <= f < |flights| && flights[f].recorder == r ==> Done(flights[f])
    ensures OwnFlights(flights, r, k) == 0
  {
    if flights == [] {
    } else {
      assert forall f :: 0 <= f < |flights[1..]| ==> flights[1..][f] == flights[f + 1];
      DoneFlightsHoldNothing(flights[1..], r, k);
    }
  }

  /** A flush under way holds some count. */
  lemma UndoneFlightHolds(s: State, f: nat) returns (k: Key)
    requires f < |s.flights| && FlightNonEmpty(s, f) && !Done(s.flights[f])
    ensures InFlight(s.flights[f], k) > 0
  {
    var flight := s.flights[f];
    if flight.sending.Some? {
      k := flight.sending.value.key;
    } else {
      k := flight.rest[0].key;
      SumPositive(flight.rest, k);
    }
  }

  /** Nothing the recorder holds has a count: its memory is empty. */
  ghost predicate Drained(s: State, r: nat)
    requires r < |s.recorders|
  {
    forall k :: InMemory(s, r, k) == 0
  }

  lemma DrainedMeans(s: State, r: nat)
    requires NoneEmpty(s) && r < |s.recorders|
    ensures Drained(s, r) <==> s.recorders[r] == [] && NoneUnderWay(s, r)
  {
    if s.recorders[r] != [] {
      var k := s.recorders[r][0].key;
      assert WellFormed(s.recorders[r]);
      SumPositive(s.recorders[r], k);
      assert InMemory(s, r, k) > 0;
    }
    forall f | 0 <= f < |s.flights| && s.flights[f].recorder == r && !Done(s.flights[f])
      ensures exists k :: InMemory(s, r, k) > 0
    {
      assert FlightNonEmpty(s, f);
      var k := UndoneFlightHolds(s, f);
      OwnFlightsHold(s.flights, r, f, k);
      assert InMemory(s, r, k) > 0;
    }
    if s.recorders[r] == [] && NoneUnderWay(s, r) {
      forall k ensures InMemory(s, r, k) == 0 { DoneFlightsHoldNothing(s.flights, r, k); }
    }
  }

  predicate Counts(step: Step, r: nat) {
    step.Record? && step.r == r && step.amount > 0
  }

  /** An add of one of the recorder's flushes throws, and its count is put back. */
  predicate PutsBack(s: State, step: Step, r: nat) {
    step.AddThrows? && step.f < |s.flights| && s.flights[step.f].recorder == r
  }

  predicate Begins(step: Step, r: nat) {
    (step.BeginFlush? || step.Stop?) && step.r == r
  }

  /** Nothing in the buckets, and no flush under way but the one awaited. */
  predicate Settled(s: State, r: nat, awaited: Option<nat>) {
    && r < |s.recorders| && s.recorders[r] == []
    && forall f: nat :: f < |s.flights| && s.flights[f].recorder == r && awaited != Some(f) ==> Done(s.flights[f])
  }

  lemma StepKeepsSettled(s: State, step: Step, r: nat, awaited: Option<nat>)
    requires Enabled(s, step) && Settled(s, r, awaited)
    requires !Counts(step, r) && !PutsBack(s, step, r)
    ensures Settled(Next(s, step), r, awaited)
  {
  }

  lemma {:induction false} QuietKeepsSettled(states: seq<State>, steps: seq<Step>, r: nat, c: nat, n: nat)
    requires IsPath(states, steps) && c < n < |states| && steps[c] == Stop(r)
    requires NoneUnderWay(states[c], r)
    requires forall i :: c < i < n ==> !Counts(steps[i], r) && !PutsBack(states[i], steps[i], r)
    ensures Settled(states[n], r, Awaited(states[c], r))
    decreases n
  {
    if n == c + 1 {
    } else {
      QuietKeepsSettled(states, steps, r, c, n - 1);
      StepKeepsSettled(states[n - 1], steps[n - 1], r, Awaited(states[c], r));
    }
  }

  /** What was put back stays until the next flush. */
  lemma {:induction false} PutBackStays(states: seq<State>, steps: seq<Step>, r: nat, i: nat, n: nat)
    requires IsPath(states, steps) && i < n < |states| && PutsBack(states[i], steps[i], r)
    requires forall j :: i <= j < n ==> !Begins(steps[j], r)
    ensures r < |states[n].recorders| && states[n].recorders[r] != []
    decreases n
  {
    if n == i + 1 {
    } else {
      PutBackStays(states, steps, r, i, n - 1);
    }
  }

  /**
   * In any run, let stop() be called with no flush of its recorder under way,
   * and nothing be recorded there or flushed again after it. When it returns,
   * memory is empty if and only if none of the recorder's adds has thrown since.
   */
  lemma StopDrainsUnlessAnAddThrows(states: seq<State>, steps: seq<Step>, r: nat, c: nat, n: nat)
    requires IsRun(states, steps) && c < n < |states| && steps[c] == Stop(r)
    requires NoneUnderWay(states[c], r) && StopReturned(states[c], states[n], r)
    requires forall i :: c < i < n ==> !Counts(steps[i], r) && !Begins(steps[i], r)
    ensures r < |states[n].recorders|
    ensures Drained(states[n], r) <==> !exists i :: c < i < n && PutsBack(states[i], steps[i], r)
  {
    RunsConserve(states, steps, n, Key("", "", ""));
    if i :| c < i < n && PutsBack(states[i], steps[i], r) {
      PutBackStays(states, steps, r, i, n);
    } else {
      QuietKeepsSettled(states, steps, r, c, n);
    }
    DrainedMeans(states[n], r);
  }

  /**
   * However a run goes on after stop() is called in this state: once it has
   * returned, and if nothing was recorded or put back meanwhile, memory is empty.
   */
  ghost predicate StopDrains(s: State, r: nat)
    requires r < |s.recorders|
  {
    forall states, steps ::
      IsPath(states, steps) && steps != [] && states[0] == s && steps[0] == Stop(r) ==>
        QuietlyDrained(states, steps, r)
  }

  ghost predicate QuietlyDrained(states: seq<State>, steps: seq<Step>, r: nat)
    requires IsPath(states, steps)
  {
    var last := states[|steps|];
    (&& r < |states[0].recorders| && StopReturned(states[0], last, r)
     && forall i :: 0 < i < |steps| ==> !Counts(steps[i], r) && !PutsBack(states[i], steps[i], r))
    ==> r < |last.recorders| && Drained(last, r)
  }

  lemma PathCons(s: State, step: Step, states: seq<State>, steps: seq<Step>)
    requires IsPath(states, steps) && Enabled(s, step) && states[0] == Next(s, step)
    ensures IsPath([s] + states, [step] + steps) && ([s] + states)[|steps| + 1] == states[|steps|]
    ensures forall i :: 0 < i < |steps| + 1 ==> ([step] + steps)[i] == steps[i - 1]
  {
    assert forall i :: 0 < i < |states| + 1 ==> ([s] + states)[i] == states[i - 1];
  }

  /** A flush on its own way to its end. */
  lemma {:induction false} Drain(s: State, f: nat) returns (states: seq<State>, steps: seq<Step>)
    requires f < |s.flights| && s.flights[f].sending.None?
    ensures IsPath(states, steps) && states[0] == s
    ensures forall i :: 0 <= i < |steps| ==> steps[i] in {Send(f), AddSucceeds(f)}
    ensures var last := states[|steps|];
      && last.recorders == s.recorders && |last.flights| == |s.flights| && Done(last.flights[f])
      && forall g :: 0 <= g < |s.flights| && g != f ==> last.flights[g] == s.flights[g]
    decreases |s.flights[f].rest|
  {
    if s.flights[f].rest == [] {
      states, steps := [s], [];
    } else {
      var sent := Next(s, Send(f));
      var added := Next(sent, AddSucceeds(f));
      var later, more := Drain(added, f);
      PathCons(sent, AddSucceeds(f), later, more);
      PathCons(s, Send(f), [sent] + later, [AddSucceeds(f)] + more);
      states, steps := [s] + ([sent] + later), [Send(f)] + ([AddSucceeds(f)] + more);
    }
  }

  /** A path on which stop() is called and returns, and nothing else happens. */
  lemma StopAlone(s: State, r: nat) returns (states: seq<State>, steps: seq<Step>)
    requires r < |s.recorders|
    ensures IsPath(states, steps) && states[0] == s && steps != [] && steps[0] == Stop(r)
    ensures forall i :: 0 < i < |steps| ==> steps[i].Send? || steps[i].AddSucceeds?
    ensures var last := states[|steps|];
      && StopReturned(s, last, r) && |last.recorders| == |s.recorders| && |s.flights| <= |last.flights|
      && forall g :: 0 <= g < |s.flights| ==> last.flights[g] == s.flights[g]
  {
    if s.recorders[r] == [] {
      states, steps := [s, s], [Stop(r)];
    } else {
      var later, more := Drain(Next(s, Stop(r)), |s.flights|);
      PathCons(s, Stop(r), later, more);
      states, steps := [s] + later, [Stop(r)] + more;
    }
  }

  /** With a flush under way, stop() can return quietly and leave its count in memory. */
  lemma StopLeavesCounts(s: State, r: nat, f: nat)
    requires NoneEmpty(s) && r < |s.recorders|
    requires f < |s.flights| && s.flights[f].recorder == r && !Done(s.flights[f])
    ensures !StopDrains(s, r)
  {
    var states, steps := StopAlone(s, r);
    var last := states[|steps|];
    assert FlightNonEmpty(s, f) && FlightNonEmpty(last, f);
    var k := UndoneFlightHolds(last, f);
    OwnFlightsHold(last.flights, r, f, k);
    assert InMemory(last, r, k) > 0;
    assert !QuietlyDrained(states, steps, r);
  }

  /**
   * In every reachable state: stop() drains its recorder, however the run goes
   * on, if and only if no flush of it is under way at the call. One that the
   * timer began is not awaited.
   */
  lemma StopDrainsExactly(states: seq<State>, steps: seq<Step>, n: nat, r: nat)
    requires IsRun(states, steps) && n < |states| && r < |states[n].recorders|
    ensures StopDrains(states[n], r) <==> NoneUnderWay(states[n], r)
  {
    var s := states[n];
    RunsConserve(states, steps, n, Key("", "", ""));
    if NoneUnderWay(s, r) {
      forall later: seq<State>, more: seq<Step>
        | IsPath(later, more) && more != [] && later[0] == s && more[0] == Stop(r)
        ensures QuietlyDrained(later, more, r)
      {
        var last := later[|more|];
        if StopReturned(s, last, r) && forall i :: 0 < i < |more| ==> !Counts(more[i], r) && !PutsBack(later[i], more[i], r) {
          QuietKeepsSettled(later, more, r, 0, |more|);
          assert NoneUnderWay(last, r);
          forall k ensures InMemory(last, r, k) == 0 { DoneFlightsHoldNothing(last.flights, r, k); }
        }
      }
    } else {
      var f :| 0 <= f < |s.flights| && s.flights[f].recorder == r && !Done(s.flights[f]);
      StopLeavesCounts(s, r, f);
    }
  }

  /** A run in which stop() returns while the timer's flush still holds a count. */
  lemma StopReturnsEarly(key: Key, amount: nat) returns (states: seq<State>, steps: seq<Step>)
    requires amount > 0
    ensures IsRun(states, steps) && |steps| == 4 && steps[3] == Stop(0)
    ensures |states[3].recorders| == 1 && StopReturned(states[3], states[4], 0)
    ensures InMemory(states[4], 0, key) == amount
  {
    steps := [Join, Record(0, key, amount), BeginFlush(0), Stop(0)];
    var s0 := State([], [], [], Store({}, map[]), 0);
    var s1 := s0.(recorders := [[]]);
    var bucket := Bucket(key, amount);
    var s2 := s1.(recorders := [[bucket]]);
    var s3 := s2.(recorders := [[]], flights := [Flight(0, [bucket], None)]);
    states := [s0, s1, s2, s3, s3];
    assert Next(s0, steps[0]) == s1;
    assert Next(s1, steps[1]) == s2;
    assert Next(s2, steps[2]) == s3;
    OneFlightHolds(s3, bucket);
  }

  lemma OneFlightHolds(s: State, bucket: Bucket)
    requires s.recorders == [[]] && s.flights == [Flight(0, [bucket], None)]
    ensures InMemory(s, 0, bucket.key) == bucket.amount
  {
    assert s.flights[1..] == [] && [bucket][1..] == [];
    assert Sum([bucket], bucket.key) == bucket.amount + Sum([], bucket.key);
    assert OwnFlights(s.flights, 0, bucket.key) == InFlight(s.flights[0], bucket.key) + OwnFlights([], 0, bucket.key);
  }
}
