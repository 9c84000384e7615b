// Usage metering: in-memory buckets, the job queue, and the exactly-once
// application to the usage table.
module Metering {
  /** One counter: project, metric and UTC day. */
  datatype Key = Key(project: string, metric: string, day: string)

  datatype Bucket = Bucket(key: Key, amount: nat)

  datatype Event = Event(id: nat, key: Key, amount: nat)

  // ---- Buckets: an insertion-ordered map ----

  /** The amount held under k. */
  function Sum(buckets: seq<Bucket>, k: Key): nat {
    if buckets == [] then 0
    else (if buckets[0].key == k then buckets[0].amount else 0) + Sum(buckets[1..], k)
  }

  /** Add to the bucket of `key`, in place, or append a new one. */
  function AddTo(buckets: seq<Bucket>, key: Key, amount: nat): seq<Bucket> {
    if buckets == [] then [Bucket(key, amount)]
    else if buckets[0].key == key then [Bucket(key, buckets[0].amount + amount)] + buckets[1..]
    else [buckets[0]] + AddTo(buckets[1..], key, amount)
  }

  /** One bucket per key, none empty. */
  predicate WellFormed(buckets: seq<Bucket>) {
    && (forall i :: 0 <= i < |buckets| ==> buckets[i].amount > 0)
    && (forall i, j :: 0 <= i < j < |buckets| ==> buckets[i].key != buckets[j].key)
  }

  lemma {:induction false} AddToSum(buckets: seq<Bucket>, key: Key, amount: nat, k: Key)
    ensures Sum(AddTo(buckets, key, amount), k) == Sum(buckets, k) + (if k == key then amount else 0)
  {
    if buckets != [] && buckets[0].key != key {
      AddToSum(buckets[1..], key, amount, k);
    }
  }

  lemma {:induction false} AddToWellFormed(buckets: seq<Bucket>, key: Key, amount: nat)
    requires WellFormed(buckets) && amount > 0
    ensures WellFormed(AddTo(buckets, key, amount))
    ensures forall b :: b in AddTo(buckets, key, amount) ==> b.key == key || b in buckets
  {
    if buckets != [] && buckets[0].key != key {
      AddToWellFormed(buckets[1..], key, amount);
    }
  }

  // ---- The store: ledger and usage, changed in one transaction ----

  datatype Store = Store(ledger: set<nat>, usage: map<Key, nat>)

  function UsageOf(store: Store, k: Key): nat {
    if k in store.usage then store.usage[k] else 0
  }

  /** Claim the event id; add to the counter only when the claim succeeds. */
  function Applied(store: Store, e: Event): Store {
    if e.id in store.ledger then store
    else Store(store.ledger + {e.id}, store.usage[e.key := UsageOf(store, e.key) + e.amount])
  }

  // ---- Events waiting for the aggregator ----

  predicate UniqueIds(events: seq<Event>) {
    forall i, j :: 0 <= i < j < |events| ==> events[i].id != events[j].id
  }

  /** The amount of k in events the ledger does not know. */
  function Unapplied(events: seq<Event>, ledger: set<nat>, k: Key): nat {
    if events == [] then 0
    else (if events[0].key == k && events[0].id !in ledger then events[0].amount else 0)
         + Unapplied(events[1..], ledger, k)
  }

  lemma {:induction false} UnappliedSnoc(events: seq<Event>, e: Event, ledger: set<nat>, k: Key)
    ensures Unapplied(events + [e], ledger, k) ==
            Unapplied(events, ledger, k) + (if e.key == k && e.id !in ledger then e.amount else 0)
  {
    if events == [] {
      assert events + [e] == [e] && [e][1..] == [];
    } else {
      assert (events + [e])[1..] == events[1..] + [e];
      UnappliedSnoc(events[1..], e, ledger, k);
    }
  }

  lemma {:induction false} OtherIdsUnmoved(events: seq<Event>, ledger: set<nat>, id: nat, k: Key)
    requires forall i :: 0 <= i < |events| ==> events[i].id != id
    ensures Unapplied(events, ledger + {id}, k) == Unapplied(events, ledger, k)
  {
    if events == [] {
    } else {
      OtherIdsUnmoved(events[1..], ledger, id, k);
    }
  }

  /** Claiming the id of events[i] takes exactly that event out of the unapplied amount. */
  lemma {:induction false} ClaimTakesOne(events: seq<Event>, ledger: set<nat>, i: nat, k: Key)
    requires UniqueIds(events) && i < |events| && events[i].id !in ledger
    ensures Unapplied(events, ledger, k) ==
            Unapplied(events, ledger + {events[i].id}, k) + (if events[i].key == k then events[i].amount else 0)
  {
    if i == 0 {
      OtherIdsUnmoved(events[1..], ledger, events[0].id, k);
    } else {
      ClaimTakesOne(events[1..], ledger, i - 1, k);
    }
  }

  /** Delivery moves an amount from unapplied to usage, once, however often it is repeated. */
  lemma DeliveryConserves(events: seq<Event>, store: Store, i: nat, k: Key)
    requires UniqueIds(events) && i < |events|
    ensures var store' := Applied(store, events[i]);
      UsageOf(store', k) + Unapplied(events, store'.ledger, k) ==
      UsageOf(store, k) + Unapplied(events, store.ledger, k)
    ensures Applied(Applied(store, events[i]), events[i]) == Applied(store, events[i])
  {
    if events[i].id !in store.ledger {
      ClaimTakesOne(events, store.ledger, i, k);
    }
  }

  // ---- The objects, each used by one caller at a time ----

  /** The in-memory queue: a job whose id it already holds is dropped. */
  class MemoryQueue {
    var jobs: seq<Event>

    constructor ()
      ensures jobs == []
    {
      jobs := [];
    }

    predicate Holding(id: nat)
      reads this
    {
      exists i :: 0 <= i < |jobs| && jobs[i].id == id
    }

    method Add(e: Event)
      modifies this
      ensures jobs == if old(Holding(e.id)) then old(jobs) else old(jobs) + [e]
    {
      if !Holding(e.id) {
        jobs := jobs + [e];
      }
    }

    /**
     * Hand the jobs to the aggregator in turn. The handler of the i-th throws
     * where `throws` holds of i, its transaction rolled back; the run ends there
     * and keeps every job. When none does, the jobs are forgotten.
     */
    method Run(store: UsageStore, throws: nat -> bool) returns (done: bool)
      requires UniqueIds(jobs)
      modifies this, store
      ensures done <==> forall i :: 0 <= i < |old(jobs)| ==> !throws(i)
      ensures jobs == if done then [] else old(jobs)
      ensures forall k :: UsageOf(store.State(), k) + Unapplied(old(jobs), store.ledger, k) ==
                UsageOf(old(store.State()), k) + Unapplied(old(jobs), old(store.State()).ledger, k)
      ensures done ==> forall k :: Unapplied(old(jobs), store.ledger, k) == 0
    {
      var i := 0;
      while i < |jobs|
        invariant i <= |jobs| && jobs == old(jobs)
        invariant forall j :: 0 <= j < i ==> !throws(j) && jobs[j].id in store.ledger
        invariant forall k :: UsageOf(store.State(), k) + Unapplied(jobs, store.ledger, k) ==
                    UsageOf(old(store.State()), k) + Unapplied(jobs, old(store.State()).ledger, k)
      {
        if throws(i) { return false; }
        forall k { DeliveryConserves(jobs, store.State(), i, k); }
        var applied := store.Apply(jobs[i]);
        i := i + 1;
      }
      forall k { NothingLeft(jobs, store.ledger, k); }
      jobs := [];
      done := true;
    }
  }

  lemma {:induction false} NothingLeft(events: seq<Event>, ledger: set<nat>, k: Key)
    requires forall i :: 0 <= i < |events| ==> events[i].id in ledger
    ensures Unapplied(events, ledger, k) == 0
  {
    if events == [] {
    } else {
      NothingLeft(events[1..], ledger, k);
    }
  }

  class UsageStore {
    var ledger: set<nat>
    var usage: map<Key, nat>

    constructor ()
      ensures State() == Store({}, map[])
    {
      ledger, usage := {}, map[];
    }

    function State(): Store
      reads this
    {
      Store(ledger, usage)
    }

    method ClaimEvent(id: nat) returns (claimed: bool)
      modifies this`ledger
      ensures claimed <==> id !in old(ledger)
      ensures ledger == old(ledger) + {id}
    {
      claimed := id !in ledger;
      ledger := ledger + {id};
    }

    method AddToCounter(e: Event)
      modifies this`usage
      ensures usage == old(usage)[e.key := UsageOf(old(State()), e.key) + e.amount]
    {
      usage := usage[e.key := (if e.key in usage then usage[e.key] else 0) + e.amount];
    }

    /** One transaction; true when the event was applied, false for a duplicate. */
    method Apply(e: Event) returns (applied: bool)
      modifies this
      ensures State() == Applied(old(State()), e)
      ensures applied <==> e.id !in old(ledger)
    {
      applied := ClaimEvent(e.id);
      if applied {
        AddToCounter(e);
      } else {
        assert ledger == old(ledger);
      }
    }
  }

  class UsageRecorder {
    var buckets: seq<Bucket>

    constructor ()
      ensures buckets == []
    {
      buckets := [];
    }

    method Record(key: Key, amount: int)
      requires WellFormed(buckets)
      modifies this
      ensures WellFormed(buckets)
      ensures forall k :: Sum(buckets, k) == old(Sum(buckets, k)) + (if k == key && amount > 0 then amount else 0)
    {
      if amount > 0 {
        forall k { AddToSum(buckets, key, amount, k); }
        AddToWellFormed(buckets, key, amount);
        buckets := AddTo(buckets, key, amount);
      }
    }

    /**
     * Swap the buckets out and enqueue one job each. The i-th add throws
     * unless `up` holds of i; its count then goes back to the buckets. Nothing
     * is lost or counted twice.
     */
    method Flush(queue: MemoryQueue, firstId: nat, up: nat -> bool)
      requires WellFormed(buckets)
      requires forall i :: 0 <= i < |queue.jobs| ==> queue.jobs[i].id < firstId
      modifies this, queue
      ensures WellFormed(buckets)
      ensures forall k :: Sum(buckets, k) + Unapplied(queue.jobs, {}, k) ==
                old(Sum(buckets, k)) + old(Unapplied(queue.jobs, {}, k))
      ensures (forall i :: up(i)) ==> buckets == []
    {
      var batch := buckets;
      buckets := [];
      var i := 0;
      while i < |batch|
        invariant i <= |batch| && batch == old(buckets)
        invariant WellFormed(buckets) && ((forall j :: up(j)) ==> buckets == [])
        invariant forall j :: 0 <= j < |queue.jobs| ==> queue.jobs[j].id < firstId + i
        invariant forall k :: Sum(buckets, k) + Sum(batch[i..], k) + Unapplied(queue.jobs, {}, k) ==
                    old(Sum(buckets, k)) + old(Unapplied(queue.jobs, {}, k))
      {
        var bucket := batch[i];
        var event := Event(firstId + i, bucket.key, bucket.amount);
        if up(i) {
          forall k { UnappliedSnoc(queue.jobs, event, {}, k); }
          queue.Add(event);
        } else {
          forall k { AddToSum(buckets, bucket.key, bucket.amount, k); }
          AddToWellFormed(buckets, bucket.key, bucket.amount);
          buckets := AddTo(buckets, bucket.key, bucket.amount);
        }
        assert batch[i..][1..] == batch[i + 1..];
        i := i + 1;
      }
    }
  }
}
