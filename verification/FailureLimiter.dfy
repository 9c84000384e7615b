// Failed authentications per address: a bounded, insertion-ordered table of
// windows, against the history of failures it stands for.
module FailureLimiter {
  import opened Wrappers

  /** Failures per window before blocking, its length in milliseconds, and how many addresses to track. */
  datatype Config = Config(maxFailures: int, windowMs: int, maxTracked: int)

  datatype Window = Window(count: int, start: int)

  datatype Entry = Entry(address: string, window: Window)

  // ---- The table, in insertion order ----

  function Lookup(entries: seq<Entry>, address: string): Option<Window> {
    if entries == [] then None
    else if entries[0].address == address then Some(entries[0].window)
    else Lookup(entries[1..], address)
  }

  function Without(entries: seq<Entry>, address: string): seq<Entry> {
    if entries == [] then []
    else if entries[0].address == address then entries[1..]
    else [entries[0]] + Without(entries[1..], address)
  }

  /** One failure more, in place. */
  function Bumped(entries: seq<Entry>, address: string): seq<Entry> {
    if entries == [] then []
    else if entries[0].address == address
    then [entries[0].(window := Window(entries[0].window.count + 1, entries[0].window.start))] + entries[1..]
    else [entries[0]] + Bumped(entries[1..], address)
  }

  predicate Over(w: Window, windowMs: int, at: int) {
    at - w.start >= windowMs
  }

  /** Seconds, rounded up. */
  function Seconds(ms: int): int {
    (ms + 999) / 1000
  }

  /** Seconds until an address in this window may try again, by two readings of the clock. */
  function Wait(w: Option<Window>, c: Config, first: int, second: int): int {
    if w.None? || Over(w.value, c.windowMs, first) || w.value.count < c.maxFailures then 0
    else
      var left := Seconds(w.value.start + c.windowMs - second);
      if left < 1 then 1 else left
  }

  /** What reading the current entry leaves: a window that is over is forgotten. */
  function Refreshed(entries: seq<Entry>, c: Config, address: string, at: int): seq<Entry> {
    var w := Lookup(entries, address);
    if w.Some? && Over(w.value, c.windowMs, at) then Without(entries, address) else entries
  }

  predicate MustEvict(entries: seq<Entry>, c: Config) {
    |entries| >= c.maxTracked && entries != []
  }

  function Admitted(entries: seq<Entry>, c: Config, address: string, at: int): seq<Entry> {
    (if MustEvict(entries, c) then entries[1..] else entries) + [Entry(address, Window(1, at))]
  }

  function Recorded(entries: seq<Entry>, c: Config, address: string, first: int, second: int): seq<Entry> {
    var refreshed := Refreshed(entries, c, address, first);
    if Lookup(refreshed, address).Some? then Bumped(refreshed, address)
    else Admitted(refreshed, c, address, second)
  }

  class Limiter {
    const config: Config
    var entries: seq<Entry>

    constructor (config: Config)
      ensures this.config == config && entries == []
    {
      this.config := config;
      entries := [];
    }

    method Current(address: string, at: int) returns (w: Option<Window>)
      modifies this
      ensures entries == Refreshed(old(entries), config, address, at)
      ensures w == if Lookup(old(entries), address).Some? && Over(Lookup(old(entries), address).value, config.windowMs, at)
                   then None else Lookup(old(entries), address)
    {
      w := Lookup(entries, address);
      if w.Some? && at - w.value.start >= config.windowMs {
        entries := Without(entries, address);
        w := None;
      }
    }

    /** The answer is honest: the least number of seconds, at least one, that reaches the window's end. */
    method BlockedForSeconds(address: string, first: int, second: int) returns (seconds: int)
      modifies this
      ensures entries == Refreshed(old(entries), config, address, first)
      ensures seconds == Wait(Lookup(old(entries), address), config, first, second)
      ensures seconds > 0 ==>
        var end := Lookup(old(entries), address).value.start + config.windowMs;
        second + 1000 * seconds >= end && (seconds == 1 || second + 1000 * (seconds - 1) < end)
    {
      var w := Current(address, first);
      if w.None? || w.value.count < config.maxFailures { return 0; }
      seconds := Seconds(w.value.start + config.windowMs - second);
      if seconds < 1 { seconds := 1; }
    }

    method RecordFailure(address: string, first: int, second: int)
      requires Distinct(entries)
      modifies this
      ensures entries == Recorded(old(entries), config, address, first, second)
    {
      ForgottenIsGone(entries, address);
      var w := Current(address, first);
      if w.Some? {
        entries := Bumped(entries, address);
        return;
      }
      if |entries| >= config.maxTracked && entries != [] {
        entries := entries[1..];
      }
      entries := entries + [Entry(address, Window(1, second))];
    }
  }

  // ---- Table facts ----

  predicate Distinct(entries: seq<Entry>) {
    forall i, j :: 0 <= i < j < |entries| ==> entries[i].address != entries[j].address
  }

  lemma {:induction false} LookupAbsent(entries: seq<Entry>, address: string)
    ensures Lookup(entries, address).None? <==> forall i :: 0 <= i < |entries| ==> entries[i].address != address
  {
    if entries == [] {
    } else {
      LookupAbsent(entries[1..], address);
      assert forall i :: 0 < i < |entries| ==> entries[i] == entries[1..][i - 1];
      assert forall i :: 0 <= i < |entries[1..]| ==> entries[1..][i] == entries[i + 1];
    }
  }

  lemma {:induction false} ForgottenIsGone(entries: seq<Entry>, address: string)
    requires Distinct(entries)
    ensures Lookup(Without(entries, address), address).None?
  {
    if entries == [] {
    } else {
      if entries[0].address == address {
        LookupAbsent(entries[1..], address);
      } else {
        ForgottenIsGone(entries[1..], address);
      }
    }
  }

  lemma {:induction false} LookupWithout(entries: seq<Entry>, address: string, other: string)
    requires other != address
    ensures Lookup(Without(entries, address), other) == Lookup(entries, other)
  {
    if entries == [] {
    } else {
      LookupWithout(entries[1..], address, other);
    }
  }

  lemma {:induction false} LookupBumped(entries: seq<Entry>, address: string, other: string)
    ensures Lookup(Bumped(entries, address), other) ==
      if other == address && Lookup(entries, address).Some?
      then Some(Window(Lookup(entries, address).value.count + 1, Lookup(entries, address).value.start))
      else Lookup(entries, other)
  {
    if entries == [] {
    } else {
      LookupBumped(entries[1..], address, other);
    }
  }

  lemma {:induction false} LookupAppended(entries: seq<Entry>, e: Entry, other: string)
    ensures Lookup(entries + [e], other) ==
      if Lookup(entries, other).Some? then Lookup(entries, other)
      else if other == e.address then Some(e.window) else None
  {
    if entries == [] {
    } else {
      assert (entries + [e])[1..] == entries[1..] + [e];
      LookupAppended(entries[1..], e, other);
    }
  }

  lemma {:induction false} WithoutIsSlice(entries: seq<Entry>, address: string) returns (k: nat)
    ensures k <= |entries|
    ensures k == |entries| ==> Without(entries, address) == entries && Lookup(entries, address).None?
    ensures k < |entries| ==> Without(entries, address) == entries[..k] + entries[k + 1..]
  {
    if entries == [] || entries[0].address == address {
      k := 0;
    } else {
      var j := WithoutIsSlice(entries[1..], address);
      k := j + 1;
      if j == |entries[1..]| {
        assert [entries[0]] + entries[1..] == entries;
      } else {
        assert entries[..k] == [entries[0]] + entries[1..][..j];
        assert entries[k + 1..] == entries[1..][j + 1..];
      }
    }
  }

  // ---- What every call keeps ----

  /** Addresses differ, and windows started in insertion order, none after now. */
  predicate InOrder(entries: seq<Entry>, now: int) {
    && Distinct(entries)
    && (forall i, j :: 0 <= i < j < |entries| ==> entries[i].window.start <= entries[j].window.start)
    && (forall i :: 0 <= i < |entries| ==> entries[i].window.start <= now)
  }

  predicate Fits(entries: seq<Entry>, c: Config) {
    |entries| <= 1 || |entries| <= c.maxTracked
  }

  lemma SliceInOrder(entries: seq<Entry>, k: nat, now: int)
    requires InOrder(entries, now) && k < |entries|
    ensures InOrder(entries[..k] + entries[k + 1..], now)
  {
    var s := entries[..k] + entries[k + 1..];
    assert forall i :: 0 <= i < |s| ==> s[i] == entries[if i < k then i else i + 1];
  }

  lemma RefreshedInOrder(entries: seq<Entry>, c: Config, address: string, at: int, now: int)
    requires InOrder(entries, now) && Fits(entries, c)
    ensures InOrder(Refreshed(entries, c, address, at), now) && Fits(Refreshed(entries, c, address, at), c)
  {
    var k := WithoutIsSlice(entries, address);
    if k < |entries| { SliceInOrder(entries, k, now); }
  }

  lemma {:induction false} BumpedShape(entries: seq<Entry>, address: string)
    ensures |Bumped(entries, address)| == |entries|
    ensures forall i :: 0 <= i < |entries| ==>
      && Bumped(entries, address)[i].address == entries[i].address
      && Bumped(entries, address)[i].window.start == entries[i].window.start
  {
    if entries == [] {
    } else {
      BumpedShape(entries[1..], address);
    }
  }

  lemma BumpedInOrder(entries: seq<Entry>, address: string, now: int)
    requires InOrder(entries, now)
    ensures InOrder(Bumped(entries, address), now)
  {
    BumpedShape(entries, address);
  }

  lemma AdmittedInOrder(entries: seq<Entry>, c: Config, address: string, at: int, now: int)
    requires InOrder(entries, now) && Fits(entries, c) && now <= at && Lookup(entries, address).None?
    ensures InOrder(Admitted(entries, c, address, at), at) && Fits(Admitted(entries, c, address, at), c)
  {
    LookupAbsent(entries, address);
  }

  lemma LaterIsInOrder(entries: seq<Entry>, now: int, later: int)
    requires InOrder(entries, now) && now <= later
    ensures InOrder(entries, later)
  {
  }

  /** Recording keeps the order, the bound on size, and one entry an address. */
  lemma RecordedInOrder(entries: seq<Entry>, c: Config, address: string, first: int, second: int, now: int)
    requires InOrder(entries, now) && Fits(entries, c) && now <= first <= second
    ensures InOrder(Recorded(entries, c, address, first, second), second)
    ensures Fits(Recorded(entries, c, address, first, second), c)
  {
    RefreshedInOrder(entries, c, address, first, now);
    var refreshed := Refreshed(entries, c, address, first);
    if Lookup(refreshed, address).Some? {
      BumpedInOrder(refreshed, address, now);
      BumpedShape(refreshed, address);
      LaterIsInOrder(Bumped(refreshed, address), now, second);
    } else {
      AdmittedInOrder(refreshed, c, address, second, now);
    }
  }

  /** The entry an admission evicts: the oldest, when the table is full. */
  function Evicted(entries: seq<Entry>, c: Config, address: string, first: int): Option<Entry> {
    var refreshed := Refreshed(entries, c, address, first);
    if Lookup(refreshed, address).None? && MustEvict(refreshed, c) then Some(refreshed[0]) else None
  }

  /** A window still running is evicted only when every tracked window still runs, and there are maxTracked of them. */
  lemma LiveEvictionOnlyWhenAllLive(entries: seq<Entry>, c: Config, address: string, first: int, at: int, now: int)
    requires InOrder(entries, now) && Fits(entries, c)
    requires Evicted(entries, c, address, first).Some?
    requires !Over(Evicted(entries, c, address, first).value.window, c.windowMs, at)
    ensures var tracked := Refreshed(entries, c, address, first);
      |tracked| >= c.maxTracked && forall i :: 0 <= i < |tracked| ==> !Over(tracked[i].window, c.windowMs, at)
  {
    RefreshedInOrder(entries, c, address, first, now);
  }

  // ---- The history specification ----

  /** A call at two readings of the clock. */
  datatype Call = Query(address: string, first: int, second: int) | Failure(address: string, first: int, second: int)

  predicate Timed(calls: seq<Call>, from: int)
    decreases |calls|
  {
    calls == [] || (from <= calls[0].first <= calls[0].second && Timed(calls[1..], calls[0].second))
  }

  function Step(entries: seq<Entry>, c: Config, call: Call): seq<Entry> {
    match call
    case Query(address, first, _) => Refreshed(entries, c, address, first)
    case Failure(address, first, second) => Recorded(entries, c, address, first, second)
  }

  function After(entries: seq<Entry>, c: Config, calls: seq<Call>): seq<Entry>
    decreases |calls|
  {
    if calls == [] then entries else After(Step(entries, c, calls[0]), c, calls[1..])
  }

  /**
   * The window of one address by its failures alone, with no table: a failure
   * within the window counts to it, and one after it starts the next.
   */
  function WindowAfter(w: Option<Window>, c: Config, address: string, calls: seq<Call>): Option<Window>
    decreases |calls|
  {
    if calls == [] then w else WindowAfter(OneMore(w, c, address, calls[0]), c, address, calls[1..])
  }

  function OneMore(w: Option<Window>, c: Config, address: string, call: Call): Option<Window> {
    if call.Query? || call.address != address then w
    else if w.Some? && !Over(w.value, c.windowMs, call.first) then Some(Window(w.value.count + 1, w.value.start))
    else Some(Window(1, call.second))
  }

  /** No call evicts the address while its window still runs. */
  predicate NeverEvictedLive(entries: seq<Entry>, c: Config, address: string, calls: seq<Call>)
    decreases |calls|
  {
    calls == [] ||
    (&& (calls[0].Failure? ==>
           var e := Evicted(entries, c, calls[0].address, calls[0].first);
           e.Some? && e.value.address == address ==> Over(e.value.window, c.windowMs, calls[0].second))
     && NeverEvictedLive(Step(entries, c, calls[0]), c, address, calls[1..]))
  }

  /** The table has the address's window, or has forgotten one that is over. */
  predicate Agrees(entries: seq<Entry>, c: Config, address: string, w: Option<Window>, now: int) {
    Lookup(entries, address) == w ||
    (Lookup(entries, address).None? && Over(w.value, c.windowMs, now))
  }

  lemma RefreshedLookup(entries: seq<Entry>, c: Config, address: string, at: int, other: string)
    requires Distinct(entries)
    ensures var w := Lookup(entries, other);
      Lookup(Refreshed(entries, c, address, at), other) ==
        if other == address && w.Some? && Over(w.value, c.windowMs, at) then None else w
  {
    ForgottenIsGone(entries, address);
    if other != address { LookupWithout(entries, address, other); }
  }

  lemma AdmittedLookup(entries: seq<Entry>, c: Config, address: string, at: int, other: string)
    requires Distinct(entries) && Lookup(entries, address).None?
    ensures Lookup(Admitted(entries, c, address, at), other) ==
      if other == address then Some(Window(1, at))
      else if MustEvict(entries, c) && entries[0].address == other then None
      else Lookup(entries, other)
  {
    var kept := if MustEvict(entries, c) then entries[1..] else entries;
    LookupAppended(kept, Entry(address, Window(1, at)), other);
    LookupAbsent(entries, address);
    LookupAbsent(kept, address);
    if MustEvict(entries, c) && entries[0].address == other {
      LookupAbsent(kept, other);
    }
  }

  lemma StepAgrees(entries: seq<Entry>, c: Config, address: string, w: Option<Window>, now: int, call: Call)
    requires InOrder(entries, now) && now <= call.first <= call.second
    requires Agrees(entries, c, address, w, now)
    requires NeverEvictedLive(entries, c, address, [call])
    ensures Agrees(Step(entries, c, call), c, address, OneMore(w, c, address, call), call.second)
  {
    RefreshedLookup(entries, c, call.address, call.first, address);
    if call.Failure? {
      var refreshed := Refreshed(entries, c, call.address, call.first);
      RefreshedLookup(entries, c, call.address, call.first, call.address);
      if Lookup(refreshed, call.address).Some? {
        LookupBumped(refreshed, call.address, address);
      } else {
        var k := WithoutIsSlice(entries, call.address);
        if k < |entries| { SliceInOrder(entries, k, now); }
        AdmittedLookup(refreshed, c, call.address, call.second, address);
        EvictedLookup(refreshed);
      }
    }
  }

  lemma EvictedLookup(entries: seq<Entry>)
    ensures entries != [] ==> Lookup(entries, entries[0].address) == Some(entries[0].window)
  {
  }

  lemma StepInOrder(entries: seq<Entry>, c: Config, call: Call, now: int)
    requires InOrder(entries, now) && Fits(entries, c) && now <= call.first <= call.second
    ensures InOrder(Step(entries, c, call), call.second) && Fits(Step(entries, c, call), c)
  {
    match call {
      case Query(address, first, _) => RefreshedInOrder(entries, c, address, first, now);
      case Failure(address, first, second) => RecordedInOrder(entries, c, address, first, second, now);
    }
  }

  /** Over every run the table stays in order, one entry an address, and within its bound. */
  lemma {:induction false} RunsStayInOrder(entries: seq<Entry>, c: Config, calls: seq<Call>, now: int)
    requires InOrder(entries, now) && Fits(entries, c) && Timed(calls, now)
    ensures var end := if calls == [] then now else calls[|calls| - 1].second;
      InOrder(After(entries, c, calls), end) && Fits(After(entries, c, calls), c)
    decreases |calls|
  {
    if calls == [] {
    } else {
      StepInOrder(entries, c, calls[0], now);
      RunsStayInOrder(Step(entries, c, calls[0]), c, calls[1..], calls[0].second);
    }
  }

  lemma {:induction false} RunAgrees(entries: seq<Entry>, c: Config, address: string, w: Option<Window>, calls: seq<Call>, now: int)
    requires InOrder(entries, now) && Fits(entries, c) && Timed(calls, now)
    requires Agrees(entries, c, address, w, now) && NeverEvictedLive(entries, c, address, calls)
    ensures var end := if calls == [] then now else calls[|calls| - 1].second;
      Agrees(After(entries, c, calls), c, address, WindowAfter(w, c, address, calls), end)
    decreases |calls|
  {
    if calls == [] {
    } else {
      assert [calls[0]][1..] == [];
      StepInOrder(entries, c, calls[0], now);
      StepAgrees(entries, c, address, w, now, calls[0]);
      RunAgrees(Step(entries, c, calls[0]), c, address, OneMore(w, c, address, calls[0]), calls[1..], calls[0].second);
    }
  }

  /**
   * An address never evicted while its window ran is answered as its history
   * of failures says, whatever other addresses do.
   */
  lemma AnswersFollowHistory(c: Config, address: string, calls: seq<Call>, start: int, first: int, second: int)
    requires Timed(calls, start) && NeverEvictedLive([], c, address, calls)
    requires (if calls == [] then start else calls[|calls| - 1].second) <= first
    ensures Wait(Lookup(After([], c, calls), address), c, first, second) ==
            Wait(WindowAfter(None, c, address, calls), c, first, second)
  {
    RunAgrees([], c, address, None, calls, start);
  }

  // ---- How many failures block ----

  /** An address is told to wait exactly while its window runs and counts the configured number of failures, or more. */
  lemma WaitsExactly(w: Option<Window>, c: Config, first: int, second: int)
    ensures Wait(w, c, first, second) >= 0
    ensures Wait(w, c, first, second) > 0 <==>
      w.Some? && first < w.value.start + c.windowMs && w.value.count >= c.maxFailures
  {
  }

  /** The address's failures among some calls. */
  function FailuresOf(address: string, calls: seq<Call>): nat {
    if calls == [] then 0
    else (if calls[0].Failure? && calls[0].address == address then 1 else 0) + FailuresOf(address, calls[1..])
  }

  /** No failure of the address comes after its window's end. */
  predicate WithinWindow(start: int, c: Config, address: string, calls: seq<Call>) {
    forall i :: 0 <= i < |calls| && calls[i].Failure? && calls[i].address == address ==> calls[i].first < start + c.windowMs
  }

  /** A running window counts each failure of its address once. */
  lemma {:induction false} WindowCounts(c: Config, address: string, w: Window, calls: seq<Call>)
    requires WithinWindow(w.start, c, address, calls)
    ensures WindowAfter(Some(w), c, address, calls) == Some(Window(w.count + FailuresOf(address, calls), w.start))
    decreases |calls|
  {
    if calls == [] {
    } else {
      assert forall i :: 0 <= i < |calls[1..]| ==> calls[1..][i] == calls[i + 1];
      WindowCounts(c, address, OneMore(Some(w), c, address, calls[0]).value, calls[1..]);
    }
  }

  /**
   * After a first failure, an address never evicted while its window runs is
   * blocked until the window ends exactly when the failures in it, the first
   * among them, have reached the configured number.
   */
  lemma BlockedAfterMaxFailures(c: Config, address: string, opening: Call, calls: seq<Call>, first: int, second: int)
    requires opening.Failure? && opening.address == address && Timed([opening] + calls, opening.first)
    requires NeverEvictedLive([], c, address, [opening] + calls)
    requires ([opening] + calls)[|calls|].second <= first
    requires first < opening.second + c.windowMs && WithinWindow(opening.second, c, address, calls)
    ensures Wait(Lookup(After([], c, [opening] + calls), address), c, first, second) > 0 <==>
            1 + FailuresOf(address, calls) >= c.maxFailures
  {
    var all := [opening] + calls;
    AnswersFollowHistory(c, address, all, opening.first, first, second);
    assert all[1..] == calls;
    WindowCounts(c, address, Window(1, opening.second), calls);
    WaitsExactly(WindowAfter(None, c, address, all), c, first, second);
  }

  // ---- Retry-after is honest ----

  /** Failures before its end are counted to the window and do not move it. */
  lemma {:induction false} FailuresDoNotExtend(c: Config, address: string, w: Window, calls: seq<Call>)
    requires forall i :: 0 <= i < |calls| && calls[i].Failure? && calls[i].address == address ==>
      calls[i].first < w.start + c.windowMs
    ensures var later := WindowAfter(Some(w), c, address, calls);
      later.Some? && later.value.start == w.start && later.value.count >= w.count
    decreases |calls|
  {
    if calls == [] {
    } else {
      assert forall i :: 0 <= i < |calls[1..]| ==> calls[1..][i] == calls[i + 1];
      FailuresDoNotExtend(c, address, OneMore(Some(w), c, address, calls[0]).value, calls[1..]);
    }
  }

  /**
   * Told to wait, an address that fails no more once the window has ended is
   * free after waiting that long -- however often it failed meanwhile -- and
   * is blocked at any time before the window ends.
   */
  lemma WaitingUnblocks(c: Config, address: string, w: Window, first: int, second: int,
                        calls: seq<Call>, later: int, evenLater: int)
    requires first <= second && Wait(Some(w), c, first, second) > 0
    requires forall i :: 0 <= i < |calls| && calls[i].Failure? && calls[i].address == address ==>
      calls[i].first < w.start + c.windowMs
    ensures var told := Wait(Some(w), c, first, second);
      var after := WindowAfter(Some(w), c, address, calls);
      && (later >= second + 1000 * told ==> Wait(after, c, later, evenLater) == 0)
      && (later < w.start + c.windowMs ==> Wait(after, c, later, evenLater) > 0)
  {
    FailuresDoNotExtend(c, address, w, calls);
  }
}
