// Idempotency keys: the table, its atomic statements, and one request served
// without interference.
module IdempotencyTable {
  import opened Wrappers

  /** Milliseconds. */
  const TTL := 24 * 60 * 60 * 1000

  datatype Slot = Slot(tenant: string, project: string, key: string)

  datatype Response = Response(status: int, body: string)

  datatype Status = InProgress | Completed(response: Response)

  datatype Row = Row(requestHash: string, status: Status, expiresAt: int)

  type Table = map<Slot, Row>

  // ---- What each statement does to the table ----

  function WithoutExpired(rows: Table, slot: Slot, cutoff: int): Table {
    if slot in rows && rows[slot].expiresAt <= cutoff then rows - {slot} else rows
  }

  /** INSERT ... ON CONFLICT DO NOTHING. */
  function WithClaim(rows: Table, slot: Slot, hash: string, expiresAt: int): Table {
    if slot in rows then rows else rows[slot := Row(hash, InProgress, expiresAt)]
  }

  /** The UPDATE names the key only: it does not ask who holds it. */
  function WithCompletion(rows: Table, slot: Slot, response: Response): Table {
    if slot in rows then rows[slot := rows[slot].(status := Completed(response))] else rows
  }

  function WithoutSlot(rows: Table, slot: Slot): Table {
    rows - {slot}
  }

  // ---- One request, served alone ----

  datatype WorkResult = Returned(response: Response) | Threw(error: string)

  datatype Outcome =
    | Answered(response: Response, replayed: bool)
    | Failed(error: string)
    | KeyReused
    | StillRunning
    | InvalidKey

  predicate Live(rows: Table, slot: Slot, now: int) {
    slot in rows && rows[slot].expiresAt > now
  }

  /** The documented behaviour table of a keyed create. */
  function Served(rows: Table, slot: Slot, hash: string, now: int, claimedAt: int, work: WorkResult): (Table, Outcome) {
    if !Live(rows, slot, now) then
      match work
      case Returned(response) =>
        (rows[slot := Row(hash, Completed(response), claimedAt + TTL)], Answered(response, false))
      case Threw(error) => (rows - {slot}, Failed(error))
    else if rows[slot].requestHash != hash then (rows, KeyReused)
    else match rows[slot].status
      case InProgress => (rows, StillRunning)
      case Completed(response) => (rows, Answered(response, true))
  }

  /** 1 to 255 visible ASCII characters. */
  predicate IsKey(key: string) {
    1 <= |key| <= 255 && forall i :: 0 <= i < |key| ==> '!' <= key[i] <= '~'
  }

  function Unkeyed(work: WorkResult): Outcome {
    match work
    case Returned(response) => Answered(response, false)
    case Threw(error) => Failed(error)
  }

  /** With or without a key; a malformed one is refused before anything runs. */
  function Handled(rows: Table, tenant: string, project: string, key: Option<string>, hash: string,
                   now: int, claimedAt: int, work: WorkResult): (Table, Outcome) {
    if key.None? then (rows, Unkeyed(work))
    else if !IsKey(key.value) then (rows, InvalidKey)
    else Served(rows, Slot(tenant, project, key.value), hash, now, claimedAt, work)
  }

  /**
   * The behaviour table, outcome by outcome. On a live row nothing changes and
   * nothing is run: another request's key is refused, the same request is
   * refused while the first runs and answered its response when it completed.
   * Otherwise the work decides.
   */
  lemma ServedMeans(rows: Table, slot: Slot, hash: string, now: int, claimedAt: int, work: WorkResult)
    ensures var (after, outcome) := Served(rows, slot, hash, now, claimedAt, work);
      var live := slot in rows && rows[slot].expiresAt > now;
      && (outcome == KeyReused <==> live && rows[slot].requestHash != hash)
      && (outcome == StillRunning <==> live && rows[slot].requestHash == hash && rows[slot].status == InProgress)
      && (forall response :: outcome == Answered(response, true) <==>
            live && rows[slot].requestHash == hash && rows[slot].status == Completed(response))
      && (forall response :: outcome == Answered(response, false) <==> !live && work == Returned(response))
      && (forall error :: outcome == Failed(error) <==> !live && work == Threw(error))
      && outcome != InvalidKey
      && (live ==> after == rows)
      && (forall other :: other != slot ==>
            (other in after <==> other in rows) && (other in after ==> after[other] == rows[other]))
      && (!live ==> (slot in after <==> work.Returned?))
      && (!live && work.Returned? ==> after[slot] == Row(hash, Completed(work.response), claimedAt + 24 * 3600 * 1000))
  {
  }

  /**
   * A key is refused, before anything is looked up or run, exactly when it is
   * empty, too long or holds a character that is not visible ASCII.
   */
  lemma MalformedKeysAreRefused(rows: Table, tenant: string, project: string, key: Option<string>, hash: string,
                                now: int, claimedAt: int, work: WorkResult)
    ensures var (after, outcome) := Handled(rows, tenant, project, key, hash, now, claimedAt, work);
      && (outcome == InvalidKey <==>
            key.Some? && (key.value == "" || |key.value| > 255
                          || exists i :: 0 <= i < |key.value| && !('\U{0021}' <= key.value[i] <= '\U{007E}')))
      && (outcome == InvalidKey || key.None? ==> after == rows)
      && (key.None? ==> outcome == match work case Returned(response) => Answered(response, false) case Threw(e) => Failed(e))
      && (key.Some? && outcome != InvalidKey ==>
            (after, outcome) == Served(rows, Slot(tenant, project, key.value), hash, now, claimedAt, work))
  {
    if key.Some? && IsKey(key.value) {
      ServedMeans(rows, Slot(tenant, project, key.value), hash, now, claimedAt, work);
    }
  }

  /** A retry of the same request within the lifetime replays, and runs nothing. */
  lemma RetryReplays(rows: Table, slot: Slot, hash: string, now: int, claimedAt: int, response: Response,
                     later: int, laterClaim: int, again: WorkResult)
    requires !Live(rows, slot, now) && later < claimedAt + TTL
    ensures var once := Served(rows, slot, hash, now, claimedAt, Returned(response));
      Served(once.0, slot, hash, later, laterClaim, again) == (once.0, Answered(response, true))
  {
  }

  /** A failed attempt leaves the key free: the retry runs as if it were the first. */
  lemma FailedAttemptReleases(rows: Table, slot: Slot, hash: string, now: int, claimedAt: int, error: string,
                              otherHash: string, later: int, laterClaim: int, again: WorkResult)
    requires !Live(rows, slot, now)
    ensures var once := Served(rows, slot, hash, now, claimedAt, Threw(error));
      Served(once.0, slot, otherHash, later, laterClaim, again) ==
      Served(rows - {slot}, slot, otherHash, later, laterClaim, again)
  {
  }

  class IdempotencyKeys {
    var rows: Table

    constructor ()
      ensures rows == map[]
    {
      rows := map[];
    }

    method DeleteExpired(slot: Slot, cutoff: int)
      modifies this
      ensures rows == WithoutExpired(old(rows), slot, cutoff)
    {
      if slot in rows && rows[slot].expiresAt <= cutoff {
        rows := rows - {slot};
      }
    }

    method InsertIfAbsent(slot: Slot, hash: string, expiresAt: int) returns (inserted: bool)
      modifies this
      ensures inserted <==> slot !in old(rows)
      ensures rows == WithClaim(old(rows), slot, hash, expiresAt)
    {
      inserted := slot !in rows;
      if inserted {
        rows := rows[slot := Row(hash, InProgress, expiresAt)];
      }
    }

    method Claim(slot: Slot, hash: string, now: int, claimedAt: int) returns (claimed: bool)
      modifies this
      ensures claimed <==> !Live(old(rows), slot, now)
      ensures claimed ==> rows == old(rows)[slot := Row(hash, InProgress, claimedAt + TTL)]
      ensures !claimed ==> rows == old(rows)
    {
      DeleteExpired(slot, now);
      claimed := InsertIfAbsent(slot, hash, claimedAt + TTL);
    }

    method Find(slot: Slot) returns (row: Option<Row>)
      ensures row == if slot in rows then Some(rows[slot]) else None
    {
      row := if slot in rows then Some(rows[slot]) else None;
    }

    method Complete(slot: Slot, response: Response)
      modifies this
      ensures rows == WithCompletion(old(rows), slot, response)
    {
      if slot in rows {
        rows := rows[slot := rows[slot].(status := Completed(response))];
      }
    }

    method Release(slot: Slot)
      modifies this
      ensures rows == WithoutSlot(old(rows), slot)
    {
      rows := rows - {slot};
    }

    /** With no other process at work, a request behaves as documented. */
    method Serve(slot: Slot, hash: string, now: int, claimedAt: int, work: WorkResult) returns (outcome: Outcome)
      modifies this
      ensures (rows, outcome) == Served(old(rows), slot, hash, now, claimedAt, work)
    {
      var claimed := Claim(slot, hash, now, claimedAt);
      if !claimed {
        var existing := Find(slot);
        if existing.value.requestHash != hash { return KeyReused; }
        match existing.value.status
        case InProgress => return StillRunning;
        case Completed(response) => return Answered(response, true);
      }
      match work
      case Returned(response) =>
        Complete(slot, response);
        assert rows == old(rows)[slot := Row(hash, Completed(response), claimedAt + TTL)];
        outcome := Answered(response, false);
      case Threw(error) =>
        Release(slot);
        assert rows == old(rows) - {slot};
        outcome := Failed(error);
    }

    method Run(tenant: string, project: string, key: Option<string>, hash: string,
               now: int, claimedAt: int, work: WorkResult) returns (outcome: Outcome)
      modifies this
      ensures (rows, outcome) == Handled(old(rows), tenant, project, key, hash, now, claimedAt, work)
    {
      if key.None? { return Unkeyed(work); }
      if !IsKey(key.value) { return InvalidKey; }
      outcome := Serve(Slot(tenant, project, key.value), hash, now, claimedAt, work);
    }
  }
}
