// Runs of the API-key service: many actors, a moving clock, tenants and
// applications that come and go, and rotations that write what they read earlier.
module ApiKeyHistory {
  import opened Wrappers
  import opened ApiKeys

  /**
   * sessions: the principals some authentication has proved, which may act later.
   * rotations: the transactions that have read their key and not committed.
   */
  datatype State = State(store: Store, world: Directory, now: int, sessions: set<Context>, rotations: map<nat, Rotation>)

  type Hashing = (string, string) -> string

  datatype Step =
    | Tick(now: int)
    | Change(world: Directory)
    | Suspend(id: string)
    | Resume(id: string)
    | SignIn(presented: Option<Presented>)
    | Create(ctx: Context, applicationId: string, body: CreateBody, generated: Generated)
    | BeginRotate(pid: nat, ctx: Context, applicationId: string, id: string)
    | FinishRotate(pid: nat, overlap: Option<nat>, at: int, generated: Generated)
    | Revoke(ctx: Context, applicationId: string, id: string)

  function Initial(world: Directory, now: int): State {
    State(Store(map[], []), world, now, {}, map[])
  }

  /** An API-key actor acts with a principal that was authenticated. */
  predicate MayAct(s: State, ctx: Context) {
    ctx.actor.KeyActor? ==> ctx in s.sessions
  }

  /** The clock is monotone, generated ids are new, and API keys act only once authenticated. */
  predicate Enabled(s: State, step: Step) {
    match step
    case Tick(now) => s.now <= now
    case Create(ctx, _, _, generated) => MayAct(s, ctx) && generated.id !in s.store.keys
    case BeginRotate(pid, ctx, _, _) => MayAct(s, ctx) && pid !in s.rotations
    case FinishRotate(pid, _, at, generated) => pid in s.rotations && at <= s.now && generated.id !in s.store.keys
    case Revoke(ctx, _, _) => MayAct(s, ctx)
    case _ => true
  }

  /** An operator outside this code suspends an active key, or resumes it. */
  function WithStatus(store: Store, id: string, from: Status, to: Status): Store {
    if id in store.keys && store.keys[id].status == from
    then store.(keys := store.keys[id := store.keys[id].(status := to)]) else store
  }

  function Next(s: State, step: Step, hash: Hashing): State
    requires Enabled(s, step)
  {
    match step
    case Tick(now) => s.(now := now)
    case Change(world) => s.(world := world)
    case Suspend(id) => s.(store := WithStatus(s.store, id, Active, Suspended))
    case Resume(id) => s.(store := WithStatus(s.store, id, Suspended, Active))
    case SignIn(presented) =>
      var principal := Authenticate(s.store.keys, s.world, s.now, hash, presented);
      if principal.Some? then s.(sessions := s.sessions + {principal.value}) else s
    case Create(ctx, app, body, generated) =>
      s.(store := Created(s.store, s.world, ctx, app, body, generated, hash(generated.id, generated.secret)))
    case BeginRotate(pid, ctx, app, id) =>
      if RotateRefusal(s.store.keys, ctx, app, id).Some? then s
      else s.(rotations := s.rotations[pid := Rotation(ctx, app, id, s.store.keys[id])])
    case FinishRotate(pid, overlap, at, generated) =>
      s.(store := WithReplacement(s.store, s.rotations[pid], OverlapEnd(at, overlap), generated,
                                  hash(generated.id, generated.secret)),
         rotations := s.rotations - {pid})
    case Revoke(ctx, app, id) => s.(store := AfterRevocation(s.store, ctx, app, id))
  }

  predicate IsRun(s: State, steps: seq<Step>, hash: Hashing)
    decreases |steps|
  {
    steps == [] || (Enabled(s, steps[0]) && IsRun(Next(s, steps[0], hash), steps[1..], hash))
  }

  function After(s: State, steps: seq<Step>, hash: Hashing): State
    requires IsRun(s, steps, hash)
    decreases |steps|
  {
    if steps == [] then s else After(Next(s, steps[0], hash), steps[1..], hash)
  }

  /** The principals the sign-ins of a run proved. */
  function ProvedIn(s: State, steps: seq<Step>, hash: Hashing): set<Context>
    requires IsRun(s, steps, hash)
    decreases |steps|
  {
    if steps == [] then {}
    else
      var proved := if steps[0].SignIn? then Authenticate(s.store.keys, s.world, s.now, hash, steps[0].presented) else None;
      (if proved.Some? then {proved.value} else {}) + ProvedIn(Next(s, steps[0], hash), steps[1..], hash)
  }

  /** Those who may act later are those whose sign-in succeeded. */
  lemma {:induction false} SessionsAreProved(s: State, steps: seq<Step>, hash: Hashing)
    requires IsRun(s, steps, hash)
    ensures After(s, steps, hash).sessions == s.sessions + ProvedIn(s, steps, hash)
    decreases |steps|
  {
    if steps == [] {
    } else {
      SessionsAreProved(Next(s, steps[0], hash), steps[1..], hash);
    }
  }

  // ---- Reading the audit log ----

  /** The key an entry says was issued. */
  function IssuedBy(e: Entry): Option<string> {
    match e.action
    case KeyCreated(key, _, _) => Some(key)
    case KeyRotated(_, replacement, _) => Some(replacement)
    case KeyRevoked(_) => None
  }

  predicate Issued(audit: seq<Entry>, parent: string, child: string) {
    exists i :: 0 <= i < |audit| && audit[i].actor == KeyActor(parent) && IssuedBy(audit[i]) == Some(child)
  }

  /** Each key on the path issued the next. */
  predicate IsLineage(audit: seq<Entry>, path: seq<string>) {
    path != [] && forall i :: 0 <= i < |path| - 1 ==> Issued(audit, path[i], path[i + 1])
  }

  /** How many entries issue, or revoke, a key. */
  function Issues(audit: seq<Entry>, key: string): nat {
    if audit == [] then 0
    else Issues(audit[..|audit| - 1], key) + if IssuedBy(audit[|audit| - 1]) == Some(key) then 1 else 0
  }

  function Revocations(audit: seq<Entry>, key: string): nat {
    if audit == [] then 0
    else Revocations(audit[..|audit| - 1], key) + if audit[|audit| - 1].action == KeyRevoked(key) then 1 else 0
  }

  /** The least expiry any rotation of a key asked for. */
  function LeastAsked(audit: seq<Entry>, key: string): Option<int> {
    if audit == [] then None
    else
      var earlier := LeastAsked(audit[..|audit| - 1], key);
      var last := audit[|audit| - 1].action;
      if last.KeyRotated? && last.key == key then Some(Least(earlier, last.oldExpiresAt)) else earlier
  }

  lemma Snoc(audit: seq<Entry>, e: Entry, key: string)
    ensures Issues(audit + [e], key) == Issues(audit, key) + if IssuedBy(e) == Some(key) then 1 else 0
    ensures Revocations(audit + [e], key) == Revocations(audit, key) + if e.action == KeyRevoked(key) then 1 else 0
    ensures LeastAsked(audit + [e], key) ==
      if e.action.KeyRotated? && e.action.key == key
      then Some(Least(LeastAsked(audit, key), e.action.oldExpiresAt)) else LeastAsked(audit, key)
  {
    assert (audit + [e])[..|audit + [e]| - 1] == audit;
  }

  /** It is one of the expiries asked for, and none is lower. */
  lemma {:induction false} LeastAskedMeans(audit: seq<Entry>, key: string)
    ensures LeastAsked(audit, key).Some? <==>
      exists i :: 0 <= i < |audit| && audit[i].action.KeyRotated? && audit[i].action.key == key
    ensures LeastAsked(audit, key).Some? ==>
      exists i :: 0 <= i < |audit| && audit[i].action.KeyRotated? && audit[i].action.key == key &&
        audit[i].action.oldExpiresAt == LeastAsked(audit, key).value
    ensures forall i :: 0 <= i < |audit| && audit[i].action.KeyRotated? && audit[i].action.key == key ==>
      LeastAsked(audit, key).value <= audit[i].action.oldExpiresAt
    decreases |audit|
  {
    if audit == [] {
    } else {
      var before := audit[..|audit| - 1];
      LeastAskedMeans(before, key);
      assert forall i :: 0 <= i < |before| ==> before[i] == audit[i];
    }
  }

  // ---- What every step keeps ----

  predicate WithinKey(outer: Key, inner: Key) {
    && inner.tenantId == outer.tenantId
    && inner.applicationId == outer.applicationId
    && inner.permissions <= outer.permissions
    && Covers(outer.access, inner.access)
  }

  ghost predicate SessionsMatchKeys(s: State) {
    forall c :: c in s.sessions ==>
      c.actor.KeyActor? && c.actor.id in s.store.keys && c == Principal(c.actor.id, s.store.keys[c.actor.id])
  }

  predicate In(keys: map<string, Key>, id: string, tenantId: string, applicationId: string) {
    id in keys && keys[id].tenantId == tenantId && keys[id].applicationId == applicationId
  }

  /**
   * An entry is of its key's tenant and application, and of its actor's when
   * that is a key; and it issues nothing beyond its actor's grant.
   */
  predicate Faithful(keys: map<string, Key>, e: Entry) {
    && In(keys, e.action.key, e.tenantId, e.applicationId)
    && (IssuedBy(e).Some? ==> In(keys, IssuedBy(e).value, e.tenantId, e.applicationId))
    && (e.actor.KeyActor? ==>
          && In(keys, e.actor.id, e.tenantId, e.applicationId)
          && (IssuedBy(e).Some? ==> WithinKey(keys[e.actor.id], keys[IssuedBy(e).value])))
  }

  ghost predicate EntriesFaithful(store: Store) {
    forall i :: 0 <= i < |store.audit| ==> Faithful(store.keys, store.audit[i])
  }

  predicate Accounted(store: Store, key: string) {
    && Issues(store.audit, key) == (if key in store.keys then 1 else 0)
    && Revocations(store.audit, key) == (if key in store.keys && store.keys[key].status.Revoked? then 1 else 0)
    && LeastAsked(store.audit, key) == (if key in store.keys then store.keys[key].expiresAt else None)
  }

  ghost predicate CountsAgree(store: Store) {
    forall key :: Accounted(store, key)
  }

  /** The read of every rotation still holds, but for status and expiry. */
  ghost predicate RotationsMatchKeys(s: State) {
    forall pid :: pid in s.rotations ==> ReadWell(s, s.rotations[pid])
  }

  predicate ReadWell(s: State, r: Rotation) {
    && MayAct(s, r.ctx) && ApplicationInScope(r.ctx, r.applicationId)
    && WithinCallerGrant(r.ctx, r.found.permissions, r.found.access)
    && In(s.store.keys, r.id, r.ctx.tenantId, r.applicationId)
  }

  /** Nothing is done to a key once it is revoked: no rotation, no second revocation. */
  ghost predicate RevocationIsLast(audit: seq<Entry>) {
    forall i, j :: 0 <= i < j < |audit| && audit[i].action.KeyRevoked? ==> audit[j].action.key != audit[i].action.key
  }

  ghost predicate Inv(s: State) {
    SessionsMatchKeys(s) && RotationsMatchKeys(s) && EntriesFaithful(s.store) && CountsAgree(s.store)
  }

  /** A later key table: no key is gone and no grant has changed. */
  ghost predicate GrantsKept(before: map<string, Key>, after: map<string, Key>) {
    forall id :: id in before ==>
      && id in after
      && Principal(id, after[id]) == Principal(id, before[id])
      && after[id].hash == before[id].hash
      && after[id].environment == before[id].environment
  }

  lemma RotateKeepsGrants(s: State, step: Step, hash: Hashing)
    requires step.FinishRotate? && Enabled(s, step)
    ensures GrantsKept(s.store.keys, Next(s, step, hash).store.keys)
  {
  }

  lemma CreateKeepsGrants(s: State, step: Step, hash: Hashing)
    requires step.Create? && Enabled(s, step)
    ensures GrantsKept(s.store.keys, Next(s, step, hash).store.keys)
  {
  }

  lemma OthersKeepGrants(s: State, step: Step, hash: Hashing)
    requires Enabled(s, step) && !step.Create? && !step.FinishRotate?
    ensures GrantsKept(s.store.keys, Next(s, step, hash).store.keys)
  {
  }

  lemma StepKeepsGrants(s: State, step: Step, hash: Hashing)
    requires Enabled(s, step)
    ensures GrantsKept(s.store.keys, Next(s, step, hash).store.keys)
  {
    match step {
      case FinishRotate(_, _, _, _) => RotateKeepsGrants(s, step, hash);
      case Create(_, _, _, _) => CreateKeepsGrants(s, step, hash);
      case _ => OthersKeepGrants(s, step, hash);
    }
  }

  lemma KeptGrantsKeepEntry(before: map<string, Key>, after: map<string, Key>, e: Entry)
    requires GrantsKept(before, after) && Faithful(before, e)
    ensures Faithful(after, e)
  {
    var key := e.action.key;
    assert Principal(key, after[key]) == Principal(key, before[key]);
    if IssuedBy(e).Some? {
      var child := IssuedBy(e).value;
      assert Principal(child, after[child]) == Principal(child, before[child]);
    }
    if e.actor.KeyActor? {
      assert Principal(e.actor.id, after[e.actor.id]) == Principal(e.actor.id, before[e.actor.id]);
    }
  }

  lemma KeptGrantsKeepFaith(before: map<string, Key>, after: map<string, Key>, audit: seq<Entry>)
    requires GrantsKept(before, after)
    requires EntriesFaithful(Store(before, audit))
    ensures EntriesFaithful(Store(after, audit))
  {
    forall i | 0 <= i < |audit| ensures Faithful(after, audit[i]) {
      assert Faithful(before, audit[i]);
      KeptGrantsKeepEntry(before, after, audit[i]);
    }
  }

  lemma StepKeepsSessions(s: State, step: Step, hash: Hashing)
    requires Enabled(s, step) && SessionsMatchKeys(s)
    ensures SessionsMatchKeys(Next(s, step, hash))
  {
    StepKeepsGrants(s, step, hash);
  }

  lemma StepKeepsRotations(s: State, step: Step, hash: Hashing)
    requires Enabled(s, step) && RotationsMatchKeys(s)
    ensures RotationsMatchKeys(Next(s, step, hash))
  {
    StepKeepsGrants(s, step, hash);
    var s' := Next(s, step, hash);
    forall pid | pid in s'.rotations ensures ReadWell(s', s'.rotations[pid]) {
      if pid in s.rotations && s'.rotations[pid] == s.rotations[pid] {
        StillReadWell(s, s', s.rotations[pid]);
      }
    }
  }

  lemma StillReadWell(s: State, s': State, r: Rotation)
    requires ReadWell(s, r) && s.sessions <= s'.sessions && GrantsKept(s.store.keys, s'.store.keys)
    ensures ReadWell(s', r)
  {
    assert Principal(r.id, s'.store.keys[r.id]) == Principal(r.id, s.store.keys[r.id]);
  }

  /** Create: what an API key issues lies within it. */
  lemma CreateIsFaithful(s: State, step: Step, hash: Hashing)
    requires step.Create? && Enabled(s, step) && SessionsMatchKeys(s)
    requires CreateRefusal(s.world, step.ctx, step.applicationId, step.body).None?
    ensures var after := Next(s, step, hash).store;
      Faithful(after.keys, after.audit[|s.store.audit|])
  {
    StepKeepsGrants(s, step, hash);
    var after := Next(s, step, hash).store;
    var e := after.audit[|s.store.audit|];
    if e.actor.KeyActor? {
      assert step.ctx == Principal(e.actor.id, s.store.keys[e.actor.id]);
    }
  }

  /** Rotate: the replacement of a key lies within the key that rotated it. */
  lemma RotateIsFaithful(s: State, step: Step, hash: Hashing)
    requires step.FinishRotate? && Enabled(s, step) && SessionsMatchKeys(s) && RotationsMatchKeys(s)
    ensures var after := Next(s, step, hash).store;
      Faithful(after.keys, after.audit[|s.store.audit|])
  {
    var r := s.rotations[step.pid];
    assert ReadWell(s, r);
    StepKeepsGrants(s, step, hash);
    var after := Next(s, step, hash).store;
    var e := after.audit[|s.store.audit|];
    if e.actor.KeyActor? {
      assert r.ctx == Principal(e.actor.id, s.store.keys[e.actor.id]);
    }
  }

  /** Revoke: only keys of the actor's own application. */
  lemma RevokeIsFaithful(s: State, step: Step, hash: Hashing)
    requires step.Revoke? && Enabled(s, step) && SessionsMatchKeys(s)
    requires Next(s, step, hash).store.audit != s.store.audit
    ensures var after := Next(s, step, hash).store;
      Faithful(after.keys, after.audit[|s.store.audit|])
  {
    StepKeepsGrants(s, step, hash);
    var after := Next(s, step, hash).store;
    var e := after.audit[|s.store.audit|];
    if e.actor.KeyActor? {
      assert step.ctx == Principal(e.actor.id, s.store.keys[e.actor.id]);
    }
  }

  lemma StepKeepsFaith(s: State, step: Step, hash: Hashing)
    requires Enabled(s, step) && SessionsMatchKeys(s) && RotationsMatchKeys(s) && EntriesFaithful(s.store)
    ensures EntriesFaithful(Next(s, step, hash).store)
  {
    StepKeepsGrants(s, step, hash);
    var after := Next(s, step, hash).store;
    KeptGrantsKeepFaith(s.store.keys, after.keys, s.store.audit);
    if after.audit != s.store.audit {
      if step.Create? { CreateIsFaithful(s, step, hash); }
      if step.FinishRotate? { RotateIsFaithful(s, step, hash); }
      if step.Revoke? { RevokeIsFaithful(s, step, hash); }
      forall i | 0 <= i < |after.audit| ensures Faithful(after.keys, after.audit[i]) {
        if i < |s.store.audit| {
          assert after.audit[i] == s.store.audit[i];
          assert Faithful(Store(after.keys, s.store.audit).keys, Store(after.keys, s.store.audit).audit[i]);
        }
      }
    }
  }

  lemma CreationIsAccounted(store: Store, world: Directory, ctx: Context, app: string, body: CreateBody,
                            generated: Generated, hash: string, key: string)
    requires generated.id !in store.keys && Accounted(store, key)
    requires CreateRefusal(world, ctx, app, body).None?
    ensures Accounted(Created(store, world, ctx, app, body, generated, hash), key)
  {
    var e := Entry(ctx.tenantId, app, ctx.actor, KeyCreated(generated.id, body.permissions, body.access.All?));
    Snoc(store.audit, e, key);
    var after := Created(store, world, ctx, app, body, generated, hash);
    assert after.audit == store.audit + [e];
    assert after.keys == store.keys[generated.id := NewKey(ctx, app, body, hash)];
  }

  lemma CreateIsAccounted(s: State, step: Step, hash: Hashing, key: string)
    requires step.Create? && Enabled(s, step) && Accounted(s.store, key)
    ensures Accounted(Next(s, step, hash).store, key)
  {
    if CreateRefusal(s.world, step.ctx, step.applicationId, step.body).None? {
      CreationIsAccounted(s.store, s.world, step.ctx, step.applicationId, step.body, step.generated,
                          hash(step.generated.id, step.generated.secret), key);
    }
  }

  /** What a rotation leaves in the table, key by key. */
  lemma RotatedKeys(store: Store, r: Rotation, expiresAt: int, generated: Generated, hash: string, key: string)
    requires generated.id !in store.keys && In(store.keys, r.id, r.ctx.tenantId, r.applicationId)
    ensures var after := WithReplacement(store, r, expiresAt, generated, hash).keys;
      && (key == generated.id ==> key in after && after[key] == Replacement(r.ctx, r.applicationId, r.found, hash))
      && (key == r.id ==>
            key in after && after[key] == store.keys[key].(expiresAt := Some(Least(store.keys[key].expiresAt, expiresAt))))
      && (key != r.id && key != generated.id ==>
            (key in after <==> key in store.keys) && (key in after ==> after[key] == store.keys[key]))
  {
  }

  lemma RotationIsAccounted(store: Store, r: Rotation, expiresAt: int, generated: Generated, hash: string, key: string)
    requires generated.id !in store.keys && In(store.keys, r.id, r.ctx.tenantId, r.applicationId)
    requires Accounted(store, key)
    ensures Accounted(WithReplacement(store, r, expiresAt, generated, hash), key)
  {
    RotatedKeys(store, r, expiresAt, generated, hash, key);
    Snoc(store.audit, Entry(r.ctx.tenantId, r.applicationId, r.ctx.actor, KeyRotated(r.id, generated.id, expiresAt)), key);
  }

  lemma RotateIsAccounted(s: State, step: Step, hash: Hashing, key: string)
    requires step.FinishRotate? && Enabled(s, step) && RotationsMatchKeys(s) && Accounted(s.store, key)
    ensures Accounted(Next(s, step, hash).store, key)
  {
    assert ReadWell(s, s.rotations[step.pid]);
    RotationIsAccounted(s.store, s.rotations[step.pid], OverlapEnd(step.at, step.overlap), step.generated,
                        hash(step.generated.id, step.generated.secret), key);
  }

  lemma RevokeIsAccounted(s: State, step: Step, hash: Hashing, key: string)
    requires step.Revoke? && Enabled(s, step) && Accounted(s.store, key)
    ensures Accounted(Next(s, step, hash).store, key)
  {
    if Revokes(s.store.keys, step.ctx, step.id) {
      Snoc(s.store.audit, Entry(step.ctx.tenantId, step.applicationId, step.ctx.actor, KeyRevoked(step.id)), key);
    }
  }

  lemma StepKeepsCounts(s: State, step: Step, hash: Hashing)
    requires Enabled(s, step) && RotationsMatchKeys(s) && CountsAgree(s.store)
    ensures CountsAgree(Next(s, step, hash).store)
  {
    forall key ensures Accounted(Next(s, step, hash).store, key) {
      assert Accounted(s.store, key);
      match step {
        case Create(_, _, _, _) => CreateIsAccounted(s, step, hash, key);
        case FinishRotate(_, _, _, _) => RotateIsAccounted(s, step, hash, key);
        case Revoke(_, _, _) => RevokeIsAccounted(s, step, hash, key);
        case _ =>
      }
    }
  }

  lemma StepKeepsInv(s: State, step: Step, hash: Hashing)
    requires Enabled(s, step) && Inv(s)
    ensures Inv(Next(s, step, hash))
  {
    StepKeepsSessions(s, step, hash);
    StepKeepsRotations(s, step, hash);
    StepKeepsFaith(s, step, hash);
    StepKeepsCounts(s, step, hash);
  }

  lemma {:induction false} RunKeepsInv(s: State, steps: seq<Step>, hash: Hashing)
    requires Inv(s) && IsRun(s, steps, hash)
    ensures Inv(After(s, steps, hash))
    decreases |steps|
  {
    if steps == [] {
    } else {
      StepKeepsInv(s, steps[0], hash);
      RunKeepsInv(Next(s, steps[0], hash), steps[1..], hash);
    }
  }

  // ---- Attenuation ----

  lemma WithinTransitive(a: Key, b: Key, c: Key)
    requires WithinKey(a, b) && WithinKey(b, c)
    ensures WithinKey(a, c)
  {
  }

  lemma {:induction false} LineageAttenuates(store: Store, path: seq<string>)
    requires EntriesFaithful(store) && IsLineage(store.audit, path)
    requires path[0] in store.keys
    ensures path[|path| - 1] in store.keys && WithinKey(store.keys[path[0]], store.keys[path[|path| - 1]])
    decreases |path|
  {
    if |path| > 1 {
      var before := path[..|path| - 1];
      LineageAttenuates(store, before);
      assert Issued(store.audit, path[|path| - 2], path[|path| - 1]);
      var i :| 0 <= i < |store.audit| && store.audit[i].actor == KeyActor(path[|path| - 2])
        && IssuedBy(store.audit[i]) == Some(path[|path| - 1]);
      assert Faithful(store.keys, store.audit[i]);
      WithinTransitive(store.keys[path[0]], store.keys[path[|path| - 2]], store.keys[path[|path| - 1]]);
    }
  }

  /**
   * Over every run: whatever a key issued, by creating or rotating, and what
   * those issued in turn, is in its tenant and application and within its
   * permissions and projects.
   */
  lemma Attenuation(world: Directory, now: int, steps: seq<Step>, hash: Hashing, path: seq<string>)
    requires IsRun(Initial(world, now), steps, hash)
    requires var store := After(Initial(world, now), steps, hash).store;
      IsLineage(store.audit, path) && path[0] in store.keys
    ensures var keys := After(Initial(world, now), steps, hash).store.keys;
      path[|path| - 1] in keys && WithinKey(keys[path[0]], keys[path[|path| - 1]])
  {
    RunKeepsInv(Initial(world, now), steps, hash);
    LineageAttenuates(After(Initial(world, now), steps, hash).store, path);
  }

  /**
   * Over every run: what an API key did, it did to keys of its own tenant and
   * application, and every entry is filed under its key's.
   */
  lemma EntriesStayInApplication(world: Directory, now: int, steps: seq<Step>, hash: Hashing)
    requires IsRun(Initial(world, now), steps, hash)
    ensures EntriesFaithful(After(Initial(world, now), steps, hash).store)
  {
    RunKeepsInv(Initial(world, now), steps, hash);
  }

  // ---- The projects of a key were its application's ----

  /** A project with its owner. */
  type Owned = (string, (string, string))

  /** Every project with every owner it had in some state of the run. */
  function OwnedIn(s: State, steps: seq<Step>, hash: Hashing): set<Owned>
    requires IsRun(s, steps, hash)
    decreases |steps|
  {
    (set p | p in s.world.projects :: (p, s.world.projects[p]))
    + if steps == [] then {} else OwnedIn(Next(s, steps[0], hash), steps[1..], hash)
  }

  ghost predicate ListsOwned(keys: map<string, Key>, seen: set<Owned>) {
    forall id, p :: id in keys && keys[id].access.Only? && p in keys[id].access.projects ==>
      (p, (keys[id].tenantId, keys[id].applicationId)) in seen
  }

  /** A rotation under way read a key of the table, but for status and expiry. */
  ghost predicate ReadsKey(s: State, r: Rotation) {
    && r.id in s.store.keys && Principal(r.id, r.found) == Principal(r.id, s.store.keys[r.id])
    && r.found.tenantId == r.ctx.tenantId && r.found.applicationId == r.applicationId
  }

  ghost predicate RotationsReadKeys(s: State) {
    forall pid :: pid in s.rotations ==> ReadsKey(s, s.rotations[pid])
  }

  lemma StepKeepsReads(s: State, step: Step, hash: Hashing)
    requires Enabled(s, step) && RotationsReadKeys(s)
    ensures RotationsReadKeys(Next(s, step, hash))
  {
    StepKeepsGrants(s, step, hash);
    var s' := Next(s, step, hash);
    forall pid | pid in s'.rotations ensures ReadsKey(s', s'.rotations[pid]) {
      if pid in s.rotations && s'.rotations[pid] == s.rotations[pid] {
        StillReads(s, s', s.rotations[pid]);
      }
    }
  }

  lemma StillReads(s: State, s': State, r: Rotation)
    requires ReadsKey(s, r) && GrantsKept(s.store.keys, s'.store.keys)
    ensures ReadsKey(s', r)
  {
    assert Principal(r.id, s'.store.keys[r.id]) == Principal(r.id, s.store.keys[r.id]);
  }

  /** A step issues at most one key: what it lists is the application's now, or was when the key rotated was issued. */
  lemma StepListsOwned(s: State, step: Step, hash: Hashing, seen: set<Owned>)
    requires Enabled(s, step) && RotationsReadKeys(s) && ListsOwned(s.store.keys, seen)
    requires forall p :: p in s.world.projects ==> (p, s.world.projects[p]) in seen
    ensures ListsOwned(Next(s, step, hash).store.keys, seen)
  {
    if step.Create? { CreateAcceptsExactly(s.world, step.ctx, step.applicationId, step.body); }
    if step.FinishRotate? {
      assert ReadsKey(s, s.rotations[step.pid]);
      RotationListsOwned(s.store, s.rotations[step.pid], OverlapEnd(step.at, step.overlap), step.generated,
                         hash(step.generated.id, step.generated.secret), seen);
    }
  }

  lemma RotationListsOwned(store: Store, r: Rotation, expiresAt: int, generated: Generated, hash: string, seen: set<Owned>)
    requires ListsOwned(store.keys, seen) && generated.id !in store.keys
    requires r.id in store.keys && Principal(r.id, r.found) == Principal(r.id, store.keys[r.id])
    requires r.found.tenantId == r.ctx.tenantId && r.found.applicationId == r.applicationId
    ensures ListsOwned(WithReplacement(store, r, expiresAt, generated, hash).keys, seen)
  {
    forall id, p | id in store.keys + map[generated.id := r.found]
      ensures var after := WithReplacement(store, r, expiresAt, generated, hash).keys;
        id in after && (after[id].access.Only? && p in after[id].access.projects ==>
                          (p, (after[id].tenantId, after[id].applicationId)) in seen)
    {
      RotatedKeys(store, r, expiresAt, generated, hash, id);
    }
  }

  lemma {:induction false} RunListsOwned(s: State, steps: seq<Step>, hash: Hashing, seen: set<Owned>)
    requires IsRun(s, steps, hash) && RotationsReadKeys(s) && ListsOwned(s.store.keys, seen)
    ensures ListsOwned(After(s, steps, hash).store.keys, seen + OwnedIn(s, steps, hash))
    decreases |steps|
  {
    if steps == [] {
    } else {
      var now := seen + set p | p in s.world.projects :: (p, s.world.projects[p]);
      StepKeepsReads(s, steps[0], hash);
      StepListsOwned(s, steps[0], hash, now);
      RunListsOwned(Next(s, steps[0], hash), steps[1..], hash, now);
      assert now + OwnedIn(Next(s, steps[0], hash), steps[1..], hash) == seen + OwnedIn(s, steps, hash);
    }
  }

  /**
   * Over every run: each project a key lists was, in some state of the run, a
   * project of the key's own tenant and application.
   */
  lemma ListedProjectsWereOwned(world: Directory, now: int, steps: seq<Step>, hash: Hashing, id: string, p: string)
    requires IsRun(Initial(world, now), steps, hash)
    requires id in After(Initial(world, now), steps, hash).store.keys
    ensures var key := After(Initial(world, now), steps, hash).store.keys[id];
      key.access.Only? && p in key.access.projects ==>
        (p, (key.tenantId, key.applicationId)) in OwnedIn(Initial(world, now), steps, hash)
  {
    RunListsOwned(Initial(world, now), steps, hash, {});
  }

  // ---- The audit trail accounts for every key ----

  /**
   * Over every run: a key exists exactly when one entry issued it, is revoked
   * exactly when one entry says so, and expires at the least time its
   * rotations asked for.
   */
  lemma AuditAccounts(world: Directory, now: int, steps: seq<Step>, hash: Hashing, key: string)
    requires IsRun(Initial(world, now), steps, hash)
    ensures Accounted(After(Initial(world, now), steps, hash).store, key)
  {
    RunKeepsInv(Initial(world, now), steps, hash);
  }

  // ---- What follows a revocation ----

  lemma {:induction false} RevocationsMean(audit: seq<Entry>, key: string)
    ensures Revocations(audit, key) > 0 <==> exists i :: 0 <= i < |audit| && audit[i].action == KeyRevoked(key)
    decreases |audit|
  {
    if audit == [] {
    } else {
      var before := audit[..|audit| - 1];
      RevocationsMean(before, key);
      assert forall i :: 0 <= i < |before| ==> before[i] == audit[i];
    }
  }

  lemma SnocKeepsRevocationsLast(audit: seq<Entry>, e: Entry)
    requires RevocationIsLast(audit)
    ensures RevocationIsLast(audit + [e]) <==>
            forall i :: 0 <= i < |audit| && audit[i].action.KeyRevoked? ==> audit[i].action.key != e.action.key
  {
    var all := audit + [e];
    if RevocationIsLast(all) {
      forall i | 0 <= i < |audit| && audit[i].action.KeyRevoked? ensures audit[i].action.key != e.action.key {
        assert all[i] == audit[i] && all[|audit|] == e;
      }
    }
  }

  /** A rotation commits on a key that was revoked after it was read. */
  predicate RotatesRevoked(s: State, step: Step) {
    && step.FinishRotate? && step.pid in s.rotations
    && s.rotations[step.pid].id in s.store.keys && s.store.keys[s.rotations[step.pid].id].status.Revoked?
  }

  /** No step adds an entry about a revoked key, but such a rotation. */
  lemma StepKeepsRevocationsLast(s: State, step: Step, hash: Hashing)
    requires Enabled(s, step) && Inv(s) && RevocationIsLast(s.store.audit)
    ensures RevocationIsLast(Next(s, step, hash).store.audit) <==> !RotatesRevoked(s, step)
  {
    var before, after := s.store.audit, Next(s, step, hash).store.audit;
    if step.FinishRotate? { assert ReadWell(s, s.rotations[step.pid]); }
    if after != before {
      var key := after[|before|].action.key;
      assert after == before + [after[|before|]];
      assert Accounted(s.store, key);
      RevocationsMean(before, key);
      if step.Create? {
        forall i | 0 <= i < |before| ensures before[i].action.key != key {
          assert Faithful(s.store.keys, before[i]);
        }
      }
      SnocKeepsRevocationsLast(before, after[|before|]);
    }
  }

  lemma StepExtendsAudit(s: State, step: Step, hash: Hashing)
    requires Enabled(s, step)
    ensures s.store.audit <= Next(s, step, hash).store.audit
  {
  }

  lemma {:induction false} RunExtendsAudit(s: State, steps: seq<Step>, hash: Hashing)
    requires IsRun(s, steps, hash)
    ensures s.store.audit <= After(s, steps, hash).store.audit
    decreases |steps|
  {
    if steps == [] {
    } else {
      StepExtendsAudit(s, steps[0], hash);
      RunExtendsAudit(Next(s, steps[0], hash), steps[1..], hash);
    }
  }

  lemma EarlierRevocationsLast(before: seq<Entry>, after: seq<Entry>)
    requires before <= after && RevocationIsLast(after)
    ensures RevocationIsLast(before)
  {
    assert forall i :: 0 <= i < |before| ==> before[i] == after[i];
  }

  /** No rotation of the run commits on a revoked key. */
  predicate NoneRotatesRevoked(s: State, steps: seq<Step>, hash: Hashing)
    requires IsRun(s, steps, hash)
    decreases |steps|
  {
    steps == [] || (!RotatesRevoked(s, steps[0]) && NoneRotatesRevoked(Next(s, steps[0], hash), steps[1..], hash))
  }

  lemma {:induction false} RunKeepsRevocationsLast(s: State, steps: seq<Step>, hash: Hashing)
    requires Inv(s) && IsRun(s, steps, hash) && RevocationIsLast(s.store.audit)
    ensures RevocationIsLast(After(s, steps, hash).store.audit) <==> NoneRotatesRevoked(s, steps, hash)
    decreases |steps|
  {
    if steps == [] {
    } else {
      var s' := Next(s, steps[0], hash);
      StepKeepsInv(s, steps[0], hash);
      StepKeepsRevocationsLast(s, steps[0], hash);
      if RotatesRevoked(s, steps[0]) {
        RunExtendsAudit(s', steps[1..], hash);
        if RevocationIsLast(After(s', steps[1..], hash).store.audit) {
          EarlierRevocationsLast(s'.store.audit, After(s', steps[1..], hash).store.audit);
        }
      } else {
        RunKeepsRevocationsLast(s', steps[1..], hash);
      }
    }
  }

  /**
   * Over every run: nothing follows a key's revocation in its history, if and
   * only if no rotation commits on a key that was revoked after it read it.
   */
  lemma RevocationEndsItsHistoryExactly(world: Directory, now: int, steps: seq<Step>, hash: Hashing)
    requires IsRun(Initial(world, now), steps, hash)
    ensures RevocationIsLast(After(Initial(world, now), steps, hash).store.audit) <==>
            NoneRotatesRevoked(Initial(world, now), steps, hash)
  {
    RunKeepsRevocationsLast(Initial(world, now), steps, hash);
  }

  /** Each rotation commits right after its read. */
  predicate RotatesAtOnce(steps: seq<Step>) {
    forall i :: 0 < i < |steps| && steps[i].FinishRotate? ==> steps[i - 1].BeginRotate? && steps[i - 1].pid == steps[i].pid
  }

  lemma {:induction false} AtOnceRotatesNoneRevoked(s: State, steps: seq<Step>, hash: Hashing)
    requires IsRun(s, steps, hash) && RotatesAtOnce(steps)
    requires steps != [] ==> !RotatesRevoked(s, steps[0])
    ensures NoneRotatesRevoked(s, steps, hash)
    decreases |steps|
  {
    if steps == [] {
    } else {
      var s' := Next(s, steps[0], hash);
      assert |steps| > 1 ==> Enabled(s', steps[1]) && steps[1..][0] == steps[1];
      assert forall i :: 0 < i < |steps[1..]| ==> steps[1..][i] == steps[i + 1] && steps[1..][i - 1] == steps[i];
      AtOnceRotatesNoneRevoked(s', steps[1..], hash);
    }
  }

  /** So nothing follows a revocation where rotations are one step each. */
  lemma RevocationEndsItsHistory(world: Directory, now: int, steps: seq<Step>, hash: Hashing)
    requires IsRun(Initial(world, now), steps, hash) && RotatesAtOnce(steps)
    ensures RevocationIsLast(After(Initial(world, now), steps, hash).store.audit)
  {
    AtOnceRotatesNoneRevoked(Initial(world, now), steps, hash);
    RevocationEndsItsHistoryExactly(world, now, steps, hash);
  }

  /** An input: a rotation reads an active key, the key is revoked, and the rotation commits a replacement that works. */
  lemma RevokedKeyIsRotated(hash: Hashing) returns (world: Directory, steps: seq<Step>)
    ensures IsRun(Initial(world, 0), steps, hash)
    ensures var last := After(Initial(world, 0), steps, hash);
      && !RevocationIsLast(last.store.audit)
      && "k" in last.store.keys && last.store.keys["k"].status.Revoked?
      && Authenticate(last.store.keys, last.world, last.now, hash, Some(Presented(Live, "new", "secret"))).Some?
  {
    world := Directory(map["t" := true], map[("t", "a") := true], map[]);
    var ctx := Context("t", None, SystemActor, {}, All);
    var create := Create(ctx, "a", CreateBody("name", Live, {}, All), Generated("k", "secret"));
    var begin, revoke := BeginRotate(0, ctx, "a", "k"), Step.Revoke(ctx, "a", "k");
    var finish := FinishRotate(0, None, 0, Generated("new", "secret"));
    steps := [create, begin, revoke, finish];
    var s0 := Initial(world, 0);
    var s1 := Next(s0, create, hash);
    var key := s1.store.keys["k"];
    var s2 := Next(s1, begin, hash);
    assert s2 == s1.(rotations := map[0 := Rotation(ctx, "a", "k", key)]);
    var s3 := Next(s2, revoke, hash);
    assert s3.store.keys["k"] == key.(status := Revoked) && s3.rotations == s2.rotations;
    var s4 := Next(s3, finish, hash);
    RunCons(s3, finish, [], hash);
    RunCons(s2, revoke, [finish], hash);
    RunCons(s1, begin, [revoke, finish], hash);
    RunCons(s0, create, [begin, revoke, finish], hash);
    assert steps == [create] + [begin, revoke, finish];
    RevocationEndsItsHistoryExactly(world, 0, steps, hash);
  }

  lemma RunCons(s: State, step: Step, rest: seq<Step>, hash: Hashing)
    requires Enabled(s, step) && IsRun(Next(s, step, hash), rest, hash)
    ensures IsRun(s, [step] + rest, hash)
    ensures After(s, [step] + rest, hash) == After(Next(s, step, hash), rest, hash)
    ensures NoneRotatesRevoked(s, [step] + rest, hash) <==>
            !RotatesRevoked(s, step) && NoneRotatesRevoked(Next(s, step, hash), rest, hash)
  {
    assert ([step] + rest)[0] == step && ([step] + rest)[1..] == rest;
  }

  // ---- Death is permanent ----

  predicate Dead(s: State, id: string) {
    id in s.store.keys && (s.store.keys[id].status.Revoked? || Expired(s.store.keys[id], s.now))
  }

  lemma StepKeepsDead(s: State, step: Step, hash: Hashing, id: string)
    requires Enabled(s, step) && Dead(s, id)
    ensures Dead(Next(s, step, hash), id)
  {
  }

  lemma {:induction false} RunKeepsDead(s: State, steps: seq<Step>, hash: Hashing, id: string)
    requires IsRun(s, steps, hash) && Dead(s, id)
    ensures Dead(After(s, steps, hash), id)
    decreases |steps|
  {
    if steps == [] {
    } else {
      StepKeepsDead(s, steps[0], hash, id);
      RunKeepsDead(Next(s, steps[0], hash), steps[1..], hash, id);
    }
  }

  /** A key once revoked or expired never authenticates again, whatever happens. */
  lemma DeathIsPermanent(s: State, steps: seq<Step>, hash: Hashing, p: Presented)
    requires IsRun(s, steps, hash) && Dead(s, p.id)
    ensures var later := After(s, steps, hash);
      Authenticate(later.store.keys, later.world, later.now, hash, Some(p)) == None
  {
    RunKeepsDead(s, steps, hash, p.id);
  }

  /** No key authenticates once the clock has reached its expiry, while it is suspended, or while its tenancy is not active. */
  lemma RefusedMeanwhile(s: State, hash: Hashing, p: Presented, now: int, world: Directory)
    requires p.id in s.store.keys && s.now <= now
    ensures var key := s.store.keys[p.id];
      var ticked, suspended, changed := Next(s, Tick(now), hash), Next(s, Suspend(p.id), hash), Next(s, Change(world), hash);
      && (key.expiresAt.Some? && key.expiresAt.value <= now ==>
            Authenticate(ticked.store.keys, ticked.world, ticked.now, hash, Some(p)) == None)
      && Authenticate(suspended.store.keys, suspended.world, suspended.now, hash, Some(p)) == None
      && (!TenancyActive(world, key) ==>
            Authenticate(changed.store.keys, changed.world, changed.now, hash, Some(p)) == None)
  {
  }

  /** Suspending an active key and resuming it leaves everything as it was. */
  lemma ResumingUndoesSuspending(s: State, hash: Hashing, id: string)
    requires id in s.store.keys && s.store.keys[id].status == Active
    ensures Next(Next(s, Suspend(id), hash), Resume(id), hash) == s
  {
    var suspended := Next(s, Suspend(id), hash);
    assert Next(suspended, Resume(id), hash).store.keys == s.store.keys;
  }

  lemma {:induction false} RunKeepsGrants(s: State, steps: seq<Step>, hash: Hashing)
    requires IsRun(s, steps, hash)
    ensures GrantsKept(s.store.keys, After(s, steps, hash).store.keys)
    decreases |steps|
  {
    if steps == [] {
    } else {
      StepKeepsGrants(s, steps[0], hash);
      RunKeepsGrants(Next(s, steps[0], hash), steps[1..], hash);
    }
  }

  /** While it lives, a key proves the same principal it always did. */
  lemma PrincipalIsStable(s: State, steps: seq<Step>, hash: Hashing, p: Presented)
    requires IsRun(s, steps, hash)
    requires Authenticate(s.store.keys, s.world, s.now, hash, Some(p)).Some?
    ensures var later := After(s, steps, hash);
      var again := Authenticate(later.store.keys, later.world, later.now, hash, Some(p));
      again.Some? ==> again == Authenticate(s.store.keys, s.world, s.now, hash, Some(p))
  {
    RunKeepsGrants(s, steps, hash);
    assert Principal(p.id, After(s, steps, hash).store.keys[p.id]) == Principal(p.id, s.store.keys[p.id]);
  }
}
