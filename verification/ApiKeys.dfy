// API keys: issue, rotation, revocation and authentication, each change
// committed together with its audit entry.
module ApiKeys {
  import opened Wrappers

  datatype Environment = Live | Test

  /** Every project of the application, or these. */
  datatype Access = All | Only(projects: set<string>)

  datatype Actor = KeyActor(id: string) | UserActor(id: string) | SystemActor

  datatype Context = Context(tenantId: string, applicationId: Option<string>, actor: Actor,
                             permissions: set<string>, access: Access)

  datatype Status = Active | Suspended | Revoked

  datatype Key = Key(tenantId: string, applicationId: string, name: string, environment: Environment,
                     hash: string, permissions: set<string>, access: Access,
                     status: Status, expiresAt: Option<int>, createdBy: Option<string>)

  datatype Action =
    | KeyCreated(key: string, permissions: set<string>, allProjects: bool)
    | KeyRotated(key: string, replacement: string, oldExpiresAt: int)
    | KeyRevoked(key: string)

  datatype Entry = Entry(tenantId: string, applicationId: string, actor: Actor, action: Action)

  datatype Store = Store(keys: map<string, Key>, audit: seq<Entry>)

  /** The live tenants and applications, true when active, and the owner of each live project. */
  datatype Directory = Directory(tenants: map<string, bool>, applications: map<(string, string), bool>,
                                 projects: map<string, (string, string)>)

  datatype AppError = ApplicationNotFound | PermissionDenied | ProjectNotFound | KeyNotFound | InvalidState

  datatype CreateBody = CreateBody(name: string, environment: Environment, permissions: set<string>, access: Access)

  /** A generated id and secret; with the environment they are the plaintext. */
  datatype Generated = Generated(id: string, secret: string)

  datatype Presented = Presented(environment: Environment, id: string, secret: string)

  const DEFAULT_ROTATION_OVERLAP_SECONDS := 86400

  // ---- Guards ----

  predicate ApplicationInScope(ctx: Context, applicationId: string) {
    ctx.applicationId.None? || ctx.applicationId.value == applicationId
  }

  predicate Covers(outer: Access, inner: Access) {
    outer.All? || (inner.Only? && inner.projects <= outer.projects)
  }

  predicate WithinCallerGrant(ctx: Context, permissions: set<string>, access: Access) {
    ctx.actor.SystemActor? || (permissions <= ctx.permissions && Covers(ctx.access, access))
  }

  predicate ProjectsFound(world: Directory, ctx: Context, applicationId: string, access: Access) {
    access.Only? ==>
      forall p :: p in access.projects ==> p in world.projects && world.projects[p] == (ctx.tenantId, applicationId)
  }

  function FindById(keys: map<string, Key>, ctx: Context, applicationId: string, id: string): Option<Key> {
    if id in keys && keys[id].tenantId == ctx.tenantId && keys[id].applicationId == applicationId
    then Some(keys[id]) else None
  }

  // ---- The repository's statements ----

  /** least() ignores NULL. */
  function Least(current: Option<int>, at: int): int {
    if current.Some? && current.value < at then current.value else at
  }

  function ExpiredBy(keys: map<string, Key>, ctx: Context, id: string, at: int): map<string, Key> {
    if id in keys && keys[id].tenantId == ctx.tenantId
    then keys[id := keys[id].(expiresAt := Some(Least(keys[id].expiresAt, at)))] else keys
  }

  predicate Revokes(keys: map<string, Key>, ctx: Context, id: string) {
    id in keys && keys[id].tenantId == ctx.tenantId && !keys[id].status.Revoked?
  }

  function AfterRevoke(keys: map<string, Key>, ctx: Context, id: string): map<string, Key> {
    if Revokes(keys, ctx, id) then keys[id := keys[id].(status := Revoked)] else keys
  }

  function CreatorOf(ctx: Context): Option<string> {
    if ctx.actor.UserActor? then Some(ctx.actor.id) else None
  }

  // ---- The service's transactions ----

  function NewKey(ctx: Context, applicationId: string, body: CreateBody, hash: string): Key {
    Key(ctx.tenantId, applicationId, body.name, body.environment, hash, body.permissions, body.access,
        Active, None, CreatorOf(ctx))
  }

  function Replacement(ctx: Context, applicationId: string, rotated: Key, hash: string): Key {
    NewKey(ctx, applicationId, CreateBody(rotated.name, rotated.environment, rotated.permissions, rotated.access), hash)
  }

  function CreateRefusal(world: Directory, ctx: Context, applicationId: string, body: CreateBody): Option<AppError> {
    if !ApplicationInScope(ctx, applicationId) then Some(ApplicationNotFound)
    else if !WithinCallerGrant(ctx, body.permissions, body.access) then Some(PermissionDenied)
    else if (ctx.tenantId, applicationId) !in world.applications then Some(ApplicationNotFound)
    else if !ProjectsFound(world, ctx, applicationId, body.access) then Some(ProjectNotFound)
    else None
  }

  function RotateRefusal(keys: map<string, Key>, ctx: Context, applicationId: string, id: string): Option<AppError> {
    var found := FindById(keys, ctx, applicationId, id);
    if !ApplicationInScope(ctx, applicationId) then Some(ApplicationNotFound)
    else if found.None? then Some(KeyNotFound)
    else if !WithinCallerGrant(ctx, found.value.permissions, found.value.access) then Some(PermissionDenied)
    else if !found.value.status.Active? then Some(InvalidState)
    else None
  }

  function RequireRefusal(keys: map<string, Key>, ctx: Context, applicationId: string, id: string): Option<AppError> {
    if !ApplicationInScope(ctx, applicationId) then Some(ApplicationNotFound)
    else if FindById(keys, ctx, applicationId, id).None? then Some(KeyNotFound)
    else None
  }

  function Created(store: Store, world: Directory, ctx: Context, applicationId: string, body: CreateBody,
                   generated: Generated, hash: string): Store {
    if CreateRefusal(world, ctx, applicationId, body).Some? then store
    else Store(store.keys[generated.id := NewKey(ctx, applicationId, body, hash)],
               store.audit + [Entry(ctx.tenantId, applicationId, ctx.actor,
                                    KeyCreated(generated.id, body.permissions, body.access.All?))])
  }

  function OverlapEnd(now: int, overlap: Option<nat>): int {
    now + 1000 * if overlap.Some? then overlap.value else DEFAULT_ROTATION_OVERLAP_SECONDS
  }

  /** A rotation let through, with the key as it was read. */
  datatype Rotation = Rotation(ctx: Context, applicationId: string, id: string, found: Key)

  function WithReplacement(store: Store, r: Rotation, expiresAt: int, generated: Generated, hash: string): Store {
    var added := store.keys[generated.id := Replacement(r.ctx, r.applicationId, r.found, hash)];
    Store(ExpiredBy(added, r.ctx, r.id, expiresAt),
          store.audit + [Entry(r.ctx.tenantId, r.applicationId, r.ctx.actor, KeyRotated(r.id, generated.id, expiresAt))])
  }

  function Rotated(store: Store, ctx: Context, applicationId: string, id: string, overlap: Option<nat>,
                   now: int, generated: Generated, hash: string): Store {
    if RotateRefusal(store.keys, ctx, applicationId, id).Some? then store
    else WithReplacement(store, Rotation(ctx, applicationId, id, store.keys[id]), OverlapEnd(now, overlap), generated, hash)
  }

  function AfterRevocation(store: Store, ctx: Context, applicationId: string, id: string): Store {
    if RequireRefusal(store.keys, ctx, applicationId, id).Some? || !Revokes(store.keys, ctx, id) then store
    else Store(AfterRevoke(store.keys, ctx, id),
               store.audit + [Entry(ctx.tenantId, applicationId, ctx.actor, KeyRevoked(id))])
  }

  // ---- Authentication ----

  predicate TenancyActive(world: Directory, key: Key) {
    && (key.tenantId, key.applicationId) in world.applications
    && world.applications[(key.tenantId, key.applicationId)]
    && key.tenantId in world.tenants
    && world.tenants[key.tenantId]
  }

  predicate Expired(key: Key, now: int) {
    key.expiresAt.Some? && key.expiresAt.value <= now
  }

  function Principal(id: string, key: Key): Context {
    Context(key.tenantId, Some(key.applicationId), KeyActor(id), key.permissions, key.access)
  }

  function Authenticate(keys: map<string, Key>, world: Directory, now: int, hash: (string, string) -> string,
                        presented: Option<Presented>): Option<Context> {
    if presented.None? || presented.value.id !in keys then None
    else
      var p, key := presented.value, keys[presented.value.id];
      if (key.tenantId, key.applicationId) !in world.applications || key.tenantId !in world.tenants then None
      else if key.hash != hash(p.id, p.secret) then None
      else if key.environment != p.environment then None
      else if !key.status.Active? || !world.applications[(key.tenantId, key.applicationId)] then None
      else if !world.tenants[key.tenantId] then None
      else if Expired(key, now) then None
      else Some(Principal(p.id, key))
  }

  /** The api_keys table. */
  class ApiKeyRepository {
    var keys: map<string, Key>

    constructor ()
      ensures keys == map[]
    {
      keys := map[];
    }

    method Insert(id: string, key: Key)
      requires id !in keys
      modifies this
      ensures keys == old(keys)[id := key]
    {
      keys := keys[id := key];
    }

    /** Shortens, never extends, a key's life. */
    method ExpireBy(ctx: Context, id: string, at: int)
      modifies this
      ensures keys == ExpiredBy(old(keys), ctx, id, at)
      ensures forall k :: k in keys && Expired(old(keys)[k], at) ==> keys[k] == old(keys)[k]
    {
      if id in keys && keys[id].tenantId == ctx.tenantId {
        var key := keys[id];
        keys := keys[id := key.(expiresAt := Some(Least(key.expiresAt, at)))];
      }
    }

    /** Whether this call revoked the key. */
    method Revoke(ctx: Context, id: string) returns (changed: bool)
      modifies this
      ensures changed == Revokes(old(keys), ctx, id)
      ensures keys == AfterRevoke(old(keys), ctx, id)
    {
      changed := id in keys && keys[id].tenantId == ctx.tenantId && !keys[id].status.Revoked?;
      if changed {
        keys := keys[id := keys[id].(status := Status.Revoked)];
      }
    }
  }

  /** The audit trail: entries are only ever appended. */
  class AuditLog {
    var entries: seq<Entry>

    constructor ()
      ensures entries == []
    {
      entries := [];
    }

    method WriteEntries(ctx: Context, applicationId: string, actions: seq<Action>)
      modifies this
      ensures entries == old(entries) + seq(|actions|, i requires 0 <= i < |actions| =>
        Entry(ctx.tenantId, applicationId, ctx.actor, actions[i]))
    {
      entries := entries + seq(|actions|, i requires 0 <= i < |actions| =>
        Entry(ctx.tenantId, applicationId, ctx.actor, actions[i]));
    }
  }

  class ApiKeyService {
    const repository: ApiKeyRepository
    const log: AuditLog
    const hash: (string, string) -> string
    var seen: set<string>

    constructor (repository: ApiKeyRepository, log: AuditLog, hash: (string, string) -> string)
      ensures this.repository == repository && this.log == log && this.hash == hash && seen == {}
    {
      this.repository := repository;
      this.log := log;
      this.hash := hash;
      this.seen := {};
    }

    function Stored(): Store
      reads repository, log
    {
      Store(repository.keys, log.entries)
    }

    /** The change and its audit entry together, or neither. */
    method Create(world: Directory, ctx: Context, applicationId: string, body: CreateBody, generated: Generated)
      returns (r: Result<Presented, AppError>)
      requires generated.id !in repository.keys
      modifies repository, log
      ensures Stored() == Created(old(Stored()), world, ctx, applicationId, body, generated,
                                  hash(generated.id, generated.secret))
      ensures r == match CreateRefusal(world, ctx, applicationId, body)
                   case Some(e) => Err(e)
                   case None => Ok(Presented(body.environment, generated.id, generated.secret))
    {
      if !ApplicationInScope(ctx, applicationId) { return Err(ApplicationNotFound); }
      if !WithinCallerGrant(ctx, body.permissions, body.access) { return Err(PermissionDenied); }
      if (ctx.tenantId, applicationId) !in world.applications { return Err(ApplicationNotFound); }
      if !ProjectsFound(world, ctx, applicationId, body.access) { return Err(ProjectNotFound); }
      repository.Insert(generated.id, NewKey(ctx, applicationId, body, hash(generated.id, generated.secret)));
      log.WriteEntries(ctx, applicationId, [KeyCreated(generated.id, body.permissions, body.access.All?)]);
      r := Ok(Presented(body.environment, generated.id, generated.secret));
    }

    method Rotate(ctx: Context, applicationId: string, id: string, overlap: Option<nat>, now: int, generated: Generated)
      returns (r: Result<Presented, AppError>)
      requires generated.id !in repository.keys
      modifies repository, log
      ensures Stored() == Rotated(old(Stored()), ctx, applicationId, id, overlap, now, generated,
                                  hash(generated.id, generated.secret))
      ensures r == match RotateRefusal(old(repository.keys), ctx, applicationId, id)
                   case Some(e) => Err(e)
                   case None => Ok(Presented(old(repository.keys)[id].environment, generated.id, generated.secret))
    {
      if !ApplicationInScope(ctx, applicationId) { return Err(ApplicationNotFound); }
      var found := FindById(repository.keys, ctx, applicationId, id);
      if found.None? { return Err(KeyNotFound); }
      var key := found.value;
      if !WithinCallerGrant(ctx, key.permissions, key.access) { return Err(PermissionDenied); }
      if !key.status.Active? { return Err(InvalidState); }
      repository.Insert(generated.id, Replacement(ctx, applicationId, key, hash(generated.id, generated.secret)));
      var oldExpiresAt := OverlapEnd(now, overlap);
      repository.ExpireBy(ctx, id, oldExpiresAt);
      log.WriteEntries(ctx, applicationId, [KeyRotated(id, generated.id, oldExpiresAt)]);
      r := Ok(Presented(key.environment, generated.id, generated.secret));
    }

    /** A repeat changes nothing and records nothing. */
    method Revoke(ctx: Context, applicationId: string, id: string) returns (r: Result<Key, AppError>)
      modifies repository, log
      ensures Stored() == AfterRevocation(old(Stored()), ctx, applicationId, id)
      ensures r == match RequireRefusal(old(repository.keys), ctx, applicationId, id)
                   case Some(e) => Err(e)
                   case None => Ok(old(repository.keys)[id].(status := Status.Revoked))
    {
      if !ApplicationInScope(ctx, applicationId) { return Err(ApplicationNotFound); }
      if FindById(repository.keys, ctx, applicationId, id).None? { return Err(KeyNotFound); }
      var changed := repository.Revoke(ctx, id);
      log.WriteEntries(ctx, applicationId, if changed then [KeyRevoked(id)] else []);
      var again := FindById(repository.keys, ctx, applicationId, id);
      r := Ok(again.value);
    }

    method SignIn(world: Directory, now: int, presented: Option<Presented>) returns (r: Option<Context>)
      modifies this`seen
      ensures r == Authenticate(repository.keys, world, now, hash, presented)
      ensures seen == old(seen) + if r.Some? then {presented.value.id} else {}
    {
      r := Authenticate(repository.keys, world, now, hash, presented);
      if r.Some? { seen := seen + {presented.value.id}; }
    }
  }

  // ---- What each decision means ----

  /**
   * Issue: accepted exactly for an application in the caller's scope that its
   * tenant has, a grant within the caller's, and projects of that application;
   * and what is missing decides the error, in this order.
   */
  lemma CreateAcceptsExactly(world: Directory, ctx: Context, applicationId: string, body: CreateBody)
    ensures var r := CreateRefusal(world, ctx, applicationId, body);
      var inScope := ctx.applicationId == None || ctx.applicationId == Some(applicationId);
      var within :=
        || ctx.actor == SystemActor
        || (&& (forall p :: p in body.permissions ==> p in ctx.permissions)
            && (ctx.access.Only? ==> body.access.Only? && forall p :: p in body.access.projects ==> p in ctx.access.projects));
      var known := (ctx.tenantId, applicationId) in world.applications;
      var found := body.access.Only? ==> forall p :: p in body.access.projects ==>
        p in world.projects && world.projects[p] == (ctx.tenantId, applicationId);
      && (r == None <==> inScope && within && known && found)
      && (r == Some(ApplicationNotFound) <==> !inScope || (within && !known))
      && (r == Some(PermissionDenied) <==> inScope && !within)
      && (r == Some(ProjectNotFound) <==> inScope && within && known && !found)
  {
  }

  /** What issuing leaves: one key more, the caller's, active, without an expiry, as asked; and one entry that says so. */
  lemma CreatedMeans(store: Store, world: Directory, ctx: Context, applicationId: string, body: CreateBody,
                     generated: Generated, hash: string, other: string)
    ensures var after := Created(store, world, ctx, applicationId, body, generated, hash);
      && (CreateRefusal(world, ctx, applicationId, body).Some? ==> after == store)
      && (CreateRefusal(world, ctx, applicationId, body).None? ==>
            && generated.id in after.keys
            && after.keys[generated.id] == Key(
                 ctx.tenantId, applicationId, body.name, body.environment, hash, body.permissions, body.access, Active, None,
                 match ctx.actor case UserActor(id) => Some(id) case _ => None)
            && (other != generated.id ==>
                  && (other in after.keys <==> other in store.keys)
                  && (other in after.keys ==> after.keys[other] == store.keys[other]))
            && after.audit == store.audit + [Entry(ctx.tenantId, applicationId, ctx.actor,
                                                   KeyCreated(generated.id, body.permissions, body.access == All))])
  {
  }

  /** Rotation: what is missing decides the error, in this order. */
  lemma RotateAcceptsExactly(keys: map<string, Key>, ctx: Context, applicationId: string, id: string)
    ensures var r := RotateRefusal(keys, ctx, applicationId, id);
      var inScope := ctx.applicationId == None || ctx.applicationId == Some(applicationId);
      var found := id in keys && keys[id].tenantId == ctx.tenantId && keys[id].applicationId == applicationId;
      var within := found ==>
        || ctx.actor == SystemActor
        || (&& (forall p :: p in keys[id].permissions ==> p in ctx.permissions)
            && (ctx.access.Only? ==>
                  keys[id].access.Only? && forall p :: p in keys[id].access.projects ==> p in ctx.access.projects));
      && (r == None <==> inScope && found && within && keys[id].status == Active)
      && (r == Some(ApplicationNotFound) <==> !inScope)
      && (r == Some(KeyNotFound) <==> inScope && !found)
      && (r == Some(PermissionDenied) <==> inScope && found && !within)
      && (r == Some(InvalidState) <==> inScope && found && within && keys[id].status != Active)
  {
  }

  /** What revoking leaves: the key revoked and, only if it was not, one entry; nothing for a key not found in scope. */
  lemma RevocationMeans(store: Store, ctx: Context, applicationId: string, id: string, other: string)
    ensures var after := AfterRevocation(store, ctx, applicationId, id);
      var inScope := ctx.applicationId == None || ctx.applicationId == Some(applicationId);
      var found :=
        id in store.keys && store.keys[id].tenantId == ctx.tenantId && store.keys[id].applicationId == applicationId;
      && (RequireRefusal(store.keys, ctx, applicationId, id) ==
            if !inScope then Some(ApplicationNotFound) else if !found then Some(KeyNotFound) else None)
      && (!inScope || !found || store.keys[id].status == Revoked <==> after == store)
      && (inScope && found ==> id in after.keys && after.keys[id] == store.keys[id].(status := Revoked))
      && (after != store ==> after.audit == store.audit + [Entry(ctx.tenantId, applicationId, ctx.actor, KeyRevoked(id))])
      && (other != id ==>
            (other in after.keys <==> other in store.keys) && (other in after.keys ==> after.keys[other] == store.keys[other]))
  {
    if Revokes(store.keys, ctx, id) {
      assert |store.audit + [Entry(ctx.tenantId, applicationId, ctx.actor, KeyRevoked(id))]| != |store.audit|;
    }
  }

  /** A presented key proves a principal exactly when all of this holds, and then its own. */
  lemma AuthenticatesExactly(keys: map<string, Key>, world: Directory, now: int, hash: (string, string) -> string,
                             presented: Option<Presented>)
    ensures var r := Authenticate(keys, world, now, hash, presented);
      && (r.Some? <==>
            && presented.Some? && presented.value.id in keys
            && var p, key := presented.value, keys[presented.value.id];
               && key.hash == hash(p.id, p.secret) && key.environment == p.environment && key.status == Active
               && (key.expiresAt == None || now < key.expiresAt.value)
               && key.tenantId in world.tenants && world.tenants[key.tenantId]
               && (key.tenantId, key.applicationId) in world.applications
               && world.applications[(key.tenantId, key.applicationId)])
      && (r.Some? ==>
            var key := keys[presented.value.id];
            r.value == Context(key.tenantId, Some(key.applicationId), KeyActor(presented.value.id), key.permissions, key.access))
  {
  }

  /** A key just issued works, with its grant, exactly for its own secret and environment while its tenancy is active. */
  lemma IssuedKeyAuthenticates(store: Store, world: Directory, ctx: Context, applicationId: string, body: CreateBody,
                               generated: Generated, hash: (string, string) -> string, later: Directory, now: int,
                               p: Presented)
    requires CreateRefusal(world, ctx, applicationId, body).None? && p.id == generated.id
    ensures var issued := Created(store, world, ctx, applicationId, body, generated, hash(generated.id, generated.secret));
      Authenticate(issued.keys, later, now, hash, Some(p)) ==
        if && TenancyActive(later, issued.keys[generated.id])
           && p.environment == body.environment
           && hash(p.id, p.secret) == hash(generated.id, generated.secret)
        then Some(Context(ctx.tenantId, Some(applicationId), KeyActor(generated.id), body.permissions, body.access))
        else None
  {
  }

  /**
   * Rotation: the replacement has the old key's grant, and the old key goes on
   * working until the overlap ends, or until it would have ended anyway.
   */
  lemma RotationOverlaps(store: Store, ctx: Context, applicationId: string, id: string, overlap: Option<nat>, now: int,
                         generated: Generated, hash: string, world: Directory, later: int,
                         hashing: (string, string) -> string, p: Presented)
    requires generated.id !in store.keys && p.id == id
    requires RotateRefusal(store.keys, ctx, applicationId, id).None?
    ensures var rotated := Rotated(store, ctx, applicationId, id, overlap, now, generated, hash);
      && rotated.keys[generated.id].permissions == store.keys[id].permissions
      && rotated.keys[generated.id].access == store.keys[id].access
      && rotated.keys[generated.id].environment == store.keys[id].environment
      && rotated.keys[generated.id].expiresAt == None
      && (Authenticate(rotated.keys, world, later, hashing, Some(p)) ==
            if later < now + (match overlap case Some(seconds) => seconds * 1000 case None => 24 * 3600 * 1000)
            then Authenticate(store.keys, world, later, hashing, Some(p)) else None)
  {
    var rotated := Rotated(store, ctx, applicationId, id, overlap, now, generated, hash);
    assert rotated.keys[id] == store.keys[id].(expiresAt := Some(Least(store.keys[id].expiresAt, OverlapEnd(now, overlap))));
  }

  // ---- What rotation does not ask, and what its entry does not say ----

  /** Rotation goes by scope, grant and status: an expiry, passed or not, decides nothing. */
  lemma RotationIgnoresExpiry(keys: map<string, Key>, ctx: Context, applicationId: string, id: string, expiresAt: Option<int>)
    requires id in keys
    ensures RotateRefusal(keys[id := keys[id].(expiresAt := expiresAt)], ctx, applicationId, id) ==
            RotateRefusal(keys, ctx, applicationId, id)
    ensures RotateRefusal(keys, ctx, applicationId, id).None? <==>
      && ApplicationInScope(ctx, applicationId)
      && keys[id].tenantId == ctx.tenantId && keys[id].applicationId == applicationId
      && WithinCallerGrant(ctx, keys[id].permissions, keys[id].access)
      && keys[id].status.Active?
  {
  }

  /** So a key that no longer authenticates can be rotated, into one that does. */
  lemma ExpiredKeyIsRotated(store: Store, ctx: Context, applicationId: string, id: string, overlap: Option<nat>, now: int,
                            generated: Generated, hash: (string, string) -> string, world: Directory, p: Presented)
    requires generated.id !in store.keys && RotateRefusal(store.keys, ctx, applicationId, id).None?
    requires Expired(store.keys[id], now) && p.id == id
    ensures var rotated := Rotated(store, ctx, applicationId, id, overlap, now, generated, hash(generated.id, generated.secret));
      var presented := Presented(store.keys[id].environment, generated.id, generated.secret);
      && Authenticate(store.keys, world, now, hash, Some(p)) == None
      && Authenticate(rotated.keys, world, now, hash, Some(p)) == None
      && Authenticate(rotated.keys, world, now, hash, Some(presented)) ==
           if TenancyActive(world, rotated.keys[generated.id])
           then Some(Context(ctx.tenantId, Some(applicationId), KeyActor(generated.id),
                             store.keys[id].permissions, store.keys[id].access))
           else None
  {
    var rotated := Rotated(store, ctx, applicationId, id, overlap, now, generated, hash(generated.id, generated.secret));
    assert rotated.keys[id] == store.keys[id].(expiresAt := Some(Least(store.keys[id].expiresAt, OverlapEnd(now, overlap))));
  }

  /** An input: an active key past its expiry, rotated by the platform. */
  lemma SomeExpiredKeyCanBeRotated()
    ensures exists keys: map<string, Key>, ctx: Context, applicationId: string, id: string, now: int ::
      id in keys && Expired(keys[id], now) && RotateRefusal(keys, ctx, applicationId, id).None?
  {
    var key := Key("t", "a", "name", Live, "hash", {}, All, Active, Some(0), None);
    var keys := map["k" := key];
    var ctx := Context("t", None, SystemActor, {}, All);
    assert "k" in keys && Expired(keys["k"], 0) && RotateRefusal(keys, ctx, "a", "k").None?;
  }

  /** The entry's old_expires_at is the expiry now in force exactly when no earlier one was. */
  lemma RotationRecordsExpiryExactly(store: Store, ctx: Context, applicationId: string, id: string, overlap: Option<nat>,
                                     now: int, generated: Generated, hash: string)
    requires generated.id !in store.keys && RotateRefusal(store.keys, ctx, applicationId, id).None?
    ensures var rotated := Rotated(store, ctx, applicationId, id, overlap, now, generated, hash);
      var before := store.keys[id].expiresAt;
      && |rotated.audit| == |store.audit| + 1 && rotated.audit[|store.audit|].action.KeyRotated?
      && (rotated.keys[id].expiresAt == Some(rotated.audit[|store.audit|].action.oldExpiresAt) <==>
            !(before.Some? && before.value < OverlapEnd(now, overlap)))
  {
    var rotated := Rotated(store, ctx, applicationId, id, overlap, now, generated, hash);
    assert rotated.keys[id] == store.keys[id].(expiresAt := Some(Least(store.keys[id].expiresAt, OverlapEnd(now, overlap))));
  }

  /** An input: a rotation asks for a day, and the key ends within the hour all the same. */
  lemma SomeEntryOutlastsItsKey()
    ensures exists store: Store, ctx: Context, generated: Generated ::
      && "k" in store.keys && generated.id !in store.keys && RotateRefusal(store.keys, ctx, "a", "k").None?
      && var rotated := Rotated(store, ctx, "a", "k", None, 0, generated, "hash");
         rotated.keys["k"].expiresAt != Some(rotated.audit[|store.audit|].action.oldExpiresAt)
  {
    var key := Key("t", "a", "name", Live, "hash", {}, All, Active, Some(3600000), None);
    var store := Store(map["k" := key], []);
    var ctx := Context("t", None, SystemActor, {}, All);
    var generated := Generated("new", "secret");
    RotationRecordsExpiryExactly(store, ctx, "a", "k", None, 0, generated, "hash");
    assert "k" in store.keys && generated.id !in store.keys && RotateRefusal(store.keys, ctx, "a", "k").None?;
  }
}
