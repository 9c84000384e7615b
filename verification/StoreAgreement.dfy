// The directory store beside the one in memory: the same calls on both, and
// exactly when they are answered alike.
module StoreAgreement {
  import opened Wrappers
  import opened Strings
  import opened ObjectKeys
  import opened Paging
  import opened LocalStore
  import MemoryStorage

  /** How a content type is kept in a sidecar. */
  datatype Codec = Codec(encode: string -> Bytes, decode: Bytes -> string)

  ghost predicate IsCodec(codec: Codec) {
    forall contentType :: codec.decode(codec.encode(contentType)) == contentType
  }

  type Objects = map<string, MemoryStorage.Object>

  datatype Operation = Put(key: string, bytes: Bytes, contentType: string) | Delete(key: string) | Get(key: string)

  datatype Answer =
    | Refused(error: KeyError)
    | Failed
    | Stored(info: Info)
    | Found(info: Info, bytes: Bytes)
    | Absent
    | Gone

  predicate Accepts(op: Operation) {
    ValidateObjectKey(op.key).Ok?
  }

  // ---- One call on either store ----

  function Refusal(e: DiskError): Answer {
    match e
    case Refused(error) => Answer.Refused(error)
    case Unavailable => Failed
  }

  function OnDisk(v: Volume, op: Operation, codec: Codec): (Volume, Answer) {
    match op
    case Put(key, bytes, contentType) =>
      var (after, r) := AfterPut(v, key, codec.encode(contentType), bytes, (false, false));
      (after, match r case Ok(size) => Stored(Info(key, size, contentType)) case Err(e) => Refusal(e))
    case Delete(key) =>
      var (after, r) := AfterDelete(v, key);
      (after, match r case Ok(_) => Gone case Err(e) => Refusal(e))
    case Get(key) =>
      (v, match Lookup(v, key)
          case Err(e) => Refusal(e)
          case Ok(None) => Absent
          case Ok(Some((bytes, sidecar))) => Found(Info(key, |bytes|, TypeIn(sidecar, codec)), bytes))
  }

  function TypeIn(sidecar: Option<Bytes>, codec: Codec): string {
    match sidecar
    case Some(encoded) => codec.decode(encoded)
    case None => "application/octet-stream"
  }

  function InMemory(objects: Objects, op: Operation): (Objects, Answer) {
    if !Accepts(op) then (objects, Answer.Refused(ValidateObjectKey(op.key).error))
    else match op
      case Put(key, bytes, contentType) =>
        (objects[key := MemoryStorage.Object(bytes, contentType)], Stored(Info(key, |bytes|, contentType)))
      case Delete(key) => (objects - {key}, Gone)
      case Get(key) =>
        (objects, if key in objects then Found(MemoryStorage.InfoOf(objects, key), objects[key].bytes) else Absent)
  }

  method PerformOnDisk(disk: Disk, op: Operation, codec: Codec, temps: (Path, Path)) returns (answer: Answer)
    requires IsTemp(temps.0) && IsTemp(temps.1) && temps.0 !in disk.files && temps.1 !in disk.files
    modifies disk
    ensures (disk.Contents(), answer) == OnDisk(old(disk.Contents()), op, codec)
  {
    match op
    case Put(key, bytes, contentType) =>
      assert Concat([bytes]) == bytes by {
        assert [bytes][..0] == [];
        assert Concat([bytes]) == Concat([]) + bytes;
      }
      var r := disk.Put(key, codec.encode(contentType), [bytes], temps, (None, None));
      answer := match r case Ok(size) => Stored(Info(key, size, contentType)) case Err(e) => Refusal(e);
    case Delete(key) =>
      var r := disk.Delete(key);
      answer := match r case Ok(_) => Gone case Err(e) => Refusal(e);
    case Get(key) =>
      var r := disk.Get(key);
      answer :=
        match r
        case Err(e) => Refusal(e)
        case Ok(None) => Absent
        case Ok(Some((bytes, sidecar))) => Found(Info(key, |bytes|, TypeIn(sidecar, codec)), bytes);
  }

  function MemoryRefusal(e: MemoryStorage.StoreError): Answer {
    match e
    case BadKey(error) => Answer.Refused(error)
    case NotFound(_) => Absent
  }

  method PerformInMemory(store: MemoryStorage.MemoryStore, op: Operation) returns (answer: Answer)
    requires store.Valid()
    modifies store
    ensures store.Valid()
    ensures (store.objects, answer) == InMemory(old(store.objects), op)
  {
    match op
    case Put(key, bytes, contentType) =>
      var r := store.Put(key, bytes, contentType);
      answer := match r case Ok(info) => Stored(info) case Err(e) => MemoryRefusal(e);
    case Delete(key) =>
      var r := store.Delete(key);
      assert r.Err? ==> store.objects == old(store.objects);
      answer := match r case Ok(_) => Gone case Err(e) => MemoryRefusal(e);
    case Get(key) =>
      var r := store.Get(key);
      answer := match r case Ok((bytes, info)) => Found(info, bytes) case Err(e) => MemoryRefusal(e);
  }

  // ---- What calls get in each other's way ----

  /** A file of the first key would stand where the second needs a directory. */
  predicate NestsUnder(a: string, b: string) {
    a + "/" <= b || a + ".json/" <= b
  }

  lemma KeyPathsNest(a: string, b: string)
    requires ValidateObjectKey(a).Ok? && ValidateObjectKey(b).Ok?
    ensures NestsUnder(a, b) <==> Obstructs(ObjectPath(a), ObjectPath(b)) || Obstructs(SidecarPath(a), SidecarPath(b))
    ensures !Obstructs(ObjectPath(a), SidecarPath(b)) && !Obstructs(SidecarPath(a), ObjectPath(b))
  {
    ValidPathsNestExactly(a, b);
    SidecarPathsNestExactly(a, b);
    SidecarsAreAside(a, b);
    SidecarsAreAside(b, a);
  }

  /** What earlier calls say of a key: put and not deleted since, or ever put. */
  datatype History = History(live: set<string>, put: set<string>)

  function Noted(h: History, op: Operation): History {
    if !Accepts(op) then h
    else match op
      case Put(key, _, _) => History(h.live + {key}, h.put + {key})
      case Delete(key) => h.(live := h.live - {key})
      case Get(_) => h
  }

  /**
   * A put or delete whose key goes below a key that is stored, or above one
   * that was ever put: directories stay when their objects go.
   */
  predicate Obstructed(h: History, op: Operation) {
    && Accepts(op) && !op.Get?
    && ((exists a :: a in h.live && NestsUnder(a, op.key)) || (exists a :: a in h.put && NestsUnder(op.key, a)))
  }

  predicate Clear(h: History, ops: seq<Operation>)
    decreases |ops|
  {
    ops == [] || (!Obstructed(h, ops[0]) && Clear(Noted(h, ops[0]), ops[1..]))
  }

  // ---- The two stores in step ----

  predicate IsPathOf(p: Path, key: string) {
    p == ObjectPath(key) || p == SidecarPath(key)
  }

  predicate LeadsTo(d: Path, key: string) {
    Obstructs(d, ObjectPath(key)) || Obstructs(d, SidecarPath(key))
  }

  predicate IsPathOfSome(p: Path, keys: set<string>) {
    exists key :: key in keys && IsPathOf(p, key)
  }

  predicate LeadsToSome(d: Path, keys: set<string>) {
    exists key :: key in keys && LeadsTo(d, key)
  }

  predicate Holds(files: Files, key: string, o: MemoryStorage.Object, codec: Codec) {
    && ObjectPath(key) in files && files[ObjectPath(key)] == o.bytes
    && SidecarPath(key) in files && files[SidecarPath(key)] == codec.encode(o.contentType)
  }

  predicate AllValid(keys: set<string>) {
    forall key {:trigger ValidateObjectKey(key)} :: key in keys ==> ValidateObjectKey(key).Ok?
  }

  ghost predicate Tells(h: History, objects: Objects) {
    objects.Keys == h.live && h.live <= h.put && AllValid(h.put)
  }

  ghost predicate HoldsAll(files: Files, objects: Objects, codec: Codec) {
    forall key {:trigger Holds(files, key, objects[key], codec)} :: key in objects ==> Holds(files, key, objects[key], codec)
  }

  predicate HoldsNoOther(files: Files, keys: set<string>) {
    forall p :: p in files ==> IsPathOfSome(p, keys)
  }

  ghost predicate LeadToAll(directories: set<Path>, keys: set<string>) {
    forall d :: d in directories <==> LeadsToSome(d, keys)
  }

  /** The same objects, in files with their sidecars and in a map, and the directories of all that was put. */
  ghost predicate Represents(v: Volume, objects: Objects, h: History, codec: Codec) {
    && Tells(h, objects)
    && HoldsAll(v.files, objects, codec) && HoldsNoOther(v.files, objects.Keys)
    && LeadToAll(v.directories, h.put)
  }

  lemma FilesOnTheWayExactly(v: Volume, objects: Objects, h: History, codec: Codec, key: string)
    requires Represents(v, objects, h, codec) && ValidateObjectKey(key).Ok?
    ensures FileOnTheWay(v.files, ObjectPath(key)) || FileOnTheWay(v.files, SidecarPath(key)) <==>
            exists a :: a in h.live && NestsUnder(a, key)
  {
    forall p | p in v.files && (Obstructs(p, ObjectPath(key)) || Obstructs(p, SidecarPath(key)))
      ensures exists a :: a in h.live && NestsUnder(a, key)
    {
      assert IsPathOfSome(p, objects.Keys);
      var a :| a in objects.Keys && IsPathOf(p, a);
      KeyPathsNest(a, key);
    }
    forall a | a in h.live && NestsUnder(a, key)
      ensures FileOnTheWay(v.files, ObjectPath(key)) || FileOnTheWay(v.files, SidecarPath(key))
    {
      KeyPathsNest(a, key);
      assert Holds(v.files, a, objects[a], codec);
    }
  }

  lemma DirectoriesInPlaceExactly(put: set<string>, key: string)
    requires AllValid(put) && ValidateObjectKey(key).Ok?
    ensures LeadsToSome(ObjectPath(key), put) || LeadsToSome(SidecarPath(key), put) <==>
            exists a :: a in put && NestsUnder(key, a)
  {
    forall a | a in put ensures NestsUnder(key, a) <==> LeadsTo(ObjectPath(key), a) || LeadsTo(SidecarPath(key), a) {
      KeyPathsNest(key, a);
    }
  }

  /** In step, what blocks a key's paths can be read off the calls so far. */
  lemma BlockedExactly(v: Volume, objects: Objects, h: History, codec: Codec, key: string)
    requires Represents(v, objects, h, codec) && ValidateObjectKey(key).Ok?
    ensures Blocked(v, ObjectPath(key)) || Blocked(v, SidecarPath(key)) <==>
            (exists a :: a in h.live && NestsUnder(a, key)) || (exists a :: a in h.put && NestsUnder(key, a))
  {
    FilesOnTheWayExactly(v, objects, h, codec, key);
    DirectoriesInPlaceExactly(h.put, key);
  }

  lemma PutAnswersExactly(v: Volume, objects: Objects, h: History, op: Operation, codec: Codec)
    requires Represents(v, objects, h, codec) && op.Put? && Accepts(op)
    ensures OnDisk(v, op, codec).1 == InMemory(objects, op).1 <==> !Obstructed(h, op)
    ensures !Obstructed(h, op) ==> Represents(OnDisk(v, op, codec).0, InMemory(objects, op).0, Noted(h, op), codec)
  {
    BlockedExactly(v, objects, h, codec, op.key);
    if !Obstructed(h, op) {
      PutKeepsRepresenting(v, objects, h, op.key, MemoryStorage.Object(op.bytes, op.contentType), codec);
    }
  }

  lemma PutHolds(files: Files, key: string, o: MemoryStorage.Object, other: string, p: MemoryStorage.Object, codec: Codec)
    requires ValidateObjectKey(key).Ok? && ValidateObjectKey(other).Ok?
    ensures Holds(WithObject(files, key, codec.encode(o.contentType), o.bytes), key, o, codec)
    ensures other != key && Holds(files, other, p, codec) ==>
      && Holds(WithObject(files, key, codec.encode(o.contentType), o.bytes), other, p, codec)
      && Holds(WithoutObject(files, key), other, p, codec)
  {
    KeyPathsAreApart(key, key);
    KeyPathsAreApart(other, key);
    KeyPathsAreApart(key, other);
  }

  lemma PutHoldsAll(files: Files, objects: Objects, key: string, o: MemoryStorage.Object, codec: Codec)
    requires AllValid(objects.Keys) && ValidateObjectKey(key).Ok?
    requires HoldsAll(files, objects, codec) && HoldsNoOther(files, objects.Keys)
    ensures HoldsAll(WithObject(files, key, codec.encode(o.contentType), o.bytes), objects[key := o], codec)
    ensures HoldsNoOther(WithObject(files, key, codec.encode(o.contentType), o.bytes), objects.Keys + {key})
  {
    var after, now := WithObject(files, key, codec.encode(o.contentType), o.bytes), objects[key := o];
    forall other | other in now ensures Holds(after, other, now[other], codec) {
      assert other != key ==> Holds(files, other, objects[other], codec);
      PutHolds(files, key, o, other, now[other], codec);
    }
    forall p | p in after ensures IsPathOfSome(p, objects.Keys + {key}) {
      PathOfOneMore(p, objects.Keys, key);
    }
  }

  lemma PathOfOneMore(p: Path, keys: set<string>, key: string)
    ensures IsPathOfSome(p, keys + {key}) <==> IsPathOfSome(p, keys) || IsPathOf(p, key)
  {
    if IsPathOfSome(p, keys) {
      var k :| k in keys && IsPathOf(p, k);
      assert k in keys + {key};
    }
    if IsPathOf(p, key) { assert key in keys + {key}; }
  }

  lemma LeadsToOneMore(d: Path, keys: set<string>, key: string)
    ensures LeadsToSome(d, keys + {key}) <==> LeadsToSome(d, keys) || LeadsTo(d, key)
  {
    if LeadsToSome(d, keys) {
      var k :| k in keys && LeadsTo(d, k);
      assert k in keys + {key};
    }
    if LeadsTo(d, key) { assert key in keys + {key}; }
  }

  lemma PutLeadsToAll(v: Volume, keys: set<string>, key: string)
    requires LeadToAll(v.directories, keys)
    requires !Blocked(v, ObjectPath(key)) && !Blocked(v, SidecarPath(key))
    ensures LeadToAll(WithAncestors(v, SidecarPath(key)) + WithAncestors(v, ObjectPath(key)), keys + {key})
  {
    forall d
      ensures d in WithAncestors(v, SidecarPath(key)) + WithAncestors(v, ObjectPath(key)) <==> LeadsToSome(d, keys + {key})
    {
      AncestorsObstruct(d, ObjectPath(key));
      AncestorsObstruct(d, SidecarPath(key));
      LeadsToOneMore(d, keys, key);
    }
  }

  lemma PutKeepsRepresenting(v: Volume, objects: Objects, h: History, key: string, o: MemoryStorage.Object, codec: Codec)
    requires Represents(v, objects, h, codec) && ValidateObjectKey(key).Ok?
    requires !Blocked(v, ObjectPath(key)) && !Blocked(v, SidecarPath(key))
    ensures Represents(AfterPut(v, key, codec.encode(o.contentType), o.bytes, (false, false)).0, objects[key := o],
                       History(h.live + {key}, h.put + {key}), codec)
  {
    assert objects[key := o].Keys == objects.Keys + {key};
    PutHoldsAll(v.files, objects, key, o, codec);
    PutLeadsToAll(v, h.put, key);
  }

  lemma DeleteHoldsAll(files: Files, objects: Objects, key: string, codec: Codec)
    requires AllValid(objects.Keys) && ValidateObjectKey(key).Ok?
    requires HoldsAll(files, objects, codec) && HoldsNoOther(files, objects.Keys)
    ensures HoldsAll(WithoutObject(files, key), objects - {key}, codec)
    ensures HoldsNoOther(WithoutObject(files, key), objects.Keys - {key})
  {
    var after, now := WithoutObject(files, key), objects - {key};
    forall other | other in now ensures Holds(after, other, now[other], codec) {
      assert Holds(files, other, objects[other], codec);
      PutHolds(files, key, now[other], other, now[other], codec);
    }
    forall p | p in after ensures IsPathOfSome(p, objects.Keys - {key}) {
      var k :| k in objects.Keys && IsPathOf(p, k);
      assert k in objects.Keys - {key};
    }
  }

  lemma DeleteKeepsRepresenting(v: Volume, objects: Objects, h: History, key: string, codec: Codec)
    requires Represents(v, objects, h, codec) && ValidateObjectKey(key).Ok?
    ensures Represents(v.(files := WithoutObject(v.files, key)), objects - {key}, h.(live := h.live - {key}), codec)
  {
    assert (objects - {key}).Keys == objects.Keys - {key};
    DeleteHoldsAll(v.files, objects, key, codec);
  }

  /** One call is answered alike exactly when nothing obstructs it, and then the stores stay in step. */
  lemma CallAgreesExactly(v: Volume, objects: Objects, h: History, op: Operation, codec: Codec)
    requires IsCodec(codec) && Represents(v, objects, h, codec)
    ensures OnDisk(v, op, codec).1 == InMemory(objects, op).1 <==> !Obstructed(h, op)
    ensures !Obstructed(h, op) ==> Represents(OnDisk(v, op, codec).0, InMemory(objects, op).0, Noted(h, op), codec)
  {
    if Accepts(op) {
      match op
      case Put(_, _, _) => PutAnswersExactly(v, objects, h, op, codec);
      case Delete(key) =>
        BlockedExactly(v, objects, h, codec, key);
        DeleteKeepsRepresenting(v, objects, h, key, codec);
      case Get(key) =>
        if key in objects {
          assert Holds(v.files, key, objects[key], codec);
        } else {
          forall k | k in objects ensures !IsPathOf(ObjectPath(key), k) { KeyPathsAreApart(key, k); }
        }
    }
  }

  // ---- Whole runs ----

  function DiskRun(v: Volume, ops: seq<Operation>, codec: Codec): (Volume, seq<Answer>)
    decreases |ops|
  {
    if ops == [] then (v, [])
    else
      var (after, answer) := OnDisk(v, ops[0], codec);
      var (last, answers) := DiskRun(after, ops[1..], codec);
      (last, [answer] + answers)
  }

  function MemoryRun(objects: Objects, ops: seq<Operation>): (Objects, seq<Answer>)
    decreases |ops|
  {
    if ops == [] then (objects, [])
    else
      var (after, answer) := InMemory(objects, ops[0]);
      var (last, answers) := MemoryRun(after, ops[1..]);
      (last, [answer] + answers)
  }

  function NotedAll(h: History, ops: seq<Operation>): History
    decreases |ops|
  {
    if ops == [] then h else NotedAll(Noted(h, ops[0]), ops[1..])
  }

  lemma ConsAgree<T>(x: T, y: T, a: seq<T>, b: seq<T>)
    ensures [x] + a == [y] + b <==> x == y && a == b
  {
    assert ([x] + a)[0] == x && ([y] + b)[0] == y;
    assert ([x] + a)[1..] == a && ([y] + b)[1..] == b;
  }

  lemma {:induction false} RunsAgreeExactly(v: Volume, objects: Objects, h: History, ops: seq<Operation>, codec: Codec)
    requires IsCodec(codec) && Represents(v, objects, h, codec)
    ensures DiskRun(v, ops, codec).1 == MemoryRun(objects, ops).1 <==> Clear(h, ops)
    ensures Clear(h, ops) ==> Represents(DiskRun(v, ops, codec).0, MemoryRun(objects, ops).0, NotedAll(h, ops), codec)
    decreases |ops|
  {
    if ops == [] {
    } else {
      CallAgreesExactly(v, objects, h, ops[0], codec);
      var disk, memory := OnDisk(v, ops[0], codec), InMemory(objects, ops[0]);
      ConsAgree(disk.1, memory.1, DiskRun(disk.0, ops[1..], codec).1, MemoryRun(memory.0, ops[1..]).1);
      if !Obstructed(h, ops[0]) {
        RunsAgreeExactly(disk.0, memory.0, Noted(h, ops[0]), ops[1..], codec);
      }
    }
  }

  const NewVolume := Volume(map[], {})

  const NothingCalled := History({}, {})

  /**
   * From empty stores, any sequence of puts, deletes and gets is answered alike
   * if and only if no put or delete in it is obstructed, which the calls show.
   */
  lemma StoresAgreeExactly(ops: seq<Operation>, codec: Codec)
    requires IsCodec(codec)
    ensures DiskRun(NewVolume, ops, codec).1 == MemoryRun(map[], ops).1 <==> Clear(NothingCalled, ops)
  {
    RunsAgreeExactly(NewVolume, map[], NothingCalled, ops, codec);
  }

  /** An object without a sidecar is answered as bytes of no particular type. */
  lemma SidecarlessIsOctets(v: Volume, key: string, codec: Codec)
    requires ValidateObjectKey(key).Ok? && ObjectPath(key) in v.files
    requires SidecarPath(key) !in v.files && !Blocked(v, SidecarPath(key))
    ensures var bytes := v.files[ObjectPath(key)];
      OnDisk(v, Operation.Get(key), codec) == (v, Found(Info(key, |bytes|, "application/octet-stream"), bytes))
  {
  }

  // ---- Listings, and a write that breaks off ----

  /** An object the walk finds: no segment of its path starts with a dot. */
  predicate Walked(v: Volume, key: string) {
    exists p :: p in v.files && Visible(p) && Join(p, '/') == key
  }

  predicate Visible(p: Path) {
    forall i :: 0 <= i < |p| ==> !StartsWithDot(p[i])
  }

  predicate DiskInfo(v: Volume, x: Info, codec: Codec) {
    var answer := OnDisk(v, Operation.Get(x.key), codec).1;
    answer.Found? && answer.info == x
  }

  /** The walked keys with a prefix in order, each with what its stat says. */
  ghost predicate IsDiskListing(v: Volume, prefix: string, infos: seq<Info>, codec: Codec) {
    && IsListing(infos)
    && forall x :: x in infos <==> prefix <= x.key && Walked(v, x.key) && DiskInfo(v, x, codec)
  }

  lemma WalkedAreStored(v: Volume, objects: Objects, h: History, codec: Codec, key: string)
    requires Represents(v, objects, h, codec)
    ensures Walked(v, key) <==> key in objects
  {
    forall p | p in v.files && Visible(p) && Join(p, '/') == key ensures key in objects {
      assert IsPathOfSome(p, objects.Keys);
      var k :| k in objects.Keys && IsPathOf(p, k);
      JoinSplit(k, '/');
      assert SidecarPath(k)[0] == ".meta";
    }
    if key in objects {
      assert Holds(v.files, key, objects[key], codec);
      assert ValidateObjectKey(key).Ok?;
      JoinSplit(key, '/');
      CheckedSegments(ObjectPath(key));
      forall i | 0 <= i < |ObjectPath(key)| ensures !StartsWithDot(ObjectPath(key)[i]) {
        assert IsPlainSegment(ObjectPath(key)[i]);
      }
    }
  }

  /** After any run answered alike, the stores have the same listings, and so the same pages. */
  lemma ListingsAgree(ops: seq<Operation>, codec: Codec, prefix: string, infos: seq<Info>)
    requires IsCodec(codec) && Clear(NothingCalled, ops)
    ensures IsDiskListing(DiskRun(NewVolume, ops, codec).0, prefix, infos, codec) <==>
            MemoryStorage.IsListingOf(MemoryRun(map[], ops).0, prefix, infos)
  {
    RunsAgreeExactly(NewVolume, map[], NothingCalled, ops, codec);
    var v, objects, h := DiskRun(NewVolume, ops, codec).0, MemoryRun(map[], ops).0, NotedAll(NothingCalled, ops);
    forall x: Info
      ensures Walked(v, x.key) && DiskInfo(v, x, codec) <==> x.key in objects && x == MemoryStorage.InfoOf(objects, x.key)
    {
      WalkedAreStored(v, objects, h, codec, x.key);
      CallAgreesExactly(v, objects, h, Operation.Get(x.key), codec);
    }
  }

  /**
   * A put whose body breaks off leaves both stores with the object they had --
   * but the directory store with the new content type beside it, so it answers
   * as before exactly when there was no object or its type is the same.
   */
  lemma BrokenPutIsHiddenExactly(v: Volume, objects: Objects, h: History,
                                 key: string, bytes: Bytes, contentType: string, codec: Codec)
    requires IsCodec(codec) && Represents(v, objects, h, codec) && ValidateObjectKey(key).Ok?
    requires !Obstructed(h, Operation.Put(key, bytes, contentType))
    ensures var after := AfterPut(v, key, codec.encode(contentType), bytes, (false, true)).0;
      OnDisk(after, Operation.Get(key), codec).1 == InMemory(objects, Operation.Get(key)).1 <==>
        key in objects ==> objects[key].contentType == contentType
  {
    BlockedExactly(v, objects, h, codec, key);
    CallAgreesExactly(v, objects, h, Operation.Get(key), codec);
    KeyPathsAreApart(key, key);
    if key in objects { assert Holds(v.files, key, objects[key], codec); }
  }

  // ---- Keys that never get in each other's way ----

  /** No accepted key among the calls nests under another. */
  predicate KeysAreApart(ops: seq<Operation>) {
    forall i, j :: 0 <= i < |ops| && 0 <= j < |ops| && Accepts(ops[i]) && Accepts(ops[j]) ==>
      !NestsUnder(ops[i].key, ops[j].key)
  }

  ghost predicate CameFrom(keys: set<string>, ops: seq<Operation>) {
    forall key :: key in keys ==> exists i :: 0 <= i < |ops| && Accepts(ops[i]) && ops[i].key == key
  }

  lemma {:induction false} ApartIsClear(all: seq<Operation>, n: nat, h: History)
    requires KeysAreApart(all) && n <= |all|
    requires CameFrom(h.live, all) && CameFrom(h.put, all)
    ensures Clear(h, all[n..])
    decreases |all| - n
  {
    if n == |all| {
    } else {
      assert all[n..][0] == all[n] && all[n..][1..] == all[n + 1..];
      ApartIsClear(all, n + 1, Noted(h, all[n]));
    }
  }

  /** When no accepted key nests under another, the stores are one and the same to their callers. */
  lemma KeysApartAgree(ops: seq<Operation>, codec: Codec)
    requires IsCodec(codec) && KeysAreApart(ops)
    ensures DiskRun(NewVolume, ops, codec).1 == MemoryRun(map[], ops).1
  {
    ApartIsClear(ops, 0, NothingCalled);
    assert ops[0..] == ops;
    StoresAgreeExactly(ops, codec);
  }

  /** So they are for the keys of the platform's own scheme. */
  lemma MadeKeysAgree(ops: seq<Operation>, codec: Codec)
    requires IsCodec(codec)
    requires forall i :: 0 <= i < |ops| && Accepts(ops[i]) ==> exists m :: KeyOf(m) == Ok(ops[i].key)
    ensures DiskRun(NewVolume, ops, codec).1 == MemoryRun(map[], ops).1
  {
    forall i, j | 0 <= i < |ops| && 0 <= j < |ops| && Accepts(ops[i]) && Accepts(ops[j])
      ensures !NestsUnder(ops[i].key, ops[j].key)
    {
      var m :| KeyOf(m) == Ok(ops[i].key);
      var n :| KeyOf(n) == Ok(ops[j].key);
      PathsDoNotNest(m, n);
      KeyPathsNest(ops[i].key, ops[j].key);
    }
    KeysApartAgree(ops, codec);
  }

  /**
   * Any two keys that nest are told apart: one cannot be put while the one above
   * it is stored, nor the one above once the other was put, even if it was deleted.
   */
  lemma NestedKeysDisagree(above: string, below: string, bytes: Bytes, contentType: string, codec: Codec)
    requires IsCodec(codec) && NestsUnder(above, below)
    requires ValidateObjectKey(above).Ok? && ValidateObjectKey(below).Ok?
    ensures var putAbove, putBelow := Operation.Put(above, bytes, contentType), Operation.Put(below, bytes, contentType);
      forall ops :: ops in {[putAbove, putBelow], [putBelow, Operation.Delete(below), putAbove]} ==>
        DiskRun(NewVolume, ops, codec).1 != MemoryRun(map[], ops).1
  {
    var putAbove, putBelow := Operation.Put(above, bytes, contentType), Operation.Put(below, bytes, contentType);
    var gone := Operation.Delete(below);
    var first, second := [putAbove, putBelow], [putBelow, gone, putAbove];
    var h := Noted(NothingCalled, putAbove);
    assert first[1..] == [putBelow];
    assert above in h.live && Obstructed(h, putBelow);
    var g := Noted(NothingCalled, putBelow);
    var g' := Noted(g, gone);
    assert second[1..] == [gone, putAbove] && second[1..][1..] == [putAbove];
    assert below in g'.put && Obstructed(g', putAbove);
    assert !Clear(g, second[1..]);
    StoresAgreeExactly(first, codec);
    StoresAgreeExactly(second, codec);
  }

  /** Two puts the directory store cannot both take, and the one in memory can. */
  lemma SomePutsDisagree(bytes: Bytes, contentType: string, codec: Codec)
    requires IsCodec(codec)
    ensures var ops := [Operation.Put("a", bytes, contentType), Operation.Put("a/b", bytes, contentType)];
      DiskRun(NewVolume, ops, codec).1 != MemoryRun(map[], ops).1
  {
    assert Join(["a"], '/') == "a" && Join(["a", "b"], '/') == "a/b";
    PlainPathsAreValid(["a"]);
    PlainPathsAreValid(["a", "b"]);
    assert NestsUnder("a", "a/b");
    NestedKeysDisagree("a", "a/b", bytes, contentType, codec);
  }
}
