// Writing to the directory store: bytes go to a temporary file and are renamed
// into place, the sidecar first and the object second. Many writers and
// readers, one writer per key, any of them failing or dying at any point.
module LocalStore {
  import opened Wrappers
  import opened Strings
  import opened ObjectKeys

  type Bytes = seq<bv8>
  type Path = seq<string>
  type Files = map<Path, Bytes>

  // ---- One writer alone ----

  function Concat(chunks: seq<Bytes>): Bytes {
    if chunks == [] then [] else Concat(chunks[..|chunks| - 1]) + chunks[|chunks| - 1]
  }

  datatype DiskError = Refused(error: KeyError) | Unavailable

  /** The directories on the way to a path, the root among them. */
  function Ancestors(path: Path): set<Path> {
    set i | 0 <= i < |path| :: path[..i]
  }

  /** A file stands where the path needs a directory. */
  predicate FileOnTheWay(files: Files, path: Path) {
    exists p :: p in files && Obstructs(p, path)
  }

  /** What a disk holds: files, and the directories once made. */
  datatype Volume = Volume(files: Files, directories: set<Path>)

  /** Nothing can be written there: a file on the way, or a directory in its place. */
  predicate Blocked(v: Volume, path: Path) {
    FileOnTheWay(v.files, path) || path in v.directories
  }

  /** The directories there once it was tried to write to a path. */
  function WithAncestors(v: Volume, path: Path): set<Path> {
    v.directories + if FileOnTheWay(v.files, path) then {} else Ancestors(path)
  }

  /** A write of so many chunks breaks off. */
  predicate Breaks(at: Option<nat>, chunks: nat) {
    at.Some? && at.value <= chunks
  }

  /** An object and its sidecar in place. */
  function WithObject(files: Files, key: string, sidecar: Bytes, body: Bytes): Files {
    files[SidecarPath(key) := sidecar][ObjectPath(key) := body]
  }

  function WithoutObject(files: Files, key: string): Files {
    files - {ObjectPath(key), SidecarPath(key)}
  }

  /** What a put does: `breaks` says whether the sidecar's and the object's writes break off. */
  function AfterPut(v: Volume, key: string, sidecar: Bytes, body: Bytes, breaks: (bool, bool)): (Volume, Result<nat, DiskError>) {
    if ValidateObjectKey(key).Err? then (v, Err(Refused(ValidateObjectKey(key).error)))
    else
      var sidecarIn := !Blocked(v, SidecarPath(key)) && !breaks.0;
      var objectIn := sidecarIn && !Blocked(v, ObjectPath(key)) && !breaks.1;
      var files :=
        if objectIn then WithObject(v.files, key, sidecar, body)
        else if sidecarIn then v.files[SidecarPath(key) := sidecar] else v.files;
      var directories :=
        if sidecarIn then WithAncestors(v, SidecarPath(key)) + WithAncestors(v, ObjectPath(key))
        else WithAncestors(v, SidecarPath(key));
      (Volume(files, directories), if objectIn then Ok(|body|) else Err(Unavailable))
  }

  /** What a delete does: what is not there is no error, what is in the way is. */
  function AfterDelete(v: Volume, key: string): (Volume, Result<(), DiskError>) {
    if ValidateObjectKey(key).Err? then (v, Err(Refused(ValidateObjectKey(key).error)))
    else if Blocked(v, ObjectPath(key)) then (v, Err(Unavailable))
    else if Blocked(v, SidecarPath(key)) then (v.(files := v.files - {ObjectPath(key)}), Err(Unavailable))
    else (v.(files := WithoutObject(v.files, key)), Ok(()))
  }

  /** Bytes and sidecar of an object; a missing sidecar is tolerated, anything in its way is not. */
  function Lookup(v: Volume, key: string): Result<Option<(Bytes, Option<Bytes>)>, DiskError> {
    if ValidateObjectKey(key).Err? then Err(Refused(ValidateObjectKey(key).error))
    else if ObjectPath(key) !in v.files then Ok(None)
    else if SidecarPath(key) in v.files then Ok(Some((v.files[ObjectPath(key)], Some(v.files[SidecarPath(key)]))))
    else if Blocked(v, SidecarPath(key)) then Err(Unavailable)
    else Ok(Some((v.files[ObjectPath(key)], None)))
  }

  class Disk {
    var files: Files
    var directories: set<Path>

    function Contents(): Volume
      reads this
    {
      Volume(files, directories)
    }

    constructor ()
      ensures Contents() == Volume(map[], {})
    {
      files, directories := map[], {};
    }

    /** The chunks, one by one, into a new file; when the write breaks off, the file is removed. */
    method WriteTemp(temp: Path, chunks: seq<Bytes>, breaksAt: Option<nat>) returns (r: Result<nat, DiskError>)
      requires temp !in files
      modifies this`files
      ensures r == if Breaks(breaksAt, |chunks|) then Err(Unavailable) else Ok(|Concat(chunks)|)
      ensures files == if r.Ok? then old(files)[temp := Concat(chunks)] else old(files)
    {
      files := files[temp := []];
      var byteSize := 0;
      for i := 0 to |chunks|
        invariant files == old(files)[temp := Concat(chunks[..i])]
        invariant byteSize == |Concat(chunks[..i])|
        invariant breaksAt.Some? ==> i <= breaksAt.value
      {
        if breaksAt == Some(i) {
          files := files - {temp};
          return Err(Unavailable);
        }
        assert chunks[..i + 1][..i] == chunks[..i];
        files := files[temp := files[temp] + chunks[i]];
        byteSize := byteSize + |chunks[i]|;
      }
      assert chunks[..|chunks|] == chunks;
      if breaksAt == Some(|chunks|) {
        files := files - {temp};
        return Err(Unavailable);
      }
      r := Ok(byteSize);
    }

    /**
     * Into a temporary file, then renamed over the target. A write that breaks
     * off, before chunk `breaksAt` or at the end, leaves the files as they were.
     */
    method AtomicWrite(target: Path, temp: Path, chunks: seq<Bytes>, breaksAt: Option<nat>) returns (r: Result<nat, DiskError>)
      requires temp !in files && temp != target
      modifies this
      ensures r == if Blocked(old(Contents()), target) || Breaks(breaksAt, |chunks|)
                   then Err(Unavailable) else Ok(|Concat(chunks)|)
      ensures files == if r.Ok? then old(files)[target := Concat(chunks)] else old(files)
      ensures directories == WithAncestors(old(Contents()), target)
    {
      NotItsOwnAncestor(target);
      if FileOnTheWay(files, target) { return Err(Unavailable); }
      directories := directories + Ancestors(target);
      r := WriteTemp(temp, chunks, breaksAt);
      if r.Err? { return; }
      if target in directories {
        files := files - {temp};
        return Err(Unavailable);
      }
      var content := files[temp];
      files := (files - {temp})[target := content];
    }

    /** Sidecar first; the object's rename is the commit point. */
    method Put(key: string, sidecar: Bytes, chunks: seq<Bytes>, temps: (Path, Path), breaksAt: (Option<nat>, Option<nat>))
      returns (r: Result<nat, DiskError>)
      requires IsTemp(temps.0) && IsTemp(temps.1) && temps.0 !in files && temps.1 !in files
      modifies this
      ensures (Contents(), r) ==
        AfterPut(old(Contents()), key, sidecar, Concat(chunks), (Breaks(breaksAt.0, 1), Breaks(breaksAt.1, |chunks|)))
    {
      var checked := ValidateObjectKey(key);
      if checked.Err? { return Err(Refused(checked.error)); }
      KeyPathsAreVisible(key);
      SidecarDoesNotBlock(Contents(), key, sidecar);
      assert [sidecar][..0] == [];
      assert Concat([sidecar]) == Concat([]) + sidecar == sidecar;
      var written := AtomicWrite(SidecarPath(key), temps.0, [sidecar], breaksAt.0);
      if written.Err? { return Err(Unavailable); }
      r := AtomicWrite(ObjectPath(key), temps.1, chunks, breaksAt.1);
      assert directories == WithAncestors(old(Contents()), SidecarPath(key)) + WithAncestors(old(Contents()), ObjectPath(key));
    }

    /** Object first; whatever stands in the way of either stops it there. */
    method Delete(key: string) returns (r: Result<(), DiskError>)
      modifies this`files
      ensures (Contents(), r) == AfterDelete(old(Contents()), key)
    {
      var checked := ValidateObjectKey(key);
      if checked.Err? { return Err(Refused(checked.error)); }
      if Blocked(Contents(), ObjectPath(key)) { return Err(Unavailable); }
      ObjectDoesNotBlock(Contents(), key);
      files := files - {ObjectPath(key)};
      if Blocked(Contents(), SidecarPath(key)) { return Err(Unavailable); }
      files := files - {SidecarPath(key)};
      assert files == WithoutObject(old(files), key);
      r := Ok(());
    }

    method ReadSidecar(key: string) returns (r: Result<Option<Bytes>, DiskError>)
      requires ValidateObjectKey(key).Ok?
      ensures r == if SidecarPath(key) in files then Ok(Some(files[SidecarPath(key)]))
                   else if Blocked(Contents(), SidecarPath(key)) then Err(Unavailable) else Ok(None)
    {
      if SidecarPath(key) in files { return Ok(Some(files[SidecarPath(key)])); }
      if Blocked(Contents(), SidecarPath(key)) { return Err(Unavailable); }
      r := Ok(None);
    }

    /** Size and sidecar of an object. */
    method Stat(key: string) returns (r: Result<Option<(nat, Option<Bytes>)>, DiskError>)
      ensures r == match Lookup(Contents(), key)
                   case Err(e) => Err(e)
                   case Ok(None) => Ok(None)
                   case Ok(Some(found)) => Ok(Some((|found.0|, found.1)))
    {
      var checked := ValidateObjectKey(key);
      if checked.Err? { return Err(Refused(checked.error)); }
      if ObjectPath(key) !in files { return Ok(None); }
      var sidecar :- ReadSidecar(key);
      r := Ok(Some((|files[ObjectPath(key)]|, sidecar)));
    }

    /** Bytes and sidecar of an object, read after its stat. */
    method Get(key: string) returns (r: Result<Option<(Bytes, Option<Bytes>)>, DiskError>)
      ensures r == Lookup(Contents(), key)
    {
      var info :- Stat(key);
      if info.None? { return Ok(None); }
      r := Ok(Some((files[ObjectPath(key)], info.value.1)));
    }
  }

  // ---- What can block a path ----

  lemma NotItsOwnAncestor(path: Path)
    ensures path !in Ancestors(path)
  {
  }

  /** Of two valid keys, one's object path never runs through the other's sidecar path, nor the other way round. */
  lemma SidecarsAreAside(a: string, b: string)
    requires ValidateObjectKey(a).Ok?
    ensures !Obstructs(ObjectPath(a), SidecarPath(b)) && !Obstructs(SidecarPath(b), ObjectPath(a))
  {
    var path, side := ObjectPath(a), SidecarPath(b);
    CheckedSegments(path);
    assert IsPlainSegment(path[0]) && side[0] == ".meta";
    DifferingDoNotNest(side, path, 0);
    DifferingDoNotNest(path, side, 0);
  }

  lemma AncestorsObstruct(d: Path, path: Path)
    ensures d in Ancestors(path) <==> Obstructs(d, path)
  {
    if Obstructs(d, path) { assert d == path[..|d|]; }
  }

  /** A key's sidecar and its directories are not on the way to its object, nor in its place. */
  lemma SidecarDoesNotBlock(v: Volume, key: string, sidecar: Bytes)
    requires ValidateObjectKey(key).Ok?
    ensures var written := Volume(v.files[SidecarPath(key) := sidecar], WithAncestors(v, SidecarPath(key)));
      && FileOnTheWay(written.files, ObjectPath(key)) == FileOnTheWay(v.files, ObjectPath(key))
      && Blocked(written, ObjectPath(key)) == Blocked(v, ObjectPath(key))
  {
    var path, side := ObjectPath(key), SidecarPath(key);
    SidecarsAreAside(key, key);
    AncestorsObstruct(path, side);
    assert forall p :: p in v.files[side := sidecar] <==> p in v.files || p == side;
  }

  /** Nor is the object on the way to its sidecar. */
  lemma ObjectDoesNotBlock(v: Volume, key: string)
    requires ValidateObjectKey(key).Ok?
    ensures Blocked(v.(files := v.files - {ObjectPath(key)}), SidecarPath(key)) == Blocked(v, SidecarPath(key))
  {
    SidecarsAreAside(key, key);
  }

  /**
   * What a put leaves at each path: the sidecar unless blocked or broken off,
   * then the object so, and the directories of what it tried.
   */
  lemma PutMeans(v: Volume, key: string, sidecar: Bytes, body: Bytes, breaks: (bool, bool), p: Path)
    requires ValidateObjectKey(key).Ok?
    ensures var (after, r) := AfterPut(v, key, sidecar, body, breaks);
      var side, path := SidecarPath(key), ObjectPath(key);
      var wrote := !Blocked(v, side) && !breaks.0;
      && (r == Ok(|body|) <==> wrote && !Blocked(v, path) && !breaks.1)
      && (r.Err? ==> r == Err(Unavailable))
      && (if p == path && r.Ok? then p in after.files && after.files[p] == body
          else if p == side && wrote then p in after.files && after.files[p] == sidecar
          else (p in after.files <==> p in v.files) && (p in after.files ==> after.files[p] == v.files[p]))
      && (p in after.directories <==>
            || p in v.directories
            || (Obstructs(p, side) && !FileOnTheWay(v.files, side))
            || (Obstructs(p, path) && wrote && !FileOnTheWay(v.files, path)))
  {
    KeyPathsAreVisible(key);
    AncestorsObstruct(p, SidecarPath(key));
    AncestorsObstruct(p, ObjectPath(key));
  }

  /** What a delete leaves: no object unless it was blocked, then no sidecar unless that was, and all the rest. */
  lemma DeleteMeans(v: Volume, key: string, p: Path)
    requires ValidateObjectKey(key).Ok?
    ensures var (after, r) := AfterDelete(v, key);
      var gone := !Blocked(v, ObjectPath(key));
      && (r.Ok? <==> gone && !Blocked(v, SidecarPath(key)))
      && after.directories == v.directories
      && (if (p == ObjectPath(key) && gone) || (p == SidecarPath(key) && r.Ok?) then p !in after.files
          else (p in after.files <==> p in v.files) && (p in after.files ==> after.files[p] == v.files[p]))
  {
    KeyPathsAreVisible(key);
  }

  predicate IsMadePath(path: Path, m: Made) {
    KeyOf(m).Ok? && (path == ObjectPath(KeyOf(m).value) || path == SidecarPath(KeyOf(m).value))
  }

  /** A store with objects of the key scheme only: its files and directories are theirs. */
  ghost predicate HoldsMadeOnly(v: Volume) {
    && (forall p :: p in v.files ==> exists m :: IsMadePath(p, m))
    && (forall d :: d in v.directories ==> exists m, p :: IsMadePath(p, m) && Obstructs(d, p))
  }

  /** There no key of the scheme is ever blocked. */
  lemma MadeKeysAreNotBlocked(v: Volume, m: Made, path: Path)
    requires HoldsMadeOnly(v) && IsMadePath(path, m)
    ensures !Blocked(v, path)
  {
    forall p | p in v.files ensures !Obstructs(p, path) {
      var n :| IsMadePath(p, n);
      PathsDoNotNest(n, m);
    }
    if path in v.directories {
      var n, p :| IsMadePath(p, n) && Obstructs(path, p);
      PathsDoNotNest(m, n);
      assert false;
    }
  }

  /** A store of the scheme's keys stays one, and only a write that breaks off fails there. */
  lemma MadeKeysStayWritable(v: Volume, m: Made, sidecar: Bytes, body: Bytes, breaks: (bool, bool))
    requires HoldsMadeOnly(v) && KeyOf(m).Ok?
    ensures var put, deleted := AfterPut(v, KeyOf(m).value, sidecar, body, breaks), AfterDelete(v, KeyOf(m).value);
      && HoldsMadeOnly(put.0) && (put.1.Ok? <==> !breaks.0 && !breaks.1)
      && HoldsMadeOnly(deleted.0) && deleted.1.Ok?
  {
    var key := KeyOf(m).value;
    var path, side := ObjectPath(key), SidecarPath(key);
    assert IsMadePath(path, m) && IsMadePath(side, m);
    MadeKeysAreNotBlocked(v, m, path);
    MadeKeysAreNotBlocked(v, m, side);
    MadeKeysAreValid(m);
    var put := AfterPut(v, key, sidecar, body, breaks).0;
    forall d | d in put.directories && d !in v.directories ensures exists n, p :: IsMadePath(p, n) && Obstructs(d, p) {
      AncestorsObstruct(d, path);
      AncestorsObstruct(d, side);
    }
  }

  // ---- Temporary, sidecar and object paths are apart ----

  predicate StartsWithDot(segment: string) {
    segment != "" && segment[0] == '.'
  }

  predicate IsTemp(path: Path) {
    path != [] && StartsWithDot(path[|path| - 1])
  }

  lemma KeyPathsAreVisible(key: string)
    requires ValidateObjectKey(key).Ok?
    ensures !IsTemp(ObjectPath(key)) && !IsTemp(SidecarPath(key))
    ensures ObjectPath(key) != SidecarPath(key)
  {
    var path := Split(key, '/');
    CheckedSegments(path);
    assert IsPlainSegment(path[0]) && IsPlainSegment(path[|path| - 1]);
    var sidecar := SidecarPath(key);
    assert sidecar[|sidecar| - 1] == path[|path| - 1] + ".json";
    assert sidecar[0] == ".meta" && path[0][0] != '.';
  }

  lemma KeyPathsAreApart(a: string, b: string)
    requires ValidateObjectKey(a).Ok? && ValidateObjectKey(b).Ok?
    ensures ObjectPath(a) != SidecarPath(b)
    ensures a != b ==> ObjectPath(a) != ObjectPath(b) && SidecarPath(a) != SidecarPath(b)
  {
    PathsAreInjective(a, b);
    CheckedSegments(Split(a, '/'));
    assert IsPlainSegment(Split(a, '/')[0]);
    assert SidecarPath(b)[0] == ".meta";
  }

  // ---- Many writers, step by step ----

  datatype Stage = Sidecar | Body

  datatype Temp = Temp(path: Path, written: nat)

  datatype Job =
    | Put(key: string, sidecar: Bytes, body: Bytes, stage: Stage, temp: Option<Temp>)
    | Delete(key: string, objectGone: bool)

  datatype State = State(files: Files, jobs: map<nat, Job>)

  datatype Step =
    | StartPut(pid: nat, key: string, sidecar: Bytes, body: Bytes)
    | StartDelete(pid: nat, key: string)
    | Open(pid: nat, path: Path)
    | Append(pid: nat, upTo: nat)
    | Rename(pid: nat)
    | Fail(pid: nat)
    | Die(pid: nat)
    | RemoveObject(pid: nat)
    | RemoveSidecar(pid: nat)

  function Source(j: Job): Bytes
    requires j.Put?
  {
    if j.stage.Sidecar? then j.sidecar else j.body
  }

  function Target(j: Job): Path
    requires j.Put?
  {
    if j.stage.Sidecar? then SidecarPath(j.key) else ObjectPath(j.key)
  }

  /** One writer per key; a temporary name is new when it is opened. */
  predicate Enabled(s: State, step: Step) {
    match step
    case StartPut(pid, key, _, _) => pid !in s.jobs && ValidateObjectKey(key).Ok? && NoWriter(s, key)
    case StartDelete(pid, key) => pid !in s.jobs && ValidateObjectKey(key).Ok? && NoWriter(s, key)
    case Open(pid, path) =>
      pid in s.jobs && s.jobs[pid].Put? && s.jobs[pid].temp.None? && IsTemp(path) && path !in s.files
    case Append(pid, upTo) =>
      && pid in s.jobs && s.jobs[pid].Put? && s.jobs[pid].temp.Some?
      && s.jobs[pid].temp.value.written < upTo <= |Source(s.jobs[pid])|
    case Rename(pid) =>
      && pid in s.jobs && s.jobs[pid].Put? && s.jobs[pid].temp.Some?
      && s.jobs[pid].temp.value.written == |Source(s.jobs[pid])|
    case Fail(pid) => pid in s.jobs && s.jobs[pid].Put?
    case Die(pid) => pid in s.jobs
    case RemoveObject(pid) => pid in s.jobs && s.jobs[pid].Delete? && !s.jobs[pid].objectGone
    case RemoveSidecar(pid) => pid in s.jobs && s.jobs[pid].Delete? && s.jobs[pid].objectGone
  }

  predicate NoWriter(s: State, key: string) {
    forall pid :: pid in s.jobs ==> s.jobs[pid].key != key
  }

  function Content(files: Files, path: Path): Bytes {
    if path in files then files[path] else []
  }

  function Next(s: State, step: Step): State
    requires Enabled(s, step)
  {
    match step
    case StartPut(pid, key, sidecar, body) => s.(jobs := s.jobs[pid := Put(key, sidecar, body, Sidecar, None)])
    case StartDelete(pid, key) => s.(jobs := s.jobs[pid := Delete(key, false)])
    case Open(pid, path) =>
      State(s.files[path := []], s.jobs[pid := s.jobs[pid].(temp := Some(Temp(path, 0)))])
    case Append(pid, upTo) =>
      var j := s.jobs[pid];
      var path := j.temp.value.path;
      State(s.files[path := Content(s.files, path) + Source(j)[j.temp.value.written..upTo]],
            s.jobs[pid := j.(temp := Some(Temp(path, upTo)))])
    case Rename(pid) =>
      var j := s.jobs[pid];
      var path := j.temp.value.path;
      State((s.files - {path})[Target(j) := Content(s.files, path)],
            if j.stage.Sidecar? then s.jobs[pid := j.(stage := Body, temp := None)] else s.jobs - {pid})
    case Fail(pid) =>
      var j := s.jobs[pid];
      State(if j.temp.Some? then s.files - {j.temp.value.path} else s.files, s.jobs - {pid})
    case Die(pid) => s.(jobs := s.jobs - {pid})
    case RemoveObject(pid) =>
      State(s.files - {ObjectPath(s.jobs[pid].key)}, s.jobs[pid := s.jobs[pid].(objectGone := true)])
    case RemoveSidecar(pid) => State(s.files - {SidecarPath(s.jobs[pid].key)}, s.jobs - {pid})
  }

  // ---- What every step keeps ----

  predicate OneWriterPerKey(s: State) {
    && (forall p :: p in s.jobs ==> ValidateObjectKey(s.jobs[p].key).Ok?)
    && (forall p, q :: p in s.jobs && q in s.jobs && p != q ==> s.jobs[p].key != s.jobs[q].key)
  }

  predicate Writing(j: Job) {
    j.Put? && j.temp.Some?
  }

  /** An open temporary file holds just what its writer wrote. */
  predicate TempHeld(files: Files, j: Job) {
    Writing(j) ==>
      && IsTemp(j.temp.value.path)
      && j.temp.value.path in files
      && j.temp.value.written <= |Source(j)|
      && files[j.temp.value.path] == Source(j)[..j.temp.value.written]
  }

  predicate TempsHeld(s: State) {
    && (forall p :: p in s.jobs ==> TempHeld(s.files, s.jobs[p]))
    && (forall p, q :: p in s.jobs && q in s.jobs && p != q && Writing(s.jobs[p]) && Writing(s.jobs[q]) ==>
          s.jobs[p].temp.value.path != s.jobs[q].temp.value.path)
  }

  /** A put past its first rename has its sidecar in place; a delete past its first removal has no object. */
  predicate HalfDone(files: Files, j: Job) {
    match j
    case Put(key, sidecar, _, Body, _) => SidecarPath(key) in files && files[SidecarPath(key)] == sidecar
    case Put(_, _, _, Sidecar, _) => true
    case Delete(key, objectGone) => objectGone ==> ObjectPath(key) !in files
  }

  predicate AllHalfDone(s: State) {
    forall p :: p in s.jobs ==> HalfDone(s.files, s.jobs[p])
  }

  predicate HasSidecar(files: Files, key: string) {
    ObjectPath(key) in files ==> SidecarPath(key) in files
  }

  ghost predicate VisibleHaveSidecars(files: Files) {
    forall key :: ValidateObjectKey(key).Ok? ==> HasSidecar(files, key)
  }

  ghost predicate Inv(s: State) {
    OneWriterPerKey(s) && TempsHeld(s) && AllHalfDone(s) && VisibleHaveSidecars(s.files)
  }

  /** The files a step may change. */
  function Touched(s: State, step: Step): set<Path>
    requires Enabled(s, step)
  {
    match step
    case Open(_, path) => {path}
    case Append(pid, _) => {s.jobs[pid].temp.value.path}
    case Rename(pid) => {s.jobs[pid].temp.value.path, Target(s.jobs[pid])}
    case Fail(pid) => if s.jobs[pid].temp.Some? then {s.jobs[pid].temp.value.path} else {}
    case RemoveObject(pid) => {ObjectPath(s.jobs[pid].key)}
    case RemoveSidecar(pid) => {SidecarPath(s.jobs[pid].key)}
    case _ => {}
  }

  lemma UntouchedStay(s: State, step: Step, path: Path)
    requires Enabled(s, step) && path !in Touched(s, step)
    ensures path in Next(s, step).files <==> path in s.files
    ensures path in s.files ==> Next(s, step).files[path] == s.files[path]
  {
  }

  lemma JobsOfOthersStay(s: State, step: Step, pid: nat)
    requires Enabled(s, step) && pid != step.pid
    ensures pid in Next(s, step).jobs <==> pid in s.jobs
    ensures pid in s.jobs ==> Next(s, step).jobs[pid] == s.jobs[pid]
  {
  }

  lemma StepKeepsOneWriter(s: State, step: Step)
    requires OneWriterPerKey(s) && Enabled(s, step)
    ensures OneWriterPerKey(Next(s, step))
  {
    var t := Next(s, step);
    forall p | p in t.jobs && p != step.pid ensures p in s.jobs && t.jobs[p] == s.jobs[p] {
      JobsOfOthersStay(s, step, p);
    }
    KeyStays(s, step);
  }

  lemma KeyStays(s: State, step: Step)
    requires Enabled(s, step)
    ensures step.pid in s.jobs && step.pid in Next(s, step).jobs ==> Next(s, step).jobs[step.pid].key == s.jobs[step.pid].key
    ensures step.pid !in s.jobs ==> step.StartPut? || step.StartDelete?
    ensures step.StartPut? || step.StartDelete? ==>
      step.pid in Next(s, step).jobs && Next(s, step).jobs[step.pid].key == step.key
  {
  }

  lemma AppendedIsLonger(source: Bytes, n: nat, upTo: nat)
    requires n <= upTo <= |source|
    ensures source[..n] + source[n..upTo] == source[..upTo]
  {
  }

  lemma AppendKeepsOwnTemp(s: State, step: Step)
    requires step.Append? && Enabled(s, step) && TempHeld(s.files, s.jobs[step.pid])
    ensures TempHeld(Next(s, step).files, Next(s, step).jobs[step.pid])
  {
    var j := s.jobs[step.pid];
    AppendedIsLonger(Source(j), j.temp.value.written, step.upTo);
  }

  /** The stepping writer's own temporary file. */
  lemma StepKeepsOwnTemp(s: State, step: Step)
    requires Enabled(s, step) && OneWriterPerKey(s) && TempsHeld(s)
    ensures step.pid in Next(s, step).jobs ==> TempHeld(Next(s, step).files, Next(s, step).jobs[step.pid])
  {
    if step.Append? { AppendKeepsOwnTemp(s, step); }
  }

  lemma OthersTempsUntouched(s: State, step: Step, p: nat)
    requires Enabled(s, step) && OneWriterPerKey(s) && TempsHeld(s)
    requires p in s.jobs && p != step.pid && Writing(s.jobs[p])
    ensures s.jobs[p].temp.value.path !in Touched(s, step)
  {
    assert TempHeld(s.files, s.jobs[p]);
    if step.pid in s.jobs {
      KeyPathsAreVisible(s.jobs[step.pid].key);
    }
  }

  lemma StepKeepsTemps(s: State, step: Step)
    requires Enabled(s, step) && OneWriterPerKey(s) && TempsHeld(s)
    ensures forall p :: p in Next(s, step).jobs ==> TempHeld(Next(s, step).files, Next(s, step).jobs[p])
  {
    var t := Next(s, step);
    forall p | p in t.jobs ensures TempHeld(t.files, t.jobs[p]) {
      if p == step.pid {
        StepKeepsOwnTemp(s, step);
      } else {
        JobsOfOthersStay(s, step, p);
        if Writing(s.jobs[p]) {
          OthersTempsUntouched(s, step, p);
          UntouchedStay(s, step, s.jobs[p].temp.value.path);
        }
      }
    }
  }

  lemma NewTempIsApart(s: State, step: Step, p: nat)
    requires Enabled(s, step) && TempsHeld(s)
    requires p in s.jobs && p != step.pid && Writing(s.jobs[p])
    requires step.pid in Next(s, step).jobs && Writing(Next(s, step).jobs[step.pid])
    ensures Next(s, step).jobs[step.pid].temp.value.path != s.jobs[p].temp.value.path
  {
    assert TempHeld(s.files, s.jobs[p]);
  }

  lemma StepKeepsTempsApart(s: State, step: Step)
    requires Enabled(s, step) && OneWriterPerKey(s) && TempsHeld(s)
    ensures TempsHeld(Next(s, step))
  {
    StepKeepsTemps(s, step);
    var t := Next(s, step);
    forall p, q | p in t.jobs && q in t.jobs && p != q && Writing(t.jobs[p]) && Writing(t.jobs[q])
      ensures t.jobs[p].temp.value.path != t.jobs[q].temp.value.path
    {
      if p != step.pid { JobsOfOthersStay(s, step, p); }
      if q != step.pid { JobsOfOthersStay(s, step, q); }
      if p == step.pid { NewTempIsApart(s, step, q); }
      if q == step.pid { NewTempIsApart(s, step, p); }
    }
  }

  /** A finished temporary file holds the whole source. */
  lemma RenamedIsWhole(s: State, step: Step)
    requires step.Rename? && Enabled(s, step) && TempsHeld(s)
    ensures Content(s.files, s.jobs[step.pid].temp.value.path) == Source(s.jobs[step.pid])
  {
    var j := s.jobs[step.pid];
    assert TempHeld(s.files, j);
    assert Source(j)[..|Source(j)|] == Source(j);
  }

  lemma OthersPathsUntouched(s: State, step: Step, key: string)
    requires Enabled(s, step) && OneWriterPerKey(s) && TempsHeld(s) && ValidateObjectKey(key).Ok?
    requires step.pid in s.jobs ==> s.jobs[step.pid].key != key
    ensures ObjectPath(key) !in Touched(s, step) && SidecarPath(key) !in Touched(s, step)
  {
    KeyPathsAreVisible(key);
    if step.pid in s.jobs {
      assert TempHeld(s.files, s.jobs[step.pid]);
      KeyPathsAreApart(key, s.jobs[step.pid].key);
      KeyPathsAreApart(s.jobs[step.pid].key, key);
    }
  }

  lemma OwnHalfDone(s: State, step: Step)
    requires Enabled(s, step) && OneWriterPerKey(s) && TempsHeld(s) && AllHalfDone(s)
    ensures step.pid in Next(s, step).jobs ==> HalfDone(Next(s, step).files, Next(s, step).jobs[step.pid])
  {
    if step.pid in s.jobs {
      var j := s.jobs[step.pid];
      assert HalfDone(s.files, j) && TempHeld(s.files, j);
      KeyPathsAreVisible(j.key);
      if step.Rename? { RenamedIsWhole(s, step); }
    }
  }

  lemma StepKeepsHalfDone(s: State, step: Step)
    requires Enabled(s, step) && OneWriterPerKey(s) && TempsHeld(s) && AllHalfDone(s)
    ensures AllHalfDone(Next(s, step))
  {
    var t := Next(s, step);
    forall p | p in t.jobs ensures HalfDone(t.files, t.jobs[p]) {
      if p == step.pid {
        OwnHalfDone(s, step);
      } else {
        JobsOfOthersStay(s, step, p);
        assert HalfDone(s.files, s.jobs[p]);
        var key := s.jobs[p].key;
        OthersPathsUntouched(s, step, key);
        UntouchedStay(s, step, ObjectPath(key));
        UntouchedStay(s, step, SidecarPath(key));
      }
    }
  }

  lemma StepKeepsSidecar(s: State, step: Step, key: string)
    requires Enabled(s, step) && OneWriterPerKey(s) && TempsHeld(s) && AllHalfDone(s)
    requires ValidateObjectKey(key).Ok? && HasSidecar(s.files, key)
    ensures HasSidecar(Next(s, step).files, key)
  {
    if step.pid in s.jobs && s.jobs[step.pid].key == key {
      assert HalfDone(s.files, s.jobs[step.pid]) && TempHeld(s.files, s.jobs[step.pid]);
      KeyPathsAreVisible(key);
    } else {
      OthersPathsUntouched(s, step, key);
      UntouchedStay(s, step, ObjectPath(key));
      UntouchedStay(s, step, SidecarPath(key));
    }
  }

  lemma StepKeepsInv(s: State, step: Step)
    requires Inv(s) && Enabled(s, step)
    ensures Inv(Next(s, step))
  {
    StepKeepsOneWriter(s, step);
    StepKeepsTempsApart(s, step);
    StepKeepsHalfDone(s, step);
    forall key | ValidateObjectKey(key).Ok? ensures HasSidecar(Next(s, step).files, key) {
      assert HasSidecar(s.files, key);
      StepKeepsSidecar(s, step, key);
    }
  }

  // ---- What readers see ----

  function Read(s: State, key: string): Option<Bytes> {
    if ObjectPath(key) in s.files then Some(s.files[ObjectPath(key)]) else None
  }

  /** The change a step makes to the store as readers see it. */
  datatype Change = Written(key: string, body: Bytes) | Removed(key: string)

  function ChangeOf(s: State, step: Step): Option<Change>
    requires Enabled(s, step)
  {
    match step
    case Rename(pid) =>
      if s.jobs[pid].stage.Body? then Some(Written(s.jobs[pid].key, s.jobs[pid].body)) else None
    case RemoveObject(pid) => Some(Removed(s.jobs[pid].key))
    case _ => None
  }

  function Applied(seen: Option<Bytes>, key: string, change: Option<Change>): Option<Bytes> {
    if change.None? || change.value.key != key then seen
    else if change.value.Written? then Some(change.value.body)
    else None
  }

  /**
   * Every step is, to readers, a whole write, a removal, or nothing at all:
   * no reader ever finds part of an object.
   */
  lemma StepIsAtomic(s: State, step: Step, key: string)
    requires Inv(s) && Enabled(s, step) && ValidateObjectKey(key).Ok?
    ensures Read(Next(s, step), key) == Applied(Read(s, key), key, ChangeOf(s, step))
  {
    if step.pid in s.jobs && s.jobs[step.pid].key == key {
      assert TempHeld(s.files, s.jobs[step.pid]);
      KeyPathsAreVisible(key);
      if step.Rename? { RenamedIsWhole(s, step); }
    } else {
      OthersPathsUntouched(s, step, key);
      UntouchedStay(s, step, ObjectPath(key));
    }
  }

  predicate IsRun(s: State, steps: seq<Step>)
    decreases |steps|
  {
    steps == [] || (Enabled(s, steps[0]) && IsRun(Next(s, steps[0]), steps[1..]))
  }

  function After(s: State, steps: seq<Step>): State
    requires IsRun(s, steps)
    decreases |steps|
  {
    if steps == [] then s else After(Next(s, steps[0]), steps[1..])
  }

  /** The atomic store: the same run, keeping only whole writes and removals of a key. */
  function Replayed(seen: Option<Bytes>, s: State, steps: seq<Step>, key: string): Option<Bytes>
    requires IsRun(s, steps)
    decreases |steps|
  {
    if steps == [] then seen
    else Replayed(Applied(seen, key, ChangeOf(s, steps[0])), Next(s, steps[0]), steps[1..], key)
  }

  /** Over every run, readers see the atomic store, and every visible object has its sidecar. */
  lemma {:induction false} RunsAreAtomic(s: State, steps: seq<Step>, key: string)
    requires Inv(s) && IsRun(s, steps) && ValidateObjectKey(key).Ok?
    ensures Read(After(s, steps), key) == Replayed(Read(s, key), s, steps, key)
    ensures Read(After(s, steps), key).Some? ==> SidecarPath(key) in After(s, steps).files
    decreases |steps|
  {
    if steps == [] {
      assert HasSidecar(s.files, key);
    } else {
      StepKeepsInv(s, steps[0]);
      StepIsAtomic(s, steps[0], key);
      RunsAreAtomic(Next(s, steps[0]), steps[1..], key);
    }
  }

  lemma EmptyStoreIsFine()
    ensures Inv(State(map[], map[]))
  {
  }

  /**
   * From an empty directory, whatever is put, deleted, broken off or killed:
   * a reader finds what the whole writes and removals of the key left, and its
   * sidecar beside it.
   */
  lemma EveryRunIsAtomic(steps: seq<Step>, key: string)
    requires IsRun(State(map[], map[]), steps) && ValidateObjectKey(key).Ok?
    ensures var s := State(map[], map[]);
      && Read(After(s, steps), key) == Replayed(None, s, steps, key)
      && (Read(After(s, steps), key).Some? ==> SidecarPath(key) in After(s, steps).files)
  {
    EmptyStoreIsFine();
    RunsAreAtomic(State(map[], map[]), steps, key);
  }

  /**
   * While a put runs, and when it is over, the key reads as before or as the
   * whole new body.
   */
  lemma {:induction false} PutShowsOldOrNew(s: State, steps: seq<Step>, pid: nat)
    requires Inv(s) && IsRun(s, steps)
    requires pid in s.jobs && s.jobs[pid].Put?
    requires forall i :: 0 <= i < |steps| ==> !(steps[i].StartPut? || steps[i].StartDelete?) || steps[i].key != s.jobs[pid].key
    ensures var key, body := s.jobs[pid].key, s.jobs[pid].body;
      Read(After(s, steps), key) == Read(s, key) || Read(After(s, steps), key) == Some(body)
    decreases |steps|
  {
    if steps == [] {
    } else {
      var key, body := s.jobs[pid].key, s.jobs[pid].body;
      var t := Next(s, steps[0]);
      assert ValidateObjectKey(key).Ok?;
      StepKeepsInv(s, steps[0]);
      StepIsAtomic(s, steps[0], key);
      assert forall i :: 0 <= i < |steps[1..]| ==> steps[1..][i] == steps[i + 1];
      if pid != steps[0].pid { JobsOfOthersStay(s, steps[0], pid); }
      if pid in t.jobs {
        PutShowsOldOrNew(t, steps[1..], pid);
      } else {
        IdleKeyStays(t, steps[1..], key);
      }
    }
  }

  /** With no writer, a key reads the same. */
  lemma {:induction false} IdleKeyStays(s: State, steps: seq<Step>, key: string)
    requires Inv(s) && IsRun(s, steps) && ValidateObjectKey(key).Ok?
    requires NoWriter(s, key)
    requires forall i :: 0 <= i < |steps| ==> !(steps[i].StartPut? || steps[i].StartDelete?) || steps[i].key != key
    ensures Read(After(s, steps), key) == Read(s, key)
    decreases |steps|
  {
    if steps == [] {
    } else {
      var t := Next(s, steps[0]);
      StepKeepsInv(s, steps[0]);
      StepIsAtomic(s, steps[0], key);
      assert forall i :: 0 <= i < |steps[1..]| ==> steps[1..][i] == steps[i + 1];
      forall p | p in t.jobs ensures t.jobs[p].key != key {
        if p != steps[0].pid { JobsOfOthersStay(s, steps[0], p); } else { KeyStays(s, steps[0]); }
      }
      IdleKeyStays(t, steps[1..], key);
    }
  }

  // ---- A writer alone ----

  lemma {:induction false} RunsOn(s: State, a: seq<Step>, b: seq<Step>)
    requires IsRun(s, a) && IsRun(After(s, a), b)
    ensures IsRun(s, a + b) && After(s, a + b) == After(After(s, a), b)
    decreases |a|
  {
    if a == [] {
      assert a + b == b;
    } else {
      assert (a + b)[0] == a[0] && (a + b)[1..] == a[1..] + b;
      RunsOn(Next(s, a[0]), a[1..], b);
    }
  }

  lemma OneStep(s: State, step: Step)
    requires Enabled(s, step)
    ensures IsRun(s, [step]) && After(s, [step]) == Next(s, step)
  {
    assert [step][1..] == [];
  }

  /** Bytes into a new temporary file, all at once. */
  lemma WriteAlone(s: State, pid: nat, path: Path) returns (steps: seq<Step>)
    requires pid in s.jobs && s.jobs[pid].Put? && s.jobs[pid].temp.None? && IsTemp(path) && path !in s.files
    ensures var source := Source(s.jobs[pid]);
      && IsRun(s, steps)
      && After(s, steps).files == s.files[path := source]
      && After(s, steps).jobs == s.jobs[pid := s.jobs[pid].(temp := Some(Temp(path, |source|)))]
  {
    var begun := Next(s, Open(pid, path));
    OneStep(s, Open(pid, path));
    steps := [Open(pid, path)];
    var source := Source(s.jobs[pid]);
    if source != [] {
      OneStep(begun, Append(pid, |source|));
      RunsOn(s, steps, [Append(pid, |source|)]);
      steps := steps + [Append(pid, |source|)];
      assert [] + source[0..|source|] == source;
    }
  }

  /** Written and renamed: the target holds the source and nothing else has changed. */
  lemma FileAlone(s: State, pid: nat, path: Path) returns (steps: seq<Step>)
    requires pid in s.jobs && s.jobs[pid].Put? && s.jobs[pid].temp.None? && IsTemp(path) && path !in s.files
    requires Target(s.jobs[pid]) != path
    ensures IsRun(s, steps) && After(s, steps).files == s.files[Target(s.jobs[pid]) := Source(s.jobs[pid])]
    ensures After(s, steps).jobs ==
      if s.jobs[pid].stage == Sidecar then s.jobs[pid := s.jobs[pid].(stage := Body)] else s.jobs - {pid}
  {
    steps := WriteAlone(s, pid, path);
    var written := After(s, steps);
    assert Source(written.jobs[pid]) == Source(s.jobs[pid]) && Target(written.jobs[pid]) == Target(s.jobs[pid]);
    OneStep(written, Rename(pid));
    RunsOn(s, steps, [Rename(pid)]);
    steps := steps + [Rename(pid)];
    assert s.files[path := Source(s.jobs[pid])] - {path} == s.files;
  }

  /** A put with no one in its way: sidecar and object are in place, as the one call leaves them. */
  lemma PutAlone(s: State, pid: nat, key: string, sidecar: Bytes, body: Bytes, temps: (Path, Path)) returns (steps: seq<Step>)
    requires Enabled(s, StartPut(pid, key, sidecar, body))
    requires IsTemp(temps.0) && IsTemp(temps.1) && temps.0 !in s.files && temps.1 !in s.files
    ensures steps != [] && steps[0] == StartPut(pid, key, sidecar, body)
    ensures IsRun(s, steps) && After(s, steps) == s.(files := WithObject(s.files, key, sidecar, body))
  {
    KeyPathsAreVisible(key);
    var start := StartPut(pid, key, sidecar, body);
    OneStep(s, start);
    var started := Next(s, start);
    var first := FileAlone(started, pid, temps.0);
    var between := After(started, first);
    var second := FileAlone(between, pid, temps.1);
    RunsOn(started, first, second);
    RunsOn(s, [start], first + second);
    steps := [start] + (first + second);
    assert (s.jobs[pid := Put(key, sidecar, body, Body, None)] - {pid}) == s.jobs;
  }

  /** A delete with no one in its way leaves neither object nor sidecar. */
  lemma DeleteAlone(s: State, pid: nat, key: string)
    requires Enabled(s, StartDelete(pid, key))
    ensures var steps := [StartDelete(pid, key), RemoveObject(pid), RemoveSidecar(pid)];
      IsRun(s, steps) && After(s, steps) == s.(files := WithoutObject(s.files, key))
  {
    var a, b, c := StartDelete(pid, key), RemoveObject(pid), RemoveSidecar(pid);
    OneStep(s, a);
    OneStep(Next(s, a), b);
    OneStep(Next(Next(s, a), b), c);
    RunsOn(Next(s, a), [b], [c]);
    RunsOn(s, [a], [b] + [c]);
    assert [a] + ([b] + [c]) == [a, b, c];
    assert s.jobs[pid := Delete(key, true)] - {pid} == s.jobs;
    assert s.files - {ObjectPath(key)} - {SidecarPath(key)} == WithoutObject(s.files, key);
  }

  /** From its start, the key of a put reads as before it or as the whole body it was given. */
  lemma PutWritesItsBody(s: State, pid: nat, key: string, sidecar: Bytes, body: Bytes, steps: seq<Step>)
    requires Inv(s) && Enabled(s, StartPut(pid, key, sidecar, body))
    requires IsRun(Next(s, StartPut(pid, key, sidecar, body)), steps)
    requires forall i :: 0 <= i < |steps| ==> !(steps[i].StartPut? || steps[i].StartDelete?) || steps[i].key != key
    ensures Read(After(Next(s, StartPut(pid, key, sidecar, body)), steps), key) in {Read(s, key), Some(body)}
  {
    var start := StartPut(pid, key, sidecar, body);
    StepKeepsInv(s, start);
    PutShowsOldOrNew(Next(s, start), steps, pid);
  }
}
