// Listing a directory store: the walk starts at the deepest directory the
// prefix names, and finds what a walk of the whole tree would.
module TreeWalk {
  import opened Wrappers
  import opened Strings
  import opened ObjectKeys

  datatype Node = File | Directory(entries: seq<Entry>) | Special
  datatype Entry = Entry(name: string, node: Node)

  predicate IsHidden(name: string) {
    name != "" && name[0] == '.'
  }

  /** Names are non-empty, have no slash, and differ within a directory. */
  predicate IsTree(entries: seq<Entry>)
    decreases entries
  {
    && (forall i :: 0 <= i < |entries| ==> entries[i].name != "" && '/' !in entries[i].name)
    && (forall i, j :: 0 <= i < j < |entries| ==> entries[i].name != entries[j].name)
    && (forall i :: 0 <= i < |entries| && entries[i].node.Directory? ==> IsTree(entries[i].node.entries))
  }

  function ChildKey(keyPrefix: string, name: string): string {
    if keyPrefix == "" then name else keyPrefix + "/" + name
  }

  /** The keys of the files below, in directory order; dot names and what is neither file nor directory are skipped. */
  function Walk(entries: seq<Entry>, keyPrefix: string): seq<string>
    decreases entries
  {
    if entries == [] then []
    else WalkEntry(entries[0], keyPrefix) + Walk(entries[1..], keyPrefix)
  }

  function WalkEntry(e: Entry, keyPrefix: string): seq<string>
    decreases e
  {
    if IsHidden(e.name) then []
    else match e.node
      case File => [ChildKey(keyPrefix, e.name)]
      case Directory(entries) => Walk(entries, ChildKey(keyPrefix, e.name))
      case Special => []
  }

  /** What readdir finds at a path: nothing when there is no directory. */
  function EntriesAt(entries: seq<Entry>, path: seq<string>): seq<Entry>
    decreases path
  {
    if path == [] then entries
    else
      var e := Named(entries, path[0]);
      if e.Some? && e.value.Directory? then EntriesAt(e.value.entries, path[1..]) else []
  }

  function Named(entries: seq<Entry>, name: string): Option<Node> {
    if entries == [] then None
    else if entries[0].name == name then Some(entries[0].node)
    else Named(entries[1..], name)
  }

  // ---- The list operation ----

  function LastSlash(s: string): (i: int)
    ensures -1 <= i < |s|
    ensures i >= 0 ==> s[i] == '/'
    ensures '/' in s ==> i >= 0
  {
    if s == "" then -1
    else if s[|s| - 1] == '/' then |s| - 1
    else LastSlash(s[..|s| - 1])
  }

  function DirectoryPart(prefix: string): string {
    if LastSlash(prefix) >= 0 then prefix[..LastSlash(prefix)] else ""
  }

  function StartPath(prefix: string): seq<string> {
    if DirectoryPart(prefix) == "" then [] else Split(DirectoryPart(prefix), '/')
  }

  function StartingWith(keys: seq<string>, prefix: string): seq<string> {
    if keys == [] then []
    else (if prefix <= keys[0] then [keys[0]] else []) + StartingWith(keys[1..], prefix)
  }

  /** The keys list() matches: a walk from the start directory, sieved by the prefix. */
  function Matching(root: seq<Entry>, prefix: string): seq<string> {
    StartingWith(Walk(EntriesAt(root, StartPath(prefix)), DirectoryPart(prefix)), prefix)
  }

  class KeyList {
    var keys: seq<string>

    constructor ()
      ensures keys == []
    {
      keys := [];
    }
  }

  /** The recursive walk, pushing keys as it finds them. */
  method WalkInto(entries: seq<Entry>, keyPrefix: string, into: KeyList)
    modifies into
    ensures into.keys == old(into.keys) + Walk(entries, keyPrefix)
    decreases entries
  {
    var i := 0;
    while i < |entries|
      invariant 0 <= i <= |entries|
      invariant old(into.keys) + Walk(entries, keyPrefix) == into.keys + Walk(entries[i..], keyPrefix)
    {
      var e := entries[i];
      ghost var rest := Walk(entries[i + 1..], keyPrefix);
      assert entries[i..][1..] == entries[i + 1..];
      assert into.keys + (WalkEntry(e, keyPrefix) + rest) == (into.keys + WalkEntry(e, keyPrefix)) + rest;
      if !IsHidden(e.name) {
        match e.node {
          case Directory(children) => WalkInto(children, ChildKey(keyPrefix, e.name), into);
          case File => into.keys := into.keys + [ChildKey(keyPrefix, e.name)];
          case Special =>
        }
      }
      i := i + 1;
    }
  }

  // ---- Walks as paths ----

  /** The paths of the files below, from a given path. */
  function Paths(entries: seq<Entry>, at: seq<string>): seq<seq<string>>
    decreases entries
  {
    if entries == [] then []
    else EntryPaths(entries[0], at) + Paths(entries[1..], at)
  }

  function EntryPaths(e: Entry, at: seq<string>): seq<seq<string>>
    decreases e
  {
    if IsHidden(e.name) then []
    else match e.node
      case File => [at + [e.name]]
      case Directory(entries) => Paths(entries, at + [e.name])
      case Special => []
  }

  function Joined(paths: seq<seq<string>>): seq<string> {
    if paths == [] then [] else [Join(paths[0], '/')] + Joined(paths[1..])
  }

  lemma {:induction false} JoinedConcat(a: seq<seq<string>>, b: seq<seq<string>>)
    ensures Joined(a + b) == Joined(a) + Joined(b)
    decreases |a|
  {
    if a == [] {
      assert a + b == b;
    } else {
      assert (a + b)[0] == a[0] && (a + b)[1..] == a[1..] + b;
      JoinedConcat(a[1..], b);
      assert [Join(a[0], '/')] + (Joined(a[1..]) + Joined(b)) == ([Join(a[0], '/')] + Joined(a[1..])) + Joined(b);
    }
  }

  predicate IsPath(at: seq<string>) {
    forall i :: 0 <= i < |at| ==> at[i] != "" && '/' !in at[i]
  }

  lemma ChildPath(at: seq<string>, name: string)
    requires IsPath(at) && name != "" && '/' !in name
    ensures ChildKey(Join(at, '/'), name) == Join(at + [name], '/')
  {
    if at == [] {
      assert at + [name] == [name];
    } else {
      JoinConcat(at, [name], '/');
      assert at[0] != "";
      assert Join(at, '/') != "";
    }
  }

  lemma {:induction false} WalkIsPaths(entries: seq<Entry>, at: seq<string>)
    requires IsTree(entries) && IsPath(at)
    ensures Walk(entries, Join(at, '/')) == Joined(Paths(entries, at))
    decreases entries
  {
    if entries == [] {
    } else {
      var e := entries[0];
      TreeTail(entries);
      WalkIsPaths(entries[1..], at);
      ChildPath(at, e.name);
      if e.node.Directory? {
        assert IsPath(at + [e.name]);
        WalkIsPaths(e.node.entries, at + [e.name]);
      }
      JoinedConcat(EntryPaths(e, at), Paths(entries[1..], at));
      assert Joined(EntryPaths(e, at)) == WalkEntry(e, Join(at, '/')) by {
        if e.node.File? && !IsHidden(e.name) {
          assert [at + [e.name]][1..] == [];
        }
      }
    }
  }

  lemma TreeTail(entries: seq<Entry>)
    requires IsTree(entries) && entries != []
    ensures IsTree(entries[1..])
    ensures Named(entries[1..], entries[0].name) == None
  {
    forall i | 0 <= i < |entries[1..]| ensures entries[1..][i] == entries[i + 1] {
    }
    NotNamed(entries[1..], entries[0].name);
  }

  lemma {:induction false} NotNamed(entries: seq<Entry>, name: string)
    requires forall i :: 0 <= i < |entries| ==> entries[i].name != name
    ensures Named(entries, name) == None
  {
    if entries == [] {
    } else {
      NotNamed(entries[1..], name);
    }
  }

  /** Every path found goes on from where the walk started. */
  lemma {:induction false} PathsGoOn(entries: seq<Entry>, at: seq<string>)
    ensures forall p :: p in Paths(entries, at) ==> at < p
    decreases entries
  {
    if entries == [] {
    } else {
      PathsGoOn(entries[1..], at);
      EntryPathsGoOn(entries[0], at);
    }
  }

  lemma {:induction false} EntryPathsGoOn(e: Entry, at: seq<string>)
    ensures forall p :: p in EntryPaths(e, at) ==> at < p && p[|at|] == e.name
    decreases e
  {
    if e.node.Directory? && !IsHidden(e.name) {
      PathsGoOn(e.node.entries, at + [e.name]);
      forall p | p in EntryPaths(e, at) ensures at < p && p[|at|] == e.name {
        assert at + [e.name] < p;
        assert p[..|at|] == (at + [e.name])[..|at|];
      }
    }
  }

  // ---- A walk below a directory is the whole walk, sieved ----

  function Below(paths: seq<seq<string>>, at: seq<string>): seq<seq<string>> {
    if paths == [] then []
    else (if at < paths[0] then [paths[0]] else []) + Below(paths[1..], at)
  }

  lemma {:induction false} BelowConcat(a: seq<seq<string>>, b: seq<seq<string>>, at: seq<string>)
    ensures Below(a + b, at) == Below(a, at) + Below(b, at)
    decreases |a|
  {
    if a == [] {
      assert a + b == b;
    } else {
      assert (a + b)[0] == a[0] && (a + b)[1..] == a[1..] + b;
      BelowConcat(a[1..], b, at);
      var x := if at < a[0] then [a[0]] else [];
      assert x + (Below(a[1..], at) + Below(b, at)) == (x + Below(a[1..], at)) + Below(b, at);
    }
  }

  lemma {:induction false} AllBelow(paths: seq<seq<string>>, at: seq<string>)
    requires forall p :: p in paths ==> at < p
    ensures Below(paths, at) == paths
  {
    if paths == [] {
    } else {
      assert paths[0] in paths && forall p :: p in paths[1..] ==> p in paths;
      AllBelow(paths[1..], at);
      assert paths == [paths[0]] + paths[1..];
    }
  }

  lemma {:induction false} NoneBelow(paths: seq<seq<string>>, at: seq<string>)
    requires forall p :: p in paths ==> !(at < p)
    ensures Below(paths, at) == []
  {
    if paths == [] {
    } else {
      assert paths[0] in paths && forall p :: p in paths[1..] ==> p in paths;
      NoneBelow(paths[1..], at);
    }
  }

  lemma Diverging(at: seq<string>, way: seq<string>, p: seq<string>, name: string)
    requires way != [] && name != way[0] && |at| < |p| && p[|at|] == name
    ensures !(at + way < p)
  {
  }

  /** An entry off the way contributes nothing. */
  lemma OffTheWay(e: Entry, at: seq<string>, way: seq<string>)
    requires way != [] && e.name != way[0]
    ensures Below(EntryPaths(e, at), at + way) == []
  {
    EntryPathsGoOn(e, at);
    forall p | p in EntryPaths(e, at) ensures !(at + way < p) {
      Diverging(at, way, p, e.name);
    }
    NoneBelow(EntryPaths(e, at), at + way);
  }

  lemma {:induction false} SubtreeIsSieved(entries: seq<Entry>, at: seq<string>, way: seq<string>)
    requires IsTree(entries) && way != [] && forall i :: 0 <= i < |way| ==> !IsHidden(way[i])
    ensures Below(Paths(entries, at), at + way) == Paths(EntriesAt(entries, way), at + way)
    decreases entries
  {
    if entries == [] {
    } else {
      var e := entries[0];
      TreeTail(entries);
      SubtreeIsSieved(entries[1..], at, way);
      BelowConcat(EntryPaths(e, at), Paths(entries[1..], at), at + way);
      if e.name != way[0] {
        OffTheWay(e, at, way);
        assert EntriesAt(entries, way) == EntriesAt(entries[1..], way);
      } else {
        OnTheWay(e, at, way);
        assert EntriesAt(entries[1..], way) == [];
        assert Paths([], at + way) == [];
      }
    }
  }

  function BelowEntry(e: Entry, way: seq<string>): seq<Entry>
    requires way != []
  {
    if e.node.Directory? then EntriesAt(e.node.entries, way[1..]) else []
  }

  /** The entry the way goes through contributes all there is. */
  lemma {:induction false} OnTheWay(e: Entry, at: seq<string>, way: seq<string>)
    requires e.node.Directory? ==> IsTree(e.node.entries)
    requires way != [] && e.name == way[0] && forall i :: 0 <= i < |way| ==> !IsHidden(way[i])
    ensures Below(EntryPaths(e, at), at + way) == Paths(BelowEntry(e, way), at + way)
    decreases e
  {
    match e.node {
      case File =>
        assert |at + [e.name]| <= |at + way|;
        NoneBelow([at + [e.name]], at + way);
      case Special =>
      case Directory(entries) =>
        assert (at + [e.name]) + way[1..] == at + way;
        if |way| == 1 {
          PathsGoOn(entries, at + way);
          AllBelow(Paths(entries, at + way), at + way);
          assert at + [e.name] == at + way;
        } else {
          SubtreeIsSieved(entries, at + [e.name], way[1..]);
        }
    }
  }

  // ---- The same for keys ----

  predicate ArePaths(paths: seq<seq<string>>) {
    forall i :: 0 <= i < |paths| ==> paths[i] != [] && IsPath(paths[i])
  }

  lemma {:induction false} PathsArePaths(entries: seq<Entry>, at: seq<string>)
    requires IsTree(entries) && IsPath(at)
    ensures ArePaths(Paths(entries, at))
    decreases entries
  {
    if entries == [] {
    } else {
      TreeTail(entries);
      PathsArePaths(entries[1..], at);
      assert IsPath(at + [entries[0].name]);
      if entries[0].node.Directory? {
        PathsArePaths(entries[0].node.entries, at + [entries[0].name]);
      }
    }
  }

  /** Sieving joined paths by a directory and a slash is sieving the paths. */
  lemma {:induction false} SievedJoined(paths: seq<seq<string>>, at: seq<string>)
    requires ArePaths(paths) && at != [] && IsPath(at)
    ensures StartingWith(Joined(paths), Join(at, '/') + "/") == Joined(Below(paths, at))
  {
    if paths == [] {
    } else {
      assert paths[0] != [] && IsPath(paths[0]);
      SievedJoined(paths[1..], at);
      JoinedPrefix(at, paths[0], '/');
      var rest := Below(paths[1..], at);
      if at < paths[0] {
        assert ([paths[0]] + rest)[1..] == rest;
      } else {
        assert [] + rest == rest;
      }
    }
  }

  /** A longer prefix sieves the same after a shorter one. */
  lemma {:induction false} SieveTwice(keys: seq<string>, short: string, long: string)
    requires short <= long
    ensures StartingWith(StartingWith(keys, short), long) == StartingWith(keys, long)
  {
    if keys == [] {
    } else {
      SieveTwice(keys[1..], short, long);
      assert long <= keys[0] ==> short == keys[0][..|short|];
      var rest := StartingWith(keys[1..], short);
      if short <= keys[0] {
        assert ([keys[0]] + rest)[1..] == rest;
      } else {
        assert [] + rest == rest;
      }
    }
  }

  lemma DirectoryStartsPrefix(prefix: string)
    requires DirectoryPart(prefix) != ""
    ensures DirectoryPart(prefix) + "/" <= prefix
  {
  }

  lemma WholeWalkBelow(root: seq<Entry>, path: seq<string>)
    requires IsTree(root) && path != [] && IsPath(path)
    requires forall i :: 0 <= i < |path| ==> !IsHidden(path[i])
    ensures StartingWith(Walk(root, ""), Join(path, '/') + "/") == Walk(EntriesAt(root, path), Join(path, '/'))
  {
    WalkIsPaths(root, []);
    PathsArePaths(root, []);
    SievedJoined(Paths(root, []), path);
    SubtreeIsSieved(root, [], path);
    assert [] + path == path;
    TreeAt(root, path);
    WalkIsPaths(EntriesAt(root, path), path);
  }

  lemma {:induction false} NamedIsEntry(entries: seq<Entry>, name: string)
    ensures Named(entries, name).Some? ==> exists i :: 0 <= i < |entries| && entries[i].node == Named(entries, name).value
  {
    if entries != [] && entries[0].name != name {
      NamedIsEntry(entries[1..], name);
      if Named(entries[1..], name).Some? {
        var i :| 0 <= i < |entries[1..]| && entries[1..][i].node == Named(entries, name).value;
        assert entries[i + 1].node == Named(entries, name).value;
      }
    }
  }

  lemma {:induction false} TreeAt(entries: seq<Entry>, path: seq<string>)
    requires IsTree(entries)
    ensures IsTree(EntriesAt(entries, path))
    decreases path
  {
    if path == [] {
    } else {
      var e := Named(entries, path[0]);
      if e.Some? && e.value.Directory? {
        NamedIsEntry(entries, path[0]);
        TreeAt(e.value.entries, path[1..]);
      }
    }
  }

  /**
   * For every prefix whose directories are named and not hidden, list() finds,
   * in the same order, what sieving a walk of the whole tree would find.
   */
  lemma ListingIsWholeWalkSieved(root: seq<Entry>, prefix: string)
    requires IsTree(root)
    requires forall i :: 0 <= i < |StartPath(prefix)| ==> StartPath(prefix)[i] != "" && !IsHidden(StartPath(prefix)[i])
    ensures Matching(root, prefix) == StartingWith(Walk(root, ""), prefix)
  {
    var directory, path := DirectoryPart(prefix), StartPath(prefix);
    if directory != "" {
      JoinSplit(directory, '/');
      WholeWalkBelow(root, path);
      DirectoryStartsPrefix(prefix);
      SieveTwice(Walk(root, ""), directory + "/", prefix);
    }
  }

  lemma DirectoryOfPlain(key: string, directory: string, i: nat)
    requires AllPlain(Split(key, '/')) && (directory == key || directory + "/" <= key)
    requires i < |Split(directory, '/')|
    ensures Split(directory, '/')[i] != "" && !IsHidden(Split(directory, '/')[i])
  {
    JoinSplit(directory, '/');
    JoinSplit(key, '/');
    JoinedPrefix(Split(directory, '/'), Split(key, '/'), '/');
    assert Split(directory, '/')[i] == Split(key, '/')[i];
    assert IsPlainSegment(Split(key, '/')[i]);
  }

  lemma DirectoryOfPrefix(prefix: string, trimmed: string)
    requires prefix != "" && DirectoryPart(prefix) != ""
    requires trimmed == if prefix[|prefix| - 1] == '/' then prefix[..|prefix| - 1] else prefix
    ensures DirectoryPart(prefix) == trimmed || DirectoryPart(prefix) + "/" <= trimmed
  {
  }

  /** The prefixes list() accepts are such. */
  lemma AcceptedPrefixesNameDirectories(prefix: string)
    requires ValidatePrefix(prefix).Ok?
    ensures forall i :: 0 <= i < |StartPath(prefix)| ==> StartPath(prefix)[i] != "" && !IsHidden(StartPath(prefix)[i])
  {
    var directory := DirectoryPart(prefix);
    if directory != "" {
      var trimmed := if prefix[|prefix| - 1] == '/' then prefix[..|prefix| - 1] else prefix;
      CheckedSegments(Split(trimmed, '/'));
      DirectoryOfPrefix(prefix, trimmed);
      forall i | 0 <= i < |Split(directory, '/')|
        ensures Split(directory, '/')[i] != "" && !IsHidden(Split(directory, '/')[i])
      {
        DirectoryOfPlain(trimmed, directory, i);
      }
    }
  }

  // ---- Each file once ----

  predicate Distinct<T(==)>(s: seq<T>) {
    forall i, j :: 0 <= i < j < |s| ==> s[i] != s[j]
  }

  lemma DistinctConcat<T>(a: seq<T>, b: seq<T>)
    requires Distinct(a) && Distinct(b) && forall x :: x in a ==> x !in b
    ensures Distinct(a + b)
  {
    forall i, j | 0 <= i < j < |a + b| ensures (a + b)[i] != (a + b)[j] {
      if i < |a| <= j { assert a[i] in a && b[j - |a|] in b; }
    }
  }

  lemma {:induction false} PathsNamed(entries: seq<Entry>, at: seq<string>, name: string)
    requires forall i :: 0 <= i < |entries| ==> entries[i].name != name
    ensures forall p :: p in Paths(entries, at) ==> |at| < |p| && p[|at|] != name
    decreases |entries|
  {
    if entries == [] {
    } else {
      EntryPathsGoOn(entries[0], at);
      PathsNamed(entries[1..], at, name);
    }
  }

  lemma {:induction false} PathsDistinct(entries: seq<Entry>, at: seq<string>)
    requires IsTree(entries)
    ensures Distinct(Paths(entries, at))
    decreases entries
  {
    if entries == [] {
    } else {
      var e := entries[0];
      TreeTail(entries);
      PathsDistinct(entries[1..], at);
      if e.node.Directory? { PathsDistinct(e.node.entries, at + [e.name]); }
      EntryPathsGoOn(e, at);
      PathsNamed(entries[1..], at, e.name);
      DistinctConcat(EntryPaths(e, at), Paths(entries[1..], at));
    }
  }

  lemma {:induction false} JoinedAt(paths: seq<seq<string>>, i: nat)
    requires i < |paths|
    ensures |Joined(paths)| == |paths| && Joined(paths)[i] == Join(paths[i], '/')
  {
    if i > 0 {
      JoinedAt(paths[1..], i - 1);
    } else if |paths| > 1 {
      JoinedAt(paths[1..], 0);
    }
  }

  /** The walk of a tree finds each file under its own key, once. */
  lemma WalkFindsEachOnce(root: seq<Entry>)
    requires IsTree(root)
    ensures Distinct(Walk(root, ""))
  {
    WalkIsPaths(root, []);
    PathsArePaths(root, []);
    PathsDistinct(root, []);
    var paths := Paths(root, []);
    if paths != [] { JoinedAt(paths, 0); }
    forall i, j | 0 <= i < j < |Joined(paths)| ensures Joined(paths)[i] != Joined(paths)[j] {
      JoinedAt(paths, i);
      JoinedAt(paths, j);
      if Joined(paths)[i] == Joined(paths)[j] {
        JoinInjective(paths[i], paths[j], '/');
        assert false;
      }
    }
  }

  // ---- Which files the walk finds ----

  /** The path leads, by names, to a file. */
  predicate LeadsToFile(entries: seq<Entry>, path: seq<string>)
    decreases path
  {
    && path != []
    && var node := Named(entries, path[0]);
       && node.Some?
       && if |path| == 1 then node.value.File? else node.value.Directory? && LeadsToFile(node.value.entries, path[1..])
  }

  predicate IsVisible(path: seq<string>) {
    forall i :: 0 <= i < |path| ==> path[i] == "" || path[i][0] != '.'
  }

  lemma VisibleCons(path: seq<string>)
    requires path != []
    ensures IsVisible(path) <==> !IsHidden(path[0]) && IsVisible(path[1..])
  {
    assert forall i :: 0 <= i < |path[1..]| ==> path[1..][i] == path[i + 1];
    assert forall i :: 0 < i < |path| ==> path[i] == path[1..][i - 1];
  }

  lemma {:induction false} PathsExactly(entries: seq<Entry>, at: seq<string>, path: seq<string>)
    requires IsTree(entries) && path != []
    ensures at + path in Paths(entries, at) <==> IsVisible(path) && LeadsToFile(entries, path)
    decreases entries
  {
    if entries == [] {
    } else {
      var e, rest := entries[0], entries[1..];
      TreeTail(entries);
      PathsExactly(rest, at, path);
      EntryPathsGoOn(e, at);
      assert (at + path)[|at|] == path[0];
      if path[0] == e.name {
        PathsNamed(rest, at, e.name);
        VisibleCons(path);
        EntryPathsExactly(e, at, path);
        assert Named(entries, path[0]) == Some(e.node);
        assert !LeadsToFile(rest, path);
      } else {
        assert at + path !in EntryPaths(e, at);
        assert Named(entries, path[0]) == Named(rest, path[0]);
      }
    }
  }

  lemma {:induction false} EntryPathsExactly(e: Entry, at: seq<string>, path: seq<string>)
    requires path != [] && path[0] == e.name && (e.node.Directory? ==> IsTree(e.node.entries))
    ensures at + path in EntryPaths(e, at) <==>
      && IsVisible(path)
      && if |path| == 1 then e.node.File? else e.node.Directory? && LeadsToFile(e.node.entries, path[1..])
    decreases e
  {
    VisibleCons(path);
    var below := at + [e.name];
    assert at + path == below + path[1..];
    if e.node.Directory? && !IsHidden(e.name) {
      PathsGoOn(e.node.entries, below);
      if |path| == 1 {
        assert below + path[1..] == below;
      } else {
        PathsExactly(e.node.entries, below, path[1..]);
      }
    } else if |path| == 1 {
      assert path == [e.name];
    } else {
      assert |below + path[1..]| > |below|;
    }
  }

  /** A walk of the whole tree finds a key exactly when its path leads to a file past no dot name. */
  lemma WalkFindsExactly(root: seq<Entry>, path: seq<string>)
    requires IsTree(root) && path != [] && IsPath(path)
    ensures Join(path, '/') in Walk(root, "") <==> IsVisible(path) && LeadsToFile(root, path)
  {
    WalkIsPaths(root, []);
    PathsExactly(root, [], path);
    assert [] + path == path;
    PathsArePaths(root, []);
    JoinedMembers(Paths(root, []), path);
  }

  lemma {:induction false} JoinedMembers(paths: seq<seq<string>>, path: seq<string>)
    requires path != [] && IsPath(path) && forall p :: p in paths ==> p != [] && IsPath(p)
    ensures Join(path, '/') in Joined(paths) <==> path in paths
  {
    if paths == [] {
    } else {
      assert paths == [paths[0]] + paths[1..] && paths[0] in paths;
      forall p | p in paths[1..] ensures p != [] && IsPath(p) { assert p in paths; }
      JoinedMembers(paths[1..], path);
      if Join(path, '/') == Join(paths[0], '/') { JoinInjective(path, paths[0], '/'); }
    }
  }
}
