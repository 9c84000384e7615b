// Keyset pagination over a sorted listing: a listing that stays put is cut into
// pages, and one that changes between pages still yields what never left it.
module Paging {
  import opened Wrappers
  import opened Strings

  datatype Info = Info(key: string, byteSize: nat, contentType: string)

  /** One page and the cursor of the next: the last key returned. */
  datatype Page = Page(items: seq<Info>, next: Option<string>)

  predicate Ascending(infos: seq<Info>) {
    forall i, j :: 0 <= i < j < |infos| ==> Less(infos[i].key, infos[j].key)
  }

  /** A sorted listing of distinct, non-empty keys. */
  predicate IsListing(infos: seq<Info>) {
    Ascending(infos) && forall i :: 0 <= i < |infos| ==> infos[i].key != ""
  }

  function ClampListLimit(limit: Option<int>): (n: nat)
    ensures 1 <= n <= 1000
    ensures limit.Some? && 1 <= limit.value <= 1000 ==> n == limit.value
    ensures limit.Some? && limit.value < 1 ==> n == 1
    ensures limit.None? || limit.value > 1000 ==> n == 1000
  {
    var asked := if limit.Some? then limit.value else 1000;
    var atLeastOne := if asked < 1 then 1 else asked;
    if atLeastOne > 1000 then 1000 else atLeastOne
  }

  /** The index of the first key beyond a given one. */
  function FirstBeyond(infos: seq<Info>, after: string): (i: nat)
    ensures i <= |infos|
    ensures forall j :: 0 <= j < i ==> !Less(after, infos[j].key)
    ensures i < |infos| ==> Less(after, infos[i].key)
  {
    if infos == [] || Less(after, infos[0].key) then 0 else 1 + FirstBeyond(infos[1..], after)
  }

  /** An empty cursor is no cursor. */
  function Start(infos: seq<Info>, cursor: Option<string>): (i: nat)
    ensures i <= |infos|
  {
    if cursor.None? || cursor.value == "" then 0 else FirstBeyond(infos, cursor.value)
  }

  function PaginateSorted(sorted: seq<Info>, cursor: Option<string>, limit: nat): Page {
    var from := Start(sorted, cursor);
    var more := from + limit < |sorted|;
    var items := if more then sorted[from..from + limit] else sorted[from..];
    Page(items, if more && items != [] then Some(items[|items| - 1].key) else None)
  }

  // ---- One page ----

  predicate Beyond(cursor: Option<string>, key: string) {
    cursor.None? || Less(cursor.value, key)
  }

  lemma StartSeparates(infos: seq<Info>, cursor: Option<string>, i: nat)
    requires IsListing(infos) && i < |infos|
    ensures Beyond(cursor, infos[i].key) <==> Start(infos, cursor) <= i
  {
    if cursor.Some? && cursor.value != "" {
      var k := FirstBeyond(infos, cursor.value);
      if k < i { LessTransitive(cursor.value, infos[k].key, infos[i].key); }
    }
  }

  /**
   * What a page of a listing is: some of what lies beyond the cursor, in order,
   * at most limit; when it is not the last it is full, its cursor is its last
   * key and something lies beyond that; and whatever it leaves out lies there.
   */
  predicate IsPageOf(infos: seq<Info>, cursor: Option<string>, limit: nat, p: Page) {
    && IsListing(p.items)
    && |p.items| <= limit
    && (forall x :: x in p.items ==> x in infos && Beyond(cursor, x.key))
    && (p.next.Some? ==> |p.items| == limit >= 1 && p.next.value == p.items[limit - 1].key)
    && (p.next.Some? ==> exists x :: x in infos && Less(p.next.value, x.key))
    && (forall x :: x in infos && Beyond(cursor, x.key) && x !in p.items ==> p.next.Some? && Less(p.next.value, x.key))
  }

  lemma PageItems(infos: seq<Info>, cursor: Option<string>, limit: nat)
    requires IsListing(infos) && limit >= 1
    ensures forall x :: x in PaginateSorted(infos, cursor, limit).items ==> x in infos && Beyond(cursor, x.key)
  {
    var items, from := PaginateSorted(infos, cursor, limit).items, Start(infos, cursor);
    forall i | 0 <= i < |items| ensures items[i] in infos && Beyond(cursor, items[i].key) {
      assert items[i] == infos[from + i];
      StartSeparates(infos, cursor, from + i);
    }
  }

  lemma PageEndsShort(infos: seq<Info>, cursor: Option<string>, limit: nat)
    requires IsListing(infos) && limit >= 1
    ensures var p := PaginateSorted(infos, cursor, limit);
      p.next.Some? ==> exists x :: x in infos && Less(p.next.value, x.key)
  {
    var p, from := PaginateSorted(infos, cursor, limit), Start(infos, cursor);
    if p.next.Some? {
      var x := infos[from + limit];
      assert p.items[limit - 1] == infos[from + limit - 1];
      assert x in infos && Less(p.next.value, x.key);
    }
  }

  lemma PageOmits(infos: seq<Info>, cursor: Option<string>, limit: nat, i: nat)
    requires IsListing(infos) && limit >= 1
    requires i < |infos| && Beyond(cursor, infos[i].key)
    ensures var p := PaginateSorted(infos, cursor, limit);
      infos[i] in p.items || (p.next.Some? && Less(p.next.value, infos[i].key))
  {
    StartSeparates(infos, cursor, i);
    var p, from := PaginateSorted(infos, cursor, limit), Start(infos, cursor);
    if i < from + |p.items| {
      assert p.items[i - from] == infos[i];
    }
  }

  lemma PageLeavesOut(infos: seq<Info>, cursor: Option<string>, limit: nat, p: Page)
    requires IsListing(infos) && limit >= 1 && p == PaginateSorted(infos, cursor, limit)
    ensures forall x :: x in infos && Beyond(cursor, x.key) && x !in p.items ==> p.next.Some? && Less(p.next.value, x.key)
  {
    forall x | x in infos && Beyond(cursor, x.key) && x !in p.items
      ensures p.next.Some? && Less(p.next.value, x.key)
    {
      var i :| 0 <= i < |infos| && infos[i] == x;
      PageOmits(infos, cursor, limit, i);
    }
  }

  lemma PageShape(infos: seq<Info>, cursor: Option<string>, limit: nat)
    requires IsListing(infos) && limit >= 1
    ensures var p := PaginateSorted(infos, cursor, limit);
      && IsListing(p.items) && |p.items| <= limit
      && (p.next.Some? ==> |p.items| == limit && p.next.value == p.items[limit - 1].key)
  {
  }

  lemma PaginateSortedMakesPages(infos: seq<Info>, cursor: Option<string>, limit: nat)
    requires IsListing(infos) && limit >= 1
    ensures IsPageOf(infos, cursor, limit, PaginateSorted(infos, cursor, limit))
  {
    PageShape(infos, cursor, limit);
    PageItems(infos, cursor, limit);
    PageEndsShort(infos, cursor, limit);
    PageLeavesOut(infos, cursor, limit, PaginateSorted(infos, cursor, limit));
  }

  // ---- A listing that changes between pages ----

  /** An adapter's list operation: a listing and a cursor to a page. */
  type Lister = (seq<Info>, Option<string>) -> Page

  ghost predicate MakesPages(list: Lister, limit: nat) {
    forall infos, cursor :: IsListing(infos) ==> IsPageOf(infos, cursor, limit, list(infos, cursor))
  }

  function Paginating(limit: nat): Lister {
    (infos, cursor) => PaginateSorted(infos, cursor, limit)
  }

  lemma PaginatingMakesPages(limit: nat)
    requires limit >= 1
    ensures MakesPages(Paginating(limit), limit)
  {
    forall infos, cursor: Option<string> | IsListing(infos)
      ensures IsPageOf(infos, cursor, limit, Paginating(limit)(infos, cursor))
    {
      PaginateSortedMakesPages(infos, cursor, limit);
    }
  }

  /** The pages got when the listing is snapshots[i] at the time of the i-th request. */
  function Follow(list: Lister, snapshots: seq<seq<Info>>, cursor: Option<string>): seq<Page>
    decreases |snapshots|
  {
    if snapshots == [] then []
    else
      var p := list(snapshots[0], cursor);
      if p.next.None? then [p] else [p] + Follow(list, snapshots[1..], p.next)
  }

  function Listed(pages: seq<Page>): seq<Info> {
    if pages == [] then [] else pages[0].items + Listed(pages[1..])
  }

  predicate Finished(pages: seq<Page>) {
    pages != [] && pages[|pages| - 1].next.None?
  }

  predicate AllListings(snapshots: seq<seq<Info>>) {
    forall i :: 0 <= i < |snapshots| ==> IsListing(snapshots[i])
  }

  lemma ListedCons(p: Page, rest: seq<Page>)
    ensures Listed([p] + rest) == p.items + Listed(rest)
    ensures rest != [] ==> (Finished([p] + rest) <==> Finished(rest))
    ensures rest == [] ==> [p] + rest == [p] && Listed([p]) == p.items
  {
    assert ([p] + rest)[1..] == rest;
    if rest == [] {
      assert [p] + rest == [p];
      assert p.items + [] == p.items;
    }
  }

  /** A first page, and the rest of the pages after it. */
  lemma Extends(cursor: Option<string>, limit: nat, p: Page, rest: seq<Info>)
    requires limit >= 1 && IsListing(p.items) && |p.items| == limit && p.next == Some(p.items[limit - 1].key)
    requires forall x :: x in p.items ==> Beyond(cursor, x.key)
    requires IsListing(rest) && forall x :: x in rest ==> Beyond(p.next, x.key)
    ensures IsListing(p.items + rest)
    ensures forall x :: x in p.items + rest ==> Beyond(cursor, x.key)
  {
    var a := p.items;
    forall i, j | 0 <= i < j < |a + rest| ensures Less((a + rest)[i].key, (a + rest)[j].key) {
      if i < |a| <= j {
        assert rest[j - |a|] in rest;
        if i < |a| - 1 { LessTransitive(a[i].key, a[|a| - 1].key, rest[j - |a|].key); }
      }
    }
    forall x | x in a + rest ensures Beyond(cursor, x.key) {
      if x !in a {
        assert a[limit - 1] in a;
        if cursor.Some? { LessTransitive(cursor.value, p.next.value, x.key); }
      }
    }
  }

  lemma FollowStep(list: Lister, snapshots: seq<seq<Info>>, cursor: Option<string>, limit: nat)
    requires MakesPages(list, limit) && snapshots != [] && AllListings(snapshots)
    ensures AllListings(snapshots[1..])
    ensures IsPageOf(snapshots[0], cursor, limit, list(snapshots[0], cursor))
    ensures var p := list(snapshots[0], cursor);
      var pages, rest := Follow(list, snapshots, cursor), Follow(list, snapshots[1..], p.next);
      && (p.next.None? ==> pages == [p] && Listed(pages) == p.items)
      && (p.next.Some? ==> pages == [p] + rest && Listed(pages) == p.items + Listed(rest) && (Finished(pages) <==> Finished(rest)))
  {
    var p := list(snapshots[0], cursor);
    ListedCons(p, if p.next.None? then [] else Follow(list, snapshots[1..], p.next));
    if p.next.None? { assert [p] + [] == [p]; }
  }

  /** Whatever happens between pages, what they list ascends strictly: nothing is listed twice. */
  lemma {:induction false} ListedAscends(list: Lister, snapshots: seq<seq<Info>>, cursor: Option<string>, limit: nat)
    requires MakesPages(list, limit) && AllListings(snapshots)
    ensures IsListing(Listed(Follow(list, snapshots, cursor)))
    ensures forall x :: x in Listed(Follow(list, snapshots, cursor)) ==> Beyond(cursor, x.key)
    decreases |snapshots|
  {
    if snapshots == [] {
    } else {
      FollowStep(list, snapshots, cursor, limit);
      var p := list(snapshots[0], cursor);
      if p.next.Some? {
        ListedAscends(list, snapshots[1..], p.next, limit);
        Extends(cursor, limit, p, Listed(Follow(list, snapshots[1..], p.next)));
      }
    }
  }

  predicate HasKey(infos: seq<Info>, key: string) {
    exists x :: x in infos && x.key == key
  }

  lemma ConcatHasKey(a: seq<Info>, b: seq<Info>, key: string)
    requires HasKey(a, key) || HasKey(b, key)
    ensures HasKey(a + b, key)
  {
    if HasKey(a, key) {
      var x :| x in a && x.key == key;
      assert x in a + b;
    } else {
      var x :| x in b && x.key == key;
      assert x in a + b;
    }
  }

  /** A key that was there for every page is listed by the time the pages end. */
  lemma {:induction false} NothingThatStayedIsMissed(list: Lister, snapshots: seq<seq<Info>>, cursor: Option<string>,
                                                     limit: nat, key: string)
    requires MakesPages(list, limit) && AllListings(snapshots)
    requires Finished(Follow(list, snapshots, cursor)) && Beyond(cursor, key)
    requires forall i :: 0 <= i < |snapshots| && i < |Follow(list, snapshots, cursor)| ==> HasKey(snapshots[i], key)
    ensures HasKey(Listed(Follow(list, snapshots, cursor)), key)
    decreases |snapshots|
  {
    if snapshots == [] {
    } else {
      FollowStep(list, snapshots, cursor, limit);
      var p := list(snapshots[0], cursor);
      assert HasKey(snapshots[0], key);
      var x :| x in snapshots[0] && x.key == key;
      if x in p.items {
        ConcatHasKey(p.items, if p.next.None? then [] else Listed(Follow(list, snapshots[1..], p.next)), key);
      } else {
        var rest := Follow(list, snapshots[1..], p.next);
        assert Follow(list, snapshots, cursor) == [p] + rest;
        forall k | 0 <= k < |snapshots[1..]| && k < |rest| ensures HasKey(snapshots[1..][k], key) {
          assert HasKey(snapshots[k + 1], key);
        }
        NothingThatStayedIsMissed(list, snapshots[1..], p.next, limit, key);
        ConcatHasKey(p.items, Listed(rest), key);
      }
    }
  }

  /** And only once. */
  lemma ListedOnce(infos: seq<Info>, i: nat, j: nat)
    requires Ascending(infos) && i < |infos| && j < |infos| && infos[i].key == infos[j].key
    ensures i == j
  {
    LessIrreflexive(infos[i].key);
  }

  // ---- The pages come to an end ----

  function KeysOf(infos: seq<Info>): set<string> {
    set x | x in infos :: x.key
  }

  lemma {:induction false} DistinctKeysCount(infos: seq<Info>)
    requires Ascending(infos)
    ensures |KeysOf(infos)| == |infos|
  {
    if infos == [] {
    } else {
      var n := |infos| - 1;
      DistinctKeysCount(infos[..n]);
      assert infos == infos[..n] + [infos[n]];
      if infos[n].key in KeysOf(infos[..n]) {
        var x :| x in infos[..n] && x.key == infos[n].key;
        var i :| 0 <= i < n && infos[i] == x;
        ListedOnce(infos, i, n);
        assert false;
      }
      assert KeysOf(infos) == KeysOf(infos[..n]) + {infos[n].key};
    }
  }

  lemma {:induction false} ListedComesFromSnapshots(list: Lister, snapshots: seq<seq<Info>>, cursor: Option<string>,
                                                    limit: nat, universe: set<string>)
    requires MakesPages(list, limit) && AllListings(snapshots)
    requires forall i :: 0 <= i < |snapshots| ==> KeysOf(snapshots[i]) <= universe
    ensures KeysOf(Listed(Follow(list, snapshots, cursor))) <= universe
    decreases |snapshots|
  {
    if snapshots == [] {
    } else {
      FollowStep(list, snapshots, cursor, limit);
      var p := list(snapshots[0], cursor);
      assert KeysOf(p.items) <= KeysOf(snapshots[0]);
      if p.next.Some? {
        assert forall i :: 0 <= i < |snapshots[1..]| ==> snapshots[1..][i] == snapshots[i + 1];
        ListedComesFromSnapshots(list, snapshots[1..], p.next, limit, universe);
        var rest := Listed(Follow(list, snapshots[1..], p.next));
        assert KeysOf(p.items + rest) == KeysOf(p.items) + KeysOf(rest);
      }
    }
  }

  /** Between the pages got and the keys they list. */
  predicate FullBeforeTheLast(pages: nat, finished: bool, listed: nat, limit: nat) {
    if finished then pages >= 1 && (pages - 1) * limit <= listed else listed == pages * limit
  }

  lemma OneFullPageMore(pages: nat, finished: bool, listed: nat, limit: nat)
    requires FullBeforeTheLast(pages, finished, listed, limit)
    ensures FullBeforeTheLast(pages + 1, finished, listed + limit, limit)
  {
    assert (pages + 1) * limit == pages * limit + limit;
    assert pages * limit == (pages - 1) * limit + limit;
  }

  lemma {:induction false} PagesBeforeTheLastAreFull(list: Lister, snapshots: seq<seq<Info>>, cursor: Option<string>, limit: nat)
    requires MakesPages(list, limit) && AllListings(snapshots)
    ensures var pages := Follow(list, snapshots, cursor);
      && (!Finished(pages) ==> |pages| == |snapshots|)
      && FullBeforeTheLast(|pages|, Finished(pages), |Listed(pages)|, limit)
    decreases |snapshots|
  {
    if snapshots == [] {
    } else {
      FollowStep(list, snapshots, cursor, limit);
      var p := list(snapshots[0], cursor);
      if p.next.Some? {
        PagesBeforeTheLastAreFull(list, snapshots[1..], p.next, limit);
        var rest := Follow(list, snapshots[1..], p.next);
        OneFullPageMore(|rest|, Finished(rest), |Listed(rest)|, limit);
      }
    }
  }

  /**
   * However the store changes, if every key it ever shows is one of n, the
   * pages end within n / limit + 1 requests.
   */
  lemma TraversalsEnd(list: Lister, snapshots: seq<seq<Info>>, cursor: Option<string>, limit: nat, universe: set<string>)
    requires MakesPages(list, limit) && AllListings(snapshots)
    requires forall i :: 0 <= i < |snapshots| ==> KeysOf(snapshots[i]) <= universe
    ensures var pages := Follow(list, snapshots, cursor);
      && (|snapshots| * limit > |universe| ==> Finished(pages))
      && (Finished(pages) ==> (|pages| - 1) * limit <= |universe|)
  {
    var pages := Follow(list, snapshots, cursor);
    PagesBeforeTheLastAreFull(list, snapshots, cursor, limit);
    ListedAscends(list, snapshots, cursor, limit);
    DistinctKeysCount(Listed(pages));
    ListedComesFromSnapshots(list, snapshots, cursor, limit, universe);
    SubsetIsSmaller(KeysOf(Listed(pages)), universe);
  }

  lemma SubsetIsSmaller(a: set<string>, b: set<string>)
    requires a <= b
    ensures |a| <= |b|
  {
    assert b == a + (b - a);
  }

  // ---- A listing that does not change ----

  function Repeat(infos: seq<Info>, n: nat): (r: seq<seq<Info>>)
    ensures |r| == n && forall i :: 0 <= i < n ==> r[i] == infos
  {
    seq(n, i => infos)
  }

  /** A listing is determined by its members. */
  lemma {:induction false} ListingsAreUnique(a: seq<Info>, b: seq<Info>)
    requires IsListing(a) && IsListing(b)
    requires forall x :: x in a <==> x in b
    ensures a == b
    decreases |a|
  {
    assert b != [] ==> b[0] in b;
    if a == [] {
    } else {
      assert a[0] in b by { assert a[0] in a; }
      assert b[0] in a;
      var j :| 0 <= j < |b| && b[j] == a[0];
      var i :| 0 <= i < |a| && a[i] == b[0];
      if j > 0 && i > 0 {
        LessTransitive(a[0].key, a[i].key, a[0].key);
        LessIrreflexive(a[0].key);
        assert false;
      }
      assert a[0] == b[0];
      TailMembers(a, b);
      ListingsAreUnique(a[1..], b[1..]);
      assert a == [a[0]] + a[1..] && b == [b[0]] + b[1..];
    }
  }

  lemma TailMembers(a: seq<Info>, b: seq<Info>)
    requires Ascending(a) && Ascending(b) && a != [] && b != [] && a[0] == b[0]
    requires forall x :: x in a <==> x in b
    ensures forall x :: x in a[1..] <==> x in b[1..]
  {
    HeadIsNotInTail(a);
    HeadIsNotInTail(b);
    assert forall x :: x in a <==> x == a[0] || x in a[1..];
    assert forall x :: x in b <==> x == b[0] || x in b[1..];
  }

  lemma HeadIsNotInTail(a: seq<Info>)
    requires Ascending(a) && a != []
    ensures a[0] !in a[1..]
  {
    if a[0] in a[1..] {
      var i :| 0 <= i < |a[1..]| && a[1..][i] == a[0];
      ListedOnce(a, 0, i + 1);
      assert false;
    }
  }

  /** k pages of d hold n, and k - 1 do not; one page holds nothing. */
  predicate IsPageCount(k: nat, n: nat, d: nat) {
    k >= 1 && n <= k * d && (if n == 0 then k == 1 else (k - 1) * d < n)
  }

  /** With something still to list, the pages end with one that lists something. */
  lemma {:induction false} LastPageIsNotEmpty(list: Lister, infos: seq<Info>, n: nat, cursor: Option<string>, limit: nat)
    requires MakesPages(list, limit) && IsListing(infos)
    requires exists x :: x in infos && Beyond(cursor, x.key)
    requires Finished(Follow(list, Repeat(infos, n), cursor))
    ensures var pages := Follow(list, Repeat(infos, n), cursor);
      (|pages| - 1) * limit < |Listed(pages)| <= |pages| * limit
    decreases n
  {
    if n == 0 {
    } else {
      assert Repeat(infos, n)[1..] == Repeat(infos, n - 1);
      FollowStep(list, Repeat(infos, n), cursor, limit);
      var p := list(infos, cursor);
      if p.next.Some? {
        LastPageIsNotEmpty(list, infos, n - 1, p.next, limit);
        var k := |Follow(list, Repeat(infos, n - 1), p.next)|;
        assert (k + 1) * limit == k * limit + limit && k * limit == (k - 1) * limit + limit;
      }
    }
  }

  lemma StaysThroughout(infos: seq<Info>, n: nat, key: string)
    requires HasKey(infos, key)
    ensures forall i :: 0 <= i < n ==> HasKey(Repeat(infos, n)[i], key)
  {
  }

  lemma {:induction false} ListedAreMembers(list: Lister, infos: seq<Info>, n: nat, cursor: Option<string>, limit: nat)
    requires MakesPages(list, limit) && IsListing(infos)
    ensures forall x :: x in Listed(Follow(list, Repeat(infos, n), cursor)) ==> x in infos
    decreases n
  {
    if n == 0 {
    } else {
      assert Repeat(infos, n)[1..] == Repeat(infos, n - 1);
      FollowStep(list, Repeat(infos, n), cursor, limit);
      var p := list(infos, cursor);
      if p.next.Some? { ListedAreMembers(list, infos, n - 1, p.next, limit); }
    }
  }

  lemma SameKeySameMember(infos: seq<Info>, x: Info, y: Info)
    requires Ascending(infos) && x in infos && y in infos && x.key == y.key
    ensures x == y
  {
    var i :| 0 <= i < |infos| && infos[i] == x;
    var j :| 0 <= j < |infos| && infos[j] == y;
    ListedOnce(infos, i, j);
  }

  /** The pages of a listing that stays put are the listing, in exactly ceil(n / limit) pages. */
  lemma PagesPartitionTheListing(list: Lister, infos: seq<Info>, n: nat, limit: nat)
    requires MakesPages(list, limit) && IsListing(infos) && n * limit > |infos|
    ensures var pages := Follow(list, Repeat(infos, n), None);
      Finished(pages) && Listed(pages) == infos && IsPageCount(|pages|, |infos|, limit)
  {
    var pages := Follow(list, Repeat(infos, n), None);
    DistinctKeysCount(infos);
    TraversalsEnd(list, Repeat(infos, n), None, limit, KeysOf(infos));
    ListedAscends(list, Repeat(infos, n), None, limit);
    ListedAreMembers(list, infos, n, None, limit);
    forall x | x in infos ensures x in Listed(pages) {
      StaysThroughout(infos, n, x.key);
      NothingThatStayedIsMissed(list, Repeat(infos, n), None, limit, x.key);
      var y :| y in Listed(pages) && y.key == x.key;
      SameKeySameMember(infos, x, y);
    }
    ListingsAreUnique(Listed(pages), infos);
    if infos != [] {
      assert infos[0] in infos;
      LastPageIsNotEmpty(list, infos, n, None, limit);
    } else {
      FollowStep(list, Repeat(infos, n), None, limit);
    }
  }

  // ---- Any adapter that pages by paginateSorted ----

  /**
   * Following nextCursor through a changing store, at any requested limit: once
   * enough requests are made the pages have ended, what they listed ascends, and
   * a key that was there throughout is in it.
   */
  lemma TraversalBySortedPages(snapshots: seq<seq<Info>>, limit: Option<int>, universe: set<string>)
    requires AllListings(snapshots)
    requires forall i :: 0 <= i < |snapshots| ==> KeysOf(snapshots[i]) <= universe
    requires |snapshots| * ClampListLimit(limit) > |universe|
    ensures var pages := Follow(Paginating(ClampListLimit(limit)), snapshots, None);
      && Finished(pages) && (|pages| - 1) * ClampListLimit(limit) <= |universe|
      && IsListing(Listed(pages))
      && forall key :: (forall i :: 0 <= i < |snapshots| ==> HasKey(snapshots[i], key)) ==> HasKey(Listed(pages), key)
  {
    var n := ClampListLimit(limit);
    PaginatingMakesPages(n);
    TraversalsEnd(Paginating(n), snapshots, None, n, universe);
    ListedAscends(Paginating(n), snapshots, None, n);
    forall key | forall i :: 0 <= i < |snapshots| ==> HasKey(snapshots[i], key)
      ensures HasKey(Listed(Follow(Paginating(n), snapshots, None)), key)
    {
      NothingThatStayedIsMissed(Paginating(n), snapshots, None, n, key);
    }
  }

  /** And through one that stays put: the listing itself, in ceil(n / limit) pages. */
  lemma StaticTraversalBySortedPages(infos: seq<Info>, n: nat, limit: Option<int>)
    requires IsListing(infos) && n * ClampListLimit(limit) > |infos|
    ensures var pages := Follow(Paginating(ClampListLimit(limit)), Repeat(infos, n), None);
      Finished(pages) && Listed(pages) == infos && IsPageCount(|pages|, |infos|, ClampListLimit(limit))
  {
    PaginatingMakesPages(ClampListLimit(limit));
    PagesPartitionTheListing(Paginating(ClampListLimit(limit)), infos, n, ClampListLimit(limit));
  }
}
