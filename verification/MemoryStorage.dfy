// The in-memory store: a map of objects, listed through a sorted page.
module MemoryStorage {
  import opened Wrappers
  import opened Strings
  import opened ObjectKeys
  import opened Paging

  type Bytes = seq<bv8>

  datatype Object = Object(bytes: Bytes, contentType: string)

  datatype StoreError = BadKey(error: KeyError) | NotFound(key: string)

  function InfoOf(objects: map<string, Object>, key: string): Info
    requires key in objects
  {
    Info(key, |objects[key].bytes|, objects[key].contentType)
  }

  /** The listing of the keys with a prefix, in order; there is only one. */
  ghost predicate IsListingOf(objects: map<string, Object>, prefix: string, infos: seq<Info>) {
    && IsListing(infos)
    && forall x :: x in infos <==> x.key in objects && prefix <= x.key && x == InfoOf(objects, x.key)
  }

  lemma ListingOfIsUnique(objects: map<string, Object>, prefix: string, a: seq<Info>, b: seq<Info>)
    requires IsListingOf(objects, prefix, a) && IsListingOf(objects, prefix, b)
    ensures a == b
  {
    ListingsAreUnique(a, b);
  }

  /** A key inserted where it belongs. */
  function Inserted(sorted: seq<Info>, x: Info): seq<Info> {
    if sorted == [] || Less(x.key, sorted[0].key) then [x] + sorted
    else [sorted[0]] + Inserted(sorted[1..], x)
  }

  lemma {:induction false} InsertedMembers(sorted: seq<Info>, x: Info)
    ensures forall y :: y in Inserted(sorted, x) <==> y == x || y in sorted
  {
    if sorted != [] && !Less(x.key, sorted[0].key) {
      InsertedMembers(sorted[1..], x);
      assert forall y :: y in sorted <==> y == sorted[0] || y in sorted[1..];
    }
  }

  lemma ListingCons(x: Info, rest: seq<Info>)
    requires IsListing(rest) && x.key != "" && forall y :: y in rest ==> Less(x.key, y.key)
    ensures IsListing([x] + rest)
  {
    var all := [x] + rest;
    forall i, j | 0 <= i < j < |all| ensures Less(all[i].key, all[j].key) {
      assert rest[j - 1] in rest;
    }
  }

  lemma {:induction false} InsertedIsListing(sorted: seq<Info>, x: Info)
    requires IsListing(sorted) && x.key != "" && !HasKey(sorted, x.key)
    ensures IsListing(Inserted(sorted, x))
  {
    if sorted == [] {
    } else if Less(x.key, sorted[0].key) {
      forall y | y in sorted ensures Less(x.key, y.key) {
        var i :| 0 <= i < |sorted| && sorted[i] == y;
        if i > 0 { LessTransitive(x.key, sorted[0].key, y.key); }
      }
      ListingCons(x, sorted);
    } else {
      assert sorted[0] in sorted;
      LessTotal(x.key, sorted[0].key);
      forall y | y in sorted[1..] ensures y in sorted && Less(sorted[0].key, y.key) {
        var i :| 0 <= i < |sorted[1..]| && sorted[1..][i] == y;
        assert sorted[i + 1] == y;
      }
      InsertedIsListing(sorted[1..], x);
      InsertedMembers(sorted[1..], x);
      ListingCons(sorted[0], Inserted(sorted[1..], x));
    }
  }

  class MemoryStore {
    var objects: map<string, Object>

    ghost predicate Valid()
      reads this
    {
      forall key :: key in objects ==> ValidateObjectKey(key).Ok?
    }

    constructor ()
      ensures Valid() && objects == map[]
    {
      objects := map[];
    }

    method Put(key: string, bytes: Bytes, contentType: string) returns (r: Result<Info, StoreError>)
      requires Valid()
      modifies this
      ensures Valid()
      ensures r == match ValidateObjectKey(key)
                   case Err(e) => Err(BadKey(e))
                   case Ok(_) => Ok(Info(key, |bytes|, contentType))
      ensures objects == if r.Ok? then old(objects)[key := Object(bytes, contentType)] else old(objects)
    {
      var checked := ValidateObjectKey(key);
      if checked.Err? { return Err(BadKey(checked.error)); }
      objects := objects[key := Object(bytes, contentType)];
      r := Ok(Info(key, |bytes|, contentType));
    }

    method Get(key: string) returns (r: Result<(Bytes, Info), StoreError>)
      ensures ValidateObjectKey(key).Err? ==> r == Err(BadKey(ValidateObjectKey(key).error))
      ensures ValidateObjectKey(key).Ok? ==>
        r == if key in objects then Ok((objects[key].bytes, InfoOf(objects, key))) else Err(NotFound(key))
    {
      var checked := ValidateObjectKey(key);
      if checked.Err? { return Err(BadKey(checked.error)); }
      if key !in objects { return Err(NotFound(key)); }
      r := Ok((objects[key].bytes, InfoOf(objects, key)));
    }

    /** Deleting what is not there is no error. */
    method Delete(key: string) returns (r: Result<(), StoreError>)
      requires Valid()
      modifies this
      ensures Valid()
      ensures objects == old(objects) - {key}
      ensures r == match ValidateObjectKey(key) case Err(e) => Err(BadKey(e)) case Ok(_) => Ok(())
    {
      var checked := ValidateObjectKey(key);
      if checked.Err? { return Err(BadKey(checked.error)); }
      objects := objects - {key};
      r := Ok(());
    }

    /** The bytes and the content type go over; the source stays. */
    method Copy(source: string, destination: string) returns (r: Result<Info, StoreError>)
      requires Valid()
      modifies this
      ensures Valid()
      ensures r.Ok? <==> ValidateObjectKey(source).Ok? && source in old(objects) && ValidateObjectKey(destination).Ok?
      ensures objects == if r.Ok? then old(objects)[destination := old(objects)[source]] else old(objects)
    {
      var got := Get(source);
      if got.Err? { return Err(got.error); }
      r := Put(destination, got.value.0, got.value.1.contentType);
    }

    /** A page of the sorted listing of the keys with the prefix. */
    method List(prefix: string, cursor: Option<string>, limit: Option<int>) returns (r: Result<Page, StoreError>)
      requires Valid()
      ensures r.Err? <==> ValidatePrefix(prefix).Err?
      ensures r.Ok? ==> exists infos ::
        IsListingOf(objects, prefix, infos) && r.value == PaginateSorted(infos, cursor, ClampListLimit(limit))
    {
      var checked := ValidatePrefix(prefix);
      if checked.Err? { return Err(BadKey(checked.error)); }
      var left := set key | key in objects && prefix <= key;
      var sorted: seq<Info> := [];
      while left != {}
        invariant forall key :: key in left ==> key in objects && prefix <= key
        invariant IsListing(sorted)
        invariant forall x ::
          x in sorted <==> x.key in objects && prefix <= x.key && x.key !in left && x == InfoOf(objects, x.key)
        decreases left
      {
        var key :| key in left;
        assert ValidateObjectKey(key).Ok?;
        InsertedMembers(sorted, InfoOf(objects, key));
        InsertedIsListing(sorted, InfoOf(objects, key));
        sorted := Inserted(sorted, InfoOf(objects, key));
        left := left - {key};
      }
      assert IsListingOf(objects, prefix, sorted);
      r := Ok(PaginateSorted(sorted, cursor, ClampListLimit(limit)));
    }
  }
}
