// Acceptance by size is downward closed.
module Budget {
  import opened Dimensions
  import opened Canonicalizer

  /** The same request, asking for no larger a box and no higher a dpr. */
  predicate NoLarger(small: Request, large: Request) {
    && small == large.(w := small.w, h := small.h, dpr := small.dpr)
    && Within(Box(small.w, small.h), Box(large.w, large.h))
    && Or(small.dpr, 10) <= Or(large.dpr, 10)
  }

  lemma CombineWithin(small: Request, large: Request)
    requires NoLarger(small, large) && Combine(large).Ok?
    ensures Combine(small).Ok? && Within(Combine(small).value, Combine(large).value)
  {
    if large.ar.Some? {
      DeriveWithin(Box(small.w, small.h), Box(large.w, large.h), large.ar.value.w, large.ar.value.h);
    }
  }

  /**
   * If a request is accepted, so is the same request with smaller sides and a
   * smaller dpr -- also when a side is derived by rounding from the aspect
   * ratio, the source or the crop, and after snapping.
   */
  lemma AcceptanceIsDownwardClosed(ctx: Context, small: Request, large: Request)
    requires NoLarger(small, large) && Resolve(ctx, large).Ok?
    ensures Resolve(ctx, small).Ok?
  {
    CombineWithin(small, large);
    var (b, l) := (Combine(small).value, Combine(large).value);
    SnapWithin(b, l, ctx.ladder);
    var base := BaseOf(ctx, large.rect);
    BudgetMonotone(SnapBox(b, ctx.ladder), SnapBox(l, ctx.ladder), base.0, base.1,
                   Or(small.dpr, 10), Or(large.dpr, 10));
  }
}

// The equivalence guarantee: parameter order, alias choice, dialect,
// duplicates and foreign parameters do not change the transformation.
module Equivalence {
  import opened Wrappers
  import opened Sequences
  import opened Strings
  import opened Vocabulary
  import opened Canonicalizer
  import EditDistance

  // ---- Near misses ----

  /** A key is a near miss exactly when it is a known name in another case, or a short edit script away from one. */
  lemma NearMissMeaning(key: string)
    ensures IsNearMiss(key) <==>
            exists known :: known in KnownNames() &&
              (if Lower(key) == known then key != known
               else |known| >= 3 && EditDistance.Reachable(Lower(key), known, if |known| >= 5 then 2 else 1))
  {
    forall known | known in KnownNames()
      ensures NearName(key, known) <==>
              if Lower(key) == known then key != known
              else |known| >= 3 && EditDistance.Reachable(Lower(key), known, if |known| >= 5 then 2 else 1)
    {
      EditDistance.WithinEditsIsReachable(Lower(key), known, if |known| >= 5 then 2 else 1);
    }
  }

  // ---- The last-wins map ----

  type Assignments = seq<(Param, string)>

  /** The canonical assignments of a pair; none for a foreign one. */
  function AssignmentsOf(pair: QueryPair, strict: bool): Assignments {
    var kind := Classify(pair.0, pair.1, strict);
    if kind.Assigns? then kind.to else []
  }

  function Assigner(strict: bool): QueryPair -> Assignments {
    pair => AssignmentsOf(pair, strict)
  }

  function AllAssignments(pairs: seq<QueryPair>, strict: bool): Assignments {
    FlatMap(Assigner(strict), pairs)
  }

  /** In order of appearance, the last assignment of a parameter wins. */
  function LastWins(m: map<Param, string>, to: Assignments): map<Param, string>
    decreases |to|
  {
    if to == [] then m else LastWins(m[to[0].0 := to[0].1], to[1..])
  }

  lemma {:induction false} LastWinsConcat(m: map<Param, string>, a: Assignments, b: Assignments)
    ensures LastWins(m, a + b) == LastWins(LastWins(m, a), b)
    decreases |a|
  {
    if a == [] {
      assert a + b == b;
    } else {
      assert (a + b)[1..] == a[1..] + b;
      LastWinsConcat(m[a[0].0 := a[0].1], a[1..], b);
    }
  }

  lemma {:induction false} AssignAllIsLastWins(raw: map<Param, Given>, to: Assignments, from: string)
    ensures Values(AssignAll(raw, to, from)) == LastWins(Values(raw), to)
    decreases |to|
  {
    if to == [] {
    } else {
      var raw' := raw[to[0].0 := Given(to[0].1, from)];
      AssignAllIsLastWins(raw', to[1..], from);
      assert Values(raw') == Values(raw)[to[0].0 := to[0].1];
    }
  }

  /** Admission keeps exactly the last-wins map of the expanded assignments. */
  lemma {:induction false} AdmitIsLastWins(pairs: seq<QueryPair>, strict: bool)
    requires Admit(pairs, strict).Ok?
    ensures Values(Admit(pairs, strict).value.raw) == LastWins(map[], AllAssignments(pairs, strict))
    decreases |pairs|
  {
    if pairs == [] {
    } else {
      var before, last := pairs[..|pairs| - 1], pairs[|pairs| - 1];
      AdmitIsLastWins(before, strict);
      LastWinsConcat(map[], AllAssignments(before, strict), AssignmentsOf(last, strict));
      AssignAllIsLastWins(Admit(before, strict).value.raw, AssignmentsOf(last, strict), last.0);
    }
  }

  // ---- Outcomes ----

  /** Refused alike, or accepted with the same transformation, delivery and signature. */
  predicate SameTransformation(a: Result<Canonical, Failure>, b: Result<Canonical, Failure>) {
    if a.Err? || b.Err? then a == b
    else a.value.(ignored := {}) == b.value.(ignored := {})
  }

  lemma ValuesDecide(host: Host, ctx: Context, a: Admission, b: Admission)
    requires Values(a.raw) == Values(b.raw)
    ensures SameTransformation(Finish(host, ctx, a), Finish(host, ctx, b))
  {
  }

  /**
   * Acceptance, parameters and hash depend only on the last-wins map of
   * canonical parameters after alias and compatibility expansion.
   */
  lemma LastWinsDecides(host: Host, p1: seq<QueryPair>, p2: seq<QueryPair>, ctx: Context)
    requires Admit(p1, ctx.strict).Ok? && Admit(p2, ctx.strict).Ok?
    requires LastWins(map[], AllAssignments(p1, ctx.strict)) == LastWins(map[], AllAssignments(p2, ctx.strict))
    ensures SameTransformation(Finish(host, ctx, Admit(p1, ctx.strict).value),
                               Finish(host, ctx, Admit(p2, ctx.strict).value))
  {
    AdmitIsLastWins(p1, ctx.strict);
    AdmitIsLastWins(p2, ctx.strict);
    ValuesDecide(host, ctx, Admit(p1, ctx.strict).value, Admit(p2, ctx.strict).value);
  }

  // ---- Admissible pairs ----

  predicate Admissible(pair: QueryPair, strict: bool) {
    !Classify(pair.0, pair.1, strict).Refused?
  }

  predicate AllAdmissible(pairs: seq<QueryPair>, strict: bool) {
    forall i :: 0 <= i < |pairs| ==> Admissible(pairs[i], strict)
  }

  lemma {:induction false} AdmitAccepts(pairs: seq<QueryPair>, strict: bool)
    ensures Admit(pairs, strict).Ok? <==> AllAdmissible(pairs, strict)
    decreases |pairs|
  {
    if pairs == [] {
    } else {
      var before, last := pairs[..|pairs| - 1], pairs[|pairs| - 1];
      AdmitAccepts(before, strict);
      assert Admit(pairs, strict).Ok? <==> Admit(before, strict).Ok? && Admissible(last, strict);
      AdmissibleConcat(before, [last], strict);
      assert pairs == before + [last];
    }
  }

  lemma AdmissibleConcat(a: seq<QueryPair>, b: seq<QueryPair>, strict: bool)
    ensures AllAdmissible(a + b, strict) <==> AllAdmissible(a, strict) && AllAdmissible(b, strict)
  {
    var all := a + b;
    if AllAdmissible(all, strict) {
      assert forall i :: 0 <= i < |a| ==> a[i] == all[i];
      assert forall i :: 0 <= i < |b| ==> b[i] == all[|a| + i];
    }
  }

  function Outcome(host: Host, pairs: seq<QueryPair>, ctx: Context): Result<Canonical, Failure> {
    var admission :- Admit(pairs, ctx.strict);
    Finish(host, ctx, admission)
  }

  // ---- Swapping a stretch: aliases, dialects, foreign pairs ----

  // A query is refused for its first refused pair.

  function RefusalOf(pair: QueryPair, strict: bool): Option<Failure> {
    match Classify(pair.0, pair.1, strict)
    case Refused(reason) => Some(InvalidParam(pair.0, reason))
    case _ => None
  }

  function Refusal(pairs: seq<QueryPair>, strict: bool): Option<Failure> {
    if pairs == [] then None
    else
      var earlier := Refusal(pairs[..|pairs| - 1], strict);
      if earlier.Some? then earlier else RefusalOf(pairs[|pairs| - 1], strict)
  }

  lemma {:induction false} AdmitRefuses(pairs: seq<QueryPair>, strict: bool)
    ensures Refusal(pairs, strict) ==
      match Admit(pairs, strict) case Ok(_) => None case Err(failure) => Some(failure)
    decreases |pairs|
  {
    if pairs == [] {
    } else {
      AdmitRefuses(pairs[..|pairs| - 1], strict);
    }
  }

  lemma {:induction false} RefusalConcat(a: seq<QueryPair>, b: seq<QueryPair>, strict: bool)
    ensures Refusal(a + b, strict) == if Refusal(a, strict).Some? then Refusal(a, strict) else Refusal(b, strict)
    decreases |b|
  {
    if b == [] {
      assert a + b == a;
    } else {
      SnocConcat(a, b);
      RefusalConcat(a, b[..|b| - 1], strict);
    }
  }

  lemma AdmissibleIsNotRefused(pairs: seq<QueryPair>, strict: bool)
    ensures AllAdmissible(pairs, strict) <==> Refusal(pairs, strict).None?
  {
    AdmitRefuses(pairs, strict);
    AdmitAccepts(pairs, strict);
  }

  /**
   * Replacing a stretch of admissible pairs by one with the same assignments
   * changes nothing but the reported names; a refused query is refused alike.
   */
  lemma SwapStretch(host: Host, before: seq<QueryPair>, xs: seq<QueryPair>, ys: seq<QueryPair>,
                    after: seq<QueryPair>, ctx: Context)
    requires AllAdmissible(xs, ctx.strict) && AllAdmissible(ys, ctx.strict)
    requires AllAssignments(xs, ctx.strict) == AllAssignments(ys, ctx.strict)
    ensures SameTransformation(Outcome(host, before + xs + after, ctx), Outcome(host, before + ys + after, ctx))
  {
    var p, q := before + xs + after, before + ys + after;
    StretchRefusal(before, xs, after, ctx.strict);
    StretchRefusal(before, ys, after, ctx.strict);
    AdmitRefuses(p, ctx.strict);
    AdmitRefuses(q, ctx.strict);
    if Admit(p, ctx.strict).Ok? {
      StretchAssignments(before, xs, after, ctx.strict);
      StretchAssignments(before, ys, after, ctx.strict);
      LastWinsDecides(host, p, q, ctx);
    }
  }

  lemma StretchRefusal(before: seq<QueryPair>, xs: seq<QueryPair>, after: seq<QueryPair>, strict: bool)
    requires AllAdmissible(xs, strict)
    ensures Refusal(before + xs + after, strict) ==
      if Refusal(before, strict).Some? then Refusal(before, strict) else Refusal(after, strict)
  {
    AdmissibleIsNotRefused(xs, strict);
    RefusalConcat(before + xs, after, strict);
    RefusalConcat(before, xs, strict);
  }

  lemma StretchAssignments(before: seq<QueryPair>, xs: seq<QueryPair>, after: seq<QueryPair>, strict: bool)
    ensures AllAssignments(before + xs + after, strict) ==
            AllAssignments(before, strict) + AllAssignments(xs, strict) + AllAssignments(after, strict)
  {
    FlatMapConcat(Assigner(strict), before + xs, after);
    FlatMapConcat(Assigner(strict), before, xs);
  }

  lemma OnePairAssigns(pair: QueryPair, strict: bool)
    ensures AllAssignments([pair], strict) == AssignmentsOf(pair, strict)
    ensures AllAdmissible([pair], strict) <==> Admissible(pair, strict)
  {
    FlatMapAround(Assigner(strict), [], pair, []);
    assert [] + [pair] + [] == [pair];
    assert [] + AssignmentsOf(pair, strict) + [] == AssignmentsOf(pair, strict);
    assert [pair][0] == pair;
  }

  /** Any alias of a parameter stands for it, in accepted and refused queries alike. */
  lemma AliasesAgree(host: Host, before: seq<QueryPair>, name: string, alias: string, value: string,
                     after: seq<QueryPair>, ctx: Context)
    requires ParamOf(name).Some? && ParamOf(alias) == ParamOf(name)
    requires name !in COMPATIBILITY_NAMES && alias !in COMPATIBILITY_NAMES
    ensures SameTransformation(Outcome(host, before + [(name, value)] + after, ctx),
                               Outcome(host, before + [(alias, value)] + after, ctx))
  {
    OnePairAssigns((name, value), ctx.strict);
    OnePairAssigns((alias, value), ctx.strict);
    SwapStretch(host, before, [(name, value)], [(alias, value)], after, ctx);
  }

  /** The canonical pairs that make some assignments. */
  function CanonicalPairs(to: Assignments): seq<QueryPair> {
    if to == [] then [] else CanonicalPairs(to[..|to| - 1]) + [(Name(to[|to| - 1].0), to[|to| - 1].1)]
  }

  lemma CanonicalPairAssigns(p: Param, v: string, strict: bool)
    ensures AllAdmissible([(Name(p), v)], strict) && AllAssignments([(Name(p), v)], strict) == [(p, v)]
  {
    NameIsOwn(p);
    OnePairAssigns((Name(p), v), strict);
  }

  lemma OneMoreAssigns(pairs: seq<QueryPair>, to: Assignments, pair: QueryPair, assignment: (Param, string), strict: bool)
    requires AllAdmissible(pairs, strict) && AllAssignments(pairs, strict) == to
    requires AllAdmissible([pair], strict) && AllAssignments([pair], strict) == [assignment]
    ensures AllAdmissible(pairs + [pair], strict) && AllAssignments(pairs + [pair], strict) == to + [assignment]
  {
    AdmissibleConcat(pairs, [pair], strict);
    FlatMapConcat(Assigner(strict), pairs, [pair]);
  }

  /** What holds of no pairs, and survives one pair more, holds of canonical pairs and what they make. */
  lemma {:induction false} CanonicalPairsByOne(to: Assignments, makes: (seq<QueryPair>, Assignments) -> bool)
    requires makes([], [])
    requires forall pairs, done, p, v :: makes(pairs, done) ==> makes(pairs + [(Name(p), v)], done + [(p, v)])
    ensures makes(CanonicalPairs(to), to)
    decreases |to|
  {
    if to == [] {
    } else {
      var before, last := to[..|to| - 1], to[|to| - 1];
      CanonicalPairsByOne(before, makes);
      assert makes(CanonicalPairs(before) + [(Name(last.0), last.1)], before + [(last.0, last.1)]);
      assert to == before + [(last.0, last.1)];
    }
  }

  predicate Makes(pairs: seq<QueryPair>, to: Assignments, strict: bool) {
    AllAdmissible(pairs, strict) && AllAssignments(pairs, strict) == to
  }

  lemma CanonicalPairsAssign(to: Assignments, strict: bool)
    ensures AllAdmissible(CanonicalPairs(to), strict)
    ensures AllAssignments(CanonicalPairs(to), strict) == to
  {
    var makes := (pairs: seq<QueryPair>, done: Assignments) => Makes(pairs, done, strict);
    forall pairs, done, p, v | makes(pairs, done) ensures makes(pairs + [(Name(p), v)], done + [(p, v)]) {
      CanonicalPairAssigns(p, v, strict);
      OneMoreAssigns(pairs, done, (Name(p), v), (p, v), strict);
    }
    CanonicalPairsByOne(to, makes);
    assert Makes(CanonicalPairs(to), to, strict);
  }

  /** A dialect pair is the one or two canonical pairs it maps to. */
  lemma DialectsAgree(host: Host, before: seq<QueryPair>, key: string, value: string,
                      after: seq<QueryPair>, ctx: Context)
    requires key in COMPATIBILITY_NAMES && Expand(key, value).Some?
    ensures SameTransformation(Outcome(host, before + [(key, value)] + after, ctx),
                               Outcome(host, before + CanonicalPairs(Expand(key, value).value) + after, ctx))
  {
    OnePairAssigns((key, value), ctx.strict);
    CanonicalPairsAssign(Expand(key, value).value, ctx.strict);
    SwapStretch(host, before, [(key, value)], CanonicalPairs(Expand(key, value).value), after, ctx);
  }

  /** A foreign pair is only reported: it changes neither acceptance, nor a refusal, nor the transformation. */
  lemma ForeignPairsAreInert(host: Host, before: seq<QueryPair>, key: string, value: string,
                             after: seq<QueryPair>, ctx: Context)
    requires Classify(key, value, ctx.strict).Foreign?
    ensures SameTransformation(Outcome(host, before + after, ctx), Outcome(host, before + [(key, value)] + after, ctx))
  {
    OnePairAssigns((key, value), ctx.strict);
    SwapStretch(host, before, [], [(key, value)], after, ctx);
    assert before + [] == before;
  }

  // ---- Order ----

  /** What a list of pairs admits, read off the pairs without their order. */
  ghost predicate Sets(pair: QueryPair, strict: bool, p: Param, v: string) {
    (p, v) in AssignmentsOf(pair, strict)
  }

  /** No parameter is set by two different pairs. */
  ghost predicate SetsOnce(pairs: seq<QueryPair>, strict: bool) {
    forall x, y, p, v, w ::
      x in pairs && y in pairs && Sets(x, strict, p, v) && Sets(y, strict, p, w) ==> x == y && v == w
  }

  /** Every entry comes from a pair, and every pair's parameters have an entry. */
  ghost predicate RawFrom(raw: map<Param, Given>, pairs: seq<QueryPair>, strict: bool) {
    && (forall p :: p in raw ==>
          exists x :: x in pairs && Sets(x, strict, p, raw[p].value) && raw[p].from == x.0)
    && (forall x, p, v :: x in pairs && Sets(x, strict, p, v) ==> p in raw)
  }

  predicate IsForeign(pair: QueryPair, strict: bool) {
    Classify(pair.0, pair.1, strict).Foreign?
  }

  ghost predicate IgnoredFrom(ignored: set<string>, pairs: seq<QueryPair>, strict: bool) {
    forall k :: k in ignored <==> exists x :: x in pairs && x.0 == k && IsForeign(x, strict)
  }

  lemma {:induction false} AssignAllEntries(raw: map<Param, Given>, to: Assignments, from: string)
    ensures var r := AssignAll(raw, to, from);
      && (forall p :: p in r ==> (p in raw && r[p] == raw[p]) || ((p, r[p].value) in to && r[p].from == from))
      && (forall p :: p in raw ==> p in r)
      && (forall p, v :: (p, v) in to ==> p in r)
    decreases |to|
  {
    if to == [] {
    } else {
      AssignAllEntries(raw[to[0].0 := Given(to[0].1, from)], to[1..], from);
      assert to == [to[0]] + to[1..];
    }
  }

  lemma {:induction false} AdmitFromPairs(pairs: seq<QueryPair>, strict: bool)
    requires Admit(pairs, strict).Ok?
    ensures RawFrom(Admit(pairs, strict).value.raw, pairs, strict)
    ensures IgnoredFrom(Admit(pairs, strict).value.ignored, pairs, strict)
    decreases |pairs|
  {
    if pairs == [] {
    } else {
      var before, last := pairs[..|pairs| - 1], pairs[|pairs| - 1];
      assert pairs == before + [last];
      AdmitFromPairs(before, strict);
      var a := Admit(before, strict).value;
      RawSnoc(a.raw, before, last, strict);
      IgnoredSnoc(a.ignored, before, last, strict);
    }
  }

  lemma MembersSnoc<T>(before: seq<T>, last: T)
    ensures forall x :: x in before + [last] <==> x in before || x == last
  {
  }

  lemma IgnoredSnoc(ignored: set<string>, before: seq<QueryPair>, last: QueryPair, strict: bool)
    requires IgnoredFrom(ignored, before, strict)
    ensures IgnoredFrom(if IsForeign(last, strict) then ignored + {last.0} else ignored, before + [last], strict)
  {
    MembersSnoc(before, last);
  }

  lemma RawSnoc(raw: map<Param, Given>, before: seq<QueryPair>, last: QueryPair, strict: bool)
    requires RawFrom(raw, before, strict)
    ensures RawFrom(AssignAll(raw, AssignmentsOf(last, strict), last.0), before + [last], strict)
  {
    MembersSnoc(before, last);
    var to := AssignmentsOf(last, strict);
    AssignAllEntries(raw, to, last.0);
    var raw' := AssignAll(raw, to, last.0);
    forall p | p in raw'
      ensures exists x :: x in before + [last] && Sets(x, strict, p, raw'[p].value) && raw'[p].from == x.0
    {
      if (p, raw'[p].value) in to && raw'[p].from == last.0 {
        assert Sets(last, strict, p, raw'[p].value);
      } else {
        var x :| x in before && Sets(x, strict, p, raw[p].value) && raw[p].from == x.0;
        assert x in before + [last];
      }
    }
  }

  lemma AdmissibleMembers(pairs: seq<QueryPair>, strict: bool)
    ensures AllAdmissible(pairs, strict) <==> forall x :: x in pairs ==> Admissible(x, strict)
  {
  }

  lemma EntryIsUnique(a: map<Param, Given>, b: map<Param, Given>, p1: seq<QueryPair>, p2: seq<QueryPair>, strict: bool, p: Param)
    requires SameMembers(p1, p2) && SetsOnce(p1, strict) && RawFrom(a, p1, strict) && RawFrom(b, p2, strict)
    requires p in a
    ensures p in b && a[p] == b[p]
  {
    var x :| x in p1 && Sets(x, strict, p, a[p].value) && a[p].from == x.0;
    var y :| y in p2 && Sets(y, strict, p, b[p].value) && b[p].from == y.0;
  }

  lemma FromPairsIsUnique(a: Admission, b: Admission, p1: seq<QueryPair>, p2: seq<QueryPair>, strict: bool)
    requires SameMembers(p1, p2) && SetsOnce(p1, strict)
    requires RawFrom(a.raw, p1, strict) && RawFrom(b.raw, p2, strict)
    requires IgnoredFrom(a.ignored, p1, strict) && IgnoredFrom(b.ignored, p2, strict)
    ensures a == b
  {
    IgnoredIsUnique(a.ignored, b.ignored, p1, p2, strict);
    SetsOnceTransfers(p1, p2, strict);
    forall p | p in a.raw ensures p in b.raw && a.raw[p] == b.raw[p] {
      EntryIsUnique(a.raw, b.raw, p1, p2, strict, p);
    }
    forall p | p in b.raw ensures p in a.raw {
      EntryIsUnique(b.raw, a.raw, p2, p1, strict, p);
    }
    assert a.raw == b.raw;
  }

  lemma IgnoredIsUnique(a: set<string>, b: set<string>, p1: seq<QueryPair>, p2: seq<QueryPair>, strict: bool)
    requires SameMembers(p1, p2) && IgnoredFrom(a, p1, strict) && IgnoredFrom(b, p2, strict)
    ensures a == b
  {
  }

  lemma SetsOnceTransfers(p1: seq<QueryPair>, p2: seq<QueryPair>, strict: bool)
    requires SameMembers(p1, p2) && SetsOnce(p1, strict)
    ensures SetsOnce(p2, strict)
  {
  }

  lemma SameMembersAdmitTheSame(p1: seq<QueryPair>, p2: seq<QueryPair>, strict: bool)
    requires SameMembers(p1, p2) && SetsOnce(p1, strict)
    ensures Admit(p1, strict).Ok? == Admit(p2, strict).Ok?
    ensures Admit(p1, strict).Ok? ==> Admit(p1, strict) == Admit(p2, strict)
  {
    AdmitAccepts(p1, strict);
    AdmitAccepts(p2, strict);
    AdmissibleMembers(p1, strict);
    AdmissibleMembers(p2, strict);
    if Admit(p1, strict).Ok? {
      AdmitFromPairs(p1, strict);
      AdmitFromPairs(p2, strict);
      FromPairsIsUnique(Admit(p1, strict).value, Admit(p2, strict).value, p1, p2, strict);
    }
  }

  lemma {:induction false} PairsFromParts(host: Host, parts: seq<string>)
    ensures Pairs(host, parts).Ok? <==> forall part :: part in parts ==> !ReadPart(host, part).Malformed?
    ensures Pairs(host, parts).Ok? ==> forall k, v ::
      (k, v) in Pairs(host, parts).value <==> exists part :: part in parts && ReadPart(host, part) == Pair(k, v)
    decreases |parts|
  {
    if parts == [] {
    } else {
      var before, last := parts[..|parts| - 1], parts[|parts| - 1];
      assert parts == before + [last];
      PairsFromParts(host, before);
    }
  }

  /**
   * Permuting the parts of a query in which no parameter is set by two
   * different pairs changes nothing at all: the queries are accepted or
   * rejected alike, and an accepted one gives an equal result.
   */
  lemma OrderDoesNotMatter(host: Host, q1: string, q2: string, ctx: Context)
    requires SameMembers(Split(StripQuestion(q1), '&'), Split(StripQuestion(q2), '&'))
    requires Pairs(host, Split(StripQuestion(q1), '&')).Ok? ==>
             SetsOnce(Pairs(host, Split(StripQuestion(q1), '&')).value, ctx.strict)
    ensures CanonicalForm(host, q1, ctx).Ok? == CanonicalForm(host, q2, ctx).Ok?
    ensures CanonicalForm(host, q1, ctx).Ok? ==> CanonicalForm(host, q1, ctx) == CanonicalForm(host, q2, ctx)
  {
    var s1, s2 := Split(StripQuestion(q1), '&'), Split(StripQuestion(q2), '&');
    PairsFromParts(host, s1);
    PairsFromParts(host, s2);
    if Pairs(host, s1).Ok? {
      var p1, p2 := Pairs(host, s1).value, Pairs(host, s2).value;
      forall x: QueryPair ensures x in p1 <==> x in p2 {
        assert x == (x.0, x.1);
      }
      SameMembersAdmitTheSame(p1, p2, ctx.strict);
    }
  }
}
