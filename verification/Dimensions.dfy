// Output dimensions: the aspect-ratio derivation, the dimension ladder and
// the pixel budget, in exact integer arithmetic (dpr in tenths).
module Dimensions {
  import opened Wrappers
  import opened Vocabulary

  /** Math.round(n / d) for non-negative n. */
  function Round(n: nat, d: nat): nat
    requires d > 0
  {
    (2 * n + d) / (2 * d)
  }

  /** r is within half of n / d, the upper of two at the same distance. */
  predicate IsNearest(r: nat, n: nat, d: nat) {
    2 * n - d < 2 * (r * d) <= 2 * n + d
  }

  lemma RoundIsNearest(n: nat, d: nat)
    requires d > 0
    ensures IsNearest(Round(n, d), n, d)
  {
    var q := (2 * n + d) / (2 * d);
    assert 2 * n + d == q * (2 * d) + (2 * n + d) % (2 * d);
    assert q * (2 * d) == 2 * (q * d);
  }

  lemma NearestIsUnique(a: nat, b: nat, n: nat, d: nat)
    requires d > 0 && IsNearest(a, n, d) && IsNearest(b, n, d)
    ensures a == b
  {
    if a < b { ProductGap(a, b, d); }
    if b < a { ProductGap(b, a, d); }
  }

  lemma ProductGap(a: nat, b: nat, d: nat)
    requires a < b
    ensures a * d + d <= b * d
  {
    ProductMonotone(a + 1, d, b, d);
    assert (a + 1) * d == a * d + d;
  }

  lemma RoundMonotone(n: nat, m: nat, d: nat)
    requires d > 0 && n <= m
    ensures Round(n, d) <= Round(m, d)
  {
    QuotientMonotone(2 * n + d, 2 * m + d, 2 * d);
  }

  lemma QuotientMonotone(x: nat, y: nat, d: nat)
    requires d > 0 && x <= y
    ensures x / d <= y / d
  {
    var p, q := x / d, y / d;
    assert p * d <= x <= y < q * d + d;
    assert q * d + d == (q + 1) * d;
    if q + 1 <= p {
      ProductMonotone(q + 1, d, p, d);
    }
  }

  lemma ProductMonotone(a: nat, b: nat, a': nat, b': nat)
    requires a <= a' && b <= b'
    ensures a * b <= a' * b'
  {
    assert a * b <= a' * b <= a' * b';
  }

  // ---- Aspect ratio ----

  /** The requested box; a missing side is left to the source. */
  datatype Box = Box(w: Option<nat>, h: Option<nat>)

  /** The side at ratio num:den to the given one, at least one pixel. */
  function Derived(side: nat, num: nat, den: nat): nat
    requires den > 0
  {
    var r := Round(side * num, den);
    if r < 1 then 1 else r
  }

  function DeriveBox(box: Box, aw: nat, ah: nat): Box
    requires aw > 0 && ah > 0 && (box.w.Some? != box.h.Some?)
  {
    if box.w.Some? then Box(box.w, Some(Derived(box.w.value, ah, aw)))
    else Box(Some(Derived(box.h.value, aw, ah)), box.h)
  }

  predicate IsDerived(r: nat, n: nat, d: nat) {
    r >= 1 && (IsNearest(r, n, d) || (r == 1 && 2 * n < d))
  }

  /** The derived side is within half a pixel of the exact ratio, or clamped to 1. */
  lemma DerivedIsNearest(side: nat, num: nat, den: nat)
    requires den > 0
    ensures IsDerived(Derived(side, num, den), side * num, den)
  {
    RoundIsNearest(side * num, den);
  }

  lemma DerivedIsUnique(a: nat, b: nat, n: nat, d: nat)
    requires d > 0 && IsDerived(a, n, d) && IsDerived(b, n, d)
    ensures a == b
  {
    if IsNearest(a, n, d) && IsNearest(b, n, d) {
      NearestIsUnique(a, b, n, d);
    } else if a != b {
      ProductMonotone(1, d, if a == 1 then b else a, d);
    }
  }

  /** The given side stays, and the other is to it as the ratio says, to the nearest pixel or one pixel. */
  lemma DerivedBoxHasRatio(box: Box, aw: nat, ah: nat)
    requires aw > 0 && ah > 0 && (box.w.Some? != box.h.Some?)
    ensures var b := DeriveBox(box, aw, ah);
      && b.w.Some? && b.h.Some?
      && (box.w.Some? ==> b.w == box.w && IsDerived(b.h.value, b.w.value * ah, aw))
      && (box.h.Some? ==> b.h == box.h && IsDerived(b.w.value, b.h.value * aw, ah))
  {
    if box.w.Some? { DerivedIsNearest(box.w.value, ah, aw); } else { DerivedIsNearest(box.h.value, aw, ah); }
  }

  lemma DerivedMonotone(side: nat, side': nat, num: nat, den: nat)
    requires den > 0 && side <= side'
    ensures Derived(side, num, den) <= Derived(side', num, den)
  {
    ProductMonotone(side, num, side', num);
    RoundMonotone(side * num, side' * num, den);
  }

  // ---- The ladder ----

  function SnapFrom(n: nat, from: nat): nat
    requires from <= |LADDER|
    decreases |LADDER| - from
  {
    if from == |LADDER| then n
    else if LADDER[from] >= n then LADDER[from]
    else SnapFrom(n, from + 1)
  }

  function Snap(n: nat): nat {
    SnapFrom(n, 0)
  }

  lemma LadderAscends()
    ensures forall i, j :: 0 <= i < j < |LADDER| ==> LADDER[i] < LADDER[j]
    ensures forall i :: 0 <= i < |LADDER| ==> 16 <= LADDER[i] <= 3840
  {
  }

  lemma {:induction false} SnapFromLeast(n: nat, from: nat)
    requires from <= |LADDER| && forall i :: 0 <= i < from ==> LADDER[i] < n
    ensures var r := SnapFrom(n, from);
      && n <= r
      && (r in LADDER || (r == n && forall i :: 0 <= i < |LADDER| ==> LADDER[i] < n))
      && (forall i :: 0 <= i < |LADDER| && n <= LADDER[i] ==> r <= LADDER[i])
    decreases |LADDER| - from
  {
    LadderAscends();
    if from < |LADDER| && LADDER[from] < n {
      SnapFromLeast(n, from + 1);
    }
  }

  /** Snapping gives the least rung that fits, or leaves a side above the top rung. */
  lemma SnapLeast(n: nat)
    ensures n <= Snap(n)
    ensures n <= 3840 ==> Snap(n) in LADDER
    ensures n > 3840 ==> Snap(n) == n
    ensures forall rung :: rung in LADDER && n <= rung ==> Snap(n) <= rung
  {
    SnapFromLeast(n, 0);
    LadderAscends();
    assert LADDER[15] == 3840;
  }

  lemma SnapMonotone(n: nat, m: nat)
    requires n <= m
    ensures Snap(n) <= Snap(m)
  {
    SnapLeast(n);
    SnapLeast(m);
    LadderAscends();
  }

  lemma SnapIdempotent(n: nat)
    ensures Snap(Snap(n)) == Snap(n)
  {
    SnapLeast(n);
    SnapLeast(Snap(n));
    LadderAscends();
  }

  lemma SnapInRange(n: nat)
    requires 1 <= n <= MAX_DIMENSION
    ensures 1 <= Snap(n) <= MAX_DIMENSION
  {
    SnapLeast(n);
    LadderAscends();
  }

  function SnapSide(side: Option<nat>, ladder: bool): Option<nat> {
    if side.Some? && ladder then Some(Snap(side.value)) else side
  }

  function SnapBox(box: Box, ladder: bool): Box {
    Box(SnapSide(box.w, ladder), SnapSide(box.h, ladder))
  }

  lemma SnapBoxIdempotent(box: Box, ladder: bool)
    ensures SnapBox(SnapBox(box, ladder), ladder) == SnapBox(box, ladder)
  {
    if box.w.Some? { SnapIdempotent(box.w.value); }
    if box.h.Some? { SnapIdempotent(box.h.value); }
  }

  // ---- The pixel budget ----

  /** The effective output size: a missing side follows the base's proportions. */
  function OutSize(box: Box, baseW: nat, baseH: nat): (nat, nat)
    requires baseW > 0 && baseH > 0 && (box.w.Some? || box.h.Some?)
  {
    var outW := if box.w.Some? then box.w.value else Round(box.h.value * baseW, baseH);
    var outH := if box.h.Some? then box.h.value else Round(outW * baseH, baseW);
    (outW, outH)
  }

  /** Given sides stay, and a missing one is in the base's proportions, to the nearest pixel. */
  lemma OutSizeKeepsProportions(box: Box, baseW: nat, baseH: nat)
    requires baseW > 0 && baseH > 0 && (box.w.Some? || box.h.Some?)
    ensures var (outW, outH) := OutSize(box, baseW, baseH);
      && (if box.w.Some? then outW == box.w.value else IsNearest(outW, box.h.value * baseW, baseH))
      && (if box.h.Some? then outH == box.h.value else IsNearest(outH, outW * baseH, baseW))
  {
    if box.w.None? { RoundIsNearest(box.h.value * baseW, baseH); }
    if box.h.None? { RoundIsNearest(box.w.value * baseH, baseW); }
  }

  predicate InBudget(box: Box, baseW: nat, baseH: nat, dpr: nat)
    requires baseW > 0 && baseH > 0
  {
    box == Box(None, None)
    || var (outW, outH) := OutSize(box, baseW, baseH);
       Pixels(outW, outH, dpr) <= MAX_PIXELS * 100
  }

  /** Effective pixels, in hundredths: dpr is in tenths. */
  function Pixels(w: nat, h: nat, dpr: nat): nat {
    (w * h) * (dpr * dpr)
  }

  lemma PixelsMonotone(w: nat, h: nat, dpr: nat, w': nat, h': nat, dpr': nat)
    requires w <= w' && h <= h' && dpr <= dpr'
    ensures Pixels(w, h, dpr) <= Pixels(w', h', dpr')
  {
    ProductMonotone(w, h, w', h');
    ProductMonotone(dpr, dpr, dpr', dpr');
    ProductMonotone(w * h, dpr * dpr, w' * h', dpr' * dpr');
  }

  /** The same sides are given, and none is larger. */
  predicate Within(small: Box, large: Box) {
    && small.w.Some? == large.w.Some?
    && small.h.Some? == large.h.Some?
    && (small.w.Some? ==> small.w.value <= large.w.value)
    && (small.h.Some? ==> small.h.value <= large.h.value)
  }

  lemma OutSizeMonotone(small: Box, large: Box, baseW: nat, baseH: nat)
    requires baseW > 0 && baseH > 0 && (small.w.Some? || small.h.Some?)
    requires Within(small, large)
    ensures OutSize(small, baseW, baseH).0 <= OutSize(large, baseW, baseH).0
    ensures OutSize(small, baseW, baseH).1 <= OutSize(large, baseW, baseH).1
  {
    var (w, h) := OutSize(small, baseW, baseH);
    var (w', h') := OutSize(large, baseW, baseH);
    if small.w.None? {
      ProductMonotone(small.h.value, baseW, large.h.value, baseW);
      RoundMonotone(small.h.value * baseW, large.h.value * baseW, baseH);
    } else if small.h.None? {
      ProductMonotone(w, baseH, w', baseH);
      RoundMonotone(w * baseH, w' * baseH, baseW);
    }
  }

  lemma BudgetMonotone(small: Box, large: Box, baseW: nat, baseH: nat, dpr: nat, dpr': nat)
    requires baseW > 0 && baseH > 0 && Within(small, large) && dpr <= dpr'
    requires InBudget(large, baseW, baseH, dpr')
    ensures InBudget(small, baseW, baseH, dpr)
  {
    if small != Box(None, None) {
      OutSizeMonotone(small, large, baseW, baseH);
      var (w, h) := OutSize(small, baseW, baseH);
      var (w', h') := OutSize(large, baseW, baseH);
      PixelsMonotone(w, h, dpr, w', h', dpr');
    }
  }

  lemma SnapWithin(small: Box, large: Box, ladder: bool)
    requires Within(small, large)
    ensures Within(SnapBox(small, ladder), SnapBox(large, ladder))
  {
    if small.w.Some? { SnapMonotone(small.w.value, large.w.value); }
    if small.h.Some? { SnapMonotone(small.h.value, large.h.value); }
  }

  lemma DeriveWithin(small: Box, large: Box, aw: nat, ah: nat)
    requires aw > 0 && ah > 0 && (small.w.Some? != small.h.Some?) && Within(small, large)
    ensures Within(DeriveBox(small, aw, ah), DeriveBox(large, aw, ah))
  {
    if small.w.Some? {
      DerivedMonotone(small.w.value, large.w.value, ah, aw);
    } else {
      DerivedMonotone(small.h.value, large.h.value, aw, ah);
    }
  }
}
