// The canonical string reads back as exactly the parameters it was printed
// from, so it identifies them.
module Serialization {
  import opened Wrappers
  import opened Strings
  import opened Vocabulary
  import opened Canonicalizer

  /** No separator and nothing the decoder rewrites. */
  predicate Plain(s: string) {
    '&' !in s && '=' !in s && '+' !in s && '%' !in s
  }

  predicate PlainValues(m: map<Param, string>) {
    forall p :: p in m ==> Plain(m[p])
  }

  /** The pairs a printed map parses to. */
  function PairList(m: map<Param, string>, order: seq<Param>): seq<QueryPair> {
    if order == [] then []
    else
      var p := order[|order| - 1];
      PairList(m, order[..|order| - 1]) + (if p in m then [(Name(p), m[p])] else [])
  }

  /** The admission of a map given under canonical names. */
  function UnderOwnNames(m: map<Param, string>, order: seq<Param>): map<Param, Given> {
    map p | p in order && p in m :: Given(m[p], Name(p))
  }

  lemma PlainDecodes(host: Host, s: string)
    requires ValidHost(host) && Plain(s)
    ensures Decode(host, s) == Some(s)
  {
    assert PlusToSpace(s) == s;
  }

  lemma NameIsPlain(p: Param)
    ensures Plain(Name(p)) && Name(p) != "" && Name(p)[0] != '?'
  {
  }

  lemma EntryReads(host: Host, p: Param, v: string)
    requires ValidHost(host) && Plain(v)
    ensures ReadPart(host, Name(p) + "=" + v) == Pair(Name(p), v)
    ensures '&' !in Name(p) + "=" + v
  {
    NameIsPlain(p);
    IndexOfFirst(Name(p), '=', v);
    PlainDecodes(host, Name(p));
    PlainDecodes(host, v);
  }

  lemma PairsSnoc(host: Host, parts: seq<string>, part: string, pairs: seq<QueryPair>)
    requires Pairs(host, parts) == Ok(pairs) && ReadPart(host, part).Pair?
    ensures Pairs(host, parts + [part]) ==
            Ok(pairs + [(ReadPart(host, part).key, ReadPart(host, part).value)])
  {
    assert (parts + [part])[..|parts|] == parts;
  }

  lemma AdmitSnoc(pairs: seq<QueryPair>, p: Param, v: string, strict: bool, raw: map<Param, Given>, ignored: set<string>)
    requires Admit(pairs, strict) == Ok(Admission(raw, ignored))
    ensures Admit(pairs + [(Name(p), v)], strict) == Ok(Admission(raw[p := Given(v, Name(p))], ignored))
  {
    NameIsOwn(p);
    assert (pairs + [(Name(p), v)])[..|pairs|] == pairs;
    var to := [(p, v)];
    assert to[1..] == [];
    assert AssignAll(raw, to, Name(p)) == raw[p := Given(v, Name(p))];
  }

  /** Parts that can be joined by '&' behind no question mark. */
  predicate Joinable(parts: seq<string>) {
    && (forall i :: 0 <= i < |parts| ==> '&' !in parts[i])
    && (parts != [] ==> parts[0] != "" && parts[0][0] != '?')
  }

  lemma JoinableSnoc(parts: seq<string>, part: string)
    requires Joinable(parts) && '&' !in part && part != "" && part[0] != '?'
    ensures Joinable(parts + [part])
  {
  }

  lemma {:induction false} EntriesRead(host: Host, m: map<Param, string>, order: seq<Param>)
    requires ValidHost(host) && PlainValues(m)
    ensures Pairs(host, Entries(m, order)) == Ok(PairList(m, order))
    ensures Joinable(Entries(m, order))
    decreases |order|
  {
    if order == [] {
    } else {
      var rest, p := order[..|order| - 1], order[|order| - 1];
      EntriesRead(host, m, rest);
      if p in m {
        var entry := Name(p) + "=" + m[p];
        EntryReads(host, p, m[p]);
        NameIsPlain(p);
        JoinableSnoc(Entries(m, rest), entry);
        PairsSnoc(host, Entries(m, rest), entry, PairList(m, rest));
      } else {
        assert Entries(m, order) == Entries(m, rest) && PairList(m, order) == PairList(m, rest);
      }
    }
  }

  lemma UnderOwnNamesSnoc(m: map<Param, string>, rest: seq<Param>, p: Param)
    ensures UnderOwnNames(m, rest + [p]) ==
            if p in m then UnderOwnNames(m, rest)[p := Given(m[p], Name(p))] else UnderOwnNames(m, rest)
  {
  }

  lemma {:induction false} PairsAdmit(m: map<Param, string>, strict: bool, order: seq<Param>)
    ensures Admit(PairList(m, order), strict) == Ok(Admission(UnderOwnNames(m, order), {}))
    decreases |order|
  {
    if order != [] {
      var rest, p := order[..|order| - 1], order[|order| - 1];
      PairsAdmit(m, strict, rest);
      assert order == rest + [p];
      UnderOwnNamesSnoc(m, rest, p);
      if p in m {
        AdmitSnoc(PairList(m, rest), p, m[p], strict, UnderOwnNames(m, rest), {});
      } else {
        assert PairList(m, order) == PairList(m, rest);
      }
    } else {
      assert UnderOwnNames(m, order) == map[];
    }
  }

  lemma {:induction false} NonEmptyEntries(m: map<Param, string>, p: Param, order: seq<Param>)
    requires p in order && p in m
    ensures Entries(m, order) != []
    decreases |order|
  {
    var rest := order[..|order| - 1];
    assert order == rest + [order[|order| - 1]];
    if p in rest { NonEmptyEntries(m, p, rest); }
  }

  function Slot(p: Param): (i: nat)
    ensures i < |ASCII_ORDER| && ASCII_ORDER[i] == p
  {
    match p
    case Ar => 0 case Bg => 1 case Blur => 2 case Dl => 3 case Dpr => 4 case Exp => 5 case F => 6
    case Fit => 7 case Flip => 8 case G => 9 case H => 10 case Q => 11 case Rect => 12 case Rot => 13
    case Sharpen => 14 case Sig => 15 case W => 16
  }

  lemma EveryParamIsListed()
    ensures forall p: Param :: p in ASCII_ORDER
  {
    forall p: Param ensures p in ASCII_ORDER {
      var i := Slot(p);
    }
  }

  lemma OwnNamesGiveTheMap(m: map<Param, string>, order: seq<Param>)
    requires forall p: Param :: p in order
    ensures Values(UnderOwnNames(m, order)) == m
  {
  }

  lemma JoinHead(parts: seq<string>, sep: char)
    requires parts != [] && parts[0] != ""
    ensures Join(parts, sep) != "" && Join(parts, sep)[0] == parts[0][0]
  {
  }

  lemma SerializedPairsOver(host: Host, m: map<Param, string>, p: Param, order: seq<Param>, strict: bool)
    requires ValidHost(host) && PlainValues(m) && p in m && p in order
    ensures var pairs := Pairs(host, Split(StripQuestion(Join(Entries(m, order), '&')), '&'));
      pairs.Ok? && Admit(pairs.value, strict) == Ok(Admission(UnderOwnNames(m, order), {}))
  {
    NonEmptyEntries(m, p, order);
    EntriesRead(host, m, order);
    JoinHead(Entries(m, order), '&');
    SplitJoin(Entries(m, order), '&');
    PairsAdmit(m, strict, order);
  }

  /**
   * Serialisation round-trips: a printed map with some parameter p parses back
   * to exactly that map, each parameter under its own name.
   */
  lemma SerializedPairs(host: Host, m: map<Param, string>, p: Param, strict: bool)
    requires ValidHost(host) && PlainValues(m) && p in m
    ensures var pairs := Pairs(host, Split(StripQuestion(Serialize(m)), '&'));
      pairs.Ok? && Admit(pairs.value, strict) == Ok(Admission(UnderOwnNames(m, ASCII_ORDER), {}))
    ensures Values(UnderOwnNames(m, ASCII_ORDER)) == m
  {
    EveryParamIsListed();
    SerializedPairsOver(host, m, p, ASCII_ORDER, strict);
    OwnNamesGiveTheMap(m, ASCII_ORDER);
  }

  lemma SerializeRoundTrips(host: Host, m: map<Param, string>, p: Param, ctx: Context)
    requires ValidHost(host) && PlainValues(m) && p in m
    ensures CanonicalForm(host, Serialize(m), ctx) ==
            Finish(host, ctx, Admission(UnderOwnNames(m, ASCII_ORDER), {}))
    ensures Values(UnderOwnNames(m, ASCII_ORDER)) == m
  {
    SerializedPairs(host, m, p, ctx.strict);
  }

  /** Equal canonical strings come from equal parameter maps. */
  lemma SerializeInjective(host: Host, a: map<Param, string>, b: map<Param, string>, p: Param, q: Param)
    requires ValidHost(host) && PlainValues(a) && PlainValues(b) && p in a && q in b
    requires Serialize(a) == Serialize(b)
    ensures a == b
  {
    EveryParamIsListed();
    EntriesInjective(host, a, b, p, q, ASCII_ORDER);
    OwnNamesGiveTheMap(a, ASCII_ORDER);
    OwnNamesGiveTheMap(b, ASCII_ORDER);
  }

  lemma EntriesInjective(host: Host, a: map<Param, string>, b: map<Param, string>, p: Param, q: Param, order: seq<Param>)
    requires ValidHost(host) && PlainValues(a) && PlainValues(b)
    requires p in a && q in b && p in order && q in order
    requires Join(Entries(a, order), '&') == Join(Entries(b, order), '&')
    ensures UnderOwnNames(a, order) == UnderOwnNames(b, order)
  {
    NonEmptyEntries(a, p, order);
    NonEmptyEntries(b, q, order);
    EntriesRead(host, a, order);
    EntriesRead(host, b, order);
    JoinInjective(Entries(a, order), Entries(b, order), '&');
    PairsAdmit(a, false, order);
    PairsAdmit(b, false, order);
  }

  // ---- The listed order is the ASCII order of the names ----

  lemma {:induction false} LessAfter(a: string, b: string, k: nat)
    requires k <= |a| && k < |b| && a[..k] == b[..k] && (k == |a| || a[k] < b[k])
    ensures Less(a, b)
    decreases k
  {
    if k == 0 {
    } else {
      assert a[0] == a[..k][0] == b[..k][0] == b[0];
      assert a[1..][..k - 1] == a[..k][1..] && b[1..][..k - 1] == b[..k][1..];
      LessAfter(a[1..], b[1..], k - 1);
    }
  }

  lemma NextNameIsGreater(i: nat)
    requires i + 1 < |ASCII_ORDER|
    ensures Less(Name(ASCII_ORDER[i]), Name(ASCII_ORDER[i + 1]))
  {
    var shared := if i == 1 || i == 3 || i == 6 || i == 7 || i == 12 || i == 14 then 1 else 0;
    LessAfter(Name(ASCII_ORDER[i]), Name(ASCII_ORDER[i + 1]), shared);
  }

  /** Each listed name is before the next one. */
  ghost predicate Ascending(order: seq<Param>) {
    forall i :: 0 <= i && i + 1 < |order| ==> Less(Name(order[i]), Name(order[i + 1]))
  }

  lemma {:induction false} AscendingIsSorted(order: seq<Param>, i: nat, j: nat)
    requires Ascending(order) && i < j < |order|
    ensures Less(Name(order[i]), Name(order[j]))
    decreases j - i
  {
    if i + 1 < j {
      AscendingIsSorted(order, i, j - 1);
      assert j - 1 + 1 == j;
      LessTransitive(Name(order[i]), Name(order[j - 1]), Name(order[j]));
    }
  }

  /** The order entries are printed in is the strict ASCII order of their names. */
  lemma NamesAscend(i: nat, j: nat)
    requires i < j < |ASCII_ORDER|
    ensures Less(Name(ASCII_ORDER[i]), Name(ASCII_ORDER[j]))
  {
    forall k | 0 <= k && k + 1 < |ASCII_ORDER|
      ensures Less(Name(ASCII_ORDER[k]), Name(ASCII_ORDER[k + 1]))
    {
      NextNameIsGreater(k);
    }
    AscendingIsSorted(ASCII_ORDER, i, j);
  }
}

// Every value the canonicaliser prints is plain text that its own coercion
// reads back unchanged.
module RoundTrips {
  import opened Wrappers
  import opened Strings
  import opened Numerals
  import opened Vocabulary
  import opened Canonicalizer
  import opened Serialization

  /** Digits and points only. */
  predicate Numeric(s: string) {
    forall i :: 0 <= i < |s| ==> IsDigit(s[i]) || s[i] == '.'
  }

  lemma NumericIsPlain(s: string)
    requires Numeric(s)
    ensures Plain(s) && ',' !in s
  {
  }

  lemma PlainConcat(a: string, b: string)
    requires Plain(a) && Plain(b)
    ensures Plain(a + b)
  {
  }

  lemma FiveDigits()
    ensures Power10(5) == 100000
  {
    assert Power10(1) == 10 && Power10(2) == 100 && Power10(3) == 1000 && Power10(4) == 10000;
  }

  lemma NumeralReads(n: nat)
    requires n < 100000
    ensures IsNumeral(Numeral(n), 1, 5) && Value(Numeral(n)) == n
    ensures Numeric(Numeral(n))
  {
    FiveDigits();
    NumeralLength(n, 5);
    NumeralValue(n);
  }

  lemma IntegerReads(p: Param, n: nat, min: nat, max: nat)
    requires n < 100000 && min <= n <= max
    ensures Integer(p, Numeral(n), min, max) == Ok(n)
    ensures Plain(Numeral(n))
  {
    NumeralReads(n);
    NumericIsPlain(Numeral(n));
  }

  lemma UnitReads(v: nat)
    requires v <= 10000
    ensures IsUnit(Decimal(v)) && UnitValue(Decimal(v)) == v && Numeric(Decimal(v))
  {
    if v == 0 {
      assert Decimal(v) == "0";
    } else if v == 10000 {
      assert Decimal(v) == "1";
    } else {
      FractionRoundTrip(v);
      assert Decimal(v) == "0" + "." + FractionDigits(v);
      assert Decimal(v)[2..] == FractionDigits(v);
    }
  }

  lemma TenthsFraction(d: nat)
    requires 0 < d < 10
    ensures FractionDigits(1000 * d) == [Digit(d)]
  {
    var f := 1000 * d;
    assert f % 10 == 0 && f / 10 == 100 * d;
    assert 100 * d % 10 == 0 && 100 * d / 10 == 10 * d;
    assert 10 * d % 10 == 0 && 10 * d / 10 == d;
  }

  lemma DprReads(tenths: nat)
    requires DPR_MIN_TENTHS <= tenths <= DPR_MAX_TENTHS
    ensures CoerceDpr(Some(Decimal(1000 * tenths))) == Ok(Some(tenths))
    ensures Plain(Decimal(1000 * tenths))
  {
    var whole, d := tenths / 10, tenths % 10;
    assert 1000 * tenths == 10000 * whole + 1000 * d;
    assert 1000 * tenths / 10000 == whole && 1000 * tenths % 10000 == 1000 * d;
    var s := Decimal(1000 * tenths);
    if d == 0 {
      assert s == [Digit(whole)];
    } else {
      TenthsFraction(d);
      assert s == [Digit(whole)] + "." + [Digit(d)];
    }
    NumericIsPlain(s);
  }

  lemma PointReads(x: nat, y: nat)
    requires x <= 10000 && y <= 10000
    ensures CoerceGravity(Some(PrintGravity(Point(x, y)))) == Ok(Some(Fixed(Point(x, y))))
    ensures Plain(PrintGravity(Point(x, y)))
  {
    UnitReads(x);
    UnitReads(y);
    NumericIsPlain(Decimal(x));
    NumericIsPlain(Decimal(y));
    IndexOfFirst(Decimal(x), ',', Decimal(y));
    assert Decimal(x) + [','] + Decimal(y) == PrintGravity(Point(x, y));
  }

  lemma KeywordIsPlain(k: Keyword)
    ensures Plain(PrintKeyword(k)) && ',' !in PrintKeyword(k)
  {
  }

  lemma KeywordIsConcrete(k: Keyword)
    ensures PrintKeyword(k) != "auto" && PrintKeyword(k) != "face" && PrintKeyword(k) != "faces"
  {
  }

  lemma KeywordReads(k: Keyword)
    ensures CoerceGravity(Some(PrintGravity(Named(k)))) == Ok(Some(Fixed(Named(k))))
    ensures Plain(PrintGravity(Named(k)))
  {
    KeywordIsPlain(k);
    KeywordIsConcrete(k);
    KeywordRoundTrip(k);
    WordIsNoPoint(PrintKeyword(k), k);
  }

  lemma WordIsNoPoint(s: string, k: Keyword)
    requires ',' !in s && s != "auto" && s != "face" && s != "faces" && ParseKeyword(s) == Some(k)
    ensures CoerceGravity(Some(s)) == Ok(Some(Fixed(Named(k))))
  {
    IndexOfAbsent(s, ',');
  }

  /** A resolved rectangle is not gravity syntax: reading it back is an error. */
  lemma AreaDoesNotRead(r: Region)
    ensures CoerceGravity(Some(PrintGravity(Area(r)))) == Err(InvalidParam("g", NotAllowed))
  {
    var s := PrintGravity(Area(r));
    assert s[0] == 'r' && s[1] == ':';
    var i := IndexOf(s, ',');
    if i < |s| {
      assert i > 0 && s[..i][0] == 'r';
    }
  }

  lemma RegionIsPlain(r: Region)
    ensures Plain(PrintRegion(r))
  {
    var parts := [Numeral(r.x), Numeral(r.y), Numeral(r.w), Numeral(r.h)];
    forall i | 0 <= i < 4 ensures Plain(parts[i]) {
      assert Numeric(parts[i]);
      NumericIsPlain(parts[i]);
    }
    JoinIsPlain(parts, ',');
  }

  lemma {:induction false} JoinIsPlain(parts: seq<string>, sep: char)
    requires forall i :: 0 <= i < |parts| ==> Plain(parts[i])
    requires Plain([sep])
    ensures Plain(Join(parts, sep))
    decreases |parts|
  {
    if |parts| > 1 {
      JoinIsPlain(parts[1..], sep);
      PlainConcat(parts[0], [sep]);
      PlainConcat(parts[0] + [sep], Join(parts[1..], sep));
    }
  }

  lemma RectReads(r: Crop, source: SourceFacts)
    requires r.x < 100000 && r.y < 100000 && r.w < 100000 && r.h < 100000
    requires r.x + r.w <= source.width && r.y + r.h <= source.height
    ensures CoerceRect(Some(PrintRegion(r)), source) == Ok(Some(r))
  {
    var parts := [Numeral(r.x), Numeral(r.y), Numeral(r.w), Numeral(r.h)];
    NumeralReads(r.x);
    NumeralReads(r.y);
    NumeralReads(r.w);
    NumeralReads(r.h);
    forall i | 0 <= i < 4 ensures ',' !in parts[i] {
      NumericIsPlain(parts[i]);
    }
    SplitJoin(parts, ',');
  }

  lemma BackgroundReads(host: Host, s: string)
    requires ValidHost(host) && IsUpperHex(s)
    ensures CoerceBackground(host, Some(s)) == Ok(Some(s))
    ensures Plain(s)
  {
    assert IsHexColour(Lower(s));
    assert UpperHex(s) == s;
  }

  lemma RotationReads(rot: nat)
    requires rot == 90 || rot == 180 || rot == 270
    ensures CoerceRotation(Some(Numeral(rot))) == Ok(Some(rot))
    ensures Plain(Numeral(rot))
  {
    NumeralReads(rot);
    NumericIsPlain(Numeral(rot));
    assert Numeral(9) == "9" && Numeral(90) == Numeral(9) + "0";
    assert Numeral(1) == "1" && Numeral(18) == Numeral(1) + "8" && Numeral(180) == Numeral(18) + "0";
    assert Numeral(2) == "2" && Numeral(27) == Numeral(2) + "7" && Numeral(270) == Numeral(27) + "0";
  }

  lemma FitReads(fit: FitMode)
    ensures CoerceFit(Some(PrintFit(fit))) == Ok(Some(fit)) && Plain(PrintFit(fit))
  {
    FitRoundTrip(fit);
  }

  lemma FormatReads(f: Format)
    ensures CoerceFormat(Some(PrintFormat(f))) == Ok(Some(f)) && Plain(PrintFormat(f))
  {
    FormatRoundTrip(f);
  }

  lemma FlipReads(f: FlipMode)
    ensures CoerceFlip(Some(PrintFlip(f))) == Ok(Some(f)) && Plain(PrintFlip(f))
  {
    FlipRoundTrip(f);
  }
}

// Canonicalisation is a projection: the canonical string of an accepted query
// canonicalises to itself, except for the two resolutions it cannot carry.
module Projection {
  import opened Wrappers
  import opened Strings
  import opened Numerals
  import opened Vocabulary
  import opened Dimensions
  import opened Canonicalizer
  import opened Serialization
  import opened RoundTrips

  // ---- What coercion establishes ----

  predicate GoodSide(side: Option<nat>) {
    side.Some? ==> 1 <= side.value <= MAX_DIMENSION
  }

  predicate GoodRect(rect: Option<Crop>, source: SourceFacts) {
    rect.Some? ==>
      && rect.value.x < 100000 && rect.value.y < 100000 && rect.value.w < 100000 && rect.value.h < 100000
      && rect.value.x + rect.value.w <= source.width && rect.value.y + rect.value.h <= source.height
  }

  predicate GoodBackground(bg: Option<string>) {
    bg.Some? ==> IsUpperHex(bg.value)
  }

  predicate GoodAngle(rot: nat) {
    rot == 0 || rot == 90 || rot == 180 || rot == 270
  }

  /** A gravity a caller can write. */
  predicate Writable(g: Gravity) {
    g.Named? || (g.Point? && g.x <= 10000 && g.y <= 10000)
  }

  predicate GoodGravity(g: Option<GravityRequest>) {
    g.Some? && g.value.Fixed? ==> Writable(g.value.gravity)
  }

  predicate GoodDpr(dpr: Option<nat>) {
    dpr.Some? ==> DPR_MIN_TENTHS <= dpr.value <= DPR_MAX_TENTHS
  }

  predicate GoodQuality(q: Option<nat>) {
    q.Some? ==> 1 <= q.value <= 100
  }

  predicate GoodRequest(req: Request, source: SourceFacts) {
    && GoodSide(req.w) && GoodSide(req.h) && GoodDpr(req.dpr) && GoodGravity(req.g)
    && GoodRect(req.rect, source) && GoodQuality(req.quality) && GoodBackground(req.bg)
    && req.blur <= EFFECT_MAX && req.sharpen <= EFFECT_MAX
    && (req.rot.Some? ==> GoodAngle(req.rot.value))
  }

  lemma {:induction false} ValueBound(s: string)
    requires IsNumeral(s, 0, |s|)
    ensures Value(s) < Power10(|s|)
    decreases |s|
  {
    if s == "" {
    } else {
      ValueBound(s[..|s| - 1]);
    }
  }

  lemma {:induction false} Power10Monotone(j: nat, k: nat)
    requires j <= k
    ensures Power10(j) <= Power10(k)
    decreases k
  {
    if j < k { Power10Monotone(j, k - 1); }
  }

  lemma FiveDigitsAtMost(s: string)
    requires IsNumeral(s, 1, 5)
    ensures Value(s) < 100000
  {
    ValueBound(s);
    Power10Monotone(|s|, 5);
    FiveDigits();
  }

  lemma RectIsGood(raw: Option<string>, source: SourceFacts)
    requires CoerceRect(raw, source).Ok?
    ensures GoodRect(CoerceRect(raw, source).value, source)
  {
    if raw.Some? {
      var m := Split(raw.value, ',');
      FiveDigitsAtMost(m[0]);
      FiveDigitsAtMost(m[1]);
      FiveDigitsAtMost(m[2]);
      FiveDigitsAtMost(m[3]);
    }
  }

  lemma UnitAtMostOne(s: string)
    requires IsUnit(s)
    ensures UnitValue(s) <= 10000
  {
    if |s| > 1 && s[0] == '1' {
      assert forall i :: 0 <= i < |s[2..]| ==> s[2..][i] == s[i + 2];
    }
  }

  lemma GravityIsGood(raw: Option<string>)
    requires CoerceGravity(raw).Ok?
    ensures GoodGravity(CoerceGravity(raw).value)
  {
    if raw.Some? {
      var i := IndexOf(raw.value, ',');
      if i < |raw.value| && IsUnit(raw.value[..i]) && IsUnit(raw.value[i + 1..]) {
        UnitAtMostOne(raw.value[..i]);
        UnitAtMostOne(raw.value[i + 1..]);
      }
    }
  }

  lemma CoerceIsGood(host: Host, source: SourceFacts, v: map<Param, string>)
    requires ValidHost(host) && Coerce(host, source, v).Ok?
    ensures GoodRequest(Coerce(host, source, v).value, source)
  {
    CoerceByGroup(host, source, v, Coerce(host, source, v).value);
    RectIsGood(Get(v, Param.Rect), source);
    GravityIsGood(Get(v, G));
  }

  // ---- What resolution establishes ----

  predicate GoodScale(scale: Option<Scale>, box: Box) {
    && (scale.Some? <==> box != Box(None, None))
    && (scale.Some? ==>
          && DPR_MIN_TENTHS <= scale.value.dpr <= DPR_MAX_TENTHS
          && (scale.value.g.Some? <==> UsesGravity(scale.value.fit))
          && (scale.value.g.Some? ==> scale.value.g.value.Area? || Writable(scale.value.g.value)))
  }

  predicate Padding(scale: Option<Scale>) {
    scale.Some? && scale.value.fit == Contain
  }

  predicate GoodResolved(ctx: Context, res: Resolved) {
    && GoodSide(res.box.w) && GoodSide(res.box.h)
    && SnapBox(res.box, ctx.ladder) == res.box
    && GoodScale(res.scale, res.box)
    && InBudget(res.box, BaseOf(ctx, res.rect).0, BaseOf(ctx, res.rect).1, EffectiveDpr(res.scale))
    && GoodQuality(res.quality) && (res.quality.None? <==> res.format == Png)
    && GoodRect(res.rect, ctx.source) && GoodBackground(res.bg)
    && ResolveBackground(res.bg, Padding(res.scale), res.format) == res.bg
    && res.blur <= EFFECT_MAX && res.sharpen <= EFFECT_MAX && GoodAngle(res.rot)
  }

  function EffectiveDpr(scale: Option<Scale>): nat {
    if scale.Some? then scale.value.dpr else 10
  }

  lemma CombineIsGood(req: Request)
    requires GoodSide(req.w) && GoodSide(req.h) && Combine(req).Ok?
    ensures GoodSide(Combine(req).value.w) && GoodSide(Combine(req).value.h)
  {
  }

  lemma SnapIsGood(box: Box, ladder: bool)
    requires GoodSide(box.w) && GoodSide(box.h)
    ensures var snapped := SnapBox(box, ladder);
      && GoodSide(snapped.w) && GoodSide(snapped.h)
      && SnapBox(snapped, ladder) == snapped
      && (snapped == Box(None, None) <==> box == Box(None, None))
  {
    SnapBoxIdempotent(box, ladder);
    if box.w.Some? { SnapInRange(box.w.value); }
    if box.h.Some? { SnapInRange(box.h.value); }
  }

  lemma ResolveIsGood(ctx: Context, req: Request)
    requires GoodRequest(req, ctx.source) && Resolve(ctx, req).Ok?
    ensures GoodResolved(ctx, Resolve(ctx, req).value)
  {
    CombineIsGood(req);
    SnapIsGood(Combine(req).value, ctx.ladder);
    var box, res := Combine(req).value, Resolve(ctx, req).value;
    assert res.scale == ResolveScale(ctx, req, box != Box(None, None)).value;
    BackgroundSettles(req.bg, Padding(res.scale), res.format);
  }

  lemma BackgroundSettles(bg: Option<string>, padding: bool, format: Format)
    requires GoodBackground(bg)
    ensures var once := ResolveBackground(bg, padding, format);
      GoodBackground(once) && ResolveBackground(once, padding, format) == once
  {
  }

  // ---- Reading a resolved transformation back ----

  /** The request a printed transformation makes. */
  function AsRequest(res: Resolved): Request {
    Request(
      res.box.w, res.box.h, None,
      if res.scale.Some? then Some(res.scale.value.dpr) else None,
      if res.scale.Some? then Some(res.scale.value.fit) else None,
      if res.scale.Some? && res.scale.value.g.Some? then Some(Fixed(res.scale.value.g.value)) else None,
      res.rect, Some(res.format), res.quality, res.bg, res.blur, res.sharpen,
      if res.rot == 0 then None else Some(res.rot), res.flip, None)
  }

  predicate CarriesArea(res: Resolved) {
    res.scale.Some? && res.scale.value.g.Some? && res.scale.value.g.value.Area?
  }

  // A map of values coerces, group by group, to a request.

  predicate SidesCoerce(v: map<Param, string>, req: Request) {
    && OptionalInteger(W, Get(v, W), 1, MAX_DIMENSION) == Ok(req.w)
    && OptionalInteger(H, Get(v, H), 1, MAX_DIMENSION) == Ok(req.h)
    && CoerceRatio(Get(v, Ar)) == Ok(req.ar)
  }

  predicate ScaleCoerces(v: map<Param, string>, req: Request) {
    && CoerceDpr(Get(v, Dpr)) == Ok(req.dpr)
    && CoerceFit(Get(v, Fit)) == Ok(req.fit)
    && CoerceGravity(Get(v, G)) == Ok(req.g)
  }

  predicate OutputCoerces(host: Host, source: SourceFacts, v: map<Param, string>, req: Request) {
    && CoerceRect(Get(v, Param.Rect), source) == Ok(req.rect)
    && CoerceFormat(Get(v, F)) == Ok(req.format)
    && CoerceQuality(Get(v, Q)) == Ok(req.quality)
    && CoerceBackground(host, Get(v, Bg)) == Ok(req.bg)
  }

  predicate EffectsCoerce(v: map<Param, string>, req: Request) {
    && CoerceEffect(Blur, Get(v, Blur)) == Ok(req.blur)
    && CoerceEffect(Sharpen, Get(v, Sharpen)) == Ok(req.sharpen)
    && CoerceRotation(Get(v, Rot)) == Ok(req.rot)
    && CoerceFlip(Get(v, Flip)) == Ok(req.flip)
    && CoerceDownload(Get(v, Dl)) == Ok(req.dl)
  }

  lemma CoerceByGroup(host: Host, source: SourceFacts, v: map<Param, string>, req: Request)
    ensures Coerce(host, source, v) == Ok(req) <==>
            SidesCoerce(v, req) && ScaleCoerces(v, req) && OutputCoerces(host, source, v, req) && EffectsCoerce(v, req)
  {
  }

  predicate PlainField(res: Resolved, p: Param) {
    Field(res, p).Some? ==> Plain(Field(res, p).value)
  }

  lemma SidesRead(res: Resolved)
    requires GoodSide(res.box.w) && GoodSide(res.box.h)
    ensures SidesCoerce(Params(res), AsRequest(res))
    ensures PlainField(res, W) && PlainField(res, H)
  {
    assert Get(Params(res), Ar) == Field(res, Ar);
    if res.box.w.Some? { IntegerReads(W, res.box.w.value, 1, MAX_DIMENSION); }
    if res.box.h.Some? { IntegerReads(H, res.box.h.value, 1, MAX_DIMENSION); }
  }

  lemma GravityReads(g: Gravity)
    ensures Writable(g) ==> CoerceGravity(Some(PrintGravity(g))) == Ok(Some(Fixed(g)))
    ensures g.Area? ==> CoerceGravity(Some(PrintGravity(g))).Err?
    ensures Writable(g) || g.Area? ==> Plain(PrintGravity(g))
  {
    match g
    case Named(k) => KeywordReads(k);
    case Point(x, y) => if x <= 10000 && y <= 10000 { PointReads(x, y); }
    case Area(r) =>
      AreaDoesNotRead(r);
      RegionIsPlain(r);
      PlainConcat("r:", PrintRegion(r));
  }

  lemma ScaleReads(res: Resolved)
    requires GoodScale(res.scale, res.box)
    ensures !CarriesArea(res) ==> ScaleCoerces(Params(res), AsRequest(res))
    ensures CarriesArea(res) ==> CoerceGravity(Get(Params(res), G)).Err?
    ensures PlainField(res, Dpr) && PlainField(res, Fit) && PlainField(res, G)
  {
    if res.scale.Some? {
      DprReads(res.scale.value.dpr);
      FitReads(res.scale.value.fit);
      if res.scale.value.g.Some? { GravityReads(res.scale.value.g.value); }
    }
  }

  lemma QualityReads(q: nat)
    requires 1 <= q <= 100
    ensures CoerceQuality(Some(Numeral(q))) == Ok(Some(q)) && Plain(Numeral(q))
  {
    IntegerReads(Q, q, 1, 100);
    assert IsDigit(Numeral(q)[0]);
  }

  lemma RectFieldReads(res: Resolved, source: SourceFacts)
    requires GoodRect(res.rect, source)
    ensures CoerceRect(Get(Params(res), Param.Rect), source) == Ok(res.rect) && PlainField(res, Param.Rect)
  {
    if res.rect.Some? {
      RectReads(res.rect.value, source);
      RegionIsPlain(res.rect.value);
    }
  }

  lemma QualityFieldReads(res: Resolved)
    requires GoodQuality(res.quality)
    ensures CoerceQuality(Get(Params(res), Q)) == Ok(res.quality) && PlainField(res, Q)
  {
    if res.quality.Some? { QualityReads(res.quality.value); }
  }

  lemma BackgroundFieldReads(host: Host, res: Resolved)
    requires ValidHost(host) && GoodBackground(res.bg)
    ensures CoerceBackground(host, Get(Params(res), Bg)) == Ok(res.bg) && PlainField(res, Bg)
  {
    if res.bg.Some? { BackgroundReads(host, res.bg.value); }
  }

  lemma FormatFieldReads(res: Resolved)
    ensures CoerceFormat(Get(Params(res), F)) == Ok(Some(res.format)) && PlainField(res, F)
  {
    FormatReads(res.format);
  }

  lemma OutputReads(host: Host, ctx: Context, res: Resolved)
    requires ValidHost(host) && GoodResolved(ctx, res)
    ensures OutputCoerces(host, ctx.source, Params(res), AsRequest(res))
    ensures PlainField(res, Param.Rect) && PlainField(res, F) && PlainField(res, Q) && PlainField(res, Bg)
  {
    RectFieldReads(res, ctx.source);
    FormatFieldReads(res);
    QualityFieldReads(res);
    BackgroundFieldReads(host, res);
  }

  lemma EffectReads(p: Param, n: nat)
    requires n <= EFFECT_MAX
    ensures CoerceEffect(p, PrintPositive(n)) == Ok(n)
    ensures n > 0 ==> Plain(Numeral(n))
  {
    if n > 0 { IntegerReads(p, n, 0, EFFECT_MAX); }
  }

  lemma EffectsRead(res: Resolved)
    requires res.blur <= EFFECT_MAX && res.sharpen <= EFFECT_MAX && GoodAngle(res.rot)
    ensures EffectsCoerce(Params(res), AsRequest(res))
    ensures PlainField(res, Blur) && PlainField(res, Sharpen) && PlainField(res, Rot) && PlainField(res, Flip)
  {
    assert Get(Params(res), Dl) == Field(res, Dl);
    EffectReads(Blur, res.blur);
    EffectReads(Sharpen, res.sharpen);
    if res.rot > 0 { RotationReads(res.rot); }
    if res.flip.Some? { FlipReads(res.flip.value); }
  }

  lemma CoerceReads(host: Host, ctx: Context, res: Resolved)
    requires ValidHost(host) && GoodResolved(ctx, res) && !CarriesArea(res)
    ensures Coerce(host, ctx.source, Params(res)) == Ok(AsRequest(res))
  {
    SidesRead(res);
    ScaleReads(res);
    OutputReads(host, ctx, res);
    EffectsRead(res);
    CoerceByGroup(host, ctx.source, Params(res), AsRequest(res));
  }

  lemma CoerceRejectsArea(host: Host, ctx: Context, res: Resolved)
    requires GoodScale(res.scale, res.box) && CarriesArea(res)
    ensures Coerce(host, ctx.source, Params(res)).Err?
  {
    ScaleReads(res);
    var r := Coerce(host, ctx.source, Params(res));
    if r.Ok? { CoerceByGroup(host, ctx.source, Params(res), r.value); }
  }

  lemma ParamsArePlain(host: Host, ctx: Context, res: Resolved)
    requires ValidHost(host) && GoodResolved(ctx, res)
    ensures PlainValues(Params(res)) && F in Params(res)
  {
    var m := Params(res);
    forall p | p in m ensures Plain(m[p]) {
      assert m[p] == Get(m, p).value && Get(m, p) == Field(res, p);
      FieldIsPlain(host, ctx, res, p);
    }
    assert Get(m, F) == Field(res, F);
  }

  lemma FieldIsPlain(host: Host, ctx: Context, res: Resolved, p: Param)
    requires ValidHost(host) && GoodResolved(ctx, res)
    ensures PlainField(res, p)
  {
    SidesRead(res);
    ScaleReads(res);
    OutputReads(host, ctx, res);
    EffectsRead(res);
  }

  /** Resolving the printed request changes at most the rotation. */
  lemma ResolveSettles(ctx: Context, res: Resolved)
    requires GoodResolved(ctx, res) && !CarriesArea(res)
    ensures Resolve(ctx, AsRequest(res)) ==
            Ok(res.(rot := if res.rot == 0 then ctx.source.orientation else res.rot))
  {
  }

  // ---- The projection theorem ----

  /** Gravity was left to the resolver, and the transformation uses gravity. */
  predicate DefersGravity(req: Request) {
    && req.g.Some? && req.g.value.Deferred?
    && (req.w.Some? || req.h.Some?)
    && UsesGravity(Or(req.fit, ScaleDown))
  }

  /** An explicit rot=0 on a source that is not upright. */
  predicate RefusesOrientation(req: Request, source: SourceFacts) {
    req.rot == Some(0) && source.orientation != 0
  }

  lemma ExceptionsByRequest(ctx: Context, req: Request)
    requires GoodRequest(req, ctx.source) && Resolve(ctx, req).Ok?
    ensures var res := Resolve(ctx, req).value;
      && (CarriesArea(res) <==> DefersGravity(req))
      && ((res.rot == 0 && ctx.source.orientation != 0) <==> RefusesOrientation(req, ctx.source))
  {
  }

  lemma RotationShows(a: Resolved, b: Resolved)
    requires a.rot == 0 && b.rot != 0
    ensures Params(a) != Params(b)
  {
    assert Get(Params(a), Rot) == Field(a, Rot) == None;
    assert Get(Params(b), Rot) == Field(b, Rot);
  }

  /** The request an accepted query makes after parsing and partition. */
  ghost predicate Requests(host: Host, query: string, ctx: Context, req: Request) {
    && Pairs(host, Split(StripQuestion(query), '&')).Ok?
    && var pairs := Pairs(host, Split(StripQuestion(query), '&')).value;
    && Admit(pairs, ctx.strict).Ok?
    && Coerce(host, ctx.source, Values(Admit(pairs, ctx.strict).value.raw)) == Ok(req)
  }

  ghost predicate Reproduces(host: Host, ctx: Context, c: Canonical) {
    var again := CanonicalForm(host, c.canonical, ctx);
    again.Ok? && again.value.params == c.params && again.value.canonical == c.canonical
    && again.value.paramsHash == c.paramsHash
  }

  /**
   * Feeding the canonical string back with the same context gives the same
   * parameters, string and hash if and only if the request neither deferred
   * a gravity it uses nor refused a non-zero source orientation with rot=0.
   */
  lemma CanonicalisationIsAProjection(host: Host, query: string, ctx: Context, req: Request)
    requires ValidHost(host) && CanonicalForm(host, query, ctx).Ok? && Requests(host, query, ctx, req)
    ensures Reproduces(host, ctx, CanonicalForm(host, query, ctx).value) <==>
            !DefersGravity(req) && !RefusesOrientation(req, ctx.source)
  {
    var c := CanonicalForm(host, query, ctx).value;
    var values := Values(Admit(Pairs(host, Split(StripQuestion(query), '&')).value, ctx.strict).value.raw);
    CoerceIsGood(host, ctx.source, values);
    ResolveIsGood(ctx, req);
    ExceptionsByRequest(ctx, req);
    var res := Resolve(ctx, req).value;
    ReproducedForm(host, ctx, res);
    if !CarriesArea(res) {
      var settled := res.(rot := if res.rot == 0 then ctx.source.orientation else res.rot);
      if settled.rot != res.rot { RotationShows(res, settled); }
    }
  }

  lemma ReproducedForm(host: Host, ctx: Context, res: Resolved)
    requires ValidHost(host) && GoodResolved(ctx, res)
    ensures var again := CanonicalForm(host, Serialize(Params(res)), ctx);
      && (CarriesArea(res) ==> again.Err?)
      && (!CarriesArea(res) ==>
            && again.Ok?
            && again.value.params == Params(res.(rot := if res.rot == 0 then ctx.source.orientation else res.rot))
            && again.value.canonical == Serialize(again.value.params)
            && again.value.paramsHash == ParamsHash(host, again.value.canonical))
  {
    ParamsArePlain(host, ctx, res);
    SerializeRoundTrips(host, Params(res), F, ctx);
    if CarriesArea(res) {
      CoerceRejectsArea(host, ctx, res);
    } else {
      CoerceReads(host, ctx, res);
      ResolveSettles(ctx, res);
    }
  }

  /** Two accepted queries with the same canonical string agree on every resolved parameter. */
  lemma CanonicalStringIdentifiesParams(host: Host, q1: string, c1: Context, q2: string, c2: Context)
    requires ValidHost(host)
    requires CanonicalForm(host, q1, c1).Ok? && CanonicalForm(host, q2, c2).Ok?
    requires CanonicalForm(host, q1, c1).value.canonical == CanonicalForm(host, q2, c2).value.canonical
    ensures CanonicalForm(host, q1, c1).value.params == CanonicalForm(host, q2, c2).value.params
  {
    var a := AcceptedParams(host, q1, c1);
    var b := AcceptedParams(host, q2, c2);
    SerializeInjective(host, a, b, F, F);
  }

  lemma AcceptedParams(host: Host, query: string, ctx: Context) returns (m: map<Param, string>)
    requires ValidHost(host) && CanonicalForm(host, query, ctx).Ok?
    ensures m == CanonicalForm(host, query, ctx).value.params && PlainValues(m) && F in m
    ensures CanonicalForm(host, query, ctx).value.canonical == Serialize(m)
  {
    var raw := Admit(Pairs(host, Split(StripQuestion(query), '&')).value, ctx.strict).value.raw;
    var req := Coerce(host, ctx.source, Values(raw)).value;
    CoerceIsGood(host, ctx.source, Values(raw));
    ResolveIsGood(ctx, req);
    ParamsArePlain(host, ctx, Resolve(ctx, req).value);
    m := Params(Resolve(ctx, req).value);
  }

  /** The parameters of every accepted query are what its canonical string parses to. */
  lemma CanonicalStringParsesToParams(host: Host, query: string, ctx: Context)
    requires ValidHost(host) && CanonicalForm(host, query, ctx).Ok?
    ensures var c := CanonicalForm(host, query, ctx).value;
      var pairs := Pairs(host, Split(StripQuestion(c.canonical), '&'));
      pairs.Ok? && Admit(pairs.value, ctx.strict).Ok?
      && Values(Admit(pairs.value, ctx.strict).value.raw) == c.params
  {
    var m := AcceptedParams(host, query, ctx);
    SerializedPairs(host, m, F, ctx.strict);
  }
}

// The shape of canonical forms: which parameters they have, and the defaults
// they spell out.
module CanonicalShape {
  import opened Wrappers
  import opened Strings
  import opened Numerals
  import opened Vocabulary
  import opened Dimensions
  import opened Canonicalizer
  import opened Serialization
  import opened RoundTrips
  import opened Projection

  /** Which parameters a canonical form has, by what it says itself. */
  predicate HasCanonicalShape(m: map<Param, string>, format: Format) {
    && Get(m, F) == Some(PrintFormat(format))
    && (Q in m <==> format != Png)
    && (Fit in m <==> W in m || H in m)
    && (Dpr in m <==> Fit in m)
    && (G in m <==> Fit in m && (m[Fit] == "cover" || m[Fit] == "contain"))
    && (Fit in m && m[Fit] == "contain" ==> Bg in m)
    && (Bg in m ==> format == Jpeg || (Fit in m && m[Fit] == "contain"))
    && Ar !in m && Dl !in m && Exp !in m && Sig !in m
  }

  /** No parameter of a canonical form is a no-op. */
  predicate HasNoNoOps(m: map<Param, string>) {
    && (Rot in m ==> m[Rot] == "90" || m[Rot] == "180" || m[Rot] == "270")
    && (Blur in m ==> m[Blur] != "0")
    && (Sharpen in m ==> m[Sharpen] != "0")
  }

  lemma FieldsDecide(res: Resolved)
    ensures forall p: Param :: p in Params(res) <==> Field(res, p).Some?
    ensures forall p: Param :: p in Params(res) ==> Params(res)[p] == Field(res, p).value
  {
    forall p: Param
      ensures p in Params(res) <==> Field(res, p).Some?
      ensures p in Params(res) ==> Params(res)[p] == Field(res, p).value
    {
      assert Get(Params(res), p) == Field(res, p);
    }
  }

  lemma ResolvedHasShape(ctx: Context, res: Resolved)
    requires GoodResolved(ctx, res)
    ensures HasCanonicalShape(Params(res), res.format)
  {
    FieldsDecide(res);
  }

  lemma PositiveIsNotZero(n: nat)
    requires n > 0
    ensures Numeral(n) != "0"
  {
    NumeralValue(n);
    NumeralValue(0);
  }

  lemma RotationText(rot: nat)
    requires rot == 90 || rot == 180 || rot == 270
    ensures Numeral(rot) == "90" || Numeral(rot) == "180" || Numeral(rot) == "270"
  {
    assert Numeral(9) == "9" && Numeral(1) == "1" && Numeral(2) == "2";
    assert Numeral(18) == "18" && Numeral(27) == "27";
  }

  lemma ResolvedHasNoNoOps(ctx: Context, res: Resolved)
    requires GoodResolved(ctx, res)
    ensures HasNoNoOps(Params(res))
  {
    FieldsDecide(res);
    if res.rot != 0 { RotationText(res.rot); }
    if res.blur != 0 { PositiveIsNotZero(res.blur); }
    if res.sharpen != 0 { PositiveIsNotZero(res.sharpen); }
  }

  /** Every accepted query has a canonical form of that shape, without no-ops. */
  lemma AcceptedFormsHaveShape(host: Host, query: string, ctx: Context)
    requires ValidHost(host) && CanonicalForm(host, query, ctx).Ok?
    ensures var c := CanonicalForm(host, query, ctx).value;
      HasCanonicalShape(c.params, c.format) && HasNoNoOps(c.params)
  {
    var raw := Admit(Pairs(host, Split(StripQuestion(query), '&')).value, ctx.strict).value.raw;
    var req := Coerce(host, ctx.source, Values(raw)).value;
    CoerceIsGood(host, ctx.source, Values(raw));
    ResolveIsGood(ctx, req);
    ResolvedHasShape(ctx, Resolve(ctx, req).value);
    ResolvedHasNoNoOps(ctx, Resolve(ctx, req).value);
  }

  // ---- Defaults ----

  /** What a query that asks for nothing resolves to. */
  function Untouched(ctx: Context): map<Param, string> {
    var output := map[F := PrintFormat(ctx.bucket), Q := Numeral(DefaultQuality(ctx.bucket))];
    if ctx.source.orientation == 0 then output else output[Rot := Numeral(ctx.source.orientation)]
  }

  lemma EmptyQueryAdmitsNothing(host: Host, strict: bool)
    ensures Pairs(host, Split(StripQuestion(""), '&')) == Ok([])
    ensures Admit([], strict) == Ok(Admission(map[], {}))
  {
    assert Split("", '&') == [""];
    assert [""][..0] == [];
    assert ReadPart(host, "") == Skipped;
  }

  /** A request for nothing but perhaps a width. */
  function Asking(w: Option<nat>): Request {
    Request(w, None, None, None, None, None, None, None, None, None, 0, 0, None, None, None)
  }

  /** What it resolves to, the width snapped. */
  function Answered(ctx: Context, w: Option<nat>): Resolved {
    Resolved(ctx.bucket, Some(DefaultQuality(ctx.bucket)), if w.Some? then Some(Scale(ScaleDown, 10, None)) else None,
             ctx.source.orientation, 0, 0, None, None, None, Box(SnapSide(w, ctx.ladder), None))
  }

  lemma NothingCoerces(host: Host, source: SourceFacts)
    ensures Coerce(host, source, map[]) == Ok(Asking(None))
  {
  }

  lemma WidthCoerces(host: Host, source: SourceFacts, v: map<Param, string>, n: nat)
    requires Get(v, W).Some? && Integer(W, Get(v, W).value, 1, MAX_DIMENSION) == Ok(n)
    requires forall p: Param :: p != W ==> Get(v, p) == None
    ensures Coerce(host, source, v) == Ok(Asking(Some(n)))
  {
    CoerceByGroup(host, source, v, Asking(Some(n)));
  }

  lemma AskingResolves(ctx: Context, w: Option<nat>)
    ensures Resolve(ctx, Asking(w)).Ok? <==>
            InBudget(Box(SnapSide(w, ctx.ladder), None), ctx.source.width, ctx.source.height, 10)
    ensures Resolve(ctx, Asking(w)).Ok? ==> Resolve(ctx, Asking(w)) == Ok(Answered(ctx, w))
    ensures w.None? ==> Resolve(ctx, Asking(w)).Ok?
  {
  }

  lemma AnsweredParams(ctx: Context, w: Option<nat>)
    ensures Params(Answered(ctx, w)) ==
      if w.None? then Untouched(ctx)
      else Untouched(ctx)[W := Numeral(SnapSide(w, ctx.ladder).value)][Fit := "scale-down"][Dpr := "1"]
  {
    FieldsDecide(Answered(ctx, w));
    DprOfOne();
  }

  lemma DprOfOne()
    ensures Decimal(10000) == "1"
  {
    NumeralOfDigit(1);
  }

  lemma NumeralOfDigit(d: nat)
    requires d < 10
    ensures Numeral(d) == [Digit(d)]
  {
  }

  /** The empty query: the negotiated format, its default quality, and the source's own rotation. */
  lemma EmptyQueryIsUntouched(host: Host, ctx: Context)
    ensures CanonicalForm(host, "", ctx).Ok?
    ensures CanonicalForm(host, "", ctx).value.params == Untouched(ctx)
  {
    EmptyQueryAdmitsNothing(host, ctx.strict);
    assert Values(map[]) == map[];
    NothingCoerces(host, ctx.source);
    AskingResolves(ctx, None);
    AnsweredParams(ctx, None);
  }

  /** A width alone: fit=scale-down and dpr=1 are spelled out, and the width is snapped. */
  lemma WidthAloneHasDefaults(host: Host, ctx: Context, n: nat)
    requires ValidHost(host) && 1 <= n <= MAX_DIMENSION
    ensures var side := if ctx.ladder then Snap(n) else n;
      var r := CanonicalForm(host, Serialize(map[W := Numeral(n)]), ctx);
      && (r.Ok? <==> InBudget(Box(Some(side), None), ctx.source.width, ctx.source.height, 10))
      && (r.Ok? ==> r.value.params == Untouched(ctx)[W := Numeral(side)][Fit := "scale-down"][Dpr := "1"])
  {
    IntegerReads(W, n, 1, MAX_DIMENSION);
    SerializeRoundTrips(host, map[W := Numeral(n)], W, ctx);
    WidthCoerces(host, ctx.source, map[W := Numeral(n)], n);
    AskingResolves(ctx, Some(n));
    AnsweredParams(ctx, Some(n));
  }

  // ---- The two inputs a canonical string cannot carry ----

  lemma PrintedMapRequests(host: Host, ctx: Context, m: map<Param, string>, p: Param, req: Request)
    requires ValidHost(host) && PlainValues(m) && p in m
    requires Coerce(host, ctx.source, m) == Ok(req)
    ensures Requests(host, Serialize(m), ctx, req)
    ensures CanonicalForm(host, Serialize(m), ctx).Ok? <==> Resolve(ctx, req).Ok?
  {
    SerializedPairs(host, m, p, ctx.strict);
    SerializeRoundTrips(host, m, p, ctx);
  }

  lemma UprightCoerces(host: Host, source: SourceFacts, v: map<Param, string>)
    requires Get(v, Rot) == Some("0") && forall p: Param :: p != Rot ==> Get(v, p) == None
    ensures Coerce(host, source, v) == Ok(Asking(None).(rot := Some(0)))
  {
    CoerceByGroup(host, source, v, Asking(None).(rot := Some(0)));
  }

  lemma UprightResolves(ctx: Context)
    ensures Resolve(ctx, Asking(None).(rot := Some(0))).Ok?
  {
  }

  /** rot=0 on any source that is not upright: accepted, and not reproduced. */
  lemma UprightIsNotCarried(host: Host, ctx: Context)
    requires ValidHost(host) && ctx.source.orientation != 0
    ensures var r := CanonicalForm(host, Serialize(map[Rot := "0"]), ctx);
      r.Ok? && !Reproduces(host, ctx, r.value)
  {
    var m, req := map[Rot := "0"], Asking(None).(rot := Some(0));
    UprightCoerces(host, ctx.source, m);
    UprightResolves(ctx);
    PrintedMapRequests(host, ctx, m, Rot, req);
    CanonicalisationIsAProjection(host, Serialize(m), ctx, req);
  }

  /** A width of one pixel, fit=cover and g=auto. */
  function Deferring(): Request {
    Asking(Some(1)).(fit := Some(Cover), g := Some(Deferred(AutoGravity)))
  }

  lemma DeferringSides(v: map<Param, string>)
    requires Get(v, W) == Some("1") && Get(v, H) == None && Get(v, Ar) == None
    ensures SidesCoerce(v, Deferring())
  {
    NumeralOfDigit(1);
    IntegerReads(W, 1, 1, MAX_DIMENSION);
  }

  lemma DeferringScale(v: map<Param, string>)
    requires Get(v, Fit) == Some("cover") && Get(v, G) == Some("auto") && Get(v, Dpr) == None
    ensures ScaleCoerces(v, Deferring())
  {
    AutoIsNoPoint();
  }

  lemma DeferringCoerces(host: Host, source: SourceFacts, v: map<Param, string>)
    requires Get(v, W) == Some("1") && Get(v, Fit) == Some("cover") && Get(v, G) == Some("auto")
    requires forall p: Param :: p != W && p != Fit && p != G ==> Get(v, p) == None
    ensures Coerce(host, source, v) == Ok(Deferring())
  {
    DeferringSides(v);
    DeferringScale(v);
    NothingElseCoerces(host, source, v);
    CoerceByGroup(host, source, v, Deferring());
  }

  lemma NothingElseCoerces(host: Host, source: SourceFacts, v: map<Param, string>)
    requires forall p: Param :: p != W && p != Fit && p != G ==> Get(v, p) == None
    ensures OutputCoerces(host, source, v, Deferring()) && EffectsCoerce(v, Deferring())
  {
  }

  lemma AutoIsNoPoint()
    ensures CoerceGravity(Some("auto")) == Ok(Some(Deferred(AutoGravity)))
  {
  }

  lemma FitsBudget(box: Box, baseW: nat, baseH: nat, dpr: nat)
    requires baseW > 0 && baseH > 0 && box.w.Some?
    requires Pixels(OutSize(box, baseW, baseH).0, OutSize(box, baseW, baseH).1, dpr) <= 100
    ensures InBudget(box, baseW, baseH, dpr)
  {
  }

  lemma OnePixelIsInBudget(box: Box, side: nat, dpr: nat)
    requires box == Box(Some(side), None) && side == 1 && dpr == 10
    ensures InBudget(box, side, side, dpr)
  {
    OutSizeKeepsProportions(box, side, side);
    FitsBudget(box, side, side, dpr);
  }

  lemma DeferringScaleResolves(ctx: Context)
    requires ctx.resolver.Some?
    ensures ResolveScale(ctx, Deferring(), true).Ok?
  {
  }

  lemma DeferringResolves(ctx: Context)
    requires ctx.source.width == 1 && ctx.source.height == 1 && !ctx.ladder && ctx.resolver.Some?
    ensures Resolve(ctx, Deferring()).Ok?
  {
    OnePixelIsInBudget(Box(Some(1), None), 1, 10);
    DeferringScaleResolves(ctx);
    assert Combine(Deferring()) == Ok(Box(Some(1), None));
    assert SnapBox(Box(Some(1), None), ctx.ladder) == Box(Some(1), None);
    assert BaseOf(ctx, None) == (1, 1);
  }

  lemma DeferringIsPlain(m: map<Param, string>)
    requires forall p :: p in m ==> m[p] == "1" || m[p] == "cover" || m[p] == "auto"
    ensures PlainValues(m)
  {
    assert Plain("1") && Plain("cover") && Plain("auto");
  }

  /** Any printing of that request is accepted, and not reproduced. */
  lemma DeferringIsNotReproduced(host: Host, ctx: Context, m: map<Param, string>)
    requires ValidHost(host) && W in m && Coerce(host, ctx.source, m) == Ok(Deferring())
    requires forall p :: p in m ==> m[p] == "1" || m[p] == "cover" || m[p] == "auto"
    requires ctx.source.width == 1 && ctx.source.height == 1 && !ctx.ladder && ctx.resolver.Some?
    ensures var r := CanonicalForm(host, Serialize(m), ctx);
      r.Ok? && !Reproduces(host, ctx, r.value)
  {
    DeferringIsPlain(m);
    DeferringResolves(ctx);
    PrintedMapRequests(host, ctx, m, W, Deferring());
    CanonicalisationIsAProjection(host, Serialize(m), ctx, Deferring());
  }

  /** A gravity left to the resolver: accepted, and not reproduced. */
  lemma DeferredGravityIsNotCarried(host: Host, ctx: Context)
    requires ValidHost(host)
    requires ctx.source.width == 1 && ctx.source.height == 1 && !ctx.ladder && ctx.resolver.Some?
    ensures var r := CanonicalForm(host, Serialize(map[W := "1", Fit := "cover", G := "auto"]), ctx);
      r.Ok? && !Reproduces(host, ctx, r.value)
  {
    var m := map[W := "1", Fit := "cover", G := "auto"];
    DeferringCoerces(host, ctx.source, m);
    DeferringIsNotReproduced(host, ctx, m);
  }
}
