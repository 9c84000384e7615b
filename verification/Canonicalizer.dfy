// The canonicaliser: a raw query and its context to one canonical form.
// Steps carry the numbers of the protocol document.
module Canonicalizer {
  import opened Wrappers
  import opened Strings
  import opened Numerals
  import opened Vocabulary
  import opened Dimensions
  import EditDistance

  // ---- Context ----

  datatype Region = Region(x: nat, y: nat, w: nat, h: nat)

  type Crop = r: Region | r.w > 0 && r.h > 0 witness Region(0, 0, 1, 1)

  datatype Ratio = Ratio(w: nat, h: nat)

  type AspectRatio = r: Ratio | r.w > 0 && r.h > 0 witness Ratio(1, 1)

  datatype Source = Source(width: nat, height: nat, orientation: nat)

  type SourceFacts = s: Source |
    && s.width > 0 && s.height > 0
    && (s.orientation == 0 || s.orientation == 90 || s.orientation == 180 || s.orientation == 270)
    witness Source(1, 1, 0)

  datatype GravityMode = AutoGravity | FaceGravity

  datatype Context = Context(
    bucket: Bucket,
    source: SourceFacts,
    ladder: bool,
    strict: bool,
    resolver: Option<GravityMode -> Region>)

  /** What the platform supplies: percent-decoding, the digest, the colour table. */
  datatype Host = Host(
    unescape: string -> Option<string>,
    digest: string -> string,
    colours: map<string, string>)

  /** Text without escapes decodes to itself; the colour table holds hex, under names that are not. */
  ghost predicate ValidHost(host: Host) {
    && (forall s: string :: '%' !in s ==> host.unescape(s) == Some(s))
    && (forall name :: name in host.colours ==> !IsHexColour(name) && IsUpperHex(host.colours[name]))
  }

  datatype Reason = BadType | OutOfRange | NotAllowed | OutOfBounds | BudgetExceeded | UnknownParameter

  datatype Failure =
    | InvalidParam(field: string, reason: Reason)
    | OverSpecified(field: string)
    | NeedsGravityResolver(mode: GravityMode)

  // ---- Text helpers ----

  function LowerChar(c: char): char {
    if 'A' <= c <= 'Z' then c + 32 as char else c
  }

  function Lower(s: string): string {
    seq(|s|, i requires 0 <= i < |s| => LowerChar(s[i]))
  }

  predicate IsHexDigit(c: char) {
    IsDigit(c) || 'a' <= c <= 'f' || 'A' <= c <= 'F'
  }

  predicate IsHexColour(s: string) {
    (|s| == 6 || |s| == 8) && forall i :: 0 <= i < |s| ==> IsHexDigit(s[i])
  }

  predicate IsUpperHex(s: string) {
    (|s| == 6 || |s| == 8) && forall i :: 0 <= i < |s| ==> IsDigit(s[i]) || 'A' <= s[i] <= 'F'
  }

  function UpperHex(s: string): (u: string)
    requires IsHexColour(s)
    ensures IsUpperHex(u) && |u| == |s|
  {
    seq(|s|, i requires 0 <= i < |s| => if 'a' <= s[i] <= 'f' then s[i] - 32 as char else s[i])
  }

  function PlusToSpace(s: string): string {
    seq(|s|, i requires 0 <= i < |s| => if s[i] == '+' then ' ' else s[i])
  }

  function Decode(host: Host, raw: string): Option<string> {
    host.unescape(PlusToSpace(raw))
  }

  // ---- 1. Parse ----

  function StripQuestion(query: string): string {
    if query != "" && query[0] == '?' then query[1..] else query
  }

  datatype Reading = Skipped | Pair(key: string, value: string) | Malformed(field: string)

  function ReadPart(host: Host, part: string): Reading {
    if part == "" then Skipped
    else
      var eq := IndexOf(part, '=');
      var key := Decode(host, part[..eq]);
      var value := Decode(host, if eq == |part| then "" else part[eq + 1..]);
      if key.None? then Skipped
      else if value.None? then
        if IsKnown(key.value) then Malformed(key.value) else Skipped
      else Pair(key.value, value.value)
  }

  type QueryPair = (string, string)

  function Pairs(host: Host, parts: seq<string>): Result<seq<QueryPair>, Failure> {
    if parts == [] then Ok([])
    else
      var before :- Pairs(host, parts[..|parts| - 1]);
      match ReadPart(host, parts[|parts| - 1])
      case Skipped => Ok(before)
      case Malformed(field) => Err(InvalidParam(field, BadType))
      case Pair(key, value) => Ok(before + [(key, value)])
  }

  // ---- 2-5. Partition, reject, discard, alias ----

  predicate NearName(key: string, known: string) {
    var lower := Lower(key);
    if lower == known then key != known
    else
      var allowed := if |known| >= 5 then 2 else if |known| >= 3 then 1 else 0;
      allowed > 0 && EditDistance.WithinEdits(lower, known, allowed)
  }

  predicate IsNearMiss(key: string) {
    exists known :: known in KnownNames() && NearName(key, known)
  }

  datatype Class = Assigns(to: seq<(Param, string)>) | Foreign | Refused(reason: Reason)

  function Classify(key: string, value: string, strict: bool): Class {
    if key in COMPATIBILITY_NAMES then
      var mapped := Expand(key, value);
      if mapped.Some? then Assigns(mapped.value) else Refused(NotAllowed)
    else
      var canonical := ParamOf(key);
      if canonical.Some? then Assigns([(canonical.value, value)])
      else if IsNearMiss(key) || strict then Refused(UnknownParameter)
      else Foreign
  }

  datatype Given = Given(value: string, from: string)

  datatype Admission = Admission(raw: map<Param, Given>, ignored: set<string>)

  function AssignAll(raw: map<Param, Given>, to: seq<(Param, string)>, from: string): map<Param, Given>
    decreases |to|
  {
    if to == [] then raw
    else AssignAll(raw[to[0].0 := Given(to[0].1, from)], to[1..], from)
  }

  function Admit(pairs: seq<QueryPair>, strict: bool): Result<Admission, Failure> {
    if pairs == [] then Ok(Admission(map[], {}))
    else
      var before :- Admit(pairs[..|pairs| - 1], strict);
      var key := pairs[|pairs| - 1].0;
      var value := pairs[|pairs| - 1].1;
      match Classify(key, value, strict)
      case Refused(reason) => Err(InvalidParam(key, reason))
      case Foreign => Ok(before.(ignored := before.ignored + {key}))
      case Assigns(to) => Ok(before.(raw := AssignAll(before.raw, to, key)))
  }

  function Values(raw: map<Param, Given>): map<Param, string> {
    map p | p in raw :: raw[p].value
  }

  // ---- 6-7. Coerce, validate ----

  function Get(values: map<Param, string>, p: Param): Option<string> {
    if p in values then Some(values[p]) else None
  }

  function Integer(p: Param, value: string, min: nat, max: nat): Result<nat, Failure> {
    if !IsNumeral(value, 1, 9) then Err(InvalidParam(Name(p), BadType))
    else if Value(value) < min || Value(value) > max then Err(InvalidParam(Name(p), OutOfRange))
    else Ok(Value(value))
  }

  function OptionalInteger(p: Param, raw: Option<string>, min: nat, max: nat): Result<Option<nat>, Failure> {
    if raw.None? then Ok(None)
    else
      var n :- Integer(p, raw.value, min, max);
      Ok(Some(n))
  }

  function CoerceRatio(raw: Option<string>): Result<Option<AspectRatio>, Failure> {
    if raw.None? then Ok(None)
    else
      var i := IndexOf(raw.value, ':');
      if i == |raw.value| || !IsNumeral(raw.value[..i], 1, 4) || !IsNumeral(raw.value[i + 1..], 1, 4) then
        Err(InvalidParam("ar", BadType))
      else
        var w := Value(raw.value[..i]);
        var h := Value(raw.value[i + 1..]);
        if w < 1 || h < 1 || w > AR_PART_MAX || h > AR_PART_MAX then Err(InvalidParam("ar", OutOfRange))
        else Ok(Some(Ratio(w, h)))
  }

  /** dpr in tenths. */
  function CoerceDpr(raw: Option<string>): Result<Option<nat>, Failure> {
    if raw.None? then Ok(None)
    else
      var s := raw.value;
      if !((|s| == 1 && IsDigit(s[0])) || (|s| == 3 && IsDigit(s[0]) && s[1] == '.' && IsDigit(s[2]))) then
        Err(InvalidParam("dpr", BadType))
      else
        var tenths := 10 * DigitValue(s[0]) + (if |s| == 3 then DigitValue(s[2]) else 0);
        if tenths < DPR_MIN_TENTHS || tenths > DPR_MAX_TENTHS then Err(InvalidParam("dpr", OutOfRange))
        else Ok(Some(tenths))
  }

  function CoerceFit(raw: Option<string>): Result<Option<FitMode>, Failure> {
    if raw.None? then Ok(None)
    else
      var fit := ParseFit(raw.value);
      if fit.None? then Err(InvalidParam("fit", NotAllowed)) else Ok(fit)
  }

  /** Coordinates are in ten-thousandths. */
  datatype Gravity = Named(keyword: Keyword) | Point(x: nat, y: nat) | Area(region: Region)

  datatype GravityRequest = Fixed(gravity: Gravity) | Deferred(mode: GravityMode)

  /** A number from 0 to 1 with at most four decimals. */
  predicate IsUnit(s: string) {
    && s != ""
    && (s[0] == '0' || s[0] == '1')
    && (|s| == 1 || (s[1] == '.' && IsNumeral(s[2..], 1, 4)))
    && (s[0] == '1' ==> forall i :: 2 <= i < |s| ==> s[i] == '0')
  }

  function UnitValue(s: string): nat
    requires IsUnit(s)
  {
    10000 * DigitValue(s[0]) + (if |s| == 1 then 0 else FractionValue(s[2..]))
  }

  predicate LooksNumeric(s: string) {
    s != "" && forall i :: 0 <= i < |s| ==> IsDigit(s[i]) || s[i] == '.' || s[i] == ','
  }

  function CoerceGravity(raw: Option<string>): Result<Option<GravityRequest>, Failure> {
    if raw.None? then Ok(None)
    else
      var s := raw.value;
      var i := IndexOf(s, ',');
      if i < |s| && IsUnit(s[..i]) && IsUnit(s[i + 1..]) then
        Ok(Some(Fixed(Point(UnitValue(s[..i]), UnitValue(s[i + 1..])))))
      else if s == "auto" then Ok(Some(Deferred(AutoGravity)))
      else if s == "face" || s == "faces" then Ok(Some(Deferred(FaceGravity)))
      else if ParseKeyword(s).Some? then Ok(Some(Fixed(Named(ParseKeyword(s).value))))
      else if LooksNumeric(s) then Err(InvalidParam("g", OutOfRange))
      else Err(InvalidParam("g", NotAllowed))
  }

  predicate AreNumerals(parts: seq<string>, min: nat, max: nat) {
    forall i :: 0 <= i < |parts| ==> IsNumeral(parts[i], min, max)
  }

  function CoerceRect(raw: Option<string>, source: SourceFacts): Result<Option<Crop>, Failure> {
    if raw.None? then Ok(None)
    else
      var m := Split(raw.value, ',');
      if |m| != 4 || !AreNumerals(m, 1, 5) then Err(InvalidParam("rect", BadType))
      else
        var r := Region(Value(m[0]), Value(m[1]), Value(m[2]), Value(m[3]));
        if r.w < 1 || r.h < 1 then Err(InvalidParam("rect", OutOfRange))
        else if r.x + r.w > source.width || r.y + r.h > source.height then
          Err(InvalidParam("rect", OutOfBounds))
        else Ok(Some(r))
  }

  /** None is f=auto. */
  function CoerceFormat(raw: Option<string>): Result<Option<Format>, Failure> {
    if raw.None? || raw.value == "auto" then Ok(None)
    else if ParseFormat(raw.value).None? then Err(InvalidParam("f", NotAllowed))
    else Ok(ParseFormat(raw.value))
  }

  /** None is q=auto. */
  function CoerceQuality(raw: Option<string>): Result<Option<nat>, Failure> {
    if raw.Some? && raw.value == "auto" then Ok(None) else OptionalInteger(Q, raw, 1, 100)
  }

  function CoerceBackground(host: Host, raw: Option<string>): Result<Option<string>, Failure> {
    if raw.None? then Ok(None)
    else if Lower(raw.value) in host.colours then Ok(Some(host.colours[Lower(raw.value)]))
    else if IsHexColour(raw.value) then Ok(Some(UpperHex(raw.value)))
    else Err(InvalidParam("bg", BadType))
  }

  function CoerceEffect(p: Param, raw: Option<string>): Result<nat, Failure> {
    if raw.None? then Ok(0) else Integer(p, raw.value, 0, EFFECT_MAX)
  }

  /** None is rot=auto. */
  function CoerceRotation(raw: Option<string>): Result<Option<nat>, Failure> {
    if raw.None? || raw.value == "auto" then Ok(None)
    else if raw.value == "0" then Ok(Some(0))
    else if raw.value == "90" then Ok(Some(90))
    else if raw.value == "180" then Ok(Some(180))
    else if raw.value == "270" then Ok(Some(270))
    else Err(InvalidParam("rot", NotAllowed))
  }

  function CoerceFlip(raw: Option<string>): Result<Option<FlipMode>, Failure> {
    if raw.None? then Ok(None)
    else
      var flip := ParseFlip(raw.value);
      if flip.None? then Err(InvalidParam("flip", NotAllowed)) else Ok(flip)
  }

  function CoerceDownload(raw: Option<string>): Result<Option<string>, Failure> {
    if raw.None? then Ok(None)
    else if |raw.value| < 1 || |raw.value| > DOWNLOAD_NAME_MAX then Err(InvalidParam("dl", OutOfRange))
    else if exists i :: 0 <= i < |raw.value| && (raw.value[i] as int <= 0x1f || raw.value[i] as int == 0x7f) then
      Err(InvalidParam("dl", NotAllowed))
    else Ok(raw)
  }

  datatype Request = Request(
    w: Option<nat>, h: Option<nat>, ar: Option<AspectRatio>, dpr: Option<nat>, fit: Option<FitMode>,
    g: Option<GravityRequest>, rect: Option<Crop>, format: Option<Format>, quality: Option<nat>,
    bg: Option<string>, blur: nat, sharpen: nat, rot: Option<nat>, flip: Option<FlipMode>,
    dl: Option<string>)

  function Coerce(host: Host, source: SourceFacts, v: map<Param, string>): Result<Request, Failure> {
    var w :- OptionalInteger(W, Get(v, W), 1, MAX_DIMENSION);
    var h :- OptionalInteger(H, Get(v, H), 1, MAX_DIMENSION);
    var ar :- CoerceRatio(Get(v, Ar));
    var dpr :- CoerceDpr(Get(v, Dpr));
    var fit :- CoerceFit(Get(v, Fit));
    var g :- CoerceGravity(Get(v, G));
    var rect :- CoerceRect(Get(v, Param.Rect), source);
    var format :- CoerceFormat(Get(v, F));
    var quality :- CoerceQuality(Get(v, Q));
    var bg :- CoerceBackground(host, Get(v, Bg));
    var blur :- CoerceEffect(Blur, Get(v, Blur));
    var sharpen :- CoerceEffect(Sharpen, Get(v, Sharpen));
    var rot :- CoerceRotation(Get(v, Rot));
    var flip :- CoerceFlip(Get(v, Flip));
    var dl :- CoerceDownload(Get(v, Dl));
    Ok(Request(w, h, ar, dpr, fit, g, rect, format, quality, bg, blur, sharpen, rot, flip, dl))
  }

  // ---- 8-12. Combine, resolve, default, snap, clamp-check ----

  function Combine(req: Request): Result<Box, Failure> {
    var box := Box(req.w, req.h);
    if req.ar.None? then Ok(box)
    else if box.w.Some? == box.h.Some? then Err(OverSpecified("ar"))
    else
      var derived := DeriveBox(box, req.ar.value.w, req.ar.value.h);
      if derived.w.value > MAX_DIMENSION || derived.h.value > MAX_DIMENSION then
        Err(InvalidParam("ar", OutOfRange))
      else Ok(derived)
  }

  /** Present exactly when the image is resized. */
  datatype Scale = Scale(fit: FitMode, dpr: nat, g: Option<Gravity>)

  datatype Resolved = Resolved(
    format: Format, quality: Option<nat>, scale: Option<Scale>, rot: nat, blur: nat, sharpen: nat,
    flip: Option<FlipMode>, rect: Option<Crop>, bg: Option<string>, box: Box)

  function Or<T>(given: Option<T>, otherwise: T): T {
    if given.Some? then given.value else otherwise
  }

  predicate UsesGravity(fit: FitMode) {
    fit == Cover || fit == Contain
  }

  function ResolveGravity(ctx: Context, g: Option<GravityRequest>, fit: FitMode): Result<Option<Gravity>, Failure> {
    if !UsesGravity(fit) then Ok(None)
    else if g.None? then Ok(Some(Named(Center)))
    else match g.value
      case Fixed(gravity) => Ok(Some(gravity))
      case Deferred(mode) =>
        if ctx.resolver.None? then Err(NeedsGravityResolver(mode))
        else Ok(Some(Area(ctx.resolver.value(mode))))
  }

  function ResolveScale(ctx: Context, req: Request, resizing: bool): Result<Option<Scale>, Failure> {
    if !resizing then Ok(None)
    else
      var fit := Or(req.fit, ScaleDown);
      var g :- ResolveGravity(ctx, req.g, fit);
      Ok(Some(Scale(fit, Or(req.dpr, 10), g)))
  }

  function ResolveQuality(format: Format, quality: Option<nat>): Option<nat> {
    if format == Png then None else Some(Or(quality, DefaultQuality(format)))
  }

  function ResolveBackground(bg: Option<string>, padding: bool, format: Format): Option<string> {
    if padding then Some(Or(bg, if format == Jpeg then "FFFFFF" else "00000000"))
    else if bg.Some? && format == Jpeg then Some(if |bg.value| <= 6 then bg.value else bg.value[..6])
    else None
  }

  function BaseOf(ctx: Context, rect: Option<Crop>): (base: (nat, nat))
    ensures base.0 > 0 && base.1 > 0
  {
    if rect.Some? then (rect.value.w, rect.value.h) else (ctx.source.width, ctx.source.height)
  }

  function Resolve(ctx: Context, req: Request): Result<Resolved, Failure> {
    var box :- Combine(req);
    var format := Or(req.format, ctx.bucket);
    var scale :- ResolveScale(ctx, req, box != Box(None, None));
    var padding := scale.Some? && scale.value.fit == Contain;
    var bg := ResolveBackground(req.bg, padding, format);
    var snapped := SnapBox(box, ctx.ladder);
    var base := BaseOf(ctx, req.rect);
    if !InBudget(snapped, base.0, base.1, Or(req.dpr, 10)) then
      Err(InvalidParam(if snapped.w.Some? then "w" else "h", BudgetExceeded))
    else
      Ok(Resolved(format, ResolveQuality(format, req.quality), scale, Or(req.rot, ctx.source.orientation),
                  req.blur, req.sharpen, req.flip, req.rect, bg, snapped))
  }

  /** Parameters reported as ignored when they were given. */
  function Dropped(req: Request, res: Resolved): set<Param> {
    (if res.scale.None? then {Dpr, Fit, G} else {})
    + (if res.format == Png then {Q} else {})
    + (if res.scale.Some? && !UsesGravity(res.scale.value.fit) then {G} else {})
    + (if req.rot == Some(0) then {Rot} else {})
    + (if req.blur == 0 then {Blur} else {})
    + (if req.sharpen == 0 then {Sharpen} else {})
    + (if res.bg.None? then {Bg} else {})
  }

  // ---- 13-14. Order, serialise ----

  function PrintRegion(r: Region): string {
    Join([Numeral(r.x), Numeral(r.y), Numeral(r.w), Numeral(r.h)], ',')
  }

  function PrintGravity(g: Gravity): string {
    match g
    case Named(keyword) => PrintKeyword(keyword)
    case Point(x, y) => Decimal(x) + "," + Decimal(y)
    case Area(region) => "r:" + PrintRegion(region)
  }

  function PrintPositive(n: nat): Option<string> {
    if n == 0 then None else Some(Numeral(n))
  }

  function PrintOptional(n: Option<nat>): Option<string> {
    if n.None? then None else Some(Numeral(n.value))
  }

  /** The value a resolved transformation gives a canonical parameter. */
  function Field(res: Resolved, p: Param): Option<string> {
    match p
    case F => Some(PrintFormat(res.format))
    case Q => PrintOptional(res.quality)
    case Fit => if res.scale.None? then None else Some(PrintFit(res.scale.value.fit))
    case Dpr => if res.scale.None? then None else Some(Decimal(1000 * res.scale.value.dpr))
    case G =>
      if res.scale.None? || res.scale.value.g.None? then None else Some(PrintGravity(res.scale.value.g.value))
    case Rot => PrintPositive(res.rot)
    case Blur => PrintPositive(res.blur)
    case Sharpen => PrintPositive(res.sharpen)
    case Flip => if res.flip.None? then None else Some(PrintFlip(res.flip.value))
    case Rect => if res.rect.None? then None else Some(PrintRegion(res.rect.value))
    case Bg => res.bg
    case W => PrintOptional(res.box.w)
    case H => PrintOptional(res.box.h)
    case _ => None
  }

  function Params(res: Resolved): (m: map<Param, string>)
    ensures forall p :: Get(m, p) == Field(res, p)
  {
    map p | Field(res, p).Some? :: Field(res, p).value
  }

  /** The parameters in the ASCII order of their names. */
  const ASCII_ORDER: seq<Param> :=
    [Ar, Bg, Blur, Dl, Dpr, Exp, F, Fit, Flip, G, H, Q, Param.Rect, Rot, Sharpen, Sig, W]

  /** The `k=v` entries of the parameters of `order` that m has. */
  function Entries(m: map<Param, string>, order: seq<Param>): seq<string> {
    if order == [] then []
    else
      var p := order[|order| - 1];
      Entries(m, order[..|order| - 1]) + (if p in m then [Name(p) + "=" + m[p]] else [])
  }

  function Serialize(m: map<Param, string>): string {
    Join(Entries(m, ASCII_ORDER), '&')
  }

  const HASH_PREFIX := "idp1|q1.l1.e1.f1|"

  function ParamsHash(host: Host, canonical: string): string {
    host.digest(HASH_PREFIX + canonical)
  }

  // ---- The whole algorithm ----

  datatype Canonical = Canonical(
    params: map<Param, string>, canonical: string, paramsHash: string, format: Format,
    ignored: set<string>, download: Option<string>, exp: Option<string>, sig: Option<string>)

  /** The names under which parameters of `ps` were given. */
  function GivenAs(raw: map<Param, Given>, ps: set<Param>): set<string> {
    set p | p in ps && p in raw :: raw[p].from
  }

  function Finish(host: Host, ctx: Context, admission: Admission): Result<Canonical, Failure> {
    var v := Values(admission.raw);
    var req :- Coerce(host, ctx.source, v);
    var res :- Resolve(ctx, req);
    var canonical := Serialize(Params(res));
    Ok(Canonical(Params(res), canonical, ParamsHash(host, canonical), res.format,
                 admission.ignored + GivenAs(admission.raw, Dropped(req, res)), req.dl, Get(v, Exp), Get(v, Sig)))
  }

  function CanonicalForm(host: Host, query: string, ctx: Context): Result<Canonical, Failure> {
    var pairs :- Pairs(host, Split(StripQuestion(query), '&'));
    var admission :- Admit(pairs, ctx.strict);
    Finish(host, ctx, admission)
  }

  /** The parsing pass, part by part. */
  method ParsePairs(host: Host, parts: seq<string>) returns (r: Result<seq<QueryPair>, Failure>)
    ensures r == Pairs(host, parts)
  {
    var pairs: seq<QueryPair> := [];
    for i := 0 to |parts|
      invariant Pairs(host, parts[..i]) == Ok(pairs)
    {
      assert parts[..i + 1][..i] == parts[..i];
      match ReadPart(host, parts[i])
      case Skipped =>
      case Malformed(field) =>
        PairsStopAtFirst(host, parts, i + 1);
        return Err(InvalidParam(field, BadType));
      case Pair(key, value) =>
        pairs := pairs + [(key, value)];
    }
    assert parts[..|parts|] == parts;
    r := Ok(pairs);
  }

  /** The partitioning pass, pair by pair. */
  method Partition(pairs: seq<QueryPair>, strict: bool) returns (r: Result<Admission, Failure>)
    ensures r == Admit(pairs, strict)
  {
    var raw: map<Param, Given> := map[];
    var ignored: set<string> := {};
    for i := 0 to |pairs|
      invariant Admit(pairs[..i], strict) == Ok(Admission(raw, ignored))
    {
      assert pairs[..i + 1][..i] == pairs[..i];
      var (key, value) := pairs[i];
      match Classify(key, value, strict)
      case Refused(reason) =>
        AdmitStopsAtFirst(pairs, strict, i + 1);
        return Err(InvalidParam(key, reason));
      case Foreign =>
        ignored := ignored + {key};
      case Assigns(to) =>
        raw := AssignAll(raw, to, key);
    }
    assert pairs[..|pairs|] == pairs;
    r := Ok(Admission(raw, ignored));
  }

  method Canonicalize(host: Host, query: string, ctx: Context) returns (r: Result<Canonical, Failure>)
    ensures r == CanonicalForm(host, query, ctx)
  {
    var pairs :- ParsePairs(host, Split(StripQuestion(query), '&'));
    var admission :- Partition(pairs, ctx.strict);
    r := Finish(host, ctx, admission);
  }

  lemma {:induction false} PairsStopAtFirst(host: Host, parts: seq<string>, n: nat)
    requires n <= |parts| && Pairs(host, parts[..n]).Err?
    ensures Pairs(host, parts) == Pairs(host, parts[..n])
    decreases |parts|
  {
    if n < |parts| {
      var init := parts[..|parts| - 1];
      assert init[..n] == parts[..n];
      PairsStopAtFirst(host, init, n);
    } else {
      assert parts[..n] == parts;
    }
  }

  lemma {:induction false} AdmitStopsAtFirst(pairs: seq<QueryPair>, strict: bool, n: nat)
    requires n <= |pairs| && Admit(pairs[..n], strict).Err?
    ensures Admit(pairs, strict) == Admit(pairs[..n], strict)
    decreases |pairs|
  {
    if n < |pairs| {
      var init := pairs[..|pairs| - 1];
      assert init[..n] == pairs[..n];
      AdmitStopsAtFirst(init, strict, n);
    } else {
      assert pairs[..n] == pairs;
    }
  }
}
