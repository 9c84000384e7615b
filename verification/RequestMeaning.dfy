// What a query means: each parameter of the canonical form in terms of the
// texts the query gave and the context, and when a query is refused, for what.
module RequestMeaning {
  import opened Wrappers
  import opened Strings
  import opened Numerals
  import opened Vocabulary
  import opened Dimensions
  import opened Canonicalizer
  import opened RoundTrips
  import opened Projection
  import opened Equivalence
  import EditDistance

  // ---- Numbers ----

  /** Appending a digit shifts the number by a decimal place. */
  lemma ValueMeans(s: string, c: char)
    requires IsNumeral(s, 0, |s|) && '0' <= c <= '9'
    ensures Value("") == 0 && Value(s + [c]) == 10 * Value(s) + (c as int - '0' as int)
  {
    assert (s + [c])[..|s|] == s;
  }

  lemma IntegerExactly(p: Param, s: string, min: nat, max: nat)
    ensures forall n :: Integer(p, s, min, max) == Ok(n) <==> IsNumeral(s, 1, 9) && Value(s) == n && min <= n <= max
    ensures Integer(p, s, min, max) == Err(InvalidParam(Name(p), BadType)) <==> !IsNumeral(s, 1, 9)
    ensures Integer(p, s, min, max) == Err(InvalidParam(Name(p), OutOfRange)) <==>
            IsNumeral(s, 1, 9) && !(min <= Value(s) <= max)
  {
  }

  /** The text of a ratio: width part, colon, height part. */
  predicate IsRatioText(s: string, w: string, h: string) {
    s == w + ":" + h && IsNumeral(w, 1, 4) && IsNumeral(h, 1, 4)
  }

  lemma RatioSplits(s: string, w: string, h: string)
    requires IsRatioText(s, w, h)
    ensures var i := IndexOf(s, ':');
      i < |s| && s[..i] == w && s[i + 1..] == h
  {
    IndexOfFirst(w, ':', h);
  }

  lemma RatioExactly(s: string)
    ensures forall r :: CoerceRatio(Some(s)) == Ok(r) <==>
      r.Some? && 1 <= r.value.w <= 1000 && 1 <= r.value.h <= 1000
      && exists w, h :: IsRatioText(s, w, h) && Value(w) == r.value.w && Value(h) == r.value.h
    ensures CoerceRatio(Some(s)) == Err(InvalidParam("ar", BadType)) <==> !exists w, h :: IsRatioText(s, w, h)
    ensures CoerceRatio(Some(s)).Err? ==>
      CoerceRatio(Some(s)).error in {InvalidParam("ar", BadType), InvalidParam("ar", OutOfRange)}
  {
    var i := IndexOf(s, ':');
    if i < |s| && IsNumeral(s[..i], 1, 4) && IsNumeral(s[i + 1..], 1, 4) {
      assert s == s[..i] + ":" + s[i + 1..];
      assert IsRatioText(s, s[..i], s[i + 1..]);
    }
    forall w, h | IsRatioText(s, w, h) ensures i < |s| && s[..i] == w && s[i + 1..] == h {
      RatioSplits(s, w, h);
    }
  }

  /** The text of a dpr, in tenths. */
  predicate IsDprText(s: string, tenths: nat) {
    || (|s| == 1 && IsDigit(s[0]) && tenths == 10 * DigitValue(s[0]))
    || (|s| == 3 && IsDigit(s[0]) && s[1] == '.' && IsDigit(s[2]) && tenths == 10 * DigitValue(s[0]) + DigitValue(s[2]))
  }

  lemma DprExactly(s: string)
    ensures forall d :: CoerceDpr(Some(s)) == Ok(d) <==> d.Some? && 5 <= d.value <= 30 && IsDprText(s, d.value)
    ensures CoerceDpr(Some(s)) == Err(InvalidParam("dpr", BadType)) <==> !exists tenths :: IsDprText(s, tenths)
    ensures CoerceDpr(Some(s)).Err? ==>
      CoerceDpr(Some(s)).error in {InvalidParam("dpr", BadType), InvalidParam("dpr", OutOfRange)}
  {
    if |s| == 1 && IsDigit(s[0]) { assert IsDprText(s, 10 * DigitValue(s[0])); }
    if |s| == 3 && IsDigit(s[0]) && s[1] == '.' && IsDigit(s[2]) {
      assert IsDprText(s, 10 * DigitValue(s[0]) + DigitValue(s[2]));
    }
  }

  /** In ten-thousandths: the digits before the point, then up to four after it. */
  lemma UnitValueMeans(s: string)
    requires IsUnit(s)
    ensures |s| == 1 ==> UnitValue(s) == 10000 * Value(s)
    ensures |s| > 1 ==> UnitValue(s) * Power10(|s| - 2) == 10000 * Value(s[..1] + s[2..])
  {
    ValueMeans("", s[0]);
    assert "" + [s[0]] == s[..1];
    if |s| == 1 {
      assert s == s[..1];
    } else {
      FractionMeans(s[..1], s[2..]);
    }
  }

  lemma {:induction false} ValueConcat(s: string, t: string)
    requires IsNumeral(s, 0, |s|) && IsNumeral(t, 0, |t|)
    ensures Value(s + t) == Value(s) * Power10(|t|) + Value(t)
    decreases |t|
  {
    if t == "" {
      assert s + t == s;
    } else {
      var init := t[..|t| - 1];
      ValueConcat(s, init);
      assert (s + t)[..|s + t| - 1] == s + init;
      assert Value(s) * Power10(|t|) == 10 * (Value(s) * Power10(|init|));
    }
  }

  lemma FractionScales(f: string)
    requires IsNumeral(f, 1, 4)
    ensures FractionValue(f) * Power10(|f|) == 10000 * Value(f)
  {
    assert Power10(1) == 10 && Power10(2) == 100 && Power10(3) == 1000 && Power10(4) == 10000;
    ValueMeans("", f[0]);
    assert "" + [f[0]] == f[..1];
    if |f| > 1 {
      ValueMeans(f[..1], f[1]);
      assert f[..1] + [f[1]] == f[..2];
    }
    if |f| > 2 {
      ValueMeans(f[..2], f[2]);
      assert f[..2] + [f[2]] == f[..3];
    }
    if |f| > 3 {
      ValueMeans(f[..3], f[3]);
      assert f[..3] + [f[3]] == f[..4];
    }
    assert f[..|f|] == f;
  }

  lemma FractionMeans(whole: string, f: string)
    requires IsNumeral(whole, 1, 1) && IsNumeral(f, 1, 4)
    ensures (10000 * Value(whole) + FractionValue(f)) * Power10(|f|) == 10000 * Value(whole + f)
  {
    ValueConcat(whole, f);
    FractionScales(f);
    Scaled(Value(whole), FractionValue(f), Value(f), Power10(|f|));
  }

  lemma Scaled(whole: nat, fraction: nat, digits: nat, power: nat)
    requires fraction * power == 10000 * digits
    ensures (10000 * whole + fraction) * power == 10000 * (whole * power + digits)
  {
    assert (10000 * whole + fraction) * power == 10000 * whole * power + fraction * power;
    assert 10000 * whole * power == 10000 * (whole * power);
  }

  // ---- Gravity, crop and colour ----

  predicate IsPointText(s: string, x: string, y: string) {
    s == x + "," + y && IsUnit(x) && IsUnit(y)
  }

  lemma UnitHasNoComma(s: string)
    requires IsUnit(s)
    ensures ',' !in s
  {
    if |s| > 1 { assert forall i :: 2 <= i < |s| ==> IsDigit(s[2..][i - 2]) && s[i] == s[2..][i - 2]; }
  }

  lemma PointSplits(s: string, x: string, y: string)
    requires IsPointText(s, x, y)
    ensures var i := IndexOf(s, ',');
      i < |s| && s[..i] == x && s[i + 1..] == y
  {
    UnitHasNoComma(x);
    IndexOfFirst(x, ',', y);
  }

  lemma PointTextReads(s: string, x: string, y: string)
    requires IsPointText(s, x, y)
    ensures CoerceGravity(Some(s)) == Ok(Some(Fixed(Point(UnitValue(x), UnitValue(y)))))
    ensures s[0] == '0' || s[0] == '1'
  {
    PointSplits(s, x, y);
  }

  /** Text that is no point: a word for the resolver, a keyword, or refused -- as out of range when it is digits. */
  lemma WordReads(s: string)
    requires forall x, y :: !IsPointText(s, x, y)
    ensures CoerceGravity(Some(s)) ==
      if s == "auto" then Ok(Some(Deferred(AutoGravity)))
      else if s in {"face", "faces"} then Ok(Some(Deferred(FaceGravity)))
      else if ParseKeyword(s).Some? then Ok(Some(Fixed(Named(ParseKeyword(s).value))))
      else Err(InvalidParam("g",
        if s != "" && forall i :: 0 <= i < |s| ==> IsDigit(s[i]) || s[i] == '.' || s[i] == ',' then OutOfRange else NotAllowed))
  {
    var i := IndexOf(s, ',');
    if i < |s| {
      assert s == s[..i] + "," + s[i + 1..];
      assert !IsPointText(s, s[..i], s[i + 1..]);
    }
  }

  lemma KeywordsAreWords(k: Keyword)
    ensures var s := PrintKeyword(k);
      s != "" && s[0] != '0' && s[0] != '1' && s !in {"auto", "face", "faces"} && ParseKeyword(s) == Some(k)
  {
    KeywordRoundTrip(k);
  }

  /** A gravity text is a point, a request to the resolver, or a keyword, and nothing else is accepted. */
  lemma GravityExactly(s: string, k: Keyword)
    ensures CoerceGravity(Some(s)) == Ok(Some(Deferred(AutoGravity))) <==> s == "auto"
    ensures CoerceGravity(Some(s)) == Ok(Some(Deferred(FaceGravity))) <==> s in {"face", "faces"}
    ensures CoerceGravity(Some(s)) == Ok(Some(Fixed(Named(k)))) <==> s == PrintKeyword(k)
    ensures CoerceGravity(Some(s)).Ok? <==>
      (exists x, y :: IsPointText(s, x, y)) || s in {"auto", "face", "faces"} || (exists k :: s == PrintKeyword(k))
  {
    KeywordsAreWords(k);
    ReadsOnlyPrinted(s);
    if x, y :| IsPointText(s, x, y) {
      PointTextReads(s, x, y);
      forall k' ensures s != PrintKeyword(k') { KeywordsAreWords(k'); }
    } else {
      WordReads(s);
      forall k' | s == PrintKeyword(k') ensures ParseKeyword(s) == Some(k') { KeywordsAreWords(k'); }
    }
  }

  /** The text of a crop: left, top, width, height. */
  predicate IsRectText(s: string, x: string, y: string, w: string, h: string) {
    s == x + "," + y + "," + w + "," + h && IsNumeral(x, 1, 5) && IsNumeral(y, 1, 5) && IsNumeral(w, 1, 5) && IsNumeral(h, 1, 5)
  }

  lemma JoinFour(x: string, y: string, w: string, h: string)
    ensures Join([x, y, w, h], ',') == x + "," + y + "," + w + "," + h
  {
    JoinConcat([x, y, w], [h], ',');
    JoinConcat([x, y], [w], ',');
    JoinConcat([x], [y], ',');
    assert [x] + [y] == [x, y] && [x, y] + [w] == [x, y, w] && [x, y, w] + [h] == [x, y, w, h];
  }

  lemma RectSplits(s: string, x: string, y: string, w: string, h: string)
    requires IsRectText(s, x, y, w, h)
    ensures Split(s, ',') == [x, y, w, h]
  {
    JoinFour(x, y, w, h);
    SplitJoin([x, y, w, h], ',');
  }

  /** A crop is four numbers; it is accepted when it is not empty and inside the source. */
  lemma RectTextReads(s: string, x: string, y: string, w: string, h: string, source: SourceFacts)
    requires IsRectText(s, x, y, w, h)
    ensures CoerceRect(Some(s), source) ==
      if Value(w) == 0 || Value(h) == 0 then Err(InvalidParam("rect", OutOfRange))
      else if Value(x) + Value(w) > source.width || Value(y) + Value(h) > source.height then
        Err(InvalidParam("rect", OutOfBounds))
      else Ok(Some(Region(Value(x), Value(y), Value(w), Value(h))))
  {
    RectSplits(s, x, y, w, h);
  }

  lemma OnlyRectsRead(s: string, source: SourceFacts)
    ensures CoerceRect(Some(s), source) == Err(InvalidParam("rect", BadType)) <==> !exists x, y, w, h :: IsRectText(s, x, y, w, h)
  {
    var m := Split(s, ',');
    if |m| == 4 && AreNumerals(m, 1, 5) {
      JoinSplit(s, ',');
      JoinFour(m[0], m[1], m[2], m[3]);
      assert m == [m[0], m[1], m[2], m[3]];
      assert IsRectText(s, m[0], m[1], m[2], m[3]);
    }
    if x, y, w, h :| IsRectText(s, x, y, w, h) { RectTextReads(s, x, y, w, h, source); }
  }

  /** The same colour in upper case. */
  predicate IsUpperOf(s: string, u: string) {
    IsUpperHex(u) && Canonicalizer.Lower(u) == Canonicalizer.Lower(s)
  }

  lemma UpperHexMeans(s: string)
    requires IsHexColour(s)
    ensures IsUpperOf(s, UpperHex(s))
  {
    forall i | 0 <= i < |s| ensures LowerChar(UpperHex(s)[i]) == LowerChar(s[i]) {
    }
  }

  lemma UpperOfIsUnique(s: string, u: string, w: string)
    requires IsUpperOf(s, u) && IsUpperOf(s, w)
    ensures u == w
  {
    assert |Canonicalizer.Lower(u)| == |u| && |Canonicalizer.Lower(w)| == |w|;
    forall i | 0 <= i < |u| ensures u[i] == w[i] {
      assert Canonicalizer.Lower(u)[i] == LowerChar(u[i]) && Canonicalizer.Lower(w)[i] == LowerChar(w[i]);
    }
  }

  /** A colour is a name of the table, in any case, or six or eight hex digits; it is kept in upper case. */
  predicate IsColour(host: Host, s: string, u: string) {
    if Canonicalizer.Lower(s) in host.colours then u == host.colours[Canonicalizer.Lower(s)]
    else IsHexColour(s) && IsUpperOf(s, u)
  }

  lemma ColourExactly(host: Host, s: string)
    ensures forall u :: CoerceBackground(host, Some(s)) == Ok(u) <==> u.Some? && IsColour(host, s, u.value)
    ensures CoerceBackground(host, Some(s)).Err? ==> CoerceBackground(host, Some(s)).error == InvalidParam("bg", BadType)
  {
    if Canonicalizer.Lower(s) !in host.colours && IsHexColour(s) {
      UpperHexMeans(s);
      forall u | IsUpperOf(s, u) ensures u == UpperHex(s) { UpperOfIsUnique(s, u, UpperHex(s)); }
    }
  }

  /** The closed vocabularies: what is accepted, and what for. */
  lemma WordsExactly(s: string)
    ensures CoerceFormat(Some(s)) ==
      if s == "auto" then Ok(None) else if ParseFormat(s).Some? then Ok(ParseFormat(s)) else Err(InvalidParam("f", NotAllowed))
    ensures ParseFormat(s).Some? <==> s in {"avif", "webp", "jpeg", "png"}
    ensures CoerceQuality(Some(s)) == Ok(None) <==> s == "auto"
    ensures CoerceRotation(Some(s)).Ok? <==> s in {"0", "90", "180", "270", "auto"}
    ensures CoerceRotation(Some(s)).Err? ==> CoerceRotation(Some(s)).error == InvalidParam("rot", NotAllowed)
    ensures CoerceRotation(Some(s)) == Ok(None) <==> s == "auto"
    ensures CoerceFlip(Some(s)).Ok? <==> s in {"h", "v", "hv"}
    ensures CoerceFlip(Some(s)).Err? ==> CoerceFlip(Some(s)).error == InvalidParam("flip", NotAllowed)
    ensures CoerceFit(Some(s)).Err? <==> ParseFit(s).None?
    ensures CoerceFit(Some(s)).Err? ==> CoerceFit(Some(s)).error == InvalidParam("fit", NotAllowed)
    ensures CoerceFit(Some(s)).Ok? ==> CoerceFit(Some(s)).value == ParseFit(s)
  {
    ReadsOnlyPrinted(s);
  }

  lemma RotationReadsItsNumeral(s: string)
    requires CoerceRotation(Some(s)).Ok? && CoerceRotation(Some(s)).value.Some?
    ensures s == Numeral(CoerceRotation(Some(s)).value.value)
  {
    assert Numeral(9) == "9" && Numeral(1) == "1" && Numeral(2) == "2";
    assert Numeral(18) == "18" && Numeral(27) == "27";
  }

  /** A download name has 1 to 255 characters, none of them a control character. */
  lemma DownloadExactly(s: string)
    ensures CoerceDownload(Some(s)) ==
      if s == "" || |s| > 255 then Err(InvalidParam("dl", OutOfRange))
      else if exists i :: 0 <= i < |s| && (s[i] < ' ' || s[i] == '\U{007F}') then Err(InvalidParam("dl", NotAllowed))
      else Ok(Some(s))
  {
  }

  // ---- The sides ----

  function NumberIn(v: map<Param, string>, p: Param): Option<nat> {
    if p in v && IsNumeral(v[p], 1, 9) then Some(Value(v[p])) else None
  }

  ghost predicate IsRatio(s: string, aw: nat, ah: nat) {
    exists w, h :: IsRatioText(s, w, h) && Value(w) == aw && Value(h) == ah
  }

  /** The side at ratio num to den of a given one, to the nearest pixel or one pixel. */
  predicate IsSideAt(side: nat, given: nat, num: nat, den: nat) {
    IsDerived(side, given * num, den)
  }

  /** The sides asked for: as given, or one given and the other in the ratio, width to height. */
  ghost predicate AskedSides(v: map<Param, string>, w: Option<nat>, h: Option<nat>) {
    if Ar !in v then w == NumberIn(v, W) && h == NumberIn(v, H)
    else
      && (W in v <==> H !in v) && w.Some? && h.Some? && w.value <= MAX_DIMENSION && h.value <= MAX_DIMENSION
      && (if W in v then w == NumberIn(v, W) else h == NumberIn(v, H))
      && exists aw, ah :: IsRatio(v[Ar], aw, ah) && InRatio(W in v, w.value, h.value, aw, ah)
  }

  /** One side is at the ratio to the other, which was given. */
  predicate InRatio(widthGiven: bool, w: nat, h: nat, aw: nat, ah: nat) {
    aw > 0 && ah > 0 && if widthGiven then IsSideAt(h, w, ah, aw) else IsSideAt(w, h, aw, ah)
  }

  /** With the ladder, the least rung that fits; above the top rung, or without it, the side itself. */
  predicate SnapsTo(ladder: bool, n: nat, k: nat) {
    if ladder && n <= 3840 then k in LADDER && n <= k && forall rung :: rung in LADDER && n <= rung ==> k <= rung
    else k == n
  }

  ghost predicate ShowsSide(text: Option<string>, side: Option<nat>, ladder: bool) {
    if side.None? then text == None else exists k :: SnapsTo(ladder, side.value, k) && text == Some(Numeral(k))
  }

  ghost predicate SidesFollow(v: map<Param, string>, ladder: bool, m: map<Param, string>) {
    exists w, h :: AskedSides(v, w, h) && ShowsSide(Get(m, W), w, ladder) && ShowsSide(Get(m, H), h, ladder)
  }

  lemma OneSideReads(p: Param, v: map<Param, string>, side: Option<nat>)
    requires OptionalInteger(p, Get(v, p), 1, MAX_DIMENSION) == Ok(side)
    ensures side == NumberIn(v, p) && (side.Some? <==> p in v)
  {
  }

  lemma SideShows(side: Option<nat>, ladder: bool)
    ensures ShowsSide(PrintOptional(SnapSide(side, ladder)), side, ladder)
  {
    if side.Some? {
      SnapLeast(side.value);
      var k := SnapSide(side, ladder).value;
      assert SnapsTo(ladder, side.value, k);
    }
  }

  lemma CombinedAsAsked(v: map<Param, string>, req: Request)
    requires SidesCoerce(v, req) && Combine(req).Ok?
    ensures AskedSides(v, Combine(req).value.w, Combine(req).value.h)
  {
    OneSideReads(W, v, req.w);
    OneSideReads(H, v, req.h);
    if Ar in v {
      RatioExactly(v[Ar]);
      var aw, ah := req.ar.value.w, req.ar.value.h;
      DerivedBoxHasRatio(Box(req.w, req.h), aw, ah);
      var box := Combine(req).value;
      assert IsRatio(v[Ar], aw, ah) && InRatio(W in v, box.w.value, box.h.value, aw, ah);
    }
  }

  lemma SidesMean(ctx: Context, v: map<Param, string>, req: Request, res: Resolved)
    requires SidesCoerce(v, req) && Resolve(ctx, req) == Ok(res)
    ensures SidesFollow(v, ctx.ladder, Params(res))
  {
    CombinedAsAsked(v, req);
    var box := Combine(req).value;
    assert res.box == SnapBox(box, ctx.ladder);
    SideShows(box.w, ctx.ladder);
    SideShows(box.h, ctx.ladder);
    assert Get(Params(res), W) == Field(res, W) && Get(Params(res), H) == Field(res, H);
  }

  // ---- Format and quality ----

  predicate OutputFollows(v: map<Param, string>, bucket: Bucket, m: map<Param, string>) {
    && Get(m, F) == Some(if F in v && v[F] != "auto" then v[F] else PrintFormat(bucket))
    && Get(m, Q) ==
       if m[F] == "png" then None
       else if Q in v && v[Q] != "auto" then
         if IsNumeral(v[Q], 1, 9) then Some(Numeral(Value(v[Q]))) else None
       else Some(if m[F] == "avif" then "50" else if m[F] == "webp" then "75" else "80")
  }

  lemma DefaultQualityTexts(f: Bucket)
    ensures Numeral(DefaultQuality(f)) == match f case Avif => "50" case Webp => "75" case Jpeg => "80"
  {
    assert Numeral(5) == "5" && Numeral(7) == "7" && Numeral(8) == "8";
  }

  lemma OutputMeans(host: Host, ctx: Context, v: map<Param, string>, req: Request, res: Resolved)
    requires OutputCoerces(host, ctx.source, v, req) && Resolve(ctx, req) == Ok(res)
    ensures OutputFollows(v, ctx.bucket, Params(res))
  {
    var m := Params(res);
    assert Get(m, F) == Some(PrintFormat(res.format)) && Get(m, Q) == PrintOptional(res.quality);
    if F in v { ReadsOnlyPrinted(v[F]); }
    QualityText(res.format, req.quality);
    assert Q in v && v[Q] != "auto" ==> req.quality == NumberIn(v, Q) && req.quality.Some?;
  }

  lemma QualityText(format: Format, quality: Option<nat>)
    ensures PrintOptional(ResolveQuality(format, quality)) ==
      if PrintFormat(format) == "png" then None
      else if quality.Some? then Some(Numeral(quality.value))
      else Some(if PrintFormat(format) == "avif" then "50" else if PrintFormat(format) == "webp" then "75" else "80")
  {
    if format != Png { DefaultQualityTexts(format); }
  }

  // ---- Fit, dpr and gravity ----

  predicate Resizes(v: map<Param, string>) {
    W in v || H in v
  }

  predicate FitStandsFor(s: string, fit: string) {
    if s == "max" then fit == "scale-down" else if s == "crop" then fit == "cover" else if s == "pad" then fit == "contain"
    else if s == "squeeze" || s == "scale" then fit == "fill" else if s == "clip" then fit == "inside"
    else if s == "min" then fit == "outside" else fit == s
  }

  predicate FitFollows(v: map<Param, string>, m: map<Param, string>) {
    && (Fit in m <==> Resizes(v))
    && (Fit in m ==> if Fit in v then FitStandsFor(v[Fit], m[Fit]) else m[Fit] == "scale-down")
  }

  /** A dpr is shown as it was written, less a final zero after the point. */
  predicate DprFollows(v: map<Param, string>, m: map<Param, string>) {
    && (Dpr in m <==> Resizes(v))
    && (Dpr in m ==>
          m[Dpr] ==
            if Dpr !in v then "1"
            else if |v[Dpr]| == 3 && v[Dpr][2] == '0' then v[Dpr][..1] else v[Dpr])
  }

  lemma DigitText(c: char)
    requires IsDigit(c)
    ensures Digit(DigitValue(c)) == c
  {
  }

  lemma WholeTenths(d: nat)
    requires d < 10
    ensures Decimal(10000 * d) == [Digit(d)]
  {
    assert (10000 * d) % 10000 == 0 && (10000 * d) / 10000 == d;
    assert Numeral(d) == [Digit(d)];
  }

  lemma PartTenths(d: nat, t: nat)
    requires d < 10 && 0 < t < 10
    ensures Decimal(10000 * d + 1000 * t) == [Digit(d)] + "." + [Digit(t)]
  {
    TenthsFraction(t);
    assert (10000 * d + 1000 * t) % 10000 == 1000 * t && (10000 * d + 1000 * t) / 10000 == d;
  }

  lemma DprText(s: string, tenths: nat)
    requires IsDprText(s, tenths)
    ensures Decimal(1000 * tenths) == if |s| == 3 && s[2] == '0' then s[..1] else s
  {
    var d := DigitValue(s[0]);
    DigitText(s[0]);
    if |s| == 3 && s[2] != '0' {
      DigitText(s[2]);
      PartTenths(d, DigitValue(s[2]));
      assert s == [s[0]] + "." + [s[2]];
    } else {
      WholeTenths(d);
      assert s[..1] == [s[0]] && 1000 * tenths == 10000 * d;
    }
  }

  lemma FitMeansText(s: string)
    requires ParseFit(s).Some?
    ensures FitStandsFor(s, PrintFit(ParseFit(s).value))
  {
  }

  lemma ScalePresent(ctx: Context, v: map<Param, string>, req: Request, res: Resolved)
    requires SidesCoerce(v, req) && Resolve(ctx, req) == Ok(res)
    ensures res.scale.Some? <==> Resizes(v)
    ensures res.scale.Some? ==> res.scale.value.fit == Or(req.fit, ScaleDown) && res.scale.value.dpr == Or(req.dpr, 10)
  {
    OneSideReads(W, v, req.w);
    OneSideReads(H, v, req.h);
  }

  lemma FitAndDprMean(ctx: Context, v: map<Param, string>, req: Request, res: Resolved)
    requires SidesCoerce(v, req) && ScaleCoerces(v, req) && Resolve(ctx, req) == Ok(res)
    ensures FitFollows(v, Params(res)) && DprFollows(v, Params(res))
  {
    var m := Params(res);
    assert Get(m, Fit) == Field(res, Fit) && Get(m, Dpr) == Field(res, Dpr);
    ScalePresent(ctx, v, req, res);
    if Fit in v { FitMeansText(v[Fit]); }
    if Dpr in v {
      DprExactly(v[Dpr]);
      DprText(v[Dpr], req.dpr.value);
    } else {
      DprText("1", 10);
    }
  }

  /** What a gravity text shows as: a point by its numbers, a keyword as it is, and for the resolver the rectangle it gave. */
  ghost predicate GravityStandsFor(ctx: Context, s: string, shown: string) {
    if s == "auto" then ctx.resolver.Some? && ShowsRegion(ctx.resolver.value(AutoGravity), shown)
    else if s == "face" || s == "faces" then ctx.resolver.Some? && ShowsRegion(ctx.resolver.value(FaceGravity), shown)
    else
      || (shown == s && exists k :: s == PrintKeyword(k))
      || exists x, y :: IsPointText(s, x, y) && shown == Decimal(UnitValue(x)) + "," + Decimal(UnitValue(y))
  }

  predicate ShowsRegion(r: Region, shown: string) {
    shown == "r:" + Numeral(r.x) + "," + Numeral(r.y) + "," + Numeral(r.w) + "," + Numeral(r.h)
  }

  lemma RegionText(r: Region)
    ensures ShowsRegion(r, PrintGravity(Area(r)))
  {
    JoinFour(Numeral(r.x), Numeral(r.y), Numeral(r.w), Numeral(r.h));
    var rest := "," + Numeral(r.y) + "," + Numeral(r.w) + "," + Numeral(r.h);
    assert PrintRegion(r) == Numeral(r.x) + rest;
    assert "r:" + (Numeral(r.x) + rest) == "r:" + Numeral(r.x) + "," + Numeral(r.y) + "," + Numeral(r.w) + "," + Numeral(r.h);
  }

  ghost predicate GravityFollows(ctx: Context, v: map<Param, string>, m: map<Param, string>) {
    && (G in m <==> Fit in m && m[Fit] in {"cover", "contain"})
    && (G in m ==> if G in v then GravityStandsFor(ctx, v[G], m[G]) else m[G] == "center")
  }

  lemma GravityTextMeans(ctx: Context, s: string)
    requires CoerceGravity(Some(s)).Ok?
    ensures match CoerceGravity(Some(s)).value.value
      case Fixed(g) => GravityStandsFor(ctx, s, PrintGravity(g))
      case Deferred(mode) => ctx.resolver.Some? ==> GravityStandsFor(ctx, s, PrintGravity(Area(ctx.resolver.value(mode))))
  {
    if x, y :| IsPointText(s, x, y) {
      PointTextReads(s, x, y);
    } else {
      WordReads(s);
      ReadsOnlyPrinted(s);
      if ctx.resolver.Some? {
        RegionText(ctx.resolver.value(AutoGravity));
        RegionText(ctx.resolver.value(FaceGravity));
      }
    }
  }

  lemma FitText(fit: FitMode)
    ensures UsesGravity(fit) <==> PrintFit(fit) in {"cover", "contain"}
  {
  }

  lemma GravityMeans(ctx: Context, v: map<Param, string>, req: Request, res: Resolved)
    requires SidesCoerce(v, req) && ScaleCoerces(v, req) && Resolve(ctx, req) == Ok(res)
    ensures GravityFollows(ctx, v, Params(res))
  {
    var m := Params(res);
    assert Get(m, Fit) == Field(res, Fit) && Get(m, G) == Field(res, G);
    ScalePresent(ctx, v, req, res);
    if res.scale.Some? {
      FitText(res.scale.value.fit);
      ResolvedGravity(ctx, v, req, res);
      if G in v { GravityTextMeans(ctx, v[G]); }
    }
  }

  lemma ResolvedGravity(ctx: Context, v: map<Param, string>, req: Request, res: Resolved)
    requires ScaleCoerces(v, req) && Resolve(ctx, req) == Ok(res) && res.scale.Some?
    ensures res.scale.value.g.Some? <==> UsesGravity(res.scale.value.fit)
    ensures res.scale.value.g.Some? ==>
      if req.g.None? then res.scale.value.g.value == Named(Center)
      else match req.g.value
        case Fixed(g) => res.scale.value.g.value == g
        case Deferred(mode) => ctx.resolver.Some? && res.scale.value.g.value == Area(ctx.resolver.value(mode))
    ensures req.g.Some? <==> G in v
  {
  }

  // ---- Rotation, effects, flip and crop ----

  /** An effect is shown when it is not zero. */
  predicate EffectFollows(v: map<Param, string>, p: Param, m: map<Param, string>) {
    var n := NumberIn(v, p);
    Get(m, p) == if n.Some? && n.value > 0 then Some(Numeral(n.value)) else None
  }

  predicate RotationFollows(v: map<Param, string>, orientation: nat, m: map<Param, string>) {
    Get(m, Rot) ==
      if Rot in v && v[Rot] != "auto" then if v[Rot] == "0" then None else Some(v[Rot])
      else if orientation == 0 then None else Some(Numeral(orientation))
  }

  ghost predicate CropFollows(v: map<Param, string>, m: map<Param, string>) {
    && (Param.Rect in m <==> Param.Rect in v)
    && (Param.Rect in m ==>
          exists x, y, w, h :: IsRectText(v[Param.Rect], x, y, w, h) && m[Param.Rect] ==
            Numeral(Value(x)) + "," + Numeral(Value(y)) + "," + Numeral(Value(w)) + "," + Numeral(Value(h)))
  }

  ghost predicate EffectsFollow(v: map<Param, string>, orientation: nat, m: map<Param, string>) {
    && EffectFollows(v, Blur, m) && EffectFollows(v, Sharpen, m)
    && RotationFollows(v, orientation, m)
    && Get(m, Flip) == Get(v, Flip)
  }

  lemma EffectsMean(ctx: Context, v: map<Param, string>, req: Request, res: Resolved)
    requires EffectsCoerce(v, req) && Resolve(ctx, req) == Ok(res)
    ensures EffectsFollow(v, ctx.source.orientation, Params(res))
  {
    var m := Params(res);
    assert Get(m, Blur) == Field(res, Blur) && Get(m, Sharpen) == Field(res, Sharpen) && Get(m, Flip) == Field(res, Flip);
    RotationMeans(ctx, v, req, res);
    if Flip in v { ReadsOnlyPrinted(v[Flip]); }
  }

  lemma RotationMeans(ctx: Context, v: map<Param, string>, req: Request, res: Resolved)
    requires CoerceRotation(Get(v, Rot)) == Ok(req.rot) && Resolve(ctx, req) == Ok(res)
    ensures RotationFollows(v, ctx.source.orientation, Params(res))
  {
    assert Get(Params(res), Rot) == Field(res, Rot);
    if Rot in v && v[Rot] != "auto" { RotationReadsItsNumeral(v[Rot]); }
  }

  lemma CropMeans(host: Host, ctx: Context, v: map<Param, string>, req: Request, res: Resolved)
    requires OutputCoerces(host, ctx.source, v, req) && Resolve(ctx, req) == Ok(res)
    ensures CropFollows(v, Params(res))
  {
    var m := Params(res);
    assert Get(m, Param.Rect) == Field(res, Param.Rect);
    if Param.Rect in v {
      OnlyRectsRead(v[Param.Rect], ctx.source);
      var x, y, w, h :| IsRectText(v[Param.Rect], x, y, w, h);
      RectTextReads(v[Param.Rect], x, y, w, h, ctx.source);
      JoinFour(Numeral(Value(x)), Numeral(Value(y)), Numeral(Value(w)), Numeral(Value(h)));
    }
  }

  // ---- Background ----

  predicate ColourOf(host: Host, given: Option<string>, colour: Option<string>) {
    (given.Some? <==> colour.Some?) && (given.Some? ==> IsColour(host, given.value, colour.value))
  }

  /** A background pads, or else is flattened onto JPEG without its alpha; otherwise it is dropped. */
  predicate BackgroundIs(colour: Option<string>, padding: bool, jpeg: bool, shown: Option<string>) {
    if padding then shown == Some(if colour.Some? then colour.value else if jpeg then "FFFFFF" else "00000000")
    else if jpeg && colour.Some? then shown == Some(if |colour.value| <= 6 then colour.value else colour.value[..6])
    else shown == None
  }

  ghost predicate BackgroundShows(host: Host, given: Option<string>, padding: bool, jpeg: bool, shown: Option<string>) {
    exists colour :: ColourOf(host, given, colour) && BackgroundIs(colour, padding, jpeg, shown)
  }

  ghost predicate BackgroundFollows(host: Host, v: map<Param, string>, m: map<Param, string>) {
    BackgroundShows(host, Get(v, Bg), Fit in m && m[Fit] == "contain", Get(m, F) == Some("jpeg"), Get(m, Bg))
  }

  lemma BackgroundText(host: Host, given: Option<string>, asked: Option<string>, padding: bool, format: Format)
    requires CoerceBackground(host, given) == Ok(asked)
    ensures BackgroundShows(host, given, padding, format == Jpeg, ResolveBackground(asked, padding, format))
  {
    if given.Some? { ColourReads(host, given.value, asked); }
    assert ColourOf(host, given, asked);
    BackgroundResolves(asked, padding, format);
  }

  lemma BackgroundResolves(bg: Option<string>, padding: bool, format: Format)
    ensures BackgroundIs(bg, padding, format == Jpeg, ResolveBackground(bg, padding, format))
  {
  }

  lemma ColourReads(host: Host, s: string, asked: Option<string>)
    requires CoerceBackground(host, Some(s)) == Ok(asked)
    ensures asked.Some? && IsColour(host, s, asked.value)
  {
    ColourExactly(host, s);
  }

  lemma ResolvedBackground(ctx: Context, req: Request, res: Resolved)
    requires Resolve(ctx, req) == Ok(res)
    ensures res.bg == ResolveBackground(req.bg, Padding(res.scale), res.format)
  {
  }

  lemma FitIsContain(fit: FitMode)
    ensures PrintFit(fit) == "contain" <==> fit == Contain
  {
  }

  lemma FormatIsJpeg(format: Format)
    ensures PrintFormat(format) == "jpeg" <==> format == Jpeg
  {
  }

  lemma PaddingShows(res: Resolved)
    ensures var m := Params(res);
      && (Fit in m && m[Fit] == "contain" <==> Padding(res.scale))
      && (Get(m, F) == Some("jpeg") <==> res.format == Jpeg)
      && Get(m, Bg) == res.bg
  {
    var m := Params(res);
    assert Get(m, Fit) == Field(res, Fit) && Get(m, F) == Field(res, F) && Get(m, Bg) == Field(res, Bg);
    if res.scale.Some? { FitIsContain(res.scale.value.fit); }
    FormatIsJpeg(res.format);
  }

  lemma BackgroundMeans(host: Host, ctx: Context, v: map<Param, string>, req: Request, res: Resolved)
    requires CoerceBackground(host, Get(v, Bg)) == Ok(req.bg) && Resolve(ctx, req) == Ok(res)
    ensures BackgroundFollows(host, v, Params(res))
  {
    ResolvedBackground(ctx, req, res);
    PaddingShows(res);
    BackgroundText(host, Get(v, Bg), req.bg, Padding(res.scale), res.format);
  }

  // ---- The whole form ----

  /** The last-wins values of a query, once parsed and partitioned. */
  ghost predicate Gives(host: Host, query: string, ctx: Context, raw: map<Param, Given>, ignored: set<string>) {
    && Pairs(host, Split(StripQuestion(query), '&')).Ok?
    && Admit(Pairs(host, Split(StripQuestion(query), '&')).value, ctx.strict) == Ok(Admission(raw, ignored))
  }

  /** The parameters of a canonical form, one by one, from the values given and the context. */
  ghost predicate Follows(host: Host, ctx: Context, v: map<Param, string>, m: map<Param, string>) {
    && SidesFollow(v, ctx.ladder, m)
    && OutputFollows(v, ctx.bucket, m)
    && FitFollows(v, m) && DprFollows(v, m) && GravityFollows(ctx, v, m)
    && EffectsFollow(v, ctx.source.orientation, m) && CropFollows(v, m)
    && BackgroundFollows(host, v, m)
    && Ar !in m && Dl !in m && Exp !in m && Sig !in m
  }

  lemma NoOtherParams(res: Resolved)
    ensures var m := Params(res);
      Ar !in m && Dl !in m && Exp !in m && Sig !in m
  {
    var m := Params(res);
    assert Get(m, Ar) == Field(res, Ar) && Get(m, Dl) == Field(res, Dl);
    assert Get(m, Exp) == Field(res, Exp) && Get(m, Sig) == Field(res, Sig);
  }

  lemma ResolvedFollows(host: Host, ctx: Context, v: map<Param, string>, req: Request, res: Resolved)
    requires Coerce(host, ctx.source, v) == Ok(req) && Resolve(ctx, req) == Ok(res)
    ensures Follows(host, ctx, v, Params(res))
  {
    CoerceByGroup(host, ctx.source, v, req);
    SidesMean(ctx, v, req, res);
    OutputMeans(host, ctx, v, req, res);
    FitAndDprMean(ctx, v, req, res);
    GravityMeans(ctx, v, req, res);
    EffectsMean(ctx, v, req, res);
    CropMeans(host, ctx, v, req, res);
    BackgroundMeans(host, ctx, v, req, res);
    NoOtherParams(res);
  }

  lemma Finishes(host: Host, query: string, ctx: Context, raw: map<Param, Given>, ignored: set<string>)
    returns (req: Request, res: Resolved)
    requires CanonicalForm(host, query, ctx).Ok? && Gives(host, query, ctx, raw, ignored)
    ensures Coerce(host, ctx.source, Values(raw)) == Ok(req) && Resolve(ctx, req) == Ok(res)
    ensures var c := CanonicalForm(host, query, ctx).value;
      && c.params == Params(res) && c.format == res.format
      && c.paramsHash == ParamsHash(host, c.canonical)
      && c.ignored == ignored + GivenAs(raw, Dropped(req, res))
      && c.download == req.dl && c.exp == Get(Values(raw), Exp) && c.sig == Get(Values(raw), Sig)
  {
    assert CanonicalForm(host, query, ctx) == Finish(host, ctx, Admission(raw, ignored));
    req := Coerce(host, ctx.source, Values(raw)).value;
    res := Resolve(ctx, req).value;
  }

  lemma DownloadCoerces(host: Host, source: SourceFacts, v: map<Param, string>, req: Request)
    requires Coerce(host, source, v) == Ok(req)
    ensures req.dl == Get(v, Dl)
  {
    CoerceByGroup(host, source, v, req);
  }

  lemma FormatShows(res: Resolved)
    ensures Get(Params(res), F) == Some(PrintFormat(res.format))
  {
    assert Get(Params(res), F) == Field(res, F);
  }

  /** What an accepted query's form says: every parameter, by the values given and the context. */
  lemma FormMeans(host: Host, query: string, ctx: Context, raw: map<Param, Given>, ignored: set<string>)
    requires CanonicalForm(host, query, ctx).Ok? && Gives(host, query, ctx, raw, ignored)
    ensures Follows(host, ctx, Values(raw), CanonicalForm(host, query, ctx).value.params)
  {
    var req, res := Finishes(host, query, ctx, raw, ignored);
    ResolvedFollows(host, ctx, Values(raw), req, res);
  }

  /** And beside them: the hash, of the string under the versions, and what is no part of the transformation, as given. */
  lemma DeliveryMeans(host: Host, query: string, ctx: Context, raw: map<Param, Given>, ignored: set<string>)
    requires CanonicalForm(host, query, ctx).Ok? && Gives(host, query, ctx, raw, ignored)
    ensures var c, v := CanonicalForm(host, query, ctx).value, Values(raw);
      && Get(c.params, F) == Some(PrintFormat(c.format))
      && c.paramsHash == host.digest("idp1|q1.l1.e1.f1|" + c.canonical)
      && c.download == Get(v, Dl) && c.exp == Get(v, Exp) && c.sig == Get(v, Sig)
  {
    var req, res := Finishes(host, query, ctx, raw, ignored);
    DownloadCoerces(host, ctx.source, Values(raw), req);
    FormatShows(res);
  }

  // ---- What is reported as ignored ----

  /** A given parameter has no effect: it is not in the form though it could be, or it is a rotation by nothing. */
  predicate HasNoEffect(v: map<Param, string>, m: map<Param, string>, p: Param) {
    p in v && (if p == Rot then v[Rot] == "0" else p in {Dpr, Fit, G, Q, Blur, Sharpen, Bg} && p !in m)
  }

  /** Every one of these is dropped exactly when the form lacks it. */
  lemma ScaleDrops(ctx: Context, v: map<Param, string>, req: Request, res: Resolved, p: Param)
    requires SidesCoerce(v, req) && ScaleCoerces(v, req) && Resolve(ctx, req) == Ok(res) && p in {Dpr, Fit, G}
    ensures p in Dropped(req, res) <==> p !in Params(res)
  {
    assert Get(Params(res), p) == Field(res, p);
    if res.scale.Some? { ResolvedGravity(ctx, v, req, res); }
  }

  lemma OutputDrops(ctx: Context, req: Request, res: Resolved, p: Param)
    requires Resolve(ctx, req) == Ok(res) && p in {Q, Bg}
    ensures p in Dropped(req, res) <==> p !in Params(res)
  {
    assert Get(Params(res), p) == Field(res, p);
  }

  lemma EffectsDrop(ctx: Context, req: Request, res: Resolved, p: Param)
    requires Resolve(ctx, req) == Ok(res) && p in {Blur, Sharpen}
    ensures p in Dropped(req, res) <==> p !in Params(res)
  {
    assert Get(Params(res), p) == Field(res, p);
  }

  lemma OthersStay(req: Request, res: Resolved, p: Param)
    requires p in Dropped(req, res)
    ensures p in {Dpr, Fit, G, Q, Blur, Sharpen, Bg} || (p == Rot && req.rot == Some(0))
  {
  }

  lemma RotationDrops(req: Request, res: Resolved)
    ensures Rot in Dropped(req, res) <==> req.rot == Some(0)
  {
  }

  lemma DroppedMeans(host: Host, ctx: Context, v: map<Param, string>, req: Request, res: Resolved, p: Param)
    requires Coerce(host, ctx.source, v) == Ok(req) && Resolve(ctx, req) == Ok(res) && p in v
    ensures p in Dropped(req, res) <==> HasNoEffect(v, Params(res), p)
  {
    CoerceByGroup(host, ctx.source, v, req);
    if p in {Dpr, Fit, G} {
      ScaleDrops(ctx, v, req, res, p);
    } else if p in {Q, Bg} {
      OutputDrops(ctx, req, res, p);
    } else if p in {Blur, Sharpen} {
      EffectsDrop(ctx, req, res, p);
    } else if p == Rot {
      RotationDrops(req, res);
      RotationZero(v[Rot]);
    } else if p in Dropped(req, res) {
      OthersStay(req, res, p);
    }
  }

  lemma RotationZero(s: string)
    requires CoerceRotation(Some(s)).Ok?
    ensures CoerceRotation(Some(s)) == Ok(Some(0)) <==> s == "0"
  {
  }

  /** The ignored names are the foreign ones and those under which a parameter without effect was given. */
  lemma IgnoredMeans(host: Host, query: string, ctx: Context, raw: map<Param, Given>, ignored: set<string>, name: string)
    requires CanonicalForm(host, query, ctx).Ok? && Gives(host, query, ctx, raw, ignored)
    ensures var c, v := CanonicalForm(host, query, ctx).value, Values(raw);
      name in c.ignored <==> name in ignored || exists p :: p in raw && raw[p].from == name && HasNoEffect(v, c.params, p)
  {
    var req, res := Finishes(host, query, ctx, raw, ignored);
    forall p | p in raw ensures p in Dropped(req, res) <==> HasNoEffect(Values(raw), Params(res), p) {
      DroppedMeans(host, ctx, Values(raw), req, res, p);
    }
  }

  // ---- When a request is refused, and for what ----

  lemma RatioIsUnique(s: string, aw: nat, ah: nat, r: AspectRatio)
    requires IsRatio(s, aw, ah) && CoerceRatio(Some(s)) == Ok(Some(r))
    ensures aw == r.w && ah == r.h
  {
    var w, h :| IsRatioText(s, w, h) && Value(w) == aw && Value(h) == ah;
    RatioSplits(s, w, h);
  }

  lemma RatioDecides(widthGiven: bool, w: nat, h: nat, aw: nat, ah: nat)
    requires InRatio(widthGiven, w, h, aw, ah)
    ensures DeriveBox(if widthGiven then Box(Some(w), None) else Box(None, Some(h)), aw, ah) == Box(Some(w), Some(h))
  {
    if widthGiven {
      DerivedIsNearest(w, ah, aw);
      DerivedIsUnique(h, Derived(w, ah, aw), w * ah, aw);
    } else {
      DerivedIsNearest(h, aw, ah);
      DerivedIsUnique(w, Derived(h, aw, ah), h * aw, ah);
    }
  }

  /** There is one pair of sides asked for, and it is the combined box. */
  lemma AskedIsCombined(v: map<Param, string>, req: Request, w: Option<nat>, h: Option<nat>)
    requires SidesCoerce(v, req) && AskedSides(v, w, h)
    ensures Combine(req) == Ok(Box(w, h))
  {
    OneSideReads(W, v, req.w);
    OneSideReads(H, v, req.h);
    if Ar in v {
      var aw, ah :| IsRatio(v[Ar], aw, ah) && InRatio(W in v, w.value, h.value, aw, ah);
      RatioIsUnique(v[Ar], aw, ah, req.ar.value);
      RatioDecides(W in v, w.value, h.value, aw, ah);
      assert Box(req.w, req.h) == if W in v then Box(w, None) else Box(None, h);
    }
  }

  /** A ratio needs exactly one side, and the other must not be too long. */
  lemma CombineExactly(v: map<Param, string>, req: Request)
    requires SidesCoerce(v, req)
    ensures Combine(req).Ok? <==> exists w, h :: AskedSides(v, w, h)
    ensures Combine(req) == Err(OverSpecified("ar")) <==> Ar in v && (W in v <==> H in v)
    ensures Combine(req) == Err(InvalidParam("ar", OutOfRange)) <==>
            Ar in v && (W in v <==> H !in v) && !exists w, h :: AskedSides(v, w, h)
  {
    OneSideReads(W, v, req.w);
    OneSideReads(H, v, req.h);
    if Combine(req).Ok? { CombinedAsAsked(v, req); }
    if w, h :| AskedSides(v, w, h) { AskedIsCombined(v, req, w, h); }
  }

  ghost predicate IsSnapped(side: Option<nat>, ladder: bool, snapped: Option<nat>) {
    (side.Some? <==> snapped.Some?) && (side.Some? ==> SnapsTo(ladder, side.value, snapped.value))
  }

  /** The output's sides: as asked for, a missing one in the base's proportions to the nearest pixel. */
  predicate AreOutSides(w: Option<nat>, h: Option<nat>, baseW: nat, baseH: nat, outW: nat, outH: nat) {
    && (w.Some? || h.Some?)
    && (if w.Some? then outW == w.value else IsNearest(outW, h.value * baseW, baseH))
    && (if h.Some? then outH == h.value else IsNearest(outH, outW * baseH, baseW))
  }

  /** The pixels of the snapped output exceed 25 million, in hundredths as dpr is in tenths. */
  ghost predicate ExceedsBudget(baseW: nat, baseH: nat, w: Option<nat>, h: Option<nat>, dpr: nat, ladder: bool) {
    exists kw: Option<nat>, kh: Option<nat>, outW: nat, outH: nat ::
      IsSnapped(w, ladder, kw) && IsSnapped(h, ladder, kh) && AreOutSides(kw, kh, baseW, baseH, outW, outH)
      && (outW * outH) * (dpr * dpr) > 25_000_000 * 100
  }

  lemma SnapIsUnique(ladder: bool, n: nat, k: nat)
    ensures SnapsTo(ladder, n, k) <==> k == if ladder then Snap(n) else n
  {
    SnapLeast(n);
    LadderAscends();
  }

  lemma SnappedIsBox(side: Option<nat>, ladder: bool, snapped: Option<nat>)
    ensures IsSnapped(side, ladder, snapped) <==> snapped == SnapSide(side, ladder)
  {
    if side.Some? && snapped.Some? { SnapIsUnique(ladder, side.value, snapped.value); }
  }

  lemma OutSidesExactly(box: Box, baseW: nat, baseH: nat, outW: nat, outH: nat)
    requires baseW > 0 && baseH > 0 && (box.w.Some? || box.h.Some?)
    ensures AreOutSides(box.w, box.h, baseW, baseH, outW, outH) <==> OutSize(box, baseW, baseH) == (outW, outH)
  {
    OutSizeKeepsProportions(box, baseW, baseH);
    var (w, h) := OutSize(box, baseW, baseH);
    if AreOutSides(box.w, box.h, baseW, baseH, outW, outH) {
      if box.w.None? { NearestIsUnique(w, outW, box.h.value * baseW, baseH); }
      if box.h.None? { NearestIsUnique(h, outH, outW * baseH, baseW); }
    }
  }

  lemma BudgetExactly(baseW: nat, baseH: nat, w: Option<nat>, h: Option<nat>, dpr: nat, ladder: bool)
    requires baseW > 0 && baseH > 0
    ensures InBudget(SnapBox(Box(w, h), ladder), baseW, baseH, dpr) <==> !ExceedsBudget(baseW, baseH, w, h, dpr, ladder)
  {
    var box := SnapBox(Box(w, h), ladder);
    SnappedIsBox(w, ladder, box.w);
    SnappedIsBox(h, ladder, box.h);
    if box != Box(None, None) && !InBudget(box, baseW, baseH, dpr) {
      var (outW, outH) := OutSize(box, baseW, baseH);
      OutSidesExactly(box, baseW, baseH, outW, outH);
      assert (outW * outH) * (dpr * dpr) == Pixels(outW, outH, dpr);
      assert ExceedsBudget(baseW, baseH, w, h, dpr, ladder);
    }
    if ExceedsBudget(baseW, baseH, w, h, dpr, ladder) {
      var kw: Option<nat>, kh: Option<nat>, outW: nat, outH: nat :|
        IsSnapped(w, ladder, kw) && IsSnapped(h, ladder, kh) && AreOutSides(kw, kh, baseW, baseH, outW, outH)
        && (outW * outH) * (dpr * dpr) > 25_000_000 * 100;
      SnappedIsBox(w, ladder, kw);
      SnappedIsBox(h, ladder, kh);
      OutSidesExactly(box, baseW, baseH, outW, outH);
      assert (outW * outH) * (dpr * dpr) == Pixels(outW, outH, dpr);
    }
  }

  /** The gravity asked for must come from a resolver that is not there. */
  predicate LacksResolver(ctx: Context, v: map<Param, string>, mode: GravityMode) {
    && Resizes(v) && ctx.resolver.None? && G in v
    && (if mode == AutoGravity then v[G] == "auto" else v[G] in {"face", "faces"})
    && Fit in v && ParseFit(v[Fit]) in {Some(Cover), Some(Contain)}
  }

  lemma FitUsesGravity(fit: Option<FitMode>)
    ensures UsesGravity(Or(fit, ScaleDown)) <==> fit in {Some(Cover), Some(Contain)}
  {
  }

  lemma GravityDefers(v: map<Param, string>, req: Request, mode: GravityMode)
    requires ScaleCoerces(v, req)
    ensures req.g == Some(Deferred(mode)) <==> G in v && if mode == AutoGravity then v[G] == "auto" else v[G] in {"face", "faces"}
  {
    if G in v { GravityExactly(v[G], Center); }
  }

  lemma ScaleRefuses(ctx: Context, v: map<Param, string>, req: Request, mode: GravityMode)
    requires SidesCoerce(v, req) && ScaleCoerces(v, req)
    ensures ResolveScale(ctx, req, Resizes(v)) == Err(NeedsGravityResolver(mode)) <==> LacksResolver(ctx, v, mode)
    ensures ResolveScale(ctx, req, Resizes(v)).Err? ==> ResolveScale(ctx, req, Resizes(v)).error.NeedsGravityResolver?
  {
    FitUsesGravity(req.fit);
    GravityDefers(v, req, mode);
  }

  function BaseSides(source: SourceFacts, rect: Option<Crop>): (nat, nat) {
    match rect
    case Some(r) => (r.w, r.h)
    case None => (source.width, source.height)
  }

  lemma AskedResizes(v: map<Param, string>, req: Request, w: Option<nat>, h: Option<nat>)
    requires SidesCoerce(v, req) && AskedSides(v, w, h)
    ensures Resizes(v) <==> w.Some? || h.Some?
  {
    OneSideReads(W, v, req.w);
    OneSideReads(H, v, req.h);
  }

  /**
   * A request whose sides combine is refused for a gravity it cannot resolve,
   * else for its output's pixels, and for nothing else.
   */
  lemma ResolvesExactly(ctx: Context, v: map<Param, string>, req: Request, w: Option<nat>, h: Option<nat>)
    requires SidesCoerce(v, req) && ScaleCoerces(v, req) && AskedSides(v, w, h)
    ensures var r, base := Resolve(ctx, req), BaseSides(ctx.source, req.rect);
      var lacks := LacksResolver(ctx, v, AutoGravity) || LacksResolver(ctx, v, FaceGravity);
      var exceeds := ExceedsBudget(base.0, base.1, w, h, Or(req.dpr, 10), ctx.ladder);
      && (r.Ok? <==> !lacks && !exceeds)
      && (forall mode :: r == Err(NeedsGravityResolver(mode)) <==> LacksResolver(ctx, v, mode))
      && (!lacks && exceeds ==> r == Err(InvalidParam(if w.Some? then "w" else "h", BudgetExceeded)))
  {
    AskedIsCombined(v, req, w, h);
    AskedResizes(v, req, w, h);
    ScaleRefuses(ctx, v, req, AutoGravity);
    ScaleRefuses(ctx, v, req, FaceGravity);
    var base := BaseSides(ctx.source, req.rect);
    BudgetExactly(base.0, base.1, w, h, Or(req.dpr, 10), ctx.ladder);
  }

  lemma CombinationRefuses(ctx: Context, req: Request)
    requires Combine(req).Err?
    ensures Resolve(ctx, req) == Err(Combine(req).error)
  {
  }

  /** The failure of reading a value, if it fails. */
  function FailureOf<T>(r: Result<T, Failure>): Option<Failure> {
    match r case Ok(_) => None case Err(e) => Some(e)
  }

  function OrElse(first: Option<Failure>, second: Option<Failure>): Option<Failure> {
    if first.Some? then first else second
  }

  /** The values are read in this order, and the first that cannot be read decides the refusal. */
  lemma FirstFailureDecides(host: Host, source: SourceFacts, v: map<Param, string>)
    ensures FailureOf(Coerce(host, source, v)) ==
      OrElse(FailureOf(OptionalInteger(W, Get(v, W), 1, MAX_DIMENSION)),
      OrElse(FailureOf(OptionalInteger(H, Get(v, H), 1, MAX_DIMENSION)),
      OrElse(FailureOf(CoerceRatio(Get(v, Ar))),
      OrElse(FailureOf(CoerceDpr(Get(v, Dpr))),
      OrElse(FailureOf(CoerceFit(Get(v, Fit))),
      OrElse(FailureOf(CoerceGravity(Get(v, G))),
      OrElse(FailureOf(CoerceRect(Get(v, Param.Rect), source)),
      OrElse(FailureOf(CoerceFormat(Get(v, F))),
      OrElse(FailureOf(CoerceQuality(Get(v, Q))),
      OrElse(FailureOf(CoerceBackground(host, Get(v, Bg))),
      OrElse(FailureOf(CoerceEffect(Blur, Get(v, Blur))),
      OrElse(FailureOf(CoerceEffect(Sharpen, Get(v, Sharpen))),
      OrElse(FailureOf(CoerceRotation(Get(v, Rot))),
      OrElse(FailureOf(CoerceFlip(Get(v, Flip))), FailureOf(CoerceDownload(Get(v, Dl)))))))))))))))))
  {
  }

  // ---- Parsing ----

  /** One leading question mark is not part of the query. */
  lemma QuestionMarkIsNoPart(host: Host, query: string, ctx: Context)
    requires query == "" || query[0] != '?'
    ensures CanonicalForm(host, "?" + query, ctx) == CanonicalForm(host, query, ctx)
  {
    assert ("?" + query)[1..] == query;
  }

  /** The text with its plus signs as spaces. */
  predicate IsSpaced(raw: string, spaced: string) {
    |spaced| == |raw| && forall i :: 0 <= i < |raw| ==> spaced[i] == if raw[i] == '+' then ' ' else raw[i]
  }

  /**
   * A part is a key and, after its first equals sign, a value, decoded once plus
   * signs are spaces. An undecodable key is foreign; an undecodable value is
   * refused under a known name and foreign otherwise.
   */
  lemma PartMeans(host: Host, key: string, value: string, spacedKey: string, spacedValue: string, hasValue: bool)
    requires '=' !in key && (hasValue || (value == "" && key != ""))
    requires IsSpaced(key, spacedKey) && IsSpaced(value, spacedValue)
    ensures var part := if hasValue then key + "=" + value else key;
      var k, v := host.unescape(spacedKey), host.unescape(spacedValue);
      ReadPart(host, part) ==
        if k.None? then Skipped
        else if v.None? then if IsKnown(k.value) then Malformed(k.value) else Skipped
        else Reading.Pair(k.value, v.value)
  {
    assert PlusToSpace(key) == spacedKey && PlusToSpace(value) == spacedValue;
    if hasValue {
      IndexOfFirst(key, '=', value);
      assert key + "=" + value == key + ['='] + value;
    } else {
      IndexOfAbsent(key, '=');
      assert key[..|key|] == key;
      assert PlusToSpace("") == "";
      assert spacedValue == "";
    }
  }

  /** The first part whose value cannot be decoded under a known name decides the refusal. */
  lemma FirstMalformedDecides(host: Host, parts: seq<string>, i: nat, field: string)
    requires i < |parts| && ReadPart(host, parts[i]) == Malformed(field)
    requires forall j :: 0 <= j < i ==> !ReadPart(host, parts[j]).Malformed?
    ensures Pairs(host, parts) == Err(InvalidParam(field, BadType))
  {
    PairsFromParts(host, parts[..i]);
    assert parts[..i + 1][..i] == parts[..i];
    PairsStopAtFirst(host, parts, i + 1);
  }

  /** Only A to Z change, to their small letters. */
  lemma LowerMeans(s: string)
    ensures |Canonicalizer.Lower(s)| == |s|
    ensures forall i :: 0 <= i < |s| ==>
      var c, l := s[i], Canonicalizer.Lower(s)[i];
      if 'A' <= c <= 'Z' then 'a' <= l <= 'z' && l as int - 'a' as int == c as int - 'A' as int else l == c
  {
  }

  // ---- Partition ----

  /** A short way from a known name, or one in another case. */
  ghost predicate LooksLikeKnown(key: string) {
    exists known :: known in KnownNames() &&
      if Canonicalizer.Lower(key) == known then key != known
      else |known| >= 3 && EditDistance.Reachable(Canonicalizer.Lower(key), known, if |known| >= 5 then 2 else 1)
  }

  lemma CompatibilityNames(key: string)
    ensures key in COMPATIBILITY_NAMES <==> key in {"c", "auto"}
  {
  }

  lemma NamesAreNotCompatibility(key: string, p: Param)
    requires key in NamesOf(p)
    ensures key !in {"c", "auto"}
  {
  }

  /** A parameter's value is given under any of its names. */
  lemma NamedPairAssigns(key: string, value: string, strict: bool, p: Param)
    requires key in NamesOf(p)
    ensures Classify(key, value, strict) == Assigns([(p, value)])
  {
    CompatibilityNames(key);
    NamesAreNotCompatibility(key, p);
    ParamOfExactly(key, p);
  }

  /** A compatibility pair gives the values it is listed for, and is refused when it is not. */
  lemma CompatibilityPairAssigns(key: string, value: string, strict: bool)
    requires key in {"c", "auto"}
    ensures Classify(key, value, strict) ==
      match Expand(key, value) case Some(to) => Assigns(to) case None => Class.Refused(NotAllowed)
  {
    CompatibilityNames(key);
  }

  lemma ForeignOrRefused(key: string, value: string, strict: bool)
    requires key !in COMPATIBILITY_NAMES && ParamOf(key) == None
    ensures Classify(key, value, strict) == if IsNearMiss(key) || strict then Class.Refused(UnknownParameter) else Foreign
  {
  }

  /** Any other name is refused when it looks like a known one, or when all are; otherwise it is foreign. */
  lemma OtherPairsAreForeign(key: string, value: string, strict: bool)
    requires key !in {"c", "auto"} && forall p :: key !in NamesOf(p)
    ensures Classify(key, value, strict) == if LooksLikeKnown(key) || strict then Class.Refused(UnknownParameter) else Foreign
  {
    CompatibilityNames(key);
    UnnamedHasNoParam(key);
    ForeignOrRefused(key, value, strict);
    LooksLikeANearMiss(key);
  }

  lemma LooksLikeANearMiss(key: string)
    ensures LooksLikeKnown(key) <==> IsNearMiss(key)
  {
    NearMissMeaning(key);
  }

  lemma UnnamedHasNoParam(key: string)
    requires forall p :: key !in NamesOf(p)
    ensures ParamOf(key) == None
  {
    if ParamOf(key).Some? {
      ParamOfExactly(key, ParamOf(key).value);
      assert false;
    }
  }

  /** The known names are these. */
  lemma KnownExactly(key: string)
    ensures IsKnown(key) <==> key in {"c", "auto"} || exists p :: key in NamesOf(p)
  {
    KnownNamesAreProcessed(key);
    CompatibilityNames(key);
    if ParamOf(key).Some? { ParamOfExactly(key, ParamOf(key).value); }
    if p :| key in NamesOf(p) { ParamOfExactly(key, p); }
  }

  lemma {:induction false} AssignAllSets(raw: map<Param, Given>, to: Assignments, from: string, p: Param, v: string)
    requires (p, v) in to
    ensures var r := AssignAll(raw, to, from);
      p in r && r[p].from == from && (p, r[p].value) in to
    decreases |to|
  {
    var next := raw[to[0].0 := Given(to[0].1, from)];
    if w :| (p, w) in to[1..] {
      AssignAllSets(next, to[1..], from, p, w);
    } else {
      assert to[0] == (p, v) by { assert to == [to[0]] + to[1..]; }
      AssignAllLeaves(next, to[1..], from, p);
    }
  }

  lemma {:induction false} AssignAllLeaves(raw: map<Param, Given>, to: Assignments, from: string, p: Param)
    requires forall v :: (p, v) !in to
    ensures var r := AssignAll(raw, to, from);
      (p in r <==> p in raw) && (p in r ==> r[p] == raw[p])
    decreases |to|
  {
    if to == [] {
    } else {
      assert to[0] == (to[0].0, to[0].1) && to[0] in to;
      AssignAllLeaves(raw[to[0].0 := Given(to[0].1, from)], to[1..], from, p);
    }
  }

  /** One pair never gives a parameter two values. */
  lemma PairSetsOnce(pair: QueryPair, strict: bool, p: Param, v: string, w: string)
    requires Sets(pair, strict, p, v) && Sets(pair, strict, p, w)
    ensures v == w
  {
  }

  /** The last pair that sets a parameter decides its value, and the name it is reported under. */
  lemma {:induction false} LastPairWins(pairs: seq<QueryPair>, strict: bool, i: nat, p: Param, v: string)
    requires Admit(pairs, strict).Ok? && i < |pairs| && Sets(pairs[i], strict, p, v)
    requires forall j, w :: i < j < |pairs| ==> !Sets(pairs[j], strict, p, w)
    ensures var raw := Admit(pairs, strict).value.raw;
      p in raw && raw[p] == Given(v, pairs[i].0)
    decreases |pairs|
  {
    var before, last := pairs[..|pairs| - 1], pairs[|pairs| - 1];
    var raw := Admit(before, strict).value.raw;
    if i == |pairs| - 1 {
      AssignAllSets(raw, AssignmentsOf(last, strict), last.0, p, v);
      PairSetsOnce(last, strict, p, v, AssignAll(raw, AssignmentsOf(last, strict), last.0)[p].value);
    } else {
      LastPairWins(before, strict, i, p, v);
      forall w ensures (p, w) !in AssignmentsOf(last, strict) { assert !Sets(last, strict, p, w); }
      AssignAllLeaves(raw, AssignmentsOf(last, strict), last.0, p);
    }
  }

  /** A parameter no pair sets has no value. */
  lemma UnsetHasNoValue(pairs: seq<QueryPair>, strict: bool, p: Param)
    requires Admit(pairs, strict).Ok?
    requires forall i, v :: 0 <= i < |pairs| ==> !Sets(pairs[i], strict, p, v)
    ensures p !in Admit(pairs, strict).value.raw
  {
    AdmitFromPairs(pairs, strict);
  }
}
