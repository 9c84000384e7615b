// The parameter vocabulary as data: canonical names, aliases, dialect values,
// bounds and tables.
module Vocabulary {
  import opened Wrappers

  const MAX_DIMENSION := 8192
  const MAX_PIXELS := 25_000_000
  const DPR_MIN_TENTHS := 5
  const DPR_MAX_TENTHS := 30
  const AR_PART_MAX := 1000
  const EFFECT_MAX := 100
  const DOWNLOAD_NAME_MAX := 255

  const LADDER: seq<nat> := [16, 32, 48, 64, 96, 128, 256, 384, 640, 750, 828, 1080, 1200, 1920, 2048, 3840]

  // ---- Canonical parameters ----

  datatype Param =
    | W | H | Ar | Dpr | Fit | G | Rect | F | Q | Bg | Blur | Sharpen | Rot | Flip | Dl | Exp | Sig

  function Name(p: Param): string {
    match p
    case W => "w" case H => "h" case Ar => "ar" case Dpr => "dpr" case Fit => "fit" case G => "g"
    case Rect => "rect" case F => "f" case Q => "q" case Bg => "bg" case Blur => "blur"
    case Sharpen => "sharpen" case Rot => "rot" case Flip => "flip" case Dl => "dl"
    case Exp => "exp" case Sig => "sig"
  }

  /** The canonical names, then the aliases. */
  const NAMES: seq<(string, Param)> := [
    ("w", W), ("h", H), ("ar", Ar), ("dpr", Dpr), ("fit", Fit), ("g", G), ("rect", Rect), ("f", F),
    ("q", Q), ("bg", Bg), ("blur", Blur), ("sharpen", Sharpen), ("rot", Rot), ("flip", Flip),
    ("dl", Dl), ("exp", Exp), ("sig", Sig),
    ("width", W), ("height", H), ("aspect", Ar), ("ratio", Ar), ("gravity", G), ("position", G),
    ("focus", G), ("fo", G), ("crop", G), ("format", F), ("fm", F), ("quality", Q),
    ("background", Bg), ("bl", Blur), ("sharp", Sharpen), ("rotate", Rot), ("download", Dl), ("s", Sig)]

  const COMPATIBILITY_NAMES: seq<string> := ["c", "auto"]

  /** Every name the algorithm knows. */
  function KnownNames(): (names: seq<string>)
    ensures |names| == |NAMES| + |COMPATIBILITY_NAMES|
    ensures forall i :: 0 <= i < |NAMES| ==> names[i] == NAMES[i].0
    ensures forall i :: 0 <= i < |COMPATIBILITY_NAMES| ==> names[|NAMES| + i] == COMPATIBILITY_NAMES[i]
  {
    seq(|NAMES|, i requires 0 <= i < |NAMES| => NAMES[i].0) + COMPATIBILITY_NAMES
  }

  predicate IsKnown(key: string) {
    key in KnownNames()
  }

  function Lookup(key: string, from: nat): (p: Option<Param>)
    requires from <= |NAMES|
    ensures p.Some? <==> exists i :: from <= i < |NAMES| && NAMES[i].0 == key
    decreases |NAMES| - from
  {
    if from == |NAMES| then None
    else if NAMES[from].0 == key then Some(NAMES[from].1)
    else Lookup(key, from + 1)
  }

  /** The canonical parameter a name stands for, itself or by alias. */
  function ParamOf(key: string): Option<Param> {
    Lookup(key, 0)
  }

  /** The canonical assignments of a compatibility pair; None for an unlisted value. */
  function Expand(key: string, value: string): Option<seq<(Param, string)>> {
    if key == "c" then
      if value == "fill" then Some([(Fit, "cover")])
      else if value == "fit" then Some([(Fit, "inside")])
      else if value == "scale" then Some([(Fit, "fill")])
      else if value == "pad" then Some([(Fit, "contain")])
      else None
    else if key == "auto" then
      if value == "format" then Some([(F, "auto")])
      else if value == "compress" then Some([(Q, "auto")])
      else if value == "format,compress" || value == "compress,format" then Some([(F, "auto"), (Q, "auto")])
      else None
    else None
  }

  // ---- Closed value vocabularies ----

  datatype Format = Avif | Webp | Jpeg | Png

  type Bucket = f: Format | f != Png witness Avif

  function PrintFormat(f: Format): string {
    match f case Avif => "avif" case Webp => "webp" case Jpeg => "jpeg" case Png => "png"
  }

  function ParseFormat(s: string): Option<Format> {
    if s == "avif" then Some(Avif)
    else if s == "webp" then Some(Webp)
    else if s == "jpeg" then Some(Jpeg)
    else if s == "png" then Some(Png)
    else None
  }

  function DefaultQuality(f: Bucket): nat {
    match f case Avif => 50 case Webp => 75 case Jpeg => 80
  }

  datatype FitMode = ScaleDown | Cover | Contain | Fill | Inside | Outside | NoFit

  function PrintFit(f: FitMode): string {
    match f
    case ScaleDown => "scale-down" case Cover => "cover" case Contain => "contain"
    case Fill => "fill" case Inside => "inside" case Outside => "outside" case NoFit => "none"
  }

  /** A fit value or one of its dialect aliases. */
  function ParseFit(s: string): Option<FitMode> {
    if s == "scale-down" || s == "max" then Some(ScaleDown)
    else if s == "cover" || s == "crop" then Some(Cover)
    else if s == "contain" || s == "pad" then Some(Contain)
    else if s == "fill" || s == "squeeze" || s == "scale" then Some(Fill)
    else if s == "inside" || s == "clip" then Some(Inside)
    else if s == "outside" || s == "min" then Some(Outside)
    else if s == "none" then Some(NoFit)
    else None
  }

  datatype Keyword =
    Center | Top | Bottom | Left | Right | TopLeft | TopRight | BottomLeft | BottomRight

  function PrintKeyword(k: Keyword): string {
    match k
    case Center => "center" case Top => "top" case Bottom => "bottom" case Left => "left"
    case Right => "right" case TopLeft => "top-left" case TopRight => "top-right"
    case BottomLeft => "bottom-left" case BottomRight => "bottom-right"
  }

  function ParseKeyword(s: string): Option<Keyword> {
    if s == "center" then Some(Center)
    else if s == "top" then Some(Top)
    else if s == "bottom" then Some(Bottom)
    else if s == "left" then Some(Left)
    else if s == "right" then Some(Right)
    else if s == "top-left" then Some(TopLeft)
    else if s == "top-right" then Some(TopRight)
    else if s == "bottom-left" then Some(BottomLeft)
    else if s == "bottom-right" then Some(BottomRight)
    else None
  }

  datatype FlipMode = Horizontal | Vertical | Both

  function PrintFlip(f: FlipMode): string {
    match f case Horizontal => "h" case Vertical => "v" case Both => "hv"
  }

  function ParseFlip(s: string): Option<FlipMode> {
    if s == "h" then Some(Horizontal) else if s == "v" then Some(Vertical)
    else if s == "hv" then Some(Both) else None
  }

  // ---- Facts the canonicaliser's theorems use ----

  function Position(p: Param): (i: nat)
    ensures i < |NAMES| && NAMES[i].0 == Name(p) && NAMES[i].1 == p
  {
    match p
    case W => 0 case H => 1 case Ar => 2 case Dpr => 3 case Fit => 4 case G => 5 case Rect => 6
    case F => 7 case Q => 8 case Bg => 9 case Blur => 10 case Sharpen => 11 case Rot => 12
    case Flip => 13 case Dl => 14 case Exp => 15 case Sig => 16
  }

  lemma NameInjective(p: Param, q: Param)
    requires Name(p) == Name(q)
    ensures p == q
  {
    var a, b := Name(p), Name(q);
    assert |a| == |b| && a[0] == b[0] && a[|a| - 1] == b[|b| - 1];
  }

  lemma CanonicalNamesLead(i: nat)
    requires i < 17
    ensures NAMES[i].0 == Name(NAMES[i].1)
  {
  }

  lemma {:induction false} LookupOwn(p: Param, from: nat)
    requires from <= Position(p) < 17
    ensures Lookup(Name(p), from) == Some(p)
    decreases Position(p) - from
  {
    if from < Position(p) {
      CanonicalNamesLead(from);
      if NAMES[from].0 == Name(p) { NameInjective(NAMES[from].1, p); }
      LookupOwn(p, from + 1);
    }
  }

  /** No canonical name is an alias or dialect name of another parameter. */
  lemma NameIsOwn(p: Param)
    ensures ParamOf(Name(p)) == Some(p)
    ensures Name(p) !in COMPATIBILITY_NAMES
  {
    LookupOwn(p, 0);
  }

  /** The known names are exactly the names the partition step processes. */
  lemma KnownNamesAreProcessed(key: string)
    ensures IsKnown(key) <==> ParamOf(key).Some? || key in COMPATIBILITY_NAMES
  {
    if ParamOf(key).Some? {
      var i :| 0 <= i < |NAMES| && NAMES[i].0 == key;
      assert KnownNames()[i] == key;
    }
    if key in COMPATIBILITY_NAMES {
      var i :| 0 <= i < |COMPATIBILITY_NAMES| && COMPATIBILITY_NAMES[i] == key;
      assert KnownNames()[|NAMES| + i] == key;
    }
  }

  // ---- The tables, from the side of what they give ----

  /** Every name of a parameter, and no other. */
  function NamesOf(p: Param): set<string> {
    match p
    case W => {"w", "width"}
    case H => {"h", "height"}
    case Ar => {"ar", "aspect", "ratio"}
    case Dpr => {"dpr"}
    case Fit => {"fit"}
    case G => {"g", "gravity", "position", "focus", "fo", "crop"}
    case Rect => {"rect"}
    case F => {"f", "format", "fm"}
    case Q => {"q", "quality"}
    case Bg => {"bg", "background"}
    case Blur => {"blur", "bl"}
    case Sharpen => {"sharpen", "sharp"}
    case Rot => {"rot", "rotate"}
    case Flip => {"flip"}
    case Dl => {"dl", "download"}
    case Exp => {"exp"}
    case Sig => {"sig", "s"}
  }

  lemma RowIsNamed(i: nat)
    requires i < |NAMES|
    ensures NAMES[i].0 in NamesOf(NAMES[i].1)
  {
  }

  lemma NamesAreListed(p: Param, key: string)
    requires key in NamesOf(p)
    ensures exists i :: 0 <= i < |NAMES| && NAMES[i].0 == key
  {
    if key == Name(p) {
      assert NAMES[Position(p)].0 == key;
    } else {
      AliasIsListed(p, key);
    }
  }

  lemma AliasIsListed(p: Param, key: string)
    requires key in NamesOf(p) && key != Name(p)
    ensures exists i :: 0 <= i < |NAMES| && NAMES[i].0 == key
  {
    var at: int :=
      match p
      case W => 17
      case H => 18
      case Ar => if key == "aspect" then 19 else 20
      case G =>
        if key == "gravity" then 21 else if key == "position" then 22 else if key == "focus" then 23
        else if key == "fo" then 24 else 25
      case F => if key == "format" then 26 else 27
      case Q => 28
      case Bg => 29
      case Blur => 30
      case Sharpen => 31
      case Rot => 32
      case Dl => 33
      case _ => 34;
    assert NAMES[at].0 == key;
  }

  lemma NamesAreApart(key: string, p: Param, q: Param)
    requires key in NamesOf(p) && key in NamesOf(q)
    ensures p == q
  {
  }

  lemma {:induction false} LookupFinds(key: string, from: nat)
    requires from <= |NAMES|
    ensures Lookup(key, from).Some? ==> exists i :: from <= i < |NAMES| && NAMES[i] == (key, Lookup(key, from).value)
    decreases |NAMES| - from
  {
    if from < |NAMES| && NAMES[from].0 != key {
      LookupFinds(key, from + 1);
    }
  }

  /** A key stands for a parameter exactly when it is one of its names. */
  lemma ParamOfExactly(key: string, p: Param)
    ensures ParamOf(key) == Some(p) <==> key in NamesOf(p)
  {
    LookupFinds(key, 0);
    if ParamOf(key).Some? {
      var i :| 0 <= i < |NAMES| && NAMES[i] == (key, ParamOf(key).value);
      RowIsNamed(i);
      if key in NamesOf(p) { NamesAreApart(key, p, ParamOf(key).value); }
    } else if key in NamesOf(p) {
      NamesAreListed(p, key);
    }
  }

  /** The compatibility pairs, by the assignments they make. */
  lemma ExpandExactly(key: string, value: string)
    ensures Expand(key, value) == Some([(Fit, "cover")]) <==> key == "c" && value == "fill"
    ensures Expand(key, value) == Some([(Fit, "inside")]) <==> key == "c" && value == "fit"
    ensures Expand(key, value) == Some([(Fit, "fill")]) <==> key == "c" && value == "scale"
    ensures Expand(key, value) == Some([(Fit, "contain")]) <==> key == "c" && value == "pad"
    ensures Expand(key, value) == Some([(F, "auto")]) <==> key == "auto" && value == "format"
    ensures Expand(key, value) == Some([(Q, "auto")]) <==> key == "auto" && value == "compress"
    ensures Expand(key, value) == Some([(F, "auto"), (Q, "auto")]) <==>
            key == "auto" && value in {"format,compress", "compress,format"}
    ensures Expand(key, value).Some? <==>
            || (key == "c" && value in {"fill", "fit", "scale", "pad"})
            || (key == "auto" && value in {"format", "compress", "format,compress", "compress,format"})
  {
  }

  /** The texts that ask for a fit. */
  lemma FitExactly(s: string)
    ensures ParseFit(s) == Some(ScaleDown) <==> s in {"scale-down", "max"}
    ensures ParseFit(s) == Some(Cover) <==> s in {"cover", "crop"}
    ensures ParseFit(s) == Some(Contain) <==> s in {"contain", "pad"}
    ensures ParseFit(s) == Some(Fill) <==> s in {"fill", "squeeze", "scale"}
    ensures ParseFit(s) == Some(Inside) <==> s in {"inside", "clip"}
    ensures ParseFit(s) == Some(Outside) <==> s in {"outside", "min"}
    ensures ParseFit(s) == Some(NoFit) <==> s == "none"
  {
  }

  /** The other closed vocabularies read back what they print and nothing else. */
  lemma ReadsOnlyPrinted(s: string)
    ensures ParseFormat(s).Some? ==> s == PrintFormat(ParseFormat(s).value)
    ensures ParseKeyword(s).Some? ==> s == PrintKeyword(ParseKeyword(s).value)
    ensures ParseFlip(s).Some? ==> s == PrintFlip(ParseFlip(s).value)
  {
  }

  lemma FormatRoundTrip(f: Format)
    ensures ParseFormat(PrintFormat(f)) == Some(f)
  {
  }

  lemma FitRoundTrip(f: FitMode)
    ensures ParseFit(PrintFit(f)) == Some(f)
  {
  }

  lemma KeywordRoundTrip(k: Keyword)
    ensures ParseKeyword(PrintKeyword(k)) == Some(k)
  {
  }

  lemma FlipRoundTrip(f: FlipMode)
    ensures ParseFlip(PrintFlip(f)) == Some(f)
  {
  }
}
