// The grammar of object keys, the keys the platform makes, and the paths they
// become in a directory store.
module ObjectKeys {
  import opened Wrappers
  import opened Strings

  const MAX_KEY_LENGTH := 1024

  datatype KeyError = BadLength | BadSegment | DeviceName | NotAUlid | NoExtension | NotAHash

  // ---- The grammar ----

  predicate IsUpper(c: char) { 'A' <= c <= 'Z' }

  predicate IsAlphanumeric(c: char) {
    IsUpper(c) || 'a' <= c <= 'z' || '0' <= c <= '9'
  }

  predicate IsSegmentChar(c: char) {
    IsAlphanumeric(c) || c == '_' || c == '=' || c == '-' || c == '.'
  }

  predicate IsSegment(s: string) {
    s != "" && s[0] != '.' && forall i :: 0 <= i < |s| ==> IsSegmentChar(s[i])
  }

  function Lower(s: string): (r: string)
    ensures |r| == |s|
  {
    seq(|s|, i requires 0 <= i < |s| => if IsUpper(s[i]) then s[i] - 'A' + 'a' else s[i])
  }

  /** con, prn, aux, nul, com0-com9, lpt0-lpt9, in any case. */
  predicate IsDevice(stem: string) {
    var s := Lower(stem);
    || s == "con" || s == "prn" || s == "aux" || s == "nul"
    || (|s| == 4 && (s[..3] == "com" || s[..3] == "lpt") && '0' <= s[3] <= '9')
  }

  function Stem(segment: string): string {
    segment[..IndexOf(segment, '.')]
  }

  function CheckSegments(segments: seq<string>): Result<(), KeyError> {
    if segments == [] then Ok(())
    else if !IsSegment(segments[0]) then Err(BadSegment)
    else if IsDevice(Stem(segments[0])) then Err(DeviceName)
    else CheckSegments(segments[1..])
  }

  function ValidateObjectKey(key: string): Result<string, KeyError> {
    if key == "" || |key| > MAX_KEY_LENGTH then Err(BadLength)
    else
      var checked :- CheckSegments(Split(key, '/'));
      Ok(key)
  }

  /** The empty prefix, or a key with or without a final slash. */
  function ValidatePrefix(prefix: string): Result<string, KeyError> {
    if prefix == "" then Ok(prefix)
    else
      var trimmed := if prefix[|prefix| - 1] == '/' then prefix[..|prefix| - 1] else prefix;
      var checked :- ValidateObjectKey(trimmed);
      Ok(prefix)
  }

  predicate IsPlainSegment(s: string) {
    IsSegment(s) && !IsDevice(Stem(s))
  }

  lemma {:induction false} CheckedSegments(segments: seq<string>)
    ensures CheckSegments(segments).Ok? <==> forall i :: 0 <= i < |segments| ==> IsPlainSegment(segments[i])
  {
    if segments == [] {
    } else {
      CheckedSegments(segments[1..]);
      assert forall i :: 0 < i < |segments| ==> segments[i] == segments[1..][i - 1];
      assert forall i :: 0 <= i < |segments[1..]| ==> segments[1..][i] == segments[i + 1];
    }
  }

  predicate AllPlain(segments: seq<string>) {
    forall i :: 0 <= i < |segments| ==> IsPlainSegment(segments[i])
  }

  /** Plain segments joined by slashes are accepted, unless they are too long. */
  lemma PlainPathsAreValid(segments: seq<string>)
    requires segments != [] && AllPlain(segments)
    ensures ValidateObjectKey(Join(segments, '/')).Ok? <==> |Join(segments, '/')| <= MAX_KEY_LENGTH
  {
    assert forall i :: 0 <= i < |segments| ==> '/' !in segments[i];
    SplitJoin(segments, '/');
    CheckedSegments(segments);
    assert IsPlainSegment(segments[0]) && segments[0] != "";
  }

  /** And whatever is accepted is of that form. */
  lemma ValidKeysArePlainPaths(key: string)
    requires ValidateObjectKey(key).Ok?
    ensures exists segments :: segments != [] && AllPlain(segments) && Join(segments, '/') == key
  {
    CheckedSegments(Split(key, '/'));
    JoinSplit(key, '/');
    assert AllPlain(Split(key, '/'));
  }

  // ---- What is refused, and why ----

  /** A segment is letters, digits and four marks, and starts with no dot; a ULID has no I, L, O or U. */
  lemma CharactersExactly(s: string)
    ensures IsSegment(s) <==>
      && |s| > 0 && s[0] != '.'
      && forall i :: 0 <= i < |s| ==>
           'A' <= s[i] <= 'Z' || 'a' <= s[i] <= 'z' || '0' <= s[i] <= '9' || s[i] in {'.', '_', '=', '-'}
    ensures IsUlid(s) <==>
      |s| == 26 && forall i :: 0 <= i < |s| ==>
        ('A' <= s[i] <= 'Z' || '0' <= s[i] <= '9') && s[i] !in {'I', 'L', 'O', 'U'}
    ensures IsParamsHash(s) <==>
      16 <= |s| <= 128 && forall i :: 0 <= i < |s| ==> '0' <= s[i] <= '9' || 'a' <= s[i] <= 'f'
  {
  }

  /** The reserved device names, in any case. */
  lemma DevicesExactly(stem: string)
    ensures forall i :: 0 <= i < |stem| ==>
      var c, l := stem[i], Lower(stem)[i];
      if 'A' <= c <= 'Z' then 'a' <= l <= 'z' && l as int - 'a' as int == c as int - 'A' as int else l == c
    ensures IsDevice(stem) <==>
      || Lower(stem) in {"con", "prn", "aux", "nul"}
      || exists d: char :: '0' <= d <= '9' && (Lower(stem) == "com" + [d] || Lower(stem) == "lpt" + [d])
  {
    var s := Lower(stem);
    if |s| == 4 {
      assert s == s[..3] + [s[3]];
    }
  }

  /** The segment up to its first dot, or all of it. */
  lemma StemExactly(segment: string, stem: string)
    requires '.' !in stem
    ensures Stem(segment) == stem <==> segment == stem || stem + "." <= segment
  {
    if segment == stem {
      IndexOfAbsent(stem, '.');
    } else if stem + "." <= segment {
      IndexOfFirst(stem, '.', segment[|stem| + 1..]);
      assert segment == stem + ['.'] + segment[|stem| + 1..];
    } else {
      IndexOfAbsent(segment, '.');
    }
  }

  /** The first segment that is not one, or is a device's, decides the refusal. */
  lemma {:induction false} CheckStopsAtFirst(segments: seq<string>, i: nat)
    requires i < |segments| && AllPlain(segments[..i]) && !IsPlainSegment(segments[i])
    ensures CheckSegments(segments) == Err(if IsSegment(segments[i]) then DeviceName else BadSegment)
  {
    if i > 0 {
      assert segments[..i][0] == segments[0];
      assert segments[1..][i - 1] == segments[i];
      assert segments[1..][..i - 1] == segments[..i][1..];
      CheckStopsAtFirst(segments[1..], i - 1);
    }
  }

  /** Which key is refused for what: its length first, then its first bad segment. */
  lemma ValidationMeans(key: string, i: nat)
    ensures ValidateObjectKey(key) == Err(BadLength) <==> |key| == 0 || |key| > 1024
    ensures var segments := Split(key, '/');
      1 <= |key| <= 1024 && i < |segments| && AllPlain(segments[..i]) && !IsPlainSegment(segments[i]) ==>
        ValidateObjectKey(key) == Err(if IsSegment(segments[i]) then DeviceName else BadSegment)
    ensures ValidateObjectKey(key).Ok? <==> 1 <= |key| <= 1024 && AllPlain(Split(key, '/'))
    ensures ValidateObjectKey(key).Ok? ==> ValidateObjectKey(key).value == key
  {
    var segments := Split(key, '/');
    CheckedSegments(segments);
    if i < |segments| && AllPlain(segments[..i]) && !IsPlainSegment(segments[i]) { CheckStopsAtFirst(segments, i); }
    NeverBadLength(segments);
  }

  lemma {:induction false} NeverBadLength(segments: seq<string>)
    ensures CheckSegments(segments).Err? ==> CheckSegments(segments).error in {BadSegment, DeviceName}
  {
    if segments == [] {
    } else {
      NeverBadLength(segments[1..]);
    }
  }

  /** A prefix is accepted when it is empty, a key, or a key with a slash after it; and is answered as it is. */
  lemma PrefixesExactly(prefix: string)
    ensures ValidatePrefix(prefix).Ok? <==>
      || prefix == ""
      || ValidateObjectKey(prefix).Ok?
      || exists key :: prefix == key + "/" && ValidateObjectKey(key).Ok?
    ensures ValidatePrefix(prefix).Ok? ==> ValidatePrefix(prefix).value == prefix
  {
    if prefix != "" && prefix[|prefix| - 1] == '/' {
      var trimmed := prefix[..|prefix| - 1];
      assert prefix == trimmed + "/";
      forall key | prefix == key + "/" ensures key == trimmed { assert (key + "/")[..|key|] == key; }
      SlashEndsInvalid(trimmed);
    }
  }

  lemma SlashEndsInvalid(key: string)
    ensures ValidateObjectKey(key + "/").Err?
  {
    var whole := key + "/";
    JoinSplit(whole, '/');
    var parts := Split(key, '/') + [""];
    JoinSplit(key, '/');
    JoinConcat(Split(key, '/'), [""], '/');
    assert Join([""], '/') == "";
    assert Join(parts, '/') == key + ['/'] + "" == whole;
    JoinInjective(Split(whole, '/'), parts, '/');
    CheckedSegments(Split(whole, '/'));
    assert !IsPlainSegment(parts[|parts| - 1]);
  }

  // ---- The key scheme ----

  predicate IsUlidChar(c: char) {
    '0' <= c <= '9' || (IsUpper(c) && c != 'I' && c != 'L' && c != 'O' && c != 'U')
  }

  predicate IsUlid(s: string) {
    |s| == 26 && forall i :: 0 <= i < |s| ==> IsUlidChar(s[i])
  }

  predicate IsParamsHash(s: string) {
    16 <= |s| <= 128 && forall i :: 0 <= i < |s| ==> '0' <= s[i] <= '9' || 'a' <= s[i] <= 'f'
  }

  function ExtensionOfMediaType(mediaType: string): Option<string> {
    if mediaType == "image/jpeg" then Some("jpg")
    else if mediaType == "image/png" then Some("png")
    else if mediaType == "image/webp" then Some("webp")
    else if mediaType == "image/avif" then Some("avif")
    else if mediaType == "image/gif" then Some("gif")
    else if mediaType == "image/tiff" then Some("tif")
    else if mediaType == "image/heic" then Some("heic")
    else if mediaType == "image/heif" then Some("heif")
    else None
  }

  datatype OutputFormat = Avif | Webp | Jpeg | Png

  function ExtensionOfFormat(format: OutputFormat): string {
    match format case Avif => "avif" case Webp => "webp" case Jpeg => "jpg" case Png => "png"
  }

  /** The ids every key starts from. */
  datatype Place = Place(tenantId: string, projectId: string, assetId: string, versionId: string)

  predicate IsPlace(p: Place) {
    IsUlid(p.tenantId) && IsUlid(p.projectId) && IsUlid(p.assetId) && IsUlid(p.versionId)
  }

  function OriginalSegments(p: Place, extension: string): seq<string> {
    [p.tenantId, p.projectId, "originals", p.assetId, p.versionId + "." + extension]
  }

  function DerivativeDirectory(p: Place): seq<string> {
    [p.tenantId, p.projectId, "derivatives", p.assetId, p.versionId]
  }

  function DerivativeSegments(p: Place, paramsHash: string, format: OutputFormat): seq<string> {
    DerivativeDirectory(p) + [paramsHash + "." + ExtensionOfFormat(format)]
  }

  function OriginalObjectKey(p: Place, mediaType: string): Result<string, KeyError> {
    var extension := ExtensionOfMediaType(mediaType);
    if extension.None? then Err(NoExtension)
    else if !IsPlace(p) then Err(NotAUlid)
    else ValidateObjectKey(Join(OriginalSegments(p, extension.value), '/'))
  }

  function DerivativeObjectKey(p: Place, paramsHash: string, format: OutputFormat): Result<string, KeyError> {
    if !IsParamsHash(paramsHash) then Err(NotAHash)
    else if !IsPlace(p) then Err(NotAUlid)
    else ValidateObjectKey(Join(DerivativeSegments(p, paramsHash, format), '/'))
  }

  function DerivativePrefix(p: Place): Result<string, KeyError> {
    if !IsPlace(p) then Err(NotAUlid) else Ok(Join(DerivativeDirectory(p), '/') + "/")
  }

  // ---- Keys the platform makes are valid ----

  predicate IsWord(s: string) {
    |s| > 4 && forall i :: 0 <= i < |s| ==> IsAlphanumeric(s[i])
  }

  predicate Fits(s: string) {
    IsPlainSegment(s) && '/' !in s && |s| < 150
  }

  predicate AllFit(segments: seq<string>) {
    forall i :: 0 <= i < |segments| ==> Fits(segments[i])
  }

  /** A long enough word is a segment and no device. */
  lemma WordFits(word: string)
    requires IsWord(word) && |word| < 140
    ensures Fits(word)
  {
    assert '.' !in word;
    IndexOfAbsent(word, '.');
  }

  /** So is a word with an extension. */
  lemma DottedFits(word: string, extension: string)
    requires IsWord(word) && |word| < 140 && |extension| <= 4
    requires forall i :: 0 <= i < |extension| ==> IsAlphanumeric(extension[i])
    ensures Fits(word + "." + extension)
  {
    assert '.' !in word;
    IndexOfFirst(word, '.', extension);
    assert word + "." + extension == word + ['.'] + extension;
  }

  lemma UlidFits(s: string)
    requires IsUlid(s)
    ensures Fits(s) && IsWord(s)
  {
    WordFits(s);
  }

  lemma {:induction false} JoinLength(segments: seq<string>, bound: nat)
    requires forall i :: 0 <= i < |segments| ==> |segments[i]| < bound
    ensures |Join(segments, '/')| <= |segments| * bound
  {
    if |segments| > 1 {
      JoinLength(segments[1..], bound);
      assert |segments| * bound == bound + (|segments| - 1) * bound;
    } else if |segments| == 1 {
      assert |segments| * bound == bound;
    }
  }

  lemma PlainSegmentsMakeValidKeys(segments: seq<string>)
    requires segments != [] && |segments| <= 6
    requires AllFit(segments)
    ensures ValidateObjectKey(Join(segments, '/')) == Ok(Join(segments, '/'))
  {
    JoinLength(segments, 150);
    assert |segments| * 150 <= 900;
    assert AllPlain(segments);
    PlainPathsAreValid(segments);
  }

  lemma PlaceFits(p: Place)
    requires IsPlace(p)
    ensures Fits(p.tenantId) && Fits(p.projectId) && Fits(p.assetId) && Fits(p.versionId) && IsWord(p.versionId)
  {
    UlidFits(p.tenantId);
    UlidFits(p.projectId);
    UlidFits(p.assetId);
    UlidFits(p.versionId);
  }

  lemma FiveFit(a: string, b: string, c: string, d: string, e: string)
    requires Fits(a) && Fits(b) && Fits(c) && Fits(d) && Fits(e)
    ensures AllFit([a, b, c, d, e])
  {
  }

  lemma OriginalSegmentsFit(p: Place, extension: string)
    requires IsPlace(p) && |extension| <= 4 && forall i :: 0 <= i < |extension| ==> IsAlphanumeric(extension[i])
    ensures AllFit(OriginalSegments(p, extension))
  {
    PlaceFits(p);
    WordFits("originals");
    DottedFits(p.versionId, extension);
    FiveFit(p.tenantId, p.projectId, "originals", p.assetId, p.versionId + "." + extension);
  }

  lemma DerivativeDirectoryFits(p: Place)
    requires IsPlace(p)
    ensures AllFit(DerivativeDirectory(p))
  {
    PlaceFits(p);
    WordFits("derivatives");
    FiveFit(p.tenantId, p.projectId, "derivatives", p.assetId, p.versionId);
  }

  lemma DerivativeSegmentsFit(p: Place, paramsHash: string, format: OutputFormat)
    requires IsPlace(p) && IsParamsHash(paramsHash)
    ensures AllFit(DerivativeSegments(p, paramsHash, format))
  {
    DerivativeDirectoryFits(p);
    assert IsWord(paramsHash);
    DottedFits(paramsHash, ExtensionOfFormat(format));
  }

  lemma MediaExtensionIsAlphanumeric(mediaType: string)
    requires ExtensionOfMediaType(mediaType).Some?
    ensures var e := ExtensionOfMediaType(mediaType).value;
      |e| <= 4 && forall i :: 0 <= i < |e| ==> IsAlphanumeric(e[i])
  {
  }

  /** Well-formed parts always make a key, and nothing else does. */
  lemma OriginalKeysExist(p: Place, mediaType: string)
    ensures OriginalObjectKey(p, mediaType).Ok? <==> IsPlace(p) && ExtensionOfMediaType(mediaType).Some?
    ensures OriginalObjectKey(p, mediaType).Ok? ==>
      OriginalObjectKey(p, mediaType).value == Join(OriginalSegments(p, ExtensionOfMediaType(mediaType).value), '/')
  {
    if IsPlace(p) && ExtensionOfMediaType(mediaType).Some? {
      var extension := ExtensionOfMediaType(mediaType).value;
      MediaExtensionIsAlphanumeric(mediaType);
      OriginalSegmentsFit(p, extension);
      PlainSegmentsMakeValidKeys(OriginalSegments(p, extension));
    }
  }

  lemma DerivativeKeysExist(p: Place, paramsHash: string, format: OutputFormat)
    ensures DerivativeObjectKey(p, paramsHash, format).Ok? <==> IsPlace(p) && IsParamsHash(paramsHash)
    ensures DerivativeObjectKey(p, paramsHash, format).Ok? ==>
      DerivativeObjectKey(p, paramsHash, format).value == Join(DerivativeSegments(p, paramsHash, format), '/')
  {
    if IsPlace(p) && IsParamsHash(paramsHash) {
      DerivativeSegmentsFit(p, paramsHash, format);
      PlainSegmentsMakeValidKeys(DerivativeSegments(p, paramsHash, format));
    }
  }

  lemma JoinFive(a: string, b: string, c: string, d: string, e: string)
    ensures Join([a, b, c, d, e], '/') == a + "/" + b + "/" + c + "/" + d + "/" + e
  {
    JoinConcat([a, b, c, d], [e], '/');
    JoinConcat([a, b, c], [d], '/');
    JoinConcat([a, b], [c], '/');
    JoinConcat([a], [b], '/');
    assert [a] + [b] == [a, b] && [a, b] + [c] == [a, b, c];
    assert [a, b, c] + [d] == [a, b, c, d] && [a, b, c, d] + [e] == [a, b, c, d, e];
  }

  /** The keys as text. */
  lemma OriginalText(p: Place, mediaType: string)
    requires OriginalObjectKey(p, mediaType).Ok?
    ensures OriginalObjectKey(p, mediaType).value ==
      p.tenantId + "/" + p.projectId + "/originals/" + p.assetId + "/" + p.versionId + "." + ExtensionOfMediaType(mediaType).value
  {
    OriginalKeysExist(p, mediaType);
    var name := p.versionId + "." + ExtensionOfMediaType(mediaType).value;
    JoinFive(p.tenantId, p.projectId, "originals", p.assetId, name);
    var before := p.tenantId + "/" + p.projectId + "/" + "originals" + "/" + p.assetId + "/";
    assert before == p.tenantId + "/" + p.projectId + "/originals/" + p.assetId + "/";
    assert before + name == before + p.versionId + "." + ExtensionOfMediaType(mediaType).value;
  }

  lemma DerivativeText(p: Place, paramsHash: string, format: OutputFormat)
    requires IsPlace(p)
    ensures DerivativePrefix(p) ==
      Ok(p.tenantId + "/" + p.projectId + "/derivatives/" + p.assetId + "/" + p.versionId + "/")
    ensures DerivativeObjectKey(p, paramsHash, format).Ok? ==>
      DerivativeObjectKey(p, paramsHash, format).value ==
        DerivativePrefix(p).value + paramsHash + "."
        + match format case Avif => "avif" case Webp => "webp" case Jpeg => "jpg" case Png => "png"
  {
    DerivativeKeysExist(p, paramsHash, format);
    JoinFive(p.tenantId, p.projectId, "derivatives", p.assetId, p.versionId);
    var before := p.tenantId + "/" + p.projectId + "/" + "derivatives" + "/";
    assert before == p.tenantId + "/" + p.projectId + "/derivatives/";
    var name := paramsHash + "." + ExtensionOfFormat(format);
    JoinConcat(DerivativeDirectory(p), [name], '/');
    var directory := DerivativePrefix(p).value;
    assert directory + name == directory + paramsHash + "." + ExtensionOfFormat(format);
  }

  lemma ExtensionsExactly(mediaType: string)
    ensures ExtensionOfMediaType(mediaType) == Some("jpg") <==> mediaType == "image/jpeg"
    ensures ExtensionOfMediaType(mediaType) == Some("tif") <==> mediaType == "image/tiff"
    ensures ExtensionOfMediaType(mediaType).Some? && ExtensionOfMediaType(mediaType).value !in {"jpg", "tif"} ==>
            mediaType == "image/" + ExtensionOfMediaType(mediaType).value
    ensures ExtensionOfMediaType(mediaType).Some? <==>
            mediaType in {"image/jpeg", "image/png", "image/webp", "image/avif",
                          "image/gif", "image/tiff", "image/heic", "image/heif"}
  {
  }

  // ---- Keys as path segments ----

  /** A key the scheme makes, with the segments it is made of. */
  datatype Made = Original(place: Place, mediaType: string) | Derivative(place: Place, paramsHash: string, format: OutputFormat)

  function KeyOf(m: Made): Result<string, KeyError> {
    match m
    case Original(p, mediaType) => OriginalObjectKey(p, mediaType)
    case Derivative(p, paramsHash, format) => DerivativeObjectKey(p, paramsHash, format)
  }

  lemma MadeKeysAreValid(m: Made)
    requires KeyOf(m).Ok?
    ensures ValidateObjectKey(KeyOf(m).value).Ok?
  {
  }

  function SegmentsOf(m: Made): seq<string>
    requires KeyOf(m).Ok?
  {
    match m
    case Original(p, mediaType) => OriginalSegments(p, ExtensionOfMediaType(mediaType).value)
    case Derivative(p, paramsHash, format) => DerivativeSegments(p, paramsHash, format)
  }

  lemma SegmentsAreSlashFree(segments: seq<string>)
    requires AllFit(segments)
    ensures forall i :: 0 <= i < |segments| ==> '/' !in segments[i]
  {
  }

  lemma KeyIsJoined(m: Made)
    requires KeyOf(m).Ok?
    ensures KeyOf(m).value == Join(SegmentsOf(m), '/')
    ensures Split(KeyOf(m).value, '/') == SegmentsOf(m)
    ensures AllFit(SegmentsOf(m))
  {
    match m {
      case Original(p, mediaType) =>
        OriginalKeysExist(p, mediaType);
        MediaExtensionIsAlphanumeric(mediaType);
        OriginalSegmentsFit(p, ExtensionOfMediaType(mediaType).value);
      case Derivative(p, paramsHash, format) =>
        DerivativeKeysExist(p, paramsHash, format);
        DerivativeSegmentsFit(p, paramsHash, format);
    }
    SegmentsAreSlashFree(SegmentsOf(m));
    SplitJoin(SegmentsOf(m), '/');
  }

  lemma DottedInjective(a: string, x: string, b: string, y: string)
    requires '.' !in a && '.' !in b && a + "." + x == b + "." + y
    ensures a == b && x == y
  {
    IndexOfFirst(a, '.', x);
    IndexOfFirst(b, '.', y);
    assert a + "." + x == a + ['.'] + x && b + "." + y == b + ['.'] + y;
  }

  lemma ExtensionsInjective(a: string, b: string, f: OutputFormat, g: OutputFormat)
    ensures ExtensionOfMediaType(a).Some? && ExtensionOfMediaType(a) == ExtensionOfMediaType(b) ==> a == b
    ensures ExtensionOfFormat(f) == ExtensionOfFormat(g) ==> f == g
  {
  }

  lemma SegmentsInjective(m: Made, n: Made)
    requires KeyOf(m).Ok? && KeyOf(n).Ok? && SegmentsOf(m) == SegmentsOf(n)
    ensures m == n
  {
    var s, t := SegmentsOf(m), SegmentsOf(n);
    assert |s| == |t| && s[0] == t[0] && s[1] == t[1] && s[3] == t[3] && s[4] == t[4];
    if m.Original? {
      OriginalKeysExist(m.place, m.mediaType);
      OriginalKeysExist(n.place, n.mediaType);
      DottedInjective(m.place.versionId, ExtensionOfMediaType(m.mediaType).value,
                      n.place.versionId, ExtensionOfMediaType(n.mediaType).value);
      ExtensionsInjective(m.mediaType, n.mediaType, Avif, Avif);
    } else {
      assert s[5] == t[5];
      DerivativeKeysExist(m.place, m.paramsHash, m.format);
      DerivativeKeysExist(n.place, n.paramsHash, n.format);
      DottedInjective(m.paramsHash, ExtensionOfFormat(m.format), n.paramsHash, ExtensionOfFormat(n.format));
      ExtensionsInjective("", "", m.format, n.format);
    }
  }

  /** Two makings share a key only when they are the same; so originals and derivatives are disjoint. */
  lemma KeysAreInjective(m: Made, n: Made)
    requires KeyOf(m).Ok? && KeyOf(n).Ok? && KeyOf(m) == KeyOf(n)
    ensures m == n
  {
    KeyIsJoined(m);
    KeyIsJoined(n);
    SegmentsInjective(m, n);
  }

  lemma DirectoryHoldsItsOwn(p: Place, m: Made)
    requires KeyOf(m).Ok?
    ensures DerivativeDirectory(p) < SegmentsOf(m) <==> m.Derivative? && m.place == p
  {
    var d, s := DerivativeDirectory(p), SegmentsOf(m);
    if d < s {
      assert d[0] == s[0] && d[1] == s[1] && d[2] == s[2] && d[3] == s[3] && d[4] == s[4];
    }
    if m.Derivative? && m.place == p {
      assert s == d + [s[5]];
    }
  }

  /** A derivative prefix starts exactly the derivatives of its tenant, project, asset and version. */
  lemma DerivativePrefixIsExact(p: Place, m: Made)
    requires DerivativePrefix(p).Ok? && KeyOf(m).Ok?
    ensures DerivativePrefix(p).value <= KeyOf(m).value <==> m.Derivative? && m.place == p
  {
    KeyIsJoined(m);
    DerivativeDirectoryFits(p);
    SegmentsAreSlashFree(DerivativeDirectory(p));
    SegmentsAreSlashFree(SegmentsOf(m));
    JoinedPrefix(DerivativeDirectory(p), SegmentsOf(m), '/');
    DirectoryHoldsItsOwn(p, m);
  }

  /** Tenant and project together start exactly their own keys. */
  lemma TenancyPrefixIsExact(tenantId: string, projectId: string, m: Made)
    requires IsUlid(tenantId) && IsUlid(projectId) && KeyOf(m).Ok?
    ensures tenantId + "/" + projectId + "/" <= KeyOf(m).value <==>
            m.place.tenantId == tenantId && m.place.projectId == projectId
  {
    KeyIsJoined(m);
    SegmentsAreSlashFree(SegmentsOf(m));
    StartsWithTwo(tenantId, projectId, SegmentsOf(m));
    SegmentsStartWithPlace(m);
  }

  lemma SegmentsStartWithPlace(m: Made)
    requires KeyOf(m).Ok?
    ensures |SegmentsOf(m)| > 2 && SegmentsOf(m)[0] == m.place.tenantId && SegmentsOf(m)[1] == m.place.projectId
  {
  }

  lemma StartsWithTwo(a: string, b: string, s: seq<string>)
    requires '/' !in a && '/' !in b && |s| > 2 && forall i :: 0 <= i < |s| ==> '/' !in s[i]
    ensures a + "/" + b + "/" <= Join(s, '/') <==> a == s[0] && b == s[1]
  {
    var d := [a, b];
    JoinedPrefix(d, s, '/');
    assert d[1..] == [b];
    assert Join(d, '/') + ['/'] == a + "/" + b + "/";
    if a == s[0] && b == s[1] {
      assert d == s[..2];
    }
  }

  // ---- Keys as paths in a directory store ----

  function ObjectPath(key: string): seq<string> {
    Split(key, '/')
  }

  /** .meta/<the key's directories>/<its name>.json */
  function SidecarPath(key: string): seq<string> {
    var path := Split(key, '/');
    [".meta"] + path[..|path| - 1] + [path[|path| - 1] + ".json"]
  }

  /** One path would have to be a directory for the other to exist. */
  predicate Obstructs(a: seq<string>, b: seq<string>) {
    a < b
  }

  lemma OriginalAndDerivativePaths(m: Made)
    requires KeyOf(m).Ok?
    ensures |ObjectPath(KeyOf(m).value)| == if m.Original? then 5 else 6
    ensures ObjectPath(KeyOf(m).value)[2] == if m.Original? then "originals" else "derivatives"
    ensures ObjectPath(KeyOf(m).value)[0][0] != '.'
  {
    KeyIsJoined(m);
    assert Fits(SegmentsOf(m)[0]);
  }

  lemma DifferingDoNotNest(a: seq<string>, b: seq<string>, i: nat)
    requires i < |a| && i < |b| && a[i] != b[i]
    ensures !Obstructs(a, b)
  {
  }

  /**
   * No object's path, and no sidecar's, is a proper prefix of any other: no
   * file stands where another needs a directory.
   */
  lemma PathsDoNotNest(m: Made, n: Made)
    requires KeyOf(m).Ok? && KeyOf(n).Ok?
    ensures !Obstructs(ObjectPath(KeyOf(m).value), ObjectPath(KeyOf(n).value))
    ensures !Obstructs(SidecarPath(KeyOf(m).value), SidecarPath(KeyOf(n).value))
    ensures !Obstructs(ObjectPath(KeyOf(m).value), SidecarPath(KeyOf(n).value))
    ensures !Obstructs(SidecarPath(KeyOf(m).value), ObjectPath(KeyOf(n).value))
  {
    OriginalAndDerivativePaths(m);
    OriginalAndDerivativePaths(n);
    var a, b := ObjectPath(KeyOf(m).value), ObjectPath(KeyOf(n).value);
    var c, d := SidecarPath(KeyOf(m).value), SidecarPath(KeyOf(n).value);
    assert c[3] == a[2] && d[3] == b[2] && c[0] == d[0] == ".meta";
    if m.Original? != n.Original? {
      DifferingDoNotNest(a, b, 2);
      DifferingDoNotNest(c, d, 3);
    }
    DifferingDoNotNest(a, d, 0);
    DifferingDoNotNest(c, b, 0);
  }

  /** Any two valid keys: one's path runs through the other exactly when it continues it after a slash. */
  lemma ValidPathsNestExactly(a: string, b: string)
    requires ValidateObjectKey(a).Ok? && ValidateObjectKey(b).Ok?
    ensures Obstructs(ObjectPath(a), ObjectPath(b)) <==> a + "/" <= b
  {
    JoinSplit(a, '/');
    JoinSplit(b, '/');
    JoinedPrefix(Split(a, '/'), Split(b, '/'), '/');
  }

  lemma {:induction false} JoinExtended(path: seq<string>, x: string)
    requires path != []
    ensures Join(path[..|path| - 1] + [path[|path| - 1] + x], '/') == Join(path, '/') + x
    decreases |path|
  {
    var n := |path| - 1;
    var extended := path[..n] + [path[n] + x];
    if n == 0 {
      assert extended == [path[0] + x];
    } else {
      var tail := path[1..];
      JoinExtended(tail, x);
      assert extended[0] == path[0] && extended[1..] == tail[..n - 1] + [tail[n - 1] + x];
      Behind(path[0], Join(tail, '/'), x);
    }
  }

  lemma Behind(head: string, tail: string, x: string)
    ensures head + ['/'] + (tail + x) == head + ['/'] + tail + x
  {
  }

  lemma SidecarIsJoined(key: string)
    ensures Join(SidecarPath(key), '/') == ".meta/" + key + ".json"
    ensures forall i :: 0 <= i < |SidecarPath(key)| ==> '/' !in SidecarPath(key)[i]
  {
    JoinSplit(key, '/');
    SidecarOf(Split(key, '/'));
    MetaFirst(key);
  }

  lemma SidecarOf(path: seq<string>)
    requires path != [] && forall i :: 0 <= i < |path| ==> '/' !in path[i]
    ensures var side := [".meta"] + path[..|path| - 1] + [path[|path| - 1] + ".json"];
      Join(side, '/') == ".meta" + ['/'] + (Join(path, '/') + ".json") && forall i :: 0 <= i < |side| ==> '/' !in side[i]
  {
    JoinExtended(path, ".json");
    var below := path[..|path| - 1] + [path[|path| - 1] + ".json"];
    assert [".meta"] + path[..|path| - 1] + [path[|path| - 1] + ".json"] == [".meta"] + below;
    JoinConcat([".meta"], below, '/');
    assert '/' !in ".json" && '/' !in ".meta";
  }

  lemma MetaFirst(key: string)
    ensures ".meta" + ['/'] + (key + ".json") == ".meta/" + key + ".json"
  {
  }

  lemma JsonHasNoSlash(key: string, j: nat)
    requires |key| + 6 <= j < |key| + 11
    ensures (".meta/" + key + ".json")[j] != '/'
  {
  }

  lemma JsonEndsTheKey(a: string, b: string)
    ensures ".meta/" + a + ".json" + "/" <= ".meta/" + b + ".json" <==> a + ".json/" <= b
  {
    var s, t := ".meta/" + a + ".json" + "/", ".meta/" + b + ".json";
    if s <= t {
      assert t[|s| - 1] == s[|s| - 1] == '/';
      if |a| + 6 > |b| {
        JsonHasNoSlash(b, |s| - 1);
        assert false;
      }
      assert a + ".json/" == s[6..] == t[6..|s|] == b[..|a| + 6];
    }
    if a + ".json/" <= b {
      assert b == (a + ".json/") + b[|a| + 6..];
      assert t == s + (b[|a| + 6..] + ".json");
    }
  }

  /** The sidecars of any two keys: one's path runs through the other exactly when the key continues it past its .json. */
  lemma SidecarPathsNestExactly(a: string, b: string)
    ensures Obstructs(SidecarPath(a), SidecarPath(b)) <==> a + ".json/" <= b
  {
    SidecarIsJoined(a);
    SidecarIsJoined(b);
    JoinedPrefix(SidecarPath(a), SidecarPath(b), '/');
    JsonEndsTheKey(a, b);
  }

  lemma SidecarSegmentsInjective(p: seq<string>, q: seq<string>)
    requires p != [] && q != []
    requires [".meta"] + p[..|p| - 1] + [p[|p| - 1] + ".json"] == [".meta"] + q[..|q| - 1] + [q[|q| - 1] + ".json"]
    ensures p == q
  {
    var s, t := [".meta"] + p[..|p| - 1] + [p[|p| - 1] + ".json"], [".meta"] + q[..|q| - 1] + [q[|q| - 1] + ".json"];
    var n := |p|;
    assert |s| == n + 1 && |t| == |q| + 1;
    assert s[n] == t[n];
    assert (p[n - 1] + ".json")[..|p[n - 1] + ".json"| - 5] == p[n - 1];
    assert (q[n - 1] + ".json")[..|q[n - 1] + ".json"| - 5] == q[n - 1];
    assert s[1..n] == p[..n - 1] && t[1..n] == q[..n - 1];
    assert p == p[..n - 1] + [p[n - 1]] && q == q[..n - 1] + [q[n - 1]];
  }

  lemma PathsAreInjective(a: string, b: string)
    ensures ObjectPath(a) == ObjectPath(b) ==> a == b
    ensures SidecarPath(a) == SidecarPath(b) ==> a == b
  {
    JoinSplit(a, '/');
    JoinSplit(b, '/');
    if SidecarPath(a) == SidecarPath(b) {
      SidecarSegmentsInjective(Split(a, '/'), Split(b, '/'));
    }
  }
}
