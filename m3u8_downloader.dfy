/** The HLS-to-file downloader (`src/services/m3u8Downloader.ts`): it picks a proxy,
 *  loads the master playlist, picks the variant with the highest bandwidth, loads and
 *  parses the media playlist (RFC 8216), fetches every segment through the proxy in
 *  order and concatenates them into one MPEG transport stream file.
 *
 *  The network is an input: `Network` holds what each URL answers to a HEAD probe, a
 *  text GET and a binary GET. */
module M3u8Downloader {

  import opened Wrappers
  import opened Strings
  import opened Seqs
  import opened Urls
  import opened M3u8Text

  // ---------------------------------------------------------------------------
  // File names
  // ---------------------------------------------------------------------------

  /** The characters `sanitizeFilename` deletes: `\ / : * ? " < > |`. */
  predicate IsReservedFilenameChar(c: char)
  {
    c == '\\' || c == '/' || c == ':' || c == '*' || c == '?' || c == '"'
    || c == '<' || c == '>' || c == '|'
  }

  predicate NoReservedFilenameChar(s: string)
  {
    forall i :: 0 <= i < |s| ==> !IsReservedFilenameChar(s[i])
  }

  predicate IsAllowedFilenameChar(c: char) { !IsReservedFilenameChar(c) }

  /** `sanitizeFilename`: delete the reserved characters, turn each whitespace run into
   *  `-`, lower-case. The result is a name every common file system accepts. */
  function SanitizeFilename(name: string): (r: string)
    ensures NoReservedFilenameChar(r)
    ensures NoWhitespace(r)
    ensures IsLower(r)
  {
    var stripped := Filter(name, IsAllowedFilenameChar);
    var dashed := ReplaceWhitespaceRuns(stripped, "-");
    ReplaceRunsChars(stripped, "-");
    ReplaceRunsNoWhitespace(stripped, "-");
    assert NoReservedFilenameChar(dashed) by {
      forall i | 0 <= i < |dashed| ensures !IsReservedFilenameChar(dashed[i]) {
        assert dashed[i] in stripped || dashed[i] in "-";
      }
    }
    ToLower(dashed)
  }

  /** A name that is already sanitized is left as it is. */
  lemma SanitizeFilenameIdempotent(name: string)
    ensures SanitizeFilename(SanitizeFilename(name)) == SanitizeFilename(name)
  {
    SanitizeFilenameOfSanitized(SanitizeFilename(name));
  }

  /** A reserved character makes no difference wherever it stands: the name is
   *  sanitized as if it were not there. */
  lemma SanitizeFilenameIgnoresReserved(before: string, c: char, after: string)
    requires IsReservedFilenameChar(c)
    ensures SanitizeFilename(before + [c] + after) == SanitizeFilename(before + after)
  {
    FilterAppend(before + [c], after, IsAllowedFilenameChar);
    FilterAppend(before, [c], IsAllowedFilenameChar);
    FilterAppend(before, after, IsAllowedFilenameChar);
    assert [c][1..] == [];
    assert Filter([c], IsAllowedFilenameChar) == [];
    assert Filter(before + [c] + after, IsAllowedFilenameChar)
        == Filter(before + after, IsAllowedFilenameChar);
  }

  /** Each whitespace run becomes exactly one `-`: a run between two kept characters
   *  that are not whitespace splits the name into two parts sanitized on their own. */
  lemma SanitizeFilenameSplit(a: string, w: string, b: string)
    requires a == [] || (!IsWhitespace(a[|a| - 1]) && IsAllowedFilenameChar(a[|a| - 1]))
    requires w != [] && AllWhitespace(w)
    requires b == [] || (!IsWhitespace(b[0]) && IsAllowedFilenameChar(b[0]))
    ensures SanitizeFilename(a + w + b) == SanitizeFilename(a) + "-" + SanitizeFilename(b)
  {
    var fa := Filter(a, IsAllowedFilenameChar);
    var fb := Filter(b, IsAllowedFilenameChar);
    FilterAroundRun(a, w, b);
    ReplaceRunsSplit(fa, w, fb, "-");
    LowerAroundDash(ReplaceWhitespaceRuns(fa, "-"), ReplaceWhitespaceRuns(fb, "-"));
    SanitizeFilenameSteps(a + w + b);
    SanitizeFilenameSteps(a);
    SanitizeFilenameSteps(b);
  }

  lemma LowerAroundDash(x: string, y: string)
    ensures ToLower(x + "-" + y) == ToLower(x) + "-" + ToLower(y)
  {
    ToLowerAppend(x + "-", y);
    ToLowerAppend(x, "-");
  }

  /** The three steps of `sanitizeFilename` in their order. */
  lemma SanitizeFilenameSteps(name: string)
    ensures SanitizeFilename(name) == ToLower(ReplaceWhitespaceRuns(Filter(name, IsAllowedFilenameChar), "-"))
  {
  }

  /** Filtering keeps a whitespace run in place, and the characters around it. */
  lemma FilterAroundRun(a: string, w: string, b: string)
    requires a == [] || (!IsWhitespace(a[|a| - 1]) && IsAllowedFilenameChar(a[|a| - 1]))
    requires AllWhitespace(w)
    requires b == [] || (!IsWhitespace(b[0]) && IsAllowedFilenameChar(b[0]))
    ensures Filter(a + w + b, IsAllowedFilenameChar) ==
      Filter(a, IsAllowedFilenameChar) + w + Filter(b, IsAllowedFilenameChar)
    ensures var fa := Filter(a, IsAllowedFilenameChar);
      fa == [] || !IsWhitespace(fa[|fa| - 1])
    ensures var fb := Filter(b, IsAllowedFilenameChar);
      fb == [] || !IsWhitespace(fb[0])
  {
    FilterAppend(a + w, b, IsAllowedFilenameChar);
    FilterAppend(a, w, IsAllowedFilenameChar);
    FilterAll(w, IsAllowedFilenameChar);
    if a != [] {
      FilterKeepsLast(a, IsAllowedFilenameChar);
    }
    if b != [] {
      FilterKeepsFirst(b, IsAllowedFilenameChar);
    }
  }

  /** A name without whitespace or reserved characters is only lower-cased. */
  lemma SanitizeFilenameOfWord(word: string)
    requires NoWhitespace(word) && NoReservedFilenameChar(word)
    ensures SanitizeFilename(word) == ToLower(word)
  {
    FilterAll(word, IsAllowedFilenameChar);
    ReplaceRunsIdentity(word, "-");
  }

  /** A title with a colon and a question mark: `My Show: Ep 1?` becomes
   *  `my-show-ep-1`. */
  lemma SanitizeFilenameExample(name: string)
    requires name == "My Show: Ep 1?"
    ensures SanitizeFilename(name) == "my-show-ep-1"
  {
    ExampleWords(name);
    SanitizeTitle("My", "Show", "Ep", "1", ':', '?');
    ExampleLowered();
  }

  lemma ExampleWords(name: string)
    requires name == "My Show: Ep 1?"
    ensures name == "My" + " " + ("Show" + [':'] + " " + ("Ep" + " " + ("1" + ['?'])))
  {
  }

  lemma ExampleLowered()
    ensures ToLower("My") + "-" + (ToLower("Show") + "-" + (ToLower("Ep") + "-" + ToLower("1"))) == "my-show-ep-1"
  {
    assert ToLower("My") == "my" && ToLower("Show") == "show" && ToLower("Ep") == "ep" && ToLower("1") == "1";
  }

  /** Four words one space apart, the second and the fourth followed by a reserved
   *  character. */
  lemma SanitizeTitle(w1: string, w2: string, w3: string, w4: string, c2: char, c4: char)
    requires w1 != [] && w2 != [] && w3 != [] && w4 != []
    requires NoWhitespace(w1) && NoWhitespace(w2) && NoWhitespace(w3) && NoWhitespace(w4)
    requires NoReservedFilenameChar(w1) && NoReservedFilenameChar(w2)
    requires NoReservedFilenameChar(w3) && NoReservedFilenameChar(w4)
    requires IsReservedFilenameChar(c2) && IsReservedFilenameChar(c4)
    ensures SanitizeFilename(w1 + " " + (w2 + [c2] + " " + (w3 + " " + (w4 + [c4])))) ==
      ToLower(w1) + "-" + (ToLower(w2) + "-" + (ToLower(w3) + "-" + ToLower(w4)))
  {
    var n := w1 + " " + (w2 + [c2] + " " + (w3 + " " + (w4 + [c4])));
    var m := w1 + " " + (w2 + " " + (w3 + " " + w4));
    assert n == (w1 + " " + w2) + [c2] + (" " + w3 + " " + w4 + [c4]);
    SanitizeFilenameIgnoresReserved(w1 + " " + w2, c2, " " + w3 + " " + w4 + [c4]);
    assert (w1 + " " + w2) + (" " + w3 + " " + w4 + [c4]) == m + [c4] + [];
    SanitizeFilenameIgnoresReserved(m, c4, []);
    assert m + [] == m;
    SanitizeFourWords(w1, w2, w3, w4);
  }

  /** Four words one space apart: each word is lower-cased and each space becomes `-`. */
  lemma SanitizeFourWords(w1: string, w2: string, w3: string, w4: string)
    requires w1 != [] && w2 != [] && w3 != [] && w4 != []
    requires NoWhitespace(w1) && NoWhitespace(w2) && NoWhitespace(w3) && NoWhitespace(w4)
    requires NoReservedFilenameChar(w1) && NoReservedFilenameChar(w2)
    requires NoReservedFilenameChar(w3) && NoReservedFilenameChar(w4)
    ensures SanitizeFilename(w1 + " " + (w2 + " " + (w3 + " " + w4))) ==
      ToLower(w1) + "-" + (ToLower(w2) + "-" + (ToLower(w3) + "-" + ToLower(w4)))
  {
    SanitizeWords(w1, w2 + " " + (w3 + " " + w4));
    SanitizeWords(w2, w3 + " " + w4);
    SanitizeWords(w3, w4);
    SanitizeFilenameOfWord(w1);
    SanitizeFilenameOfWord(w2);
    SanitizeFilenameOfWord(w3);
    SanitizeFilenameOfWord(w4);
  }

  /** A word and the rest of the name, one space apart. */
  lemma SanitizeWords(word: string, rest: string)
    requires word != [] && NoWhitespace(word) && NoReservedFilenameChar(word)
    requires rest != [] && !IsWhitespace(rest[0]) && IsAllowedFilenameChar(rest[0])
    ensures SanitizeFilename(word + " " + rest) == SanitizeFilename(word) + "-" + SanitizeFilename(rest)
  {
    SanitizeFilenameSplit(word, " ", rest);
  }

  // ---------------------------------------------------------------------------
  // Proxy URLs
  // ---------------------------------------------------------------------------

  /** `buildProxyUrl`: the proxy prefix (ending in `?url=`), the encoded target, and the
   *  encoded JSON of the headers when there is at least one. */
  function BuildProxyUrl(proxy: string, target: string, headers: Option<Headers>): string
  {
    var encodedUrl := EncodeComponent(target);
    if headers.None? || |headers.value| == 0 then proxy + encodedUrl
    else proxy + encodedUrl + "&headers=" + EncodeComponent(JsonObject(headers.value))
  }

  /** The query the proxy receives starts with the encoded target, which cannot hold an
   *  `&`; the URL is nothing more than that exactly when there are no headers. */
  lemma BuildProxyUrlTarget(proxy: string, target: string, headers: Option<Headers>)
    ensures var r := BuildProxyUrl(proxy, target, headers);
      var head := proxy + EncodeComponent(target);
      StartsWith(r, head)
      && '&' !in EncodeComponent(target)
      && (r == head <==> headers.None? || |headers.value| == 0)
  {
    var r := BuildProxyUrl(proxy, target, headers);
    var head := proxy + EncodeComponent(target);
    EncodeComponentIsQuerySafe(target);
    assert head + r[|head|..] == r;
    StartsWithAppend(head, r[|head|..]);
  }

  /** With headers, the encoded target is followed by the one `headers` parameter, whose
   *  value (the encoded JSON object) holds no `&` either, so the proxy reads both
   *  parameters back whole. */
  lemma BuildProxyUrlHeaders(proxy: string, target: string, headers: Option<Headers>)
    requires headers.Some? && |headers.value| > 0
    ensures var json := EncodeComponent(JsonObject(headers.value));
      BuildProxyUrl(proxy, target, headers)
        == proxy + EncodeComponent(target) + "&headers=" + json
      && '&' !in EncodeComponent(target) && '&' !in json
  {
    EncodeComponentIsQuerySafe(target);
    EncodeComponentIsQuerySafe(JsonObject(headers.value));
  }

  // ---------------------------------------------------------------------------
  // Proxy choice
  // ---------------------------------------------------------------------------

  /** The answer to a HEAD probe: a thrown `fetch` (network error, CORS refusal or the
   *  timeout's abort), or a response with its status and whether it is opaque. */
  datatype Probe = ProbeThrew | ProbeAnswered(status: int, isOpaque: bool)

  /** `res.ok`: a status in 200..299. */
  predicate IsOk(status: int) { 200 <= status <= 299 }

  /** `res.ok || res.status === 200 || res.type === "opaque"`. */
  predicate Accepts(p: Probe)
  {
    p.ProbeAnswered? && (IsOk(p.status) || p.status == 200 || p.isOpaque)
  }

  /** The index of the first proxy at or after `i` whose probe accepts, or `|proxies|`. */
  function FirstAccepting(proxies: seq<string>, streamUrl: string, headers: Option<Headers>,
                          probe: string -> Probe, i: nat): (k: nat)
    requires i <= |proxies|
    ensures i <= k <= |proxies|
    ensures k < |proxies| ==> Accepts(probe(BuildProxyUrl(proxies[k], streamUrl, headers)))
    ensures forall j :: i <= j < k ==> !Accepts(probe(BuildProxyUrl(proxies[j], streamUrl, headers)))
    decreases |proxies| - i
  {
    if i == |proxies| then i
    else if Accepts(probe(BuildProxyUrl(proxies[i], streamUrl, headers))) then i
    else FirstAccepting(proxies, streamUrl, headers, probe, i + 1)
  }

  /** The proxy `findWorkingProxy` settles on: the first accepting one, else the first. */
  function ChosenProxy(proxies: seq<string>, streamUrl: string, headers: Option<Headers>,
                       probe: string -> Probe): (p: string)
    requires |proxies| > 0
    ensures p in proxies
  {
    var k := FirstAccepting(proxies, streamUrl, headers, probe, 0);
    if k < |proxies| then proxies[k] else proxies[0]
  }

  /** The URLs probed, in order: every proxy up to and including the winner. */
  function ProbedUrls(proxies: seq<string>, streamUrl: string, headers: Option<Headers>,
                      probe: string -> Probe): (urls: seq<string>)
  {
    var k := FirstAccepting(proxies, streamUrl, headers, probe, 0);
    ProxyUrls(proxies, streamUrl, headers, if k < |proxies| then k + 1 else k)
  }

  /** The proxied URLs of the stream through the first `n` proxies, in list order. */
  function ProxyUrls(proxies: seq<string>, streamUrl: string, headers: Option<Headers>,
                     n: nat): (urls: seq<string>)
    requires n <= |proxies|
    ensures |urls| == n
    ensures forall j :: 0 <= j < n ==> urls[j] == BuildProxyUrl(proxies[j], streamUrl, headers)
    decreases n
  {
    if n == 0 then []
    else ProxyUrls(proxies, streamUrl, headers, n - 1) + [BuildProxyUrl(proxies[n - 1], streamUrl, headers)]
  }

  /** `findWorkingProxy`: probe each proxy in list order and stop at the first that
   *  accepts; if none does, fall back to the first proxy. */
  method FindWorkingProxy(proxies: seq<string>, streamUrl: string, headers: Option<Headers>,
                          probe: string -> Probe)
    returns (proxy: string, probed: seq<string>)
    requires |proxies| > 0
    ensures proxy == ChosenProxy(proxies, streamUrl, headers, probe)
    ensures probed == ProbedUrls(proxies, streamUrl, headers, probe)
  {
    probed := [];
    ghost var first := FirstAccepting(proxies, streamUrl, headers, probe, 0);
    for i := 0 to |proxies|
      invariant probed == ProxyUrls(proxies, streamUrl, headers, i)
      invariant i <= first
    {
      var url := BuildProxyUrl(proxies[i], streamUrl, headers);
      probed := probed + [url];
      assert probed == ProxyUrls(proxies, streamUrl, headers, i + 1);
      if Accepts(probe(url)) {
        assert first == i;
        return proxies[i], probed;
      }
    }
    assert first == |proxies|;
    return proxies[0], probed;
  }

  /** The chosen proxy is the first accepting one when there is one; every proxy probed
   *  before it refused, and nothing after it is probed. Otherwise every proxy was probed
   *  and the first is used. */
  lemma ChosenProxyIsFirstAccepting(proxies: seq<string>, streamUrl: string,
                                    headers: Option<Headers>, probe: string -> Probe)
    requires |proxies| > 0
    ensures var probed := ProbedUrls(proxies, streamUrl, headers, probe);
      var p := ChosenProxy(proxies, streamUrl, headers, probe);
      (forall j :: 0 <= j < |probed| - 1 ==> !Accepts(probe(probed[j])))
      && (Accepts(probe(probed[|probed| - 1])) ==> probed[|probed| - 1] == BuildProxyUrl(p, streamUrl, headers))
      && (!Accepts(probe(probed[|probed| - 1])) ==> |probed| == |proxies| && p == proxies[0])
  {
  }

  // ---------------------------------------------------------------------------
  // Fetching
  // ---------------------------------------------------------------------------

  /** What a GET answers: a thrown `fetch`, or a response with a status and a body. */
  datatype Reply<T> = Threw | Answered(status: int, body: T)

  datatype Failure =
    | RequestFailed(status: int)  // a response that is not ok
    | FetchThrew                  // `fetch` itself threw; its message is the browser's
    | Encrypted                   // the media playlist has an `#EXT-X-KEY` tag
    | NoSegments                  // the media playlist lists no segment

  /** The error message of a failure with a fixed text. */
  function Message(f: Failure): (m: string)
    requires !f.FetchThrew?
  {
    match f
    case RequestFailed(status) => "Failed request (" + IntToString(status) + ")"
    case Encrypted => "This stream is encrypted and cannot be directly exported as a file."
    case NoSegments => "No video segments found in playlist."
  }

  /** `fetchText` / `fetchBuffer`: the body of an ok response, else a failure. */
  function Fetched<T>(r: Reply<T>): (res: Result<T, Failure>)
    ensures res.Success? <==> r.Answered? && IsOk(r.status)
    ensures res.Success? ==> res.value == r.body
    ensures r.Answered? && !IsOk(r.status) ==> res == Failure(RequestFailed(r.status))
  {
    match r
    case Threw => Failure(FetchThrew)
    case Answered(status, body) => if IsOk(status) then Success(body) else Failure(RequestFailed(status))
  }

  /** The status of a failed request can be read back from its message. */
  lemma RequestFailedMessage(status: int)
    ensures var m := Message(RequestFailed(status));
      StartsWith(m, "Failed request (")
      && ParseInt(m[16..]) == Some(status)
  {
    var prefix := "Failed request (";
    assert Message(RequestFailed(status)) == prefix + IntToString(status) + ")";
    PrefixedNumber(prefix, status, ")");
  }

  // ---------------------------------------------------------------------------
  // Playlist lines
  // ---------------------------------------------------------------------------

  /** `manifest.split("\n").map((line) => line.trim())`. */
  function Lines(manifest: string): seq<string>
  {
    TrimEach(Split(manifest, '\n'))
  }

  function TrimEach(raw: seq<string>): (lines: seq<string>)
    ensures |lines| == |raw|
    decreases |raw|
  {
    if raw == [] then [] else [Trim(raw[0])] + TrimEach(raw[1..])
  }

  /** A line that names a URI: not empty and not starting with `#` (a tag or comment). */
  predicate IsUriLine(line: string)
  {
    line != "" && !StartsWith(line, "#")
  }

  // ---------------------------------------------------------------------------
  // Variant choice (master playlist)
  // ---------------------------------------------------------------------------

  const STREAM_INF: string := "#EXT-X-STREAM-INF"

  datatype Variant = Variant(bandwidth: nat, uri: string)

  /** `BANDWIDTH=` followed by a digit starts at `i`, ignoring ASCII case. */
  predicate BandwidthAt(line: string, i: nat)
  {
    i + 10 < |line|
    && LowerChar(line[i]) == 'b' && LowerChar(line[i + 1]) == 'a' && LowerChar(line[i + 2]) == 'n'
    && LowerChar(line[i + 3]) == 'd' && LowerChar(line[i + 4]) == 'w' && LowerChar(line[i + 5]) == 'i'
    && LowerChar(line[i + 6]) == 'd' && LowerChar(line[i + 7]) == 't' && LowerChar(line[i + 8]) == 'h'
    && line[i + 9] == '=' && IsDigit(line[i + 10])
  }

  /** The value of the leftmost match of `/BANDWIDTH=(\d+)/i` at or after `i`. */
  function BandwidthFrom(line: string, i: nat): (r: Option<nat>)
    requires i <= |line|
    decreases |line| - i
  {
    if i + 10 >= |line| then None
    else if BandwidthAt(line, i) then Some(DigitsValue(LeadingDigits(line[i + 10..])))
    else BandwidthFrom(line, i + 1)
  }

  /** The bandwidth of a `#EXT-X-STREAM-INF` line; a line without one counts as 0. */
  function Bandwidth(line: string): nat
  {
    BandwidthFrom(line, 0).GetOr(0)
  }

  /** The first URI line at or after `j`, or `""` when there is none. */
  function NextUri(lines: seq<string>, j: nat): (uri: string)
    requires j <= |lines|
    ensures uri == "" || IsUriLine(uri)
    decreases |lines| - j
  {
    if j == |lines| then ""
    else if IsUriLine(lines[j]) then lines[j]
    else NextUri(lines, j + 1)
  }

  /** `NextUri` is `""` exactly when no URI line follows; otherwise it is the first URI
   *  line from `j` on. */
  lemma {:induction false} NextUriIsFirst(lines: seq<string>, j: nat)
    requires j <= |lines|
    ensures NextUri(lines, j) == "" <==> forall k :: j <= k < |lines| ==> !IsUriLine(lines[k])
    ensures NextUri(lines, j) != "" ==>
      exists k :: j <= k < |lines| && lines[k] == NextUri(lines, j)
                  && (forall m :: j <= m < k ==> !IsUriLine(lines[m]))
    decreases |lines| - j
  {
    if j < |lines| && !IsUriLine(lines[j]) {
      NextUriIsFirst(lines, j + 1);
    }
  }

  /** The variant line `i` declares, if it is a `#EXT-X-STREAM-INF` line followed by a
   *  URI line. */
  function VariantAt(lines: seq<string>, i: nat): seq<Variant>
    requires i < |lines|
  {
    if Announces(lines, i) then [Variant(Bandwidth(lines[i]), NextUri(lines, i + 1))] else []
  }

  /** Line `i` is a `#EXT-X-STREAM-INF` line with a URI line somewhere after it. */
  predicate Announces(lines: seq<string>, i: nat)
    requires i < |lines|
  {
    StartsWith(lines[i], STREAM_INF) && NextUri(lines, i + 1) != ""
  }

  /** The variants declared by the first `n` lines, in file order. */
  function VariantsUpTo(lines: seq<string>, n: nat): (vs: seq<Variant>)
    requires n <= |lines|
    ensures |vs| <= n
    decreases n
  {
    if n == 0 then [] else VariantsUpTo(lines, n - 1) + VariantAt(lines, n - 1)
  }

  function Variants(manifest: string): seq<Variant>
  {
    var lines := Lines(manifest);
    VariantsUpTo(lines, |lines|)
  }

  /** The position of the first variant with the highest bandwidth: what a stable sort
   *  by descending bandwidth puts first. */
  function FirstMaxIndex(vs: seq<Variant>): (k: nat)
    requires |vs| > 0
    ensures k < |vs|
    ensures forall j :: 0 <= j < |vs| ==> vs[j].bandwidth <= vs[k].bandwidth
    ensures forall j :: 0 <= j < k ==> vs[j].bandwidth < vs[k].bandwidth
    decreases |vs|
  {
    if |vs| == 1 then 0
    else
      var k := FirstMaxIndex(vs[..|vs| - 1]);
      if vs[|vs| - 1].bandwidth > vs[k].bandwidth then |vs| - 1 else k
  }

  /** What `pickBestVariant` returns: the URI of the first variant of highest bandwidth,
   *  or `None` (`null`) when the playlist declares no variant. */
  function BestVariant(manifest: string): Option<string>
  {
    var vs := Variants(manifest);
    if |vs| == 0 then None else Some(vs[FirstMaxIndex(vs)].uri)
  }

  /** `pickBestVariant`. */
  method PickBestVariant(manifest: string) returns (uri: Option<string>)
    ensures uri == BestVariant(manifest)
  {
    var lines := Lines(manifest);
    var variants: seq<Variant> := [];
    for i := 0 to |lines|
      invariant variants == VariantsUpTo(lines, i)
    {
      if !StartsWith(lines[i], STREAM_INF) {
        continue;
      }
      var bandwidth := Bandwidth(lines[i]);
      var nextUri := FindNextUri(lines, i + 1);
      if nextUri != "" {
        variants := variants + [Variant(bandwidth, nextUri)];
      }
    }
    if |variants| == 0 {
      return None;
    }
    var best := HighestBandwidth(variants);
    return Some(variants[best].uri);
  }

  /** The inner loop of `pickBestVariant`: skip empty and `#` lines from `j` on and take
   *  the first other line, or `""` when the playlist ends first. */
  method FindNextUri(lines: seq<string>, j0: nat) returns (nextUri: string)
    requires j0 <= |lines|
    ensures nextUri == NextUri(lines, j0)
  {
    nextUri := "";
    var j := j0;
    while j < |lines|
      invariant j0 <= j <= |lines|
      invariant NextUri(lines, j) == NextUri(lines, j0)
      invariant nextUri == ""
    {
      if lines[j] == "" || StartsWith(lines[j], "#") {
        j := j + 1;
        continue;
      }
      nextUri := lines[j];
      break;
    }
  }

  /** The first entry of the sort by descending bandwidth, which is stable: the first
   *  variant of highest bandwidth. */
  method HighestBandwidth(variants: seq<Variant>) returns (best: nat)
    requires |variants| > 0
    ensures best == FirstMaxIndex(variants)
  {
    best := 0;
    for k := 1 to |variants|
      invariant best == FirstMaxIndex(variants[..k])
    {
      assert variants[..k + 1][..k] == variants[..k];
      if variants[k].bandwidth > variants[best].bandwidth {
        best := k;
      }
    }
    assert variants[..|variants|] == variants;
  }

  /** No variant is picked exactly when no `#EXT-X-STREAM-INF` line is followed, later in
   *  the playlist, by a URI line. */
  lemma BestVariantNone(manifest: string)
    ensures var lines := Lines(manifest);
      BestVariant(manifest).None? <==>
        forall i :: 0 <= i < |lines| && StartsWith(lines[i], STREAM_INF) ==> NextUri(lines, i + 1) == ""
  {
    var lines := Lines(manifest);
    VariantsEmpty(lines, |lines|);
    if forall i :: 0 <= i < |lines| ==> !Announces(lines, i) {
      forall i | 0 <= i < |lines| && StartsWith(lines[i], STREAM_INF) ensures NextUri(lines, i + 1) == "" {
        assert !Announces(lines, i);
      }
    } else {
      var i :| 0 <= i < |lines| && Announces(lines, i);
      assert StartsWith(lines[i], STREAM_INF) && NextUri(lines, i + 1) != "";
    }
  }

  lemma {:induction false} VariantsEmpty(lines: seq<string>, n: nat)
    requires n <= |lines|
    ensures |VariantsUpTo(lines, n)| == 0 <==> forall i :: 0 <= i < n ==> !Announces(lines, i)
  {
    if n > 0 {
      VariantsEmpty(lines, n - 1);
      assert |VariantsUpTo(lines, n)| == |VariantsUpTo(lines, n - 1)| + |VariantAt(lines, n - 1)|;
    }
  }

  /** Every variant comes from a `#EXT-X-STREAM-INF` line: its URI is the first URI line
   *  after it and its bandwidth is that line's. */
  lemma {:induction false} VariantsFromStreamInf(lines: seq<string>, n: nat, v: Variant)
    requires n <= |lines| && v in VariantsUpTo(lines, n)
    ensures exists i :: 0 <= i < n && StartsWith(lines[i], STREAM_INF)
                        && v.uri == NextUri(lines, i + 1) && v.uri != ""
                        && v.bandwidth == Bandwidth(lines[i])
  {
    if v in VariantsUpTo(lines, n - 1) {
      VariantsFromStreamInf(lines, n - 1, v);
    } else {
      assert v in VariantAt(lines, n - 1);
    }
  }

  /** A picked variant is a URI line of the playlist announced by a `#EXT-X-STREAM-INF`
   *  line, and no declared variant has a higher bandwidth. */
  lemma BestVariantIsMaximal(manifest: string)
    requires BestVariant(manifest).Some?
    ensures var vs := Variants(manifest);
      exists k :: 0 <= k < |vs| && vs[k].uri == BestVariant(manifest).value
                  && (forall j :: 0 <= j < |vs| ==> vs[j].bandwidth <= vs[k].bandwidth)
                  && (forall j :: 0 <= j < k ==> vs[j].bandwidth < vs[k].bandwidth)
    ensures IsUriLine(BestVariant(manifest).value)
    ensures BestVariant(manifest).value in Lines(manifest)
  {
    var vs := Variants(manifest);
    var k := FirstMaxIndex(vs);
    assert vs[k].uri == BestVariant(manifest).value;
    BestVariantIsLine(manifest);
  }

  /** The picked URI is a line of the playlist. */
  lemma BestVariantIsLine(manifest: string)
    requires BestVariant(manifest).Some?
    ensures IsUriLine(BestVariant(manifest).value)
    ensures BestVariant(manifest).value in Lines(manifest)
  {
    var lines := Lines(manifest);
    var vs := Variants(manifest);
    var k := FirstMaxIndex(vs);
    VariantsFromStreamInf(lines, |lines|, vs[k]);
    var i :| 0 <= i < |lines| && vs[k].uri == NextUri(lines, i + 1) && vs[k].uri != "";
    NextUriIsFirst(lines, i + 1);
    var m :| i + 1 <= m < |lines| && lines[m] == NextUri(lines, i + 1);
    assert BestVariant(manifest).value == vs[k].uri == lines[m];
  }

  // ---------------------------------------------------------------------------
  // Media playlist
  // ---------------------------------------------------------------------------

  datatype MediaPlaylist = MediaPlaylist(initSegment: string, segments: seq<string>)

  const KEY_TAG: string := "#EXT-X-KEY"
  const MAP_TAG: string := "#EXT-X-MAP"

  /** How the loop of `parseMediaManifest` treats one trimmed line, in the order of its
   *  tests: skipped when empty, refused when a key tag, remembered when a map tag (with
   *  its `URI`, if the attribute matches), skipped when any other tag or comment, kept
   *  as a segment otherwise. */
  datatype MediaLine = Blank | KeyTag | MapTag(uri: Option<string>) | Comment | Segment

  function Classify(line: string): MediaLine
  {
    if line == "" then Blank
    else if StartsWith(line, KEY_TAG) then KeyTag
    else if StartsWith(line, MAP_TAG) then MapTag(UriAttribute(line))
    else if StartsWith(line, "#") then Comment
    else Segment
  }

  /** A line that starts with `#EXT-X-KEY`. */
  predicate IsKeyLine(line: string) { Classify(line).KeyTag? }

  predicate IsSegmentLine(line: string) { Classify(line).Segment? }

  /** The `URI` of an `#EXT-X-MAP` line, when it has one. */
  function MapUri(line: string): Option<string>
  {
    if Classify(line).MapTag? then Classify(line).uri else None
  }

  /** A line is kept as a segment exactly when it is a URI line: both tags start with
   *  `#`. */
  lemma SegmentLineIsUriLine(line: string)
    ensures IsSegmentLine(line) <==> IsUriLine(line)
  {
    if StartsWith(line, KEY_TAG) {
      assert line[..1] == line[..10][..1];
    } else if StartsWith(line, MAP_TAG) {
      assert line[..1] == line[..10][..1];
    }
  }

  /** The init segment named by `lines`: the `URI` of the last `#EXT-X-MAP` line that has
   *  one, or `""` (see `LastSomeIsLast`). */
  function InitSegmentOf(lines: seq<string>): string
  {
    LastSome(lines, MapUri).GetOr("")
  }

  /** What `parseMediaManifest` returns or throws. */
  function MediaPlaylistOf(manifest: string): Result<MediaPlaylist, Failure>
  {
    MediaPlaylistOfLines(Lines(manifest))
  }

  function MediaPlaylistOfLines(lines: seq<string>): Result<MediaPlaylist, Failure>
  {
    if exists i :: 0 <= i < |lines| && IsKeyLine(lines[i]) then Failure(Encrypted)
    else
      var segments := Filter(lines, IsSegmentLine);
      if |segments| == 0 then Failure(NoSegments)
      else Success(MediaPlaylist(InitSegmentOf(lines), segments))
  }

  /** `parseMediaManifest`. */
  method ParseMediaManifest(manifest: string) returns (r: Result<MediaPlaylist, Failure>)
    ensures r == MediaPlaylistOf(manifest)
  {
    var lines := Lines(manifest);
    r := ParseMediaLines(lines);
  }

  /** The loop of `parseMediaManifest` over the trimmed lines: a key tag refuses the
   *  playlist, a map tag's `URI` becomes the init segment, a segment line is kept. Each
   *  test is one case of `Classify`, which keeps the source's order of tests. */
  method ParseMediaLines(lines: seq<string>) returns (r: Result<MediaPlaylist, Failure>)
    ensures r == MediaPlaylistOfLines(lines)
  {
    var segments: seq<string> := [];
    var initSegment := "";
    for i := 0 to |lines|
      invariant segments == Filter(lines[..i], IsSegmentLine)
      invariant initSegment == LastSome(lines[..i], MapUri).GetOr("")
      invariant forall k :: 0 <= k < i ==> !IsKeyLine(lines[k])
    {
      var line := lines[i];
      ParseMediaStep(lines, i);
      if IsKeyLine(line) {
        KeyLineRefuses(lines, i);
        return Failure(Encrypted);
      }
      assert !IsKeyLine(lines[i]);
      var mapMatch := MapUri(line);
      if mapMatch.Some? {
        initSegment := mapMatch.value;
      }
      if IsSegmentLine(line) {
        segments := segments + [line];
      }
    }
    ParsedAllLines(lines, segments, initSegment);
    if |segments| == 0 {
      return Failure(NoSegments);
    }
    return Success(MediaPlaylist(initSegment, segments));
  }

  /** A key tag anywhere refuses the playlist. */
  lemma KeyLineRefuses(lines: seq<string>, i: nat)
    requires i < |lines| && IsKeyLine(lines[i])
    ensures MediaPlaylistOfLines(lines) == Failure(Encrypted)
  {
  }

  /** Once every line is read without a key tag, the segments and the init segment
   *  gathered decide the outcome. */
  lemma ParsedAllLines(lines: seq<string>, segments: seq<string>, initSegment: string)
    requires segments == Filter(lines[..|lines|], IsSegmentLine)
    requires initSegment == LastSome(lines[..|lines|], MapUri).GetOr("")
    requires forall k :: 0 <= k < |lines| ==> !IsKeyLine(lines[k])
    ensures MediaPlaylistOfLines(lines)
      == if |segments| == 0 then Failure(NoSegments) else Success(MediaPlaylist(initSegment, segments))
  {
    assert lines[..|lines|] == lines;
  }

  /** What one more line adds to the segments and the init segment. */
  lemma ParseMediaStep(lines: seq<string>, i: nat)
    requires i < |lines|
    ensures Filter(lines[..i + 1], IsSegmentLine)
      == Filter(lines[..i], IsSegmentLine) + if IsSegmentLine(lines[i]) then [lines[i]] else []
    ensures LastSome(lines[..i + 1], MapUri)
      == if MapUri(lines[i]).Some? then MapUri(lines[i]) else LastSome(lines[..i], MapUri)
  {
    assert lines[..i + 1] == lines[..i] + [lines[i]];
    FilterAppend(lines[..i], [lines[i]], IsSegmentLine);
    LastSomeAppend(lines[..i], lines[i], MapUri);
  }

  /** A parsed playlist has no key tag and lists exactly its URI lines, in file order;
   *  its init segment is the `URI` of the last `#EXT-X-MAP` line that has one, and `""`
   *  when none has. */
  lemma MediaPlaylistContents(lines: seq<string>)
    requires MediaPlaylistOfLines(lines).Success?
    ensures var p := MediaPlaylistOfLines(lines).value;
      p.segments == Filter(lines, IsUriLine) && |p.segments| > 0
      && (forall i :: 0 <= i < |lines| ==> !IsKeyLine(lines[i]))
      && (forall x :: x in lines && IsUriLine(x) ==> x in p.segments)
      && (p.initSegment != "" ==>
            exists i :: 0 <= i < |lines| && MapUri(lines[i]) == Some(p.initSegment)
                        && forall j :: i < j < |lines| ==> MapUri(lines[j]).None?)
      && (p.initSegment == "" <==> forall i :: 0 <= i < |lines| ==> MapUri(lines[i]).None?)
  {
    SegmentsAreUriLines(lines);
    InitSegmentIsLastMap(lines);
  }

  /** The segment lines are the URI lines, and every URI line is among them. */
  lemma SegmentsAreUriLines(lines: seq<string>)
    ensures Filter(lines, IsSegmentLine) == Filter(lines, IsUriLine)
    ensures forall x :: x in lines && IsUriLine(x) ==> x in Filter(lines, IsUriLine)
  {
    forall x | x in lines ensures IsSegmentLine(x) == IsUriLine(x) {
      SegmentLineIsUriLine(x);
    }
    FilterSame(lines, IsSegmentLine, IsUriLine);
    forall x | x in lines && IsUriLine(x) ensures x in Filter(lines, IsUriLine) {
      FilterKeeps(lines, IsUriLine, x);
    }
  }

  /** The init segment is the `URI` of the last map line that has one, and empty exactly
   *  when none has. */
  lemma InitSegmentIsLastMap(lines: seq<string>)
    ensures var init := InitSegmentOf(lines);
      && (init != "" ==>
            exists i :: 0 <= i < |lines| && MapUri(lines[i]) == Some(init)
                        && forall j :: i < j < |lines| ==> MapUri(lines[j]).None?)
      && (init == "" <==> forall i :: 0 <= i < |lines| ==> MapUri(lines[i]).None?)
  {
    LastSomeIsLast(lines, MapUri);
    forall k | 0 <= k < |lines| && MapUri(lines[k]).Some? ensures MapUri(lines[k]).value != "" {
    }
  }

  /** A playlist with a key tag is refused whatever else it holds. */
  lemma EncryptedPlaylistRefused(manifest: string, i: nat)
    requires i < |Lines(manifest)| && IsKeyLine(Lines(manifest)[i])
    ensures MediaPlaylistOf(manifest) == Failure(Encrypted)
  {
  }

  // ---------------------------------------------------------------------------
  // Segment URLs
  // ---------------------------------------------------------------------------

  /** `toAbsoluteUrl`: `new URL(url, baseUrl)`, or the reference unchanged if that throws. */
  function ToAbsoluteUrl(url: string, baseUrl: string): (r: string)
    ensures HasScheme(url) ==> r == url
    ensures IsHttpUrl(baseUrl) ==> HasScheme(r)
    ensures !IsHttpUrl(baseUrl) ==> r == url
  {
    var resolved := Resolve(url, baseUrl);
    if !HasScheme(url) && IsHttpUrl(baseUrl) then
      ResolveRelative(url, baseUrl);
      HttpUrlHasScheme(resolved.value);
      resolved.GetOr(url)
    else
      resolved.GetOr(url)
  }

  /** `segmentUrls`: the init segment, when there is one, then every segment, each
   *  resolved against the media playlist's URL. */
  function SegmentUrls(p: MediaPlaylist, mediaUrl: string): (urls: seq<string>)
    ensures |urls| == |p.segments| + (if p.initSegment != "" then 1 else 0)
  {
    var init := if p.initSegment != "" then [ToAbsoluteUrl(p.initSegment, mediaUrl)] else [];
    init + ResolveAll(p.segments, mediaUrl)
  }

  /** Each reference resolved against the same base, in order. */
  function ResolveAll(refs: seq<string>, baseUrl: string): (r: seq<string>)
    ensures |r| == |refs|
    ensures forall k :: 0 <= k < |refs| ==> r[k] == ToAbsoluteUrl(refs[k], baseUrl)
  {
    seq(|refs|, k requires 0 <= k < |refs| => ToAbsoluteUrl(refs[k], baseUrl))
  }

  /** The init segment comes first; segment `k` sits at position `k`, or `k + 1` after an
   *  init segment. Against an http(s) playlist URL every entry is absolute, and a
   *  relative entry ends with the line it was resolved from. */
  lemma SegmentUrlsLayout(p: MediaPlaylist, mediaUrl: string)
    ensures var urls := SegmentUrls(p, mediaUrl);
      var offset := if p.initSegment != "" then 1 else 0;
      (p.initSegment != "" ==> urls[0] == ToAbsoluteUrl(p.initSegment, mediaUrl))
      && (forall k :: 0 <= k < |p.segments| ==> urls[offset + k] == ToAbsoluteUrl(p.segments[k], mediaUrl))
      && (IsHttpUrl(mediaUrl) ==> forall k :: 0 <= k < |urls| ==> HasScheme(urls[k]))
      && (IsHttpUrl(mediaUrl) ==> forall k :: 0 <= k < |p.segments| ==>
            EndsWith(urls[offset + k], p.segments[k]))
  {
    SegmentUrlsIndex(p, mediaUrl);
    SegmentUrlsAbsolute(p, mediaUrl);
    SegmentUrlsEndWith(p, mediaUrl);
  }

  lemma SegmentUrlsAbsolute(p: MediaPlaylist, mediaUrl: string)
    ensures var urls := SegmentUrls(p, mediaUrl);
      IsHttpUrl(mediaUrl) ==> forall k :: 0 <= k < |urls| ==> HasScheme(urls[k])
  {
    var urls := SegmentUrls(p, mediaUrl);
    if IsHttpUrl(mediaUrl) {
      forall k | 0 <= k < |urls| ensures HasScheme(urls[k]) {
        SegmentUrlAbsolute(p, mediaUrl, k);
      }
    }
  }

  lemma SegmentUrlsEndWith(p: MediaPlaylist, mediaUrl: string)
    ensures var urls := SegmentUrls(p, mediaUrl);
      var offset := if p.initSegment != "" then 1 else 0;
      IsHttpUrl(mediaUrl) ==> forall k :: 0 <= k < |p.segments| ==> EndsWith(urls[offset + k], p.segments[k])
  {
    if IsHttpUrl(mediaUrl) {
      forall k | 0 <= k < |p.segments|
        ensures EndsWith(SegmentUrls(p, mediaUrl)[(if p.initSegment != "" then 1 else 0) + k], p.segments[k])
      {
        SegmentUrlEndsWith(p, mediaUrl, k);
      }
    }
  }

  lemma SegmentUrlEndsWith(p: MediaPlaylist, mediaUrl: string, k: nat)
    requires IsHttpUrl(mediaUrl) && k < |p.segments|
    ensures EndsWith(SegmentUrls(p, mediaUrl)[(if p.initSegment != "" then 1 else 0) + k], p.segments[k])
  {
    SegmentUrlAt(p, mediaUrl, k);
    ToAbsoluteUrlEndsWith(p.segments[k], mediaUrl);
  }

  lemma SegmentUrlAbsolute(p: MediaPlaylist, mediaUrl: string, k: nat)
    requires IsHttpUrl(mediaUrl) && k < |SegmentUrls(p, mediaUrl)|
    ensures HasScheme(SegmentUrls(p, mediaUrl)[k])
  {
    var offset := if p.initSegment != "" then 1 else 0;
    if k >= offset {
      SegmentUrlAt(p, mediaUrl, k - offset);
    }
  }

  /** Where each entry of the list sits. */
  lemma SegmentUrlsIndex(p: MediaPlaylist, mediaUrl: string)
    ensures var urls := SegmentUrls(p, mediaUrl);
      var offset := if p.initSegment != "" then 1 else 0;
      (p.initSegment != "" ==> urls[0] == ToAbsoluteUrl(p.initSegment, mediaUrl))
      && (forall k :: 0 <= k < |p.segments| ==> urls[offset + k] == ToAbsoluteUrl(p.segments[k], mediaUrl))
  {
    forall k | 0 <= k < |p.segments|
      ensures SegmentUrls(p, mediaUrl)[(if p.initSegment != "" then 1 else 0) + k]
        == ToAbsoluteUrl(p.segments[k], mediaUrl)
    {
      SegmentUrlAt(p, mediaUrl, k);
    }
  }

  lemma SegmentUrlAt(p: MediaPlaylist, mediaUrl: string, k: nat)
    requires k < |p.segments|
    ensures SegmentUrls(p, mediaUrl)[(if p.initSegment != "" then 1 else 0) + k]
      == ToAbsoluteUrl(p.segments[k], mediaUrl)
  {
  }

  /** Against an http(s) base a resolved URL ends with the reference it came from. */
  lemma ToAbsoluteUrlEndsWith(url: string, baseUrl: string)
    requires IsHttpUrl(baseUrl)
    ensures EndsWith(ToAbsoluteUrl(url, baseUrl), url)
  {
    if HasScheme(url) {
      assert url[|url| - |url|..] == url;
    } else {
      ResolveRelative(url, baseUrl);
    }
  }

  // ---------------------------------------------------------------------------
  // Progress
  // ---------------------------------------------------------------------------

  datatype Progress = Progress(percent: int, status: string)

  const CHECKING: Progress := Progress(2, "Checking fastest download server...")
  const LOADING: Progress := Progress(8, "Loading playlist...")
  const READY: Progress := Progress(100, "Download ready.")

  /** `Math.round(10 + ((i + 1) / n) * 88)` in exact arithmetic: the integer nearest to
   *  `10 + 88 (i + 1) / n`, halves rounded up. */
  function ChunkProgress(i: nat, n: nat): (p: int)
    requires i < n
    ensures 2 * n * p - n <= 20 * n + 176 * (i + 1) < 2 * n * p + n
  {
    var a := 21 * n + 176 * (i + 1);
    var p := a / (2 * n);
    assert (2 * n) * p <= a < (2 * n) * p + 2 * n;
    p
  }

  lemma DivBounds(a: int, b: int, lo: int, hi: int)
    requires b > 0 && lo * b <= a < (hi + 1) * b
    ensures lo <= a / b <= hi
  {
    var q := a / b;
    assert q * b <= a < (q + 1) * b;
    MulCancel(lo, q + 1, b);
    MulCancel(q, hi + 1, b);
  }

  lemma DivMonotone(a1: int, a2: int, b: int)
    requires b > 0 && a1 <= a2
    ensures a1 / b <= a2 / b
  {
    var q1 := a1 / b;
    var q2 := a2 / b;
    assert q1 * b <= a1 && a2 < (q2 + 1) * b;
    MulCancel(q1, q2 + 1, b);
  }

  /** A positive factor can be cancelled from a strict inequality. */
  lemma MulCancel(x: int, y: int, b: int)
    requires b > 0 && x * b < y * b
    ensures x < y
  {
    assert (y - x) * b == y * b - x * b;
  }

  /** Chunk progress stays in 10..98, never decreases from one chunk to the next, and is
   *  98 after the last chunk. */
  lemma ChunkProgressBounds(i: nat, j: nat, n: nat)
    requires i <= j < n
    ensures 10 <= ChunkProgress(i, n) <= ChunkProgress(j, n) <= 98
    ensures ChunkProgress(n - 1, n) == 98
  {
    var b := 2 * n;
    DivBounds(21 * n + 176 * (i + 1), b, 10, 98);
    DivBounds(21 * n + 176 * (j + 1), b, 10, 98);
    DivMonotone(21 * n + 176 * (i + 1), 21 * n + 176 * (j + 1), b);
    DivBounds(21 * n + 176 * n, b, 98, 98);
  }

  function ChunkEvent(i: nat, n: nat): Progress
    requires i < n
  {
    Progress(ChunkProgress(i, n), "Downloading chunk " + NatToString(i + 1) + " of " + NatToString(n) + "...")
  }

  /** The progress reports of the first `k` chunks out of `n`. */
  function ChunkEvents(k: nat, n: nat): (events: seq<Progress>)
    requires k <= n
    ensures |events| == k
  {
    seq(k, i requires 0 <= i < k => ChunkEvent(i, n))
  }

  // ---------------------------------------------------------------------------
  // The download
  // ---------------------------------------------------------------------------

  datatype Network = Network(
    probe: string -> Probe,
    getText: string -> Reply<string>,
    getBytes: string -> Reply<Bytes>)

  datatype Options = Options(streamUrl: string, headers: Option<Headers>, filename: Option<string>)

  /** The saved file: its name and the bytes of the `video/mp2t` blob. */
  datatype Saved = Saved(name: string, blob: Bytes)

  /** A whole download: the progress reports in order, the GET requests in order, and the
   *  saved file or the failure that ended it. */
  datatype Run = Run(events: seq<Progress>, requests: seq<string>, outcome: Result<Saved, Failure>)

  /** `${sanitizeFilename(filename || `episode-${Date.now()}`)}.ts`. */
  function OutputName(filename: Option<string>, nowMillis: nat): string
  {
    var name := if filename.Some? && filename.value != "" then filename.value else "episode-" + NatToString(nowMillis);
    SanitizeFilename(name) + ".ts"
  }

  /** The output name ends in `.ts` after a sanitized stem. */
  lemma OutputNameShape(filename: Option<string>, nowMillis: nat)
    ensures var r := OutputName(filename, nowMillis);
      EndsWith(r, ".ts") && NoWhitespace(r) && IsLower(r) && NoReservedFilenameChar(r[..|r| - 3])
  {
    var r := OutputName(filename, nowMillis);
    var stem := r[..|r| - 3];
    assert r == stem + ".ts";
    assert r[|r| - 3..] == ".ts";
  }

  /** Without a file name (or with an empty one) the name is `episode-<milliseconds>.ts`,
   *  which sanitizing leaves as it is. */
  lemma OutputNameDefault(filename: Option<string>, nowMillis: nat)
    requires filename.None? || filename.value == ""
    ensures OutputName(filename, nowMillis) == "episode-" + NatToString(nowMillis) + ".ts"
  {
    var digits := NatToString(nowMillis);
    var name := "episode-" + digits;
    forall i | 0 <= i < |name|
      ensures !IsReservedFilenameChar(name[i]) && !IsWhitespace(name[i]) && !IsUpper(name[i])
    {
      if i >= 8 {
        assert name[i] == digits[i - 8];
      }
    }
    SanitizeFilenameOfSanitized(name);
  }

  /** A name with no reserved character, no whitespace and no upper-case letter is its
   *  own sanitized form. */
  lemma SanitizeFilenameOfSanitized(name: string)
    requires NoReservedFilenameChar(name) && NoWhitespace(name) && IsLower(name)
    ensures SanitizeFilename(name) == name
  {
    FilterAll(name, IsAllowedFilenameChar);
    ReplaceRunsIdentity(name, "-");
    ToLowerOfLower(name);
  }

  /** The media playlist stage: the playlist's URL, the GET requests it took, and its
   *  text. Without a variant, or when the variant resolves to the stream URL itself, the
   *  master text is the media playlist and is not fetched again. */
  datatype MediaStage = MediaStage(url: string, requests: seq<string>, text: Result<string, Failure>)

  function MediaPlaylistUrl(variant: Option<string>, streamUrl: string): string
  {
    if variant.Some? && variant.value != "" then ToAbsoluteUrl(variant.value, streamUrl) else streamUrl
  }

  function MediaStageOf(proxy: string, opts: Options, net: Network): (m: MediaStage)
    ensures 1 <= |m.requests| <= 2
    ensures m.requests[0] == BuildProxyUrl(proxy, opts.streamUrl, opts.headers)
  {
    var masterRequest := BuildProxyUrl(proxy, opts.streamUrl, opts.headers);
    match Fetched(net.getText(masterRequest))
    case Failure(e) => MediaStage(opts.streamUrl, [masterRequest], Failure(e))
    case Success(master) =>
      var mediaUrl := MediaPlaylistUrl(BestVariant(master), opts.streamUrl);
      if mediaUrl == opts.streamUrl then MediaStage(mediaUrl, [masterRequest], Success(master))
      else
        var mediaRequest := BuildProxyUrl(proxy, mediaUrl, opts.headers);
        MediaStage(mediaUrl, [masterRequest, mediaRequest], Fetched(net.getText(mediaRequest)))
  }

  /** The proxied URL of every segment URL, in order. */
  function SegmentRequests(proxy: string, urls: seq<string>, headers: Option<Headers>): (reqs: seq<string>)
    ensures |reqs| == |urls|
  {
    seq(|urls|, k requires 0 <= k < |urls| => BuildProxyUrl(proxy, urls[k], headers))
  }

  /** The index of the first request at or after `i` whose GET fails, or `|requests|`. */
  function FirstFailure(requests: seq<string>, getBytes: string -> Reply<Bytes>, i: nat): (k: nat)
    requires i <= |requests|
    ensures i <= k <= |requests|
    ensures forall j :: i <= j < k ==> Fetched(getBytes(requests[j])).Success?
    ensures k < |requests| ==> Fetched(getBytes(requests[k])).Failure?
    decreases |requests| - i
  {
    if i == |requests| then i
    else if Fetched(getBytes(requests[i])).Failure? then i
    else FirstFailure(requests, getBytes, i + 1)
  }

  function BodyOf(r: Reply<Bytes>): Bytes
  {
    if r.Answered? then r.body else []
  }

  /** The response bodies of `requests`, in order. */
  function Bodies(requests: seq<string>, getBytes: string -> Reply<Bytes>): (bodies: seq<Bytes>)
    ensures |bodies| == |requests|
  {
    seq(|requests|, k requires 0 <= k < |requests| => BodyOf(getBytes(requests[k])))
  }

  /** The segment loop: its progress reports, its GET requests, and either every body
   *  in order or the failure of the first request that failed. */
  datatype SegmentStage = SegmentStage(events: seq<Progress>, requests: seq<string>,
                                       buffers: Result<seq<Bytes>, Failure>)

  function SegmentStageOf(proxy: string, urls: seq<string>, headers: Option<Headers>,
                          getBytes: string -> Reply<Bytes>): SegmentStage
  {
    var requests := SegmentRequests(proxy, urls, headers);
    var n := |requests|;
    var k := FirstFailure(requests, getBytes, 0);
    if k < n then
      SegmentStage(ChunkEvents(k, n), requests[..k + 1], Failure(Fetched(getBytes(requests[k])).error))
    else
      SegmentStage(ChunkEvents(n, n), requests, Success(Bodies(requests, getBytes)))
  }

  /** What `downloadM3u8AsTs` does, end to end. */
  function Download(proxies: seq<string>, opts: Options, nowMillis: nat, net: Network): Run
    requires |proxies| > 0
  {
    var proxy := ChosenProxy(proxies, opts.streamUrl, opts.headers, net.probe);
    var rest := DownloadThrough(proxy, opts, nowMillis, net);
    Run([CHECKING, LOADING] + rest.events, rest.requests, rest.outcome)
  }

  /** Everything after the proxy is chosen: the playlists, the segments and the saved
   *  file, with the progress reports from the first chunk on. */
  function DownloadThrough(proxy: string, opts: Options, nowMillis: nat, net: Network): Run
  {
    var media := MediaStageOf(proxy, opts, net);
    match media.text
    case Failure(e) => Run([], media.requests, Failure(e))
    case Success(text) =>
      match MediaPlaylistOf(text)
      case Failure(e) => Run([], media.requests, Failure(e))
      case Success(playlist) =>
        var segments := SegmentStageOf(proxy, SegmentUrls(playlist, media.url), opts.headers, net.getBytes);
        match segments.buffers
        case Failure(e) => Run(segments.events, media.requests + segments.requests, Failure(e))
        case Success(buffers) =>
          Run(segments.events + [READY], media.requests + segments.requests,
              Success(Saved(OutputName(opts.filename, nowMillis), Concat(buffers))))
  }

  /** Fetching segment `i` adds its proxied request after those of the segments before. */
  lemma SegmentRequestsStep(proxy: string, urls: seq<string>, headers: Option<Headers>, i: nat)
    requires i < |urls|
    ensures var requests := SegmentRequests(proxy, urls, headers);
      requests[..i + 1] == requests[..i] + [BuildProxyUrl(proxy, urls[i], headers)]
  {
    var requests := SegmentRequests(proxy, urls, headers);
    assert requests[..i + 1] == requests[..i] + [requests[i]];
  }

  /** ... and its body after theirs. */
  lemma BodiesStep(requests: seq<string>, getBytes: string -> Reply<Bytes>, i: nat)
    requires i < |requests|
    ensures var bodies := Bodies(requests, getBytes);
      bodies[..i + 1] == bodies[..i] + [BodyOf(getBytes(requests[i]))]
  {
    var bodies := Bodies(requests, getBytes);
    assert bodies[..i + 1] == bodies[..i] + [bodies[i]];
  }

  /** ... and its progress report after theirs. */
  lemma ChunkEventsStep(i: nat, n: nat)
    requires i < n
    ensures ChunkEvents(i + 1, n) == ChunkEvents(i, n) + [ChunkEvent(i, n)]
  {
  }

  /** A request at or before the first failure is that failure when its GET fails, and
   *  moves the first failure past it otherwise. */
  lemma FirstFailureStep(requests: seq<string>, getBytes: string -> Reply<Bytes>, i: nat)
    requires i < |requests| && i <= FirstFailure(requests, getBytes, 0)
    ensures Fetched(getBytes(requests[i])).Failure? ==> FirstFailure(requests, getBytes, 0) == i
    ensures Fetched(getBytes(requests[i])).Success? ==> i + 1 <= FirstFailure(requests, getBytes, 0)
  {
  }

  /** The chunk reports lie in 10..98 and never go down. */
  lemma ChunkEventsMonotone(k: nat, n: nat)
    requires k <= n
    ensures forall i :: 0 <= i < k ==> 10 <= ChunkEvents(k, n)[i].percent <= 98
    ensures forall i, j :: 0 <= i < j < k ==> ChunkEvents(k, n)[i].percent <= ChunkEvents(k, n)[j].percent
  {
    var events := ChunkEvents(k, n);
    forall i, j | 0 <= i <= j < k
      ensures 10 <= events[i].percent <= events[j].percent <= 98
    {
      ChunkProgressBounds(i, j, n);
    }
  }

  /** The reports of a download: first 2 and 8, then never going down, and 100 ("Download
   *  ready.") exactly when the file was saved, as the very last report. */
  lemma DownloadProgress(proxies: seq<string>, opts: Options, nowMillis: nat, net: Network)
    requires |proxies| > 0
    ensures var events := Download(proxies, opts, nowMillis, net).events;
      && |events| >= 2 && events[0] == CHECKING && events[1] == LOADING
      && (forall i, j :: 0 <= i < j < |events| ==> events[i].percent <= events[j].percent)
      && (forall i :: 0 <= i < |events| - 1 ==> events[i].percent < 100)
      && (Download(proxies, opts, nowMillis, net).outcome.Success? <==> events[|events| - 1] == READY)
  {
    var proxy := ChosenProxy(proxies, opts.streamUrl, opts.headers, net.probe);
    var rest := DownloadThrough(proxy, opts, nowMillis, net);
    ThroughProgress(proxy, opts, nowMillis, net);
    AfterProbeAndLoad(rest.events, rest.outcome.Success?);
  }

  /** The two reports before the playlist load keep the reports in order. */
  lemma AfterProbeAndLoad(rest: seq<Progress>, saved: bool)
    requires ReportsInOrder(rest, saved)
    ensures var events := [CHECKING, LOADING] + rest;
      && (forall i, j :: 0 <= i < j < |events| ==> events[i].percent <= events[j].percent)
      && (forall i :: 0 <= i < |events| - 1 ==> events[i].percent < 100)
      && (saved <==> events[|events| - 1] == READY)
  {
    var events := [CHECKING, LOADING] + rest;
    forall i | 2 <= i < |events|
      ensures events[i] == rest[i - 2]
    {
    }
  }

  /** The reports after the proxy choice: chunk reports in 10..98 that never go down,
   *  followed by 100 exactly when the file was saved. */
  lemma ThroughProgress(proxy: string, opts: Options, nowMillis: nat, net: Network)
    ensures var run := DownloadThrough(proxy, opts, nowMillis, net);
      ReportsInOrder(run.events, run.outcome.Success?)
  {
    var run := DownloadThrough(proxy, opts, nowMillis, net);
    var media := MediaStageOf(proxy, opts, net);
    if media.text.Success? && MediaPlaylistOf(media.text.value).Success? {
      var urls := SegmentUrls(MediaPlaylistOf(media.text.value).value, media.url);
      var stage := SegmentStageOf(proxy, urls, opts.headers, net.getBytes);
      StageReports(proxy, urls, opts.headers, net.getBytes);
      ReportsThenReady(stage.events, stage.buffers.Success?);
      assert run.events == stage.events + (if stage.buffers.Success? then [READY] else []);
      assert run.outcome.Success? == stage.buffers.Success?;
    } else {
      assert run.events == [] && run.outcome.Failure?;
    }
  }

  /** The chunk reports of the segment loop lie in 10..98 and never go down. */
  lemma StageReports(proxy: string, urls: seq<string>, headers: Option<Headers>,
                     getBytes: string -> Reply<Bytes>)
    ensures var events := SegmentStageOf(proxy, urls, headers, getBytes).events;
      && (forall i :: 0 <= i < |events| ==> 10 <= events[i].percent <= 98)
      && (forall i, j :: 0 <= i < j < |events| ==> events[i].percent <= events[j].percent)
  {
    var requests := SegmentRequests(proxy, urls, headers);
    ChunkEventsMonotone(FirstFailure(requests, getBytes, 0), |requests|);
  }

  /** Reports from 10 on that never go down, where 100 ("Download ready.") comes last
   *  and exactly when the file was saved. */
  predicate ReportsInOrder(events: seq<Progress>, saved: bool)
  {
    && (forall i :: 0 <= i < |events| ==> 10 <= events[i].percent)
    && (forall i, j :: 0 <= i < j < |events| ==> events[i].percent <= events[j].percent)
    && (forall i :: 0 <= i < |events| - 1 ==> events[i].percent < 100)
    && (saved <==> |events| > 0 && events[|events| - 1] == READY)
  }

  /** Chunk reports in 10..98 that never go down, then 100 when the file is saved. */
  lemma ReportsThenReady(chunks: seq<Progress>, saved: bool)
    requires forall i :: 0 <= i < |chunks| ==> 10 <= chunks[i].percent <= 98
    requires forall i, j :: 0 <= i < j < |chunks| ==> chunks[i].percent <= chunks[j].percent
    ensures ReportsInOrder(chunks + (if saved then [READY] else []), saved)
  {
    var events := chunks + (if saved then [READY] else []);
    forall i | 0 <= i < |chunks|
      ensures events[i] == chunks[i]
    {
    }
    if !saved && |chunks| > 0 {
      assert events[|events| - 1].percent <= 98;
    }
  }

  /** A saved file is the concatenation, in order, of the bodies of the segment requests,
   *  which follow the playlist requests and all answered ok; its name is the output
   *  name. */
  lemma DownloadSavesSegmentsInOrder(proxy: string, opts: Options, nowMillis: nat, net: Network)
    ensures var run := DownloadThrough(proxy, opts, nowMillis, net);
      var media := MediaStageOf(proxy, opts, net);
      run.outcome.Success? ==>
        && |media.requests| <= |run.requests|
        && run.requests[..|media.requests|] == media.requests
        && var segs := run.requests[|media.requests|..];
        && (forall k :: 0 <= k < |segs| ==> Fetched(net.getBytes(segs[k])).Success?)
        && run.outcome.value.blob == Concat(seq(|segs|, k requires 0 <= k < |segs| => net.getBytes(segs[k]).body))
        && run.outcome.value.name == OutputName(opts.filename, nowMillis)
        && media.text.Success? && MediaPlaylistOf(media.text.value).Success?
        && segs == SegmentRequests(proxy, SegmentUrls(MediaPlaylistOf(media.text.value).value, media.url), opts.headers)
  {
    var run := DownloadThrough(proxy, opts, nowMillis, net);
    var media := MediaStageOf(proxy, opts, net);
    if media.text.Success? && MediaPlaylistOf(media.text.value).Success? {
      var urls := SegmentUrls(MediaPlaylistOf(media.text.value).value, media.url);
      var stage := SegmentStageOf(proxy, urls, opts.headers, net.getBytes);
      StageBuffers(proxy, urls, opts.headers, net.getBytes);
      if stage.buffers.Success? {
        assert run.requests == media.requests + stage.requests;
        assert run.requests[|media.requests|..] == stage.requests;
      }
    }
  }

  /** A media playlist that fails to parse (encrypted, or without segments) ends the
   *  download after the playlist requests: no segment is requested, nothing is reported
   *  after `Loading playlist...`, and nothing is saved. The failure is `Encrypted` exactly
   *  when some line is an `#EXT-X-KEY` tag, and `NoSegments` exactly when there is no such
   *  tag and no segment line. */
  lemma RefusedPlaylistSavesNothing(proxies: seq<string>, opts: Options, nowMillis: nat, net: Network)
    requires |proxies| > 0
    ensures var proxy := ChosenProxy(proxies, opts.streamUrl, opts.headers, net.probe);
      var media := MediaStageOf(proxy, opts, net);
      var run := Download(proxies, opts, nowMillis, net);
      media.text.Success? && MediaPlaylistOf(media.text.value).Failure? ==>
        var lines := Lines(media.text.value);
        var error := MediaPlaylistOf(media.text.value).error;
        && run.requests == media.requests
        && run.events == [CHECKING, LOADING]
        && run.outcome == Failure(error)
        && (error == Encrypted <==> exists i :: 0 <= i < |lines| && IsKeyLine(lines[i]))
        && (error == NoSegments <==>
              (forall i :: 0 <= i < |lines| ==> !IsKeyLine(lines[i])) && Filter(lines, IsSegmentLine) == [])
  {
  }

  /** A segment loop that got every body fetched every segment request, each answered
   *  ok, and kept the bodies in request order. */
  lemma StageBuffers(proxy: string, urls: seq<string>, headers: Option<Headers>,
                     getBytes: string -> Reply<Bytes>)
    ensures var stage := SegmentStageOf(proxy, urls, headers, getBytes);
      var reqs := stage.requests;
      stage.buffers.Success? ==>
        && reqs == SegmentRequests(proxy, urls, headers)
        && (forall k :: 0 <= k < |reqs| ==> Fetched(getBytes(reqs[k])).Success?)
        && stage.buffers.value == seq(|reqs|, k requires 0 <= k < |reqs| => getBytes(reqs[k]).body)
  {
    var stage := SegmentStageOf(proxy, urls, headers, getBytes);
    var requests := SegmentRequests(proxy, urls, headers);
    if stage.buffers.Success? {
      var bodies := Bodies(requests, getBytes);
      forall k | 0 <= k < |requests|
        ensures bodies[k] == getBytes(requests[k]).body
      {
        assert Fetched(getBytes(requests[k])).Success?;
      }
    }
  }

  /** A segment that cannot be fetched stops the loop there: the requests made are the
   *  segment requests up to and including it, every earlier one answered ok, the
   *  failure is its own, and only the chunks before it were reported. */
  lemma SegmentFailureStops(proxy: string, urls: seq<string>, headers: Option<Headers>,
                            getBytes: string -> Reply<Bytes>)
    ensures var stage := SegmentStageOf(proxy, urls, headers, getBytes);
      var reqs := stage.requests;
      stage.buffers.Failure? ==>
        && 0 < |reqs| <= |urls|
        && reqs == SegmentRequests(proxy, urls, headers)[..|reqs|]
        && (forall k :: 0 <= k < |reqs| - 1 ==> Fetched(getBytes(reqs[k])).Success?)
        && Fetched(getBytes(reqs[|reqs| - 1])) == Failure(stage.buffers.error)
        && |stage.events| == |reqs| - 1
  {
  }

  /** The media playlist is the master text itself, fetched once, when no variant is
   *  found or the variant resolves to the stream URL; otherwise it is the variant
   *  resolved against the stream URL, fetched through the same proxy. A failed master
   *  fetch is the stage's failure. */
  lemma MediaStageChoice(proxy: string, opts: Options, net: Network)
    ensures var m := MediaStageOf(proxy, opts, net);
      var masterRequest := BuildProxyUrl(proxy, opts.streamUrl, opts.headers);
      var master := Fetched(net.getText(masterRequest));
      && (master.Failure? ==> m.requests == [masterRequest] && m.text == master)
      && (master.Success? && BestVariant(master.value).None? ==>
            m.url == opts.streamUrl && m.requests == [masterRequest] && m.text == master)
      && (master.Success? && BestVariant(master.value).Some? ==>
            m.url == ToAbsoluteUrl(BestVariant(master.value).value, opts.streamUrl)
            && (m.url == opts.streamUrl ==> m.requests == [masterRequest] && m.text == master)
            && (m.url != opts.streamUrl ==>
                  m.requests == [masterRequest, BuildProxyUrl(proxy, m.url, opts.headers)]
                  && m.text == Fetched(net.getText(m.requests[1]))))
  {
    var master := Fetched(net.getText(BuildProxyUrl(proxy, opts.streamUrl, opts.headers)));
    if master.Success? && BestVariant(master.value).Some? {
      BestVariantIsMaximal(master.value);
    }
  }

  /** `downloadM3u8AsTs`. */
  method DownloadM3u8AsTs(proxies: seq<string>, opts: Options, nowMillis: nat, net: Network)
    returns (run: Run)
    requires |proxies| > 0
    ensures run == Download(proxies, opts, nowMillis, net)
  {
    var events := [CHECKING];
    var proxy, _ := FindWorkingProxy(proxies, opts.streamUrl, opts.headers, net.probe);
    events := events + [LOADING];
    var rest := DownloadFrom(proxy, opts, nowMillis, net);
    return Run(events + rest.events, rest.requests, rest.outcome);
  }

  /** The part of `downloadM3u8AsTs` after `findWorkingProxy`. */
  method DownloadFrom(proxy: string, opts: Options, nowMillis: nat, net: Network) returns (run: Run)
    ensures run == DownloadThrough(proxy, opts, nowMillis, net)
  {
    var media := LoadMediaPlaylist(proxy, opts, net);
    if media.text.Failure? {
      return Run([], media.requests, Failure(media.text.error));
    }
    var parsed := ParseMediaManifest(media.text.value);
    if parsed.Failure? {
      return Run([], media.requests, Failure(parsed.error));
    }
    var segmentUrls := SegmentUrls(parsed.value, media.url);
    var segments := FetchSegments(proxy, segmentUrls, opts.headers, net.getBytes);
    if segments.buffers.Failure? {
      return Run(segments.events, media.requests + segments.requests, Failure(segments.buffers.error));
    }
    var outputName := OutputName(opts.filename, nowMillis);
    return Run(segments.events + [READY], media.requests + segments.requests,
               Success(Saved(outputName, Concat(segments.buffers.value))));
  }

  /** The master playlist fetch, the variant choice and, when the variant is another
   *  URL, the media playlist fetch. */
  method LoadMediaPlaylist(proxy: string, opts: Options, net: Network) returns (media: MediaStage)
    ensures media == MediaStageOf(proxy, opts, net)
  {
    var masterRequest := BuildProxyUrl(proxy, opts.streamUrl, opts.headers);
    var masterManifest := Fetched(net.getText(masterRequest));
    if masterManifest.Failure? {
      return MediaStage(opts.streamUrl, [masterRequest], Failure(masterManifest.error));
    }
    var variantUri := PickBestVariant(masterManifest.value);
    var mediaUrl := if variantUri.Some? && variantUri.value != "" then ToAbsoluteUrl(variantUri.value, opts.streamUrl) else opts.streamUrl;
    if mediaUrl == opts.streamUrl {
      return MediaStage(mediaUrl, [masterRequest], masterManifest);
    }
    var mediaRequest := BuildProxyUrl(proxy, mediaUrl, opts.headers);
    return MediaStage(mediaUrl, [masterRequest, mediaRequest], Fetched(net.getText(mediaRequest)));
  }

  /** The segment loop of `downloadM3u8AsTs`: fetch each segment through the proxy in
   *  order, keep its body, and report progress after each one. */
  method FetchSegments(proxy: string, urls: seq<string>, headers: Option<Headers>,
                       getBytes: string -> Reply<Bytes>) returns (stage: SegmentStage)
    ensures stage == SegmentStageOf(proxy, urls, headers, getBytes)
  {
    var n := |urls|;
    ghost var segmentRequests := SegmentRequests(proxy, urls, headers);
    ghost var k := FirstFailure(segmentRequests, getBytes, 0);
    ghost var bodies := Bodies(segmentRequests, getBytes);
    var requests: seq<string> := [];
    var events: seq<Progress> := [];
    var buffers: seq<Bytes> := [];
    for i := 0 to n
      invariant i <= k
      invariant requests == segmentRequests[..i]
      invariant events == ChunkEvents(i, n)
      invariant buffers == bodies[..i]
    {
      SegmentRequestsStep(proxy, urls, headers, i);
      BodiesStep(segmentRequests, getBytes, i);
      ChunkEventsStep(i, n);
      FirstFailureStep(segmentRequests, getBytes, i);
      var request := BuildProxyUrl(proxy, urls[i], headers);
      requests := requests + [request];
      var buffer := Fetched(getBytes(request));
      if buffer.Failure? {
        return SegmentStage(events, requests, Failure(buffer.error));
      }
      buffers := buffers + [buffer.value];
      events := events + [ChunkEvent(i, n)];
    }
    assert segmentRequests[..n] == segmentRequests;
    assert bodies[..n] == bodies;
    return SegmentStage(events, requests, Success(buffers));
  }
}
