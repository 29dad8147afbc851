/** The M3U8 proxy edge function (`supabase/functions/m3u8-proxy/index.ts`): it fetches
 *  the `url` query parameter with a browser `User-Agent` and the caller's `headers`,
 *  rewrites a playlist so that every URI in it is absolute, and passes any other body
 *  through.
 *
 *  The upstream `fetch` is an input (`Upstream`), and so is `JSON.parse` of the
 *  `headers` parameter. */
module M3u8Proxy {

  import opened Wrappers
  import opened Strings
  import opened Seqs
  import opened Urls
  import opened M3u8Text

  const USER_AGENT: string :=
    "Mozilla/5.0 (Windows NT 10.0; Win64; x64) AppleWebKit/537.36 (KHTML, like Gecko) Chrome/131.0.0.0 Safari/537.36"

  const CORS_HEADERS: Headers := [
    ("Access-Control-Allow-Origin", "*"),
    ("Access-Control-Allow-Headers",
     "authorization, x-client-info, apikey, content-type, x-supabase-client-platform, x-supabase-client-platform-version, x-supabase-client-runtime, x-supabase-client-runtime-version"),
    ("Access-Control-Allow-Methods", "GET, POST, OPTIONS")]

  const PLAYLIST_TYPE: string := "application/vnd.apple.mpegurl"
  const DEFAULT_TYPE: string := "application/octet-stream"
  const MISSING_URL: string := "Missing 'url' parameter"


  // ---------------------------------------------------------------------------
  // Requests and responses
  // ---------------------------------------------------------------------------

  /** The request: its method (`verb`) and the decoded parameters of its query, in order. */
  datatype Request = Request(verb: string, query: Headers)

  /** A status a `fetch` response can carry. */
  type HttpStatus = s: int | 200 <= s <= 599 witness 200

  /** What `fetch` of the target gives: an exception with its message, or a response
   *  with its status, its `content-type` header, its body read as text and as bytes. */
  datatype Upstream =
    | Threw(message: string)
    | Answered(status: HttpStatus, contentType: Option<string>, text: string, bytes: Bytes)

  datatype Body = Text(text: string) | Binary(bytes: Bytes)

  datatype Response = Response(status: int, headers: Headers, body: Body)

  /** `response.ok`. */
  predicate IsOk(status: int) { 200 <= status <= 299 }

  /** A null body status of the Fetch standard: a `Response` built with one of these
   *  and a body makes the constructor throw a `TypeError`. */
  predicate IsNullBodyStatus(status: int)
  {
    status == 101 || status == 103 || status == 204 || status == 205 || status == 304
  }

  /** A JSON error answer: `{"error": message}` with the CORS headers. */
  function ErrorResponse(status: int, message: string): Response
  {
    Response(status, CORS_HEADERS + [("Content-Type", "application/json")],
             Text(JsonObject([("error", message)])))
  }

  /** `{"error":"<message>"}` written out for a message without characters to escape. */
  function PlainErrorBody(message: string): string
  {
    "{\"error\":\"" + message + "\"}"
  }

  /** For such a message it is the JSON of the error object. */
  lemma PlainErrorBodyIsJson(message: string)
    requires forall i :: 0 <= i < |message| ==> IsJsonPlain(message[i])
    ensures PlainErrorBody(message) == JsonObject([("error", message)])
  {
    JsonEscapePlain("error");
    JsonEscapePlain(message);
  }

  /** The message of the 400 answer needs no escape. */
  lemma MissingUrlIsPlain()
    ensures forall i :: 0 <= i < |MISSING_URL| ==> IsJsonPlain(MISSING_URL[i])
  {
  }

  /** `error.message || "Proxy error"`. */
  function ErrorMessage(message: string): (r: string)
    ensures r != ""
    ensures message != "" ==> r == message
    ensures message == "" ==> r == "Proxy error"
  {
    if message != "" then message else "Proxy error"
  }

  /** The `url` parameter when it is present and not empty. */
  function TargetOf(req: Request): Option<string>
  {
    var url := Get(req.query, "url");
    if url.Some? && url.value != "" then url else None
  }

  /** `customHeaders`: the pairs of the parsed `headers` parameter, or none when the
   *  parameter is missing or empty or `JSON.parse` throws. */
  function CustomHeaders(req: Request, parseJson: string -> Option<Headers>): Headers
  {
    var param := Get(req.query, "headers");
    if param.Some? && param.value != "" && parseJson(param.value).Some?
    then Assign([], parseJson(param.value).value)
    else []
  }

  /** `fetchHeaders`: the browser `User-Agent`, overridden by the custom headers. */
  function ForwardHeaders(custom: Headers): Headers
  {
    Assign([("User-Agent", USER_AGENT)], custom)
  }

  /** The forwarded value of a header is the caller's, and for `User-Agent` without one
   *  the browser's; no other header is sent. */
  lemma ForwardHeadersGet(custom: Headers, key: string)
    ensures Get(ForwardHeaders(custom), key) ==
      if LastValue(custom, key).Some? then LastValue(custom, key)
      else if key == "User-Agent" then Some(USER_AGENT)
      else None
  {
    AssignGet([("User-Agent", USER_AGENT)], custom, key);
  }

  /** `response.headers.get("content-type") || "application/octet-stream"`. */
  function ContentTypeOf(contentType: Option<string>): (r: string)
    ensures r != ""
    ensures contentType.Some? && contentType.value != "" ==> r == contentType.value
    ensures contentType.None? || contentType.value == "" ==> r == DEFAULT_TYPE
  {
    if contentType.Some? && contentType.value != "" then contentType.value else DEFAULT_TYPE
  }

  /** The playlist test: the content type mentions `mpegurl` or `x-mpegurl`, or the
   *  target ends with `.m3u8`. */
  predicate IsPlaylist(contentType: string, target: string)
  {
    Contains(contentType, "mpegurl") || Contains(contentType, "x-mpegurl") || EndsWith(target, ".m3u8")
  }

  /** The `x-mpegurl` test adds nothing: any type that mentions it mentions `mpegurl`. */
  lemma IsPlaylistIff(contentType: string, target: string)
    ensures IsPlaylist(contentType, target) <==> Contains(contentType, "mpegurl") || EndsWith(target, ".m3u8")
  {
    if Contains(contentType, "x-mpegurl") {
      ContainsTail(contentType);
    }
  }

  lemma {:induction false} ContainsTail(s: string)
    requires Contains(s, "x-mpegurl")
    ensures Contains(s, "mpegurl")
    decreases |s|
  {
    if StartsWith(s, "x-mpegurl") {
      assert s[1..][1..][..7] == s[2..9];
      assert Contains(s[1..][1..], "mpegurl");
    } else {
      ContainsTail(s[1..]);
    }
  }

  // ---------------------------------------------------------------------------
  // Playlist rewrite
  // ---------------------------------------------------------------------------

  /** The base for relative URIs: the target up to and including its last `/` when that
   *  `/` comes after index 8 (past the slashes of `https://`), else the whole target. */
  function BaseUrl(target: string): (b: string)
    ensures StartsWith(target, b)
  {
    var lastSlash := LastIndexOf(target, '/');
    if lastSlash > 8 then target[..lastSlash + 1] else target
  }

  /** For an http(s) target the base is an http(s) URL too, and resolving against it
   *  gives what resolving against the target gives: cutting after the last `/` never
   *  changes the directory, the origin or the scheme. */
  lemma BaseUrlResolvesAlike(ref: string, target: string)
    requires IsHttpUrl(target)
    ensures IsHttpUrl(BaseUrl(target))
    ensures Resolve(ref, BaseUrl(target)) == Resolve(ref, target)
  {
    var last := LastIndexOf(target, '/');
    if last > 8 {
      CutAfterLastSlash(target, last);
    }
  }

  lemma CutAfterLastSlash(s: string, last: nat)
    requires IsHttpUrl(s) && 8 < last && last == LastIndexOf(s, '/')
    ensures var b := s[..last + 1];
      IsHttpUrl(b) && SchemeOf(b) == SchemeOf(s) && Origin(b) == Origin(s) && Directory(b) == Directory(s)
  {
    CutKeepsAuthority(s, last);
    CutKeepsPath(s, last);
  }

  /** The cut keeps the scheme and the authority. */
  lemma CutKeepsAuthority(s: string, last: nat)
    requires IsHttpUrl(s) && 8 < last && last == LastIndexOf(s, '/')
    ensures var b := s[..last + 1];
      IsHttpUrl(b) && AuthorityStart(b) == AuthorityStart(s) && SchemeOf(b) == SchemeOf(s)
      && FindFrom(b, AuthorityStart(b), EndsAuthority) == FindFrom(s, AuthorityStart(s), EndsAuthority) <= last
      && Origin(b) == Origin(s)
  {
    var b := s[..last + 1];
    assert b[..8] == s[..8] && b[..7] == s[..7];
    assert StartsWith(b, "https://") == StartsWith(s, "https://");
    assert StartsWith(b, "http://") == StartsWith(s, "http://");
    var start := AuthorityStart(s);
    var k := FindFrom(s, start, EndsAuthority);
    assert k <= last by {
      assert EndsAuthority(s[last]);
    }
    FindFromUnique(b, start, EndsAuthority, k);
    assert b[..k] == s[..k];
  }

  /** The cut keeps the path up to its last `/`: a query or fragment that starts before
   *  the cut is cut at the same place, and one that starts after it (or none) leaves
   *  the cut text as the path, whose last `/` is the one of the whole path. */
  lemma CutKeepsPath(s: string, last: nat)
    requires 8 < last && last == LastIndexOf(s, '/')
    ensures var b := s[..last + 1];
      var q := FindFrom(s, 0, StartsQueryOrFragment);
      if q <= last then
        FindFrom(b, 0, StartsQueryOrFragment) == q && b[..q] == s[..q]
      else
        FindFrom(b, 0, StartsQueryOrFragment) == |b| && b[..|b|] == b
        && LastIndexOf(s[..q], '/') == last && LastIndexOf(b, '/') == last && s[..q][..last + 1] == b
  {
    var b := s[..last + 1];
    var q := FindFrom(s, 0, StartsQueryOrFragment);
    if q <= last {
      FindFromUnique(b, 0, StartsQueryOrFragment, q);
      assert b[..q] == s[..q];
    } else {
      FindFromUnique(b, 0, StartsQueryOrFragment, |b|);
      assert b[..|b|] == b;
      var p := s[..q];
      assert forall j :: last < j < |s| ==> s[j] == s[last + 1..][j - last - 1];
      LastIndexOfUnique(p, '/', last);
      LastIndexOfUnique(b, '/', last);
      assert p[..last + 1] == b;
    }
  }

  /** `new URL(ref, base).toString()`, or `base + ref` when the constructor throws. */
  function ResolveOrAppend(ref: string, base: string): string
  {
    match Resolve(ref, base)
    case Some(url) => url
    case None => base + ref
  }

  /** The replacement of one `URI="..."` attribute: an http(s) value is kept, any other
   *  value is made absolute. */
  function RewriteAttribute(uri: string, base: string): string
  {
    URI_OPEN + (if IsHttpUrl(uri) then uri else ResolveOrAppend(uri, base)) + "\""
  }

  /** The rewrite of one line of the playlist. */
  function RewriteLine(line: string, base: string): string
  {
    var trimmed := Trim(line);
    if trimmed == "" || StartsWith(trimmed, "#") then
      if Contains(trimmed, URI_OPEN) then ReplaceUris(trimmed, 0, uri => RewriteAttribute(uri, base))
      else line
    else if IsHttpUrl(trimmed) then line
    else ResolveOrAppend(trimmed, base)
  }

  function RewriteLines(lines: seq<string>, base: string): (r: seq<string>)
    ensures |r| == |lines|
  {
    seq(|lines|, k requires 0 <= k < |lines| => RewriteLine(lines[k], base))
  }

  /** The body of the rewritten playlist: split on `\n`, rewrite each line, join. */
  function RewritePlaylist(text: string, base: string): string
  {
    Join(RewriteLines(Split(text, '\n'), base), '\n')
  }

  /** A character other than `/` that is in neither the reference nor the base is not in
   *  the rewritten reference. */
  lemma ResolveOrAppendAvoids(ref: string, base: string, c: char)
    requires c !in ref && c !in base && c != '/'
    ensures c !in ResolveOrAppend(ref, base)
  {
    if Resolve(ref, base).Some? {
      ResolveChars(ref, base);
    }
  }

  lemma TrimAvoids(s: string, c: char)
    requires c !in s
    ensures c !in Trim(s)
  {
    TrimIsSlice(s);
  }

  /** A line without `\n` is rewritten into a line without `\n` when the base has none. */
  lemma RewriteLineOneLine(line: string, base: string)
    requires '\n' !in line && '\n' !in base
    ensures '\n' !in RewriteLine(line, base)
  {
    var trimmed := Trim(line);
    TrimAvoids(line, '\n');
    if trimmed == "" || StartsWith(trimmed, "#") {
      if Contains(trimmed, URI_OPEN) {
        var f := uri => RewriteAttribute(uri, base);
        forall j | 0 <= j < |trimmed| && UriMatchAt(trimmed, j, false)
          ensures '\n' !in f(UriValueAt(trimmed, j, false))
        {
          var v := UriValueAt(trimmed, j, false);
          assert forall k :: 0 <= k < |v| ==> v[k] == trimmed[j + 5 + k];
          ResolveOrAppendAvoids(v, base, '\n');
        }
        ReplaceUrisAvoids(trimmed, 0, f, '\n');
      }
    } else if !IsHttpUrl(trimmed) {
      ResolveOrAppendAvoids(trimmed, base, '\n');
    }
  }

  /** The rewrite keeps the line structure: when the base has no `\n`, the answer has
   *  exactly as many lines as the upstream playlist, and line `k` of the answer is the
   *  rewrite of line `k`. */
  lemma RewritePlaylistLines(text: string, base: string)
    requires '\n' !in base
    ensures Split(RewritePlaylist(text, base), '\n') == RewriteLines(Split(text, '\n'), base)
    ensures |Split(RewritePlaylist(text, base), '\n')| == |Split(text, '\n')|
  {
    var lines := Split(text, '\n');
    var out := RewriteLines(lines, base);
    forall k | 0 <= k < |out| ensures '\n' !in out[k] {
      RewriteLineOneLine(lines[k], base);
    }
    SplitJoin(out, '\n');
  }

  /** A line holding an http(s) URL is kept verbatim, surrounding blanks included. */
  lemma RewriteKeepsAbsoluteLine(line: string, base: string)
    requires var t := Trim(line); t != "" && !StartsWith(t, "#") && IsHttpUrl(t)
    ensures RewriteLine(line, base) == line
  {
  }

  /** Against an http(s) base a relative line becomes an http(s) URL with the base's
   *  scheme that ends with the trimmed line. */
  lemma RewriteRelativeLine(line: string, base: string)
    requires IsHttpUrl(base)
    requires var t := Trim(line); t != "" && !StartsWith(t, "#") && !HasScheme(t)
    ensures var r := RewriteLine(line, base);
      r == Resolve(Trim(line), base).value && IsHttpUrl(r) && EndsWith(r, Trim(line))
  {
    var t := Trim(line);
    ResolveRelative(t, base);
    assert !IsHttpUrl(t) by {
      if IsHttpUrl(t) {
        HttpUrlHasScheme(t);
      }
    }
  }

  /** A tag, comment or blank line without `URI="` is kept as it is. */
  lemma RewriteKeepsPlainTag(line: string, base: string)
    requires var t := Trim(line); (t == "" || StartsWith(t, "#")) && !Contains(t, URI_OPEN)
    ensures RewriteLine(line, base) == line
  {
  }

  /** A tag whose `URI` attributes are all http(s) URLs comes out trimmed and otherwise
   *  unchanged. */
  lemma RewriteKeepsAbsoluteAttributes(line: string, base: string)
    requires var t := Trim(line); StartsWith(t, "#") && Contains(t, URI_OPEN)
    requires var t := Trim(line);
      forall j :: 0 <= j < |t| && UriMatchAt(t, j, false) ==> IsHttpUrl(UriValueAt(t, j, false))
    ensures RewriteLine(line, base) == Trim(line)
  {
    var t := Trim(line);
    ReplaceUrisKeeping(t, 0, uri => RewriteAttribute(uri, base));
  }

  // ---------------------------------------------------------------------------
  // The handler
  // ---------------------------------------------------------------------------

  /** The request handler: one early return per case. `nullBodyError` is the message of
   *  the `TypeError` the `Response` constructor throws for a body with a null body
   *  status. */
  method Handle(req: Request, parseJson: string -> Option<Headers>,
                fetch: (string, Headers) -> Upstream, nullBodyError: string) returns (resp: Response)
    ensures req.verb == "OPTIONS" ==> resp == Response(200, CORS_HEADERS, Text("ok"))
    ensures req.verb != "OPTIONS" && TargetOf(req).None? ==>
      resp == Response(400, CORS_HEADERS + [("Content-Type", "application/json")], Text(PlainErrorBody(MISSING_URL)))
    ensures req.verb != "OPTIONS" && TargetOf(req).Some? ==>
      Relayed(TargetOf(req).value, fetch(TargetOf(req).value, ForwardHeaders(CustomHeaders(req, parseJson))),
              nullBodyError, resp)
  {
    if req.verb == "OPTIONS" {
      return Response(200, CORS_HEADERS, Text("ok"));
    }
    var targetUrl := Get(req.query, "url");
    if targetUrl.None? || targetUrl.value == "" {
      return Response(400, CORS_HEADERS + [("Content-Type", "application/json")], Text(PlainErrorBody(MISSING_URL)));
    }
    var target := targetUrl.value;

    var fetchHeaders := BuildFetchHeaders(req, parseJson);
    var response := fetch(target, fetchHeaders);
    resp := Relay(target, response, nullBodyError);
  }

  /** The custom headers parsed from the `headers` parameter (an unparsable value is
   *  ignored) and the forwarded headers built from them. */
  method BuildFetchHeaders(req: Request, parseJson: string -> Option<Headers>) returns (fetchHeaders: Headers)
    ensures fetchHeaders == ForwardHeaders(CustomHeaders(req, parseJson))
  {
    var headersParam := Get(req.query, "headers");
    var customHeaders: Headers := [];
    if headersParam.Some? && headersParam.value != "" {
      var parsed := parseJson(headersParam.value);
      if parsed.Some? {
        customHeaders := Assign(customHeaders, parsed.value);
      }
    }
    fetchHeaders := Assign([("User-Agent", USER_AGENT)], customHeaders);
  }

  /** The answer to an upstream outcome: a thrown `fetch` gives 500, a status that is not
   *  ok is passed on with a JSON error, a playlist is rewritten, anything else is passed
   *  through byte for byte with its length. A JSON error cannot carry a null body status
   *  (304 among the upstream's): building it throws, and the handler's `catch` answers
   *  500 with the `TypeError`'s message. */
  predicate Relayed(target: string, up: Upstream, nullBodyError: string, resp: Response)
  {
    match up
    case Threw(message) => resp == ErrorResponse(500, ErrorMessage(message))
    case Answered(status, contentType, text, bytes) =>
      if !IsOk(status) && IsNullBodyStatus(status) then
        resp == ErrorResponse(500, ErrorMessage(nullBodyError))
      else if !IsOk(status) then
        resp == ErrorResponse(status, "Upstream returned " + NatToString(status))
      else if IsPlaylist(ContentTypeOf(contentType), target) then
        resp == Response(200, CORS_HEADERS + [("Content-Type", PLAYLIST_TYPE), ("Cache-Control", "no-cache")],
                         Text(RewritePlaylist(text, BaseUrl(target))))
      else
        resp == Response(200, CORS_HEADERS + [("Content-Type", ContentTypeOf(contentType)),
                                              ("Content-Length", NatToString(|bytes|)),
                                              ("Cache-Control", "public, max-age=3600")],
                         Binary(bytes))
  }

  /** The part of the handler after the upstream `fetch`. */
  method Relay(target: string, response: Upstream, nullBodyError: string) returns (resp: Response)
    ensures Relayed(target, response, nullBodyError, resp)
  {
    if response.Threw? {
      return ErrorResponse(500, ErrorMessage(response.message));
    }
    if !IsOk(response.status) {
      if IsNullBodyStatus(response.status) {
        return ErrorResponse(500, ErrorMessage(nullBodyError));
      }
      return ErrorResponse(response.status, "Upstream returned " + NatToString(response.status));
    }
    var contentType := ContentTypeOf(response.contentType);
    if Contains(contentType, "mpegurl") || Contains(contentType, "x-mpegurl") || EndsWith(target, ".m3u8") {
      var baseUrl := BaseUrl(target);
      var rewritten := RewriteLines(Split(response.text, '\n'), baseUrl);
      return Response(200, CORS_HEADERS + [("Content-Type", PLAYLIST_TYPE), ("Cache-Control", "no-cache")],
                      Text(Join(rewritten, '\n')));
    }
    var body := response.bytes;
    return Response(200, CORS_HEADERS + [("Content-Type", contentType),
                                         ("Content-Length", NatToString(|body|)),
                                         ("Cache-Control", "public, max-age=3600")],
                    Binary(body));
  }

  /** The status of the answer: 500 when `fetch` throws or the upstream's error status
   *  cannot carry a body, the upstream's own status for any other error, 200 otherwise;
   *  an error answer is JSON and only a success is rewritten or passed through. */
  lemma RelayedStatus(target: string, up: Upstream, nullBodyError: string, resp: Response)
    requires Relayed(target, up, nullBodyError, resp)
    ensures up.Threw? ==> resp.status == 500
    ensures up.Answered? && !IsOk(up.status) ==>
      resp.status == (if up.status == 304 then 500 else up.status)
    ensures up.Answered? && IsOk(up.status) ==> resp.status == 200
    ensures resp.status != 200 <==> up.Threw? || !IsOk(up.status)
    ensures resp.status != 200 ==> resp.body.Text? && Get(resp.headers, "Content-Type") == Some("application/json")
  {
    match up
    case Threw(message) =>
      ErrorResponseIsJson(500, ErrorMessage(message));
    case Answered(status, _, _, _) =>
      if !IsOk(status) && IsNullBodyStatus(status) {
        ErrorResponseIsJson(500, ErrorMessage(nullBodyError));
      } else if !IsOk(status) {
        ErrorResponseIsJson(status, "Upstream returned " + NatToString(status));
      }
  }

  /** An error answer declares its body as JSON. */
  lemma ErrorResponseIsJson(status: int, message: string)
    ensures Get(ErrorResponse(status, message).headers, "Content-Type") == Some("application/json")
  {
    var h := ErrorResponse(status, message).headers;
    var k := "Content-Type";
    assert |h[0].0| != |k| && |h[1].0| != |k| && |h[2].0| != |k|;
    assert Get(h, k) == Get(h[1..], k) == Get(h[2..], k) == Get(h[3..], k);
    assert h[3..] == [(k, "application/json")];
  }
}
