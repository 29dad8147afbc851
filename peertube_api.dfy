/** The PeerTube client (`src/services/peertubeApi.ts`): every request goes to one edge
 *  function, with the PeerTube API path and the API's own parameters as query
 *  parameters; thumbnails go through the same function; durations are shown as hours
 *  and minutes, minutes and seconds, or seconds.
 *
 *  The `fetch` of a built URL is an input (`PtResponse`, an answer or a rejection);
 *  decoding the JSON body is not modelled, a successful request answers the body text. */
module PeertubeApi {

  import opened Wrappers
  import opened Strings
  import opened Urls

  const PROXY_BASE: string := "https://vqzdpbcftwvyerxwkhsj.supabase.co/functions/v1/peertube-proxy"

  // ---------------------------------------------------------------------------
  // Request URLs
  // ---------------------------------------------------------------------------

  /** One `name=value` field of a query string, both form-encoded. */
  function QueryField(p: (string, string)): string
  {
    FormEncode(p.0) + "=" + FormEncode(p.1)
  }

  /** The serialisation of `URLSearchParams`: the fields joined by `&`. */
  function QueryString(params: Headers): string
  {
    Join(seq(|params|, i requires 0 <= i < |params| => QueryField(params[i])), '&')
  }

  /** The parameters `ptFetch` sets: `path` first, then every entry of `params`
   *  (`searchParams.set` overwrites a name that is already there). */
  function ProxyParams(path: string, params: Headers): Headers
  {
    Assign([("path", path)], params)
  }

  /** `new URL(PROXY_BASE)` with the parameters set, as text. */
  function ProxyUrl(path: string, params: Headers): string
  {
    PROXY_BASE + "?" + QueryString(ProxyParams(path, params))
  }

  /** The request carries `path` unless `params` names it too, and every parameter with
   *  its last value; split at `&`, its query gives one encoded field per parameter. */
  lemma ProxyUrlFields(path: string, params: Headers)
    ensures Get(ProxyParams(path, params), "path") ==
      if LastValue(params, "path").Some? then LastValue(params, "path") else Some(path)
    ensures forall k :: k != "path" ==> Get(ProxyParams(path, params), k) == LastValue(params, k)
    ensures var q := ProxyParams(path, params);
      Split(ProxyUrl(path, params)[|PROXY_BASE| + 1..], '&') ==
        seq(|q|, i requires 0 <= i < |q| => QueryField(q[i]))
  {
    var q := ProxyParams(path, params);
    AssignGet([("path", path)], params, "path");
    forall k | k != "path"
      ensures Get(q, k) == LastValue(params, k)
    {
      AssignGet([("path", path)], params, k);
    }
    assert q != [];
    var fields := seq(|q|, i requires 0 <= i < |q| => QueryField(q[i]));
    forall i | 0 <= i < |fields|
      ensures '&' !in fields[i]
    {
      FormEncodeIsQuerySafe(q[i].0);
      FormEncodeIsQuerySafe(q[i].1);
    }
    assert ProxyUrl(path, params)[|PROXY_BASE| + 1..] == Join(fields, '&');
    SplitJoin(fields, '&');
  }

  /** `getThumbnailUrl`: a placeholder for an empty path, otherwise the edge function
   *  with the path as its one parameter. */
  function ThumbnailUrl(thumbnailPath: string): string
  {
    if thumbnailPath == "" then "/placeholder.svg" else ProxyUrl(thumbnailPath, [])
  }

  lemma ThumbnailUrlShape(thumbnailPath: string)
    ensures thumbnailPath == "" ==> ThumbnailUrl(thumbnailPath) == "/placeholder.svg"
    ensures thumbnailPath != "" ==>
      ThumbnailUrl(thumbnailPath) == PROXY_BASE + "?path=" + FormEncode(thumbnailPath)
  {
    if thumbnailPath != "" {
      OnlyPath(PROXY_BASE, "path", thumbnailPath);
      PathField(PROXY_BASE, FormEncode(thumbnailPath));
    }
  }

  /** The name `path` needs no encoding. */
  lemma PathField(base: string, encoded: string)
    ensures base + "?" + FormEncode("path") + "=" + encoded == base + "?path=" + encoded
  {
    EncodeFormOfUnreserved("path");
  }

  /** The URL of a request with no parameter but the path. */
  lemma OnlyPath(base: string, key: string, value: string)
    ensures base + "?" + QueryString(Assign([(key, value)], [])) ==
      base + "?" + FormEncode(key) + "=" + FormEncode(value)
  {
    var q := Assign([(key, value)], []);
    assert q == [(key, value)];
    var fields := seq(|q|, i requires 0 <= i < |q| => QueryField(q[i]));
    assert fields == [FormEncode(key) + "=" + FormEncode(value)];
    assert Join(fields, '&') == fields[0];
  }

  lemma {:induction false} EncodeFormOfUnreserved(s: string)
    requires forall i :: 0 <= i < |s| ==> IsFormUnreserved(s[i])
    ensures FormEncode(s) == s
    decreases |s|
  {
    if s != [] {
      EncodeFormOfUnreserved(s[1..]);
    }
  }

  // ---------------------------------------------------------------------------
  // Requests
  // ---------------------------------------------------------------------------

  /** What `fetch` of the edge function gives: an answer with its status and body text,
   *  or a rejection (a network or CORS failure) with the engine's error message. */
  datatype PtResponse =
    | Answered(status: int, text: string)
    | Rejected(message: string)

  const PT_ERROR_PREFIX: string := "PeerTube API error "

  /** `ptFetch`: the body of an ok (2xx) answer, else the error it throws. A rejected
   *  `fetch` is not caught, so its own error is what `ptFetch` rejects with. */
  function PtFetch(path: string, params: Headers, fetch: string -> PtResponse): Result<string, string>
  {
    var res := fetch(ProxyUrl(path, params));
    match res
    case Rejected(message) => Failure(message)
    case Answered(status, text) =>
      if 200 <= status <= 299 then Success(text)
      else Failure(PtError(status, text))
  }

  /** The message of a failed request: the prefix, the status and the body text. */
  function PtError(status: int, text: string): string
  {
    PT_ERROR_PREFIX + IntToString(status) + ": " + text
  }

  /** A request succeeds exactly when an answer arrives with an ok status, giving its text;
   *  a non-ok answer fails with an error naming the status as a number that can be read
   *  back; a rejected `fetch` fails with its own message unchanged. */
  lemma PtFetchOutcome(path: string, params: Headers, fetch: string -> PtResponse)
    ensures var res := fetch(ProxyUrl(path, params));
      && (PtFetch(path, params, fetch).Success? <==> res.Answered? && 200 <= res.status <= 299)
      && (PtFetch(path, params, fetch).Success? ==> PtFetch(path, params, fetch).value == res.text)
      && (res.Answered? && PtFetch(path, params, fetch).Failure? ==>
            var e := PtFetch(path, params, fetch).error;
            StartsWith(e, PT_ERROR_PREFIX) && ParseInt(e[|PT_ERROR_PREFIX|..]) == Some(res.status))
      && (res.Rejected? ==> PtFetch(path, params, fetch) == Failure(res.message))
  {
    var res := fetch(ProxyUrl(path, params));
    if res.Answered? {
      assert PtError(res.status, res.text) == PT_ERROR_PREFIX + IntToString(res.status) + (": " + res.text);
      PrefixedNumber(PT_ERROR_PREFIX, res.status, ": " + res.text);
    }
  }

  /** The parameters of `getVideos`: `start`, `count` and `sort` always, and
   *  `categoryOneOf` as a comma-separated list only when some category is given. */
  function VideosParams(start: int, count: int, sort: string, categoryOneOf: Option<seq<int>>): Headers
  {
    [("start", IntToString(start)), ("count", IntToString(count)), ("sort", sort)]
    + if categoryOneOf.Some? && |categoryOneOf.value| > 0 then
        [("categoryOneOf", Join(CategoryTexts(categoryOneOf.value), ','))]
      else []
  }

  function CategoryTexts(ids: seq<int>): (r: seq<string>)
    ensures |r| == |ids|
  {
    seq(|ids|, i requires 0 <= i < |ids| => IntToString(ids[i]))
  }

  /** `getVideos` with its defaults `start = 0`, `count = 50`, `sort = "-publishedAt"`
   *  given explicitly. */
  function GetVideos(start: int, count: int, sort: string, categoryOneOf: Option<seq<int>>,
                     fetch: string -> PtResponse): Result<string, string>
  {
    PtFetch("/api/v1/videos", VideosParams(start, count, sort, categoryOneOf), fetch)
  }

  /** `getVideos()` called with no arguments asks for the first 50 videos, newest first,
   *  with no category filter. */
  lemma GetVideosDefaults(fetch: string -> PtResponse)
    ensures GetVideos(0, 50, "-publishedAt", None, fetch)
         == PtFetch("/api/v1/videos", [("start", "0"), ("count", "50"), ("sort", "-publishedAt")], fetch)
  {
    var zero, fifty := IntToString(0), IntToString(50);
    assert zero == "0";
    assert NatToString(5) == [DigitChar(5)] == ['5'];
    assert fifty == NatToString(5) + [DigitChar(0)] == ['5'] + ['0'] == "50";
    var p := VideosParams(0, 50, "-publishedAt", None);
    assert p == [("start", zero), ("count", fifty), ("sort", "-publishedAt")] + [];
    var q := [("start", "0"), ("count", "50"), ("sort", "-publishedAt")];
    assert p == q;
    assert GetVideos(0, 50, "-publishedAt", None, fetch) == PtFetch("/api/v1/videos", q, fetch);
  }

  /** The request parameters read back: the numbers and the sort order. */
  lemma VideosParamsBasics(start: int, count: int, sort: string, categoryOneOf: Option<seq<int>>)
    ensures var p := VideosParams(start, count, sort, categoryOneOf);
      && Get(p, "start").Some? && ParseInt(Get(p, "start").value) == Some(start)
      && Get(p, "count").Some? && ParseInt(Get(p, "count").value) == Some(count)
      && Get(p, "sort") == Some(sort)
  {
    var p := VideosParams(start, count, sort, categoryOneOf);
    assert "start"[0] != "count"[0] && "start"[0] != "sort"[1] && |"sort"| != |"count"|;
    GetAt(p, 0, "start");
    GetAt(p, 1, "count");
    GetAt(p, 2, "sort");
    ParseIntOfInt(start);
    ParseIntOfInt(count);
  }

  /** The category list is sent only when non-empty, and splits at `,` into the ids. */
  lemma VideosParamsCategories(start: int, count: int, sort: string, categoryOneOf: Option<seq<int>>)
    ensures var p := VideosParams(start, count, sort, categoryOneOf);
      && (Get(p, "categoryOneOf").Some? <==> categoryOneOf.Some? && |categoryOneOf.value| > 0)
      && (Get(p, "categoryOneOf").Some? ==>
            var pieces := Split(Get(p, "categoryOneOf").value, ',');
            |pieces| == |categoryOneOf.value|
            && forall i :: 0 <= i < |pieces| ==> ParseInt(pieces[i]) == Some(categoryOneOf.value[i]))
  {
    var p := VideosParams(start, count, sort, categoryOneOf);
    var key := "categoryOneOf";
    assert |key| == 13 && |"start"| == 5 && |"count"| == 5 && |"sort"| == 4;
    if categoryOneOf.Some? && |categoryOneOf.value| > 0 {
      var ids := categoryOneOf.value;
      var texts := CategoryTexts(ids);
      GetAt(p, 3, key);
      assert Get(p, key) == Some(Join(texts, ','));
      forall i | 0 <= i < |texts|
        ensures ',' !in texts[i]
      {
        IntToStringHasNoComma(ids[i]);
      }
      SplitJoin(texts, ',');
      forall i | 0 <= i < |ids|
        ensures ParseInt(texts[i]) == Some(ids[i])
      {
        ParseIntOfInt(ids[i]);
      }
    } else {
      GetAbsent(p, key);
    }
  }

  /** The first pair naming `key` answers `Get`. */
  lemma {:induction false} GetAt(p: Headers, i: nat, key: string)
    requires i < |p| && p[i].0 == key
    requires forall j :: 0 <= j < i ==> p[j].0 != key
    ensures Get(p, key) == Some(p[i].1)
    decreases i
  {
    if i > 0 {
      GetAt(p[1..], i - 1, key);
    }
  }

  lemma {:induction false} GetAbsent(p: Headers, key: string)
    requires forall j :: 0 <= j < |p| ==> p[j].0 != key
    ensures Get(p, key).None?
    decreases |p|
  {
    if p != [] {
      GetAbsent(p[1..], key);
    }
  }

  lemma IntToStringHasNoComma(i: int)
    ensures ',' !in IntToString(i)
  {
    var s := NatToString(if i < 0 then -i else i);
    assert forall k :: 0 <= k < |s| ==> IsDigit(s[k]);
  }

  // ---------------------------------------------------------------------------
  // Durations
  // ---------------------------------------------------------------------------

  /** `formatDuration`: "N/A" for 0; otherwise hours and minutes from one hour on,
   *  minutes and seconds from one minute on, else seconds. */
  function FormatDuration(seconds: nat): (r: string)
    ensures r == "N/A" <==> seconds == 0
  {
    if seconds == 0 then "N/A"
    else FormatFields(seconds / 3600, (seconds % 3600) / 60, seconds % 60)
  }

  /** The text for hours `h`, minutes `m` and seconds `s`. */
  function FormatFields(h: nat, m: nat, s: nat): (r: string)
    ensures |r| > 0 && (r[|r| - 1] == 'm' || r[|r| - 1] == 's')
  {
    if h > 0 then Piece(h, 'h') + " " + Piece(m, 'm')
    else if m > 0 then Piece(m, 'm') + " " + Piece(s, 's')
    else Piece(s, 's')
  }

  /** A number followed by its unit letter, like `12m`. */
  function Piece(n: nat, unit: char): string
  {
    NatToString(n) + [unit]
  }

  /** The three fields split the duration exactly, with minutes and seconds below 60. */
  lemma DurationFields(seconds: nat)
    ensures var h := seconds / 3600;
      var m := (seconds % 3600) / 60;
      var s := seconds % 60;
      3600 * h + 60 * m + s == seconds && m < 60 && s < 60
  {
  }

  /** The seconds a unit letter stands for. */
  function UnitSeconds(c: char): nat
  {
    if c == 'h' then 3600 else if c == 'm' then 60 else if c == 's' then 1 else 0
  }

  /** A piece like `12m`: its number times its unit; anything else counts 0. */
  function PieceSeconds(piece: string): nat
  {
    var n := ParseInt(piece);
    if |piece| > 0 && n.Some? && n.value >= 0 then n.value * UnitSeconds(piece[|piece| - 1]) else 0
  }

  function SumPieces(pieces: seq<string>): nat
  {
    if pieces == [] then 0 else PieceSeconds(pieces[0]) + SumPieces(pieces[1..])
  }

  /** A reader for the formatted text: the sum of its space-separated pieces. */
  function ReadDuration(text: string): nat
  {
    SumPieces(Split(text, ' '))
  }

  /** Reading a formatted duration gives the seconds back, except that from one hour on
   *  the seconds are dropped. */
  lemma FormatDurationReadsBack(seconds: nat)
    requires seconds > 0
    ensures ReadDuration(FormatDuration(seconds)) ==
      if seconds >= 3600 then seconds - seconds % 60 else seconds
  {
    DurationFields(seconds);
    ReadFields(seconds / 3600, (seconds % 3600) / 60, seconds % 60);
  }

  /** The fields read back: hours and minutes when there are hours, else minutes and
   *  seconds. */
  lemma ReadFields(h: nat, m: nat, s: nat)
    ensures ReadDuration(FormatFields(h, m, s)) == if h > 0 then 3600 * h + 60 * m else 60 * m + s
  {
    if h > 0 {
      TwoPieces(h, 'h', m, 'm');
      assert UnitSeconds('h') == 3600 && UnitSeconds('m') == 60;
    } else if m > 0 {
      TwoPieces(m, 'm', s, 's');
      assert UnitSeconds('m') == 60 && UnitSeconds('s') == 1;
    } else {
      OnePiece(s, 's');
      assert UnitSeconds('s') == 1;
    }
  }

  /** The formatted text splits at its spaces into the pieces shown, each a number that
   *  reads back as its field, followed by the field's unit: hours and minutes from one
   *  hour on, minutes and seconds from one minute on, else the seconds alone. */
  lemma FormatFieldsPieces(h: nat, m: nat, s: nat)
    ensures var p := Split(FormatFields(h, m, s), ' ');
      h > 0 ==> (p == [NatToString(h) + "h", NatToString(m) + "m"] &&
                 ParseInt(p[0]) == Some(h) && ParseInt(p[1]) == Some(m))
    ensures var p := Split(FormatFields(h, m, s), ' ');
      h == 0 && m > 0 ==> (p == [NatToString(m) + "m", NatToString(s) + "s"] &&
                           ParseInt(p[0]) == Some(m) && ParseInt(p[1]) == Some(s))
    ensures var p := Split(FormatFields(h, m, s), ' ');
      h == 0 && m == 0 ==> p == [NatToString(s) + "s"] && ParseInt(p[0]) == Some(s)
  {
    if h > 0 {
      PiecesOfTwo(h, 'h', m, 'm');
    } else if m > 0 {
      PiecesOfTwo(m, 'm', s, 's');
    } else {
      PieceOf(s, 's');
      ParseIntOfNat(s, "s");
      var a := Piece(s, 's');
      assert IndexOf(a, ' ') == -1;
    }
  }

  lemma PiecesOfTwo(a: nat, ua: char, b: nat, ub: char)
    requires !IsDigit(ua) && ua != ' ' && !IsDigit(ub) && ub != ' '
    ensures Split(Piece(a, ua) + " " + Piece(b, ub), ' ') == [NatToString(a) + [ua], NatToString(b) + [ub]]
    ensures ParseInt(Piece(a, ua)) == Some(a) && ParseInt(Piece(b, ub)) == Some(b)
  {
    var x := Piece(a, ua);
    var y := Piece(b, ub);
    PieceOf(a, ua);
    PieceOf(b, ub);
    ParseIntOfNat(a, [ua]);
    ParseIntOfNat(b, [ub]);
    assert x + " " + y == x + [' '] + y;
    SplitTwo(x, ' ', y);
  }

  lemma PieceOf(n: nat, unit: char)
    requires !IsDigit(unit) && unit != ' '
    ensures ' ' !in Piece(n, unit)
    ensures PieceSeconds(Piece(n, unit)) == n * UnitSeconds(unit)
  {
    var d := NatToString(n);
    assert forall k :: 0 <= k < |d| ==> IsDigit(d[k]);
    ParseIntOfNat(n, [unit]);
  }

  lemma OnePiece(n: nat, unit: char)
    requires !IsDigit(unit) && unit != ' '
    ensures ReadDuration(Piece(n, unit)) == n * UnitSeconds(unit)
  {
    PieceOf(n, unit);
    var a := Piece(n, unit);
    assert IndexOf(a, ' ') == -1;
    assert Split(a, ' ') == [a];
    assert SumPieces([a]) == PieceSeconds(a) + SumPieces([]);
  }

  lemma TwoPieces(a: nat, ua: char, b: nat, ub: char)
    requires !IsDigit(ua) && ua != ' ' && !IsDigit(ub) && ub != ' '
    ensures ReadDuration(Piece(a, ua) + " " + Piece(b, ub))
      == a * UnitSeconds(ua) + b * UnitSeconds(ub)
  {
    var x := Piece(a, ua);
    var y := Piece(b, ub);
    PieceOf(a, ua);
    PieceOf(b, ub);
    assert x + " " + y == x + [' '] + y;
    SplitTwo(x, ' ', y);
    assert SumPieces([x, y]) == PieceSeconds(x) + SumPieces([y]);
    assert [x, y][1..] == [y];
    assert SumPieces([y]) == PieceSeconds(y) + SumPieces([]);
  }
}
