# Helloflix streaming front end, modelled in Dafny

This project models the logic at the core of the Helloflix anime-streaming front end. It
states and proves what that logic does.

**HLS-to-file downloader** (`src/services/m3u8Downloader.ts`, module `M3u8Downloader`):
- It picks a working proxy.
- It reads the master playlist and picks the highest-`BANDWIDTH` variant.
- It parses the media playlist, refusing encrypted streams.
- It resolves every segment URI against the playlist URL.
- It fetches the segments one at a time, reporting progress.
- It saves their concatenation under a sanitised name.

The module has three kinds of member:
- Every step is a specification function.
- The loops of the source are methods proved equal to those functions.
- The lemmas state what the source promises about the steps.

**M3U8 proxy edge function** (`supabase/functions/m3u8-proxy/index.ts`, module `M3u8Proxy`):
- It answers `OPTIONS` itself and refuses a request without a `url`.
- It forwards the caller's headers over a default `User-Agent`.
- It passes an upstream error on with the upstream status. A 304 cannot carry the JSON
  error body, so building that answer throws and the `catch` answers 500.
- It rewrites a playlist line by line so that every URI in it is absolute. The `URI="..."`
  attribute scanner the rewrite uses is in module `M3u8Text`.
- It passes any other body through unchanged.

**UI logic**, one module per component, with the React state of each component as a
class whose methods are the handlers:
- `EpisodeList`: episode ranges of 100, range filter, episode search, range labels.
- `WatchPage`: server slugs, stream choice, server revalidation, episode navigation.
- `ServerSelector`: sub/dub server groups, the download link, subtitle choice.
- `HeroSection`: the spotlight carousel and its modular slide arithmetic.
- `PeertubeApi`: the PeerTube proxy query string, `getVideos` parameters, thumbnail
  URLs, the error rule and `formatDuration`.
- `SearchPage`: the genre toggle and the year list.
- `AnimeInfoSection`: description truncation, the expand toggle and the season highlight.

**Shared modules** model the JavaScript built-ins the source relies on:
- `Strings`: `trim`, `toLowerCase` (ASCII), `split`/`join`, `padStart`, `String(n)` and
  `parseInt`.
- `Seqs`: `filter`, `find`, subsequences and concatenation.
- `Urls`: `encodeURIComponent` over UTF-8, `URLSearchParams` form encoding,
  `JSON.stringify` of a string record, `Object.assign`, and a simplified `new URL(ref, base)`.
- `Wrappers`: `Option` and `Result`.

The environment is not modelled; it comes in as parameters:
- The network is a set of functions: a probe answer per URL, and a text or byte answer
  per GET.
- `Date.now()` is a parameter `nowMillis`.
- `JSON.parse` of the proxy's `headers` parameter is a parameter `parseJson`.

## Model

| member | source | states |
|---|---|---|
| M3u8Downloader.SanitizeFilename | src/services/m3u8Downloader.ts:12-16 | the name contains none of `\ / : * ? " < > \|`, no whitespace and no upper-case letter |
| M3u8Downloader.SanitizeFilenameIdempotent | src/services/m3u8Downloader.ts:12-16 | sanitising a sanitised name changes nothing |
| M3u8Downloader.SanitizeFilenameIgnoresReserved | src/services/m3u8Downloader.ts:14 | deleting a reserved character anywhere in the input does not change the sanitised name |
| M3u8Downloader.SanitizeFilenameOfSanitized | src/services/m3u8Downloader.ts:12-16 | a lower-case name without whitespace or reserved characters is kept as it is |
| M3u8Downloader.SanitizeFilenameSplit | src/services/m3u8Downloader.ts:12-16 | a whitespace run between two kept non-whitespace characters becomes exactly one `-`, and the two sides are sanitised on their own, in order |
| M3u8Downloader.SanitizeFilenameOfWord | src/services/m3u8Downloader.ts:12-16 | a word without whitespace or reserved characters is only lower-cased |
| M3u8Downloader.SanitizeFilenameExample | src/services/m3u8Downloader.ts:12-16 | `My Show: Ep 1?` becomes `my-show-ep-1` |
| M3u8Downloader.BuildProxyUrlTarget | src/services/m3u8Downloader.ts:18-24 | the URL starts with the proxy and the encoded target, which holds no `&`; it is exactly that when the headers are absent or empty |
| M3u8Downloader.BuildProxyUrlHeaders | src/services/m3u8Downloader.ts:18-24 | with headers, the URL is proxy, encoded target, `&headers=` and the encoded JSON of the headers, and neither encoded part holds `&` |
| M3u8Downloader.FirstAccepting | src/services/m3u8Downloader.ts:27-38 | the index is the first proxy at or after `i` whose probe answers ok, status 200 or opaque; every proxy before it was refused |
| M3u8Downloader.ChosenProxy | src/services/m3u8Downloader.ts:26-44 | the chosen proxy is always one of the list |
| M3u8Downloader.FindWorkingProxy | src/services/m3u8Downloader.ts:26-44 | the loop returns the chosen proxy and probes exactly the URLs of the specification |
| M3u8Downloader.ChosenProxyIsFirstAccepting | src/services/m3u8Downloader.ts:26-44 | every probe but the last was refused. An accepted last probe is the chosen proxy's URL. Otherwise all proxies were probed and the first one is chosen. No proxy after the winner is probed |
| M3u8Downloader.Fetched | src/services/m3u8Downloader.ts:54-68 | a GET succeeds iff it was answered with a 2xx status, and then gives the body; any other status is `RequestFailed(status)` |
| M3u8Downloader.RequestFailedMessage | src/services/m3u8Downloader.ts:57 | the message starts with `Failed request (`, and the status is read back from what follows |
| M3u8Downloader.NextUri | src/services/m3u8Downloader.ts:78-84 | the inner scan gives `""` or a non-empty line that does not start with `#` |
| M3u8Downloader.NextUriIsFirst | src/services/m3u8Downloader.ts:78-84 | the scan gives `""` iff no later line is a URI line; otherwise it gives the first URI line after `j` |
| M3u8Downloader.FirstMaxIndex | src/services/m3u8Downloader.ts:89-90 | the index has the largest bandwidth, and every earlier variant has a strictly smaller one (the first of the best after a stable sort) |
| M3u8Downloader.PickBestVariant | src/services/m3u8Downloader.ts:70-91 | the loop over the lines returns the variant of the specification |
| M3u8Downloader.FindNextUri | src/services/m3u8Downloader.ts:79-84 | the inner loop returns the first URI line after `j`, or `""` |
| M3u8Downloader.HighestBandwidth | src/services/m3u8Downloader.ts:89-90 | the loop returns the index of the first variant of highest bandwidth |
| M3u8Downloader.BestVariantNone | src/services/m3u8Downloader.ts:74-88 | there is no variant iff no `#EXT-X-STREAM-INF` line is followed by a URI line |
| M3u8Downloader.VariantsEmpty | src/services/m3u8Downloader.ts:74-86 | the first `n` lines yield no variant iff none of them announces one, that is, none is a `#EXT-X-STREAM-INF` line followed by a URI line |
| M3u8Downloader.VariantsFromStreamInf | src/services/m3u8Downloader.ts:74-86 | every variant comes from an `#EXT-X-STREAM-INF` line: its URI is the next URI line and its bandwidth that line's `BANDWIDTH` (0 when missing) |
| M3u8Downloader.BestVariantIsMaximal | src/services/m3u8Downloader.ts:70-91 | the chosen URI belongs to a variant of maximal bandwidth, the first such; it is a URI line of the manifest |
| M3u8Downloader.SegmentLineIsUriLine | src/services/m3u8Downloader.ts:99-112 | a trimmed line is taken as a segment iff it is non-empty and does not start with `#` |
| M3u8Downloader.ParseMediaManifest | src/services/m3u8Downloader.ts:93-120 | the method returns the playlist or failure of the specification |
| M3u8Downloader.ParseMediaLines | src/services/m3u8Downloader.ts:98-119 | the loop over the trimmed lines computes the specification's segments, init segment and failures |
| M3u8Downloader.MediaPlaylistContents | src/services/m3u8Downloader.ts:93-120 | a parsed playlist has no `#EXT-X-KEY` line and at least one segment. Its segments are exactly the URI lines in file order. Its init segment is the `URI` of the last `#EXT-X-MAP` that has one, and `""` iff none has |
| M3u8Downloader.EncryptedPlaylistRefused | src/services/m3u8Downloader.ts:101-103 | any `#EXT-X-KEY` line makes the parse fail as encrypted |
| M3u8Downloader.ToAbsoluteUrl | src/services/m3u8Downloader.ts:46-52 | a URL with a scheme is kept; against an http(s) base the result has a scheme; against any other base resolution throws and the URL is kept |
| M3u8Downloader.SegmentUrls | src/services/m3u8Downloader.ts:154-157 | there is one URL per segment plus one for a non-empty init segment |
| M3u8Downloader.SegmentUrlsLayout | src/services/m3u8Downloader.ts:154-157 | the init segment comes first when present, then each segment in order, each resolved against the media playlist URL, absolute, and ending in its own URI |
| M3u8Downloader.MediaStageChoice | src/services/m3u8Downloader.ts:143-151 | without a variant, or when the variant resolves to the stream URL, the master text is reused with no second request. Otherwise the resolved variant is fetched through the same proxy. A failed master fetch is the stage's failure |
| M3u8Downloader.ChunkProgress | src/services/m3u8Downloader.ts:165 | the percent is `10 + 88 (i+1)/n` rounded half up, stated as integer bounds |
| M3u8Downloader.ChunkProgressBounds | src/services/m3u8Downloader.ts:165 | chunk progress lies in 10..98, never decreases, and is 98 after the last chunk |
| M3u8Downloader.ChunkEventsMonotone | src/services/m3u8Downloader.ts:159-167 | the chunk reports lie in 10..98 and never decrease |
| M3u8Downloader.FirstFailure | src/services/m3u8Downloader.ts:159-163 | every segment GET before the index succeeded, and the GET at the index failed |
| M3u8Downloader.SegmentFailureStops | src/services/m3u8Downloader.ts:159-167 | a failing segment ends the loop. The requests are the segment requests up to it, all earlier ones ok, the failure is its own, and only earlier chunks were reported |
| M3u8Downloader.StageBuffers | src/services/m3u8Downloader.ts:159-163 | a complete segment loop requested every segment, each answered ok, and kept the bodies in request order |
| M3u8Downloader.StageReports | src/services/m3u8Downloader.ts:159-167 | the loop's reports lie in 10..98 and never decrease |
| M3u8Downloader.OutputNameShape | src/services/m3u8Downloader.ts:169-170 | the output name ends in `.ts`, is lower case, has no whitespace, and its stem has no reserved character |
| M3u8Downloader.OutputNameDefault | src/services/m3u8Downloader.ts:169-170 | without a filename the name is `episode-<millis>.ts` |
| M3u8Downloader.ThroughProgress | src/services/m3u8Downloader.ts:142-173 | after the proxy choice the reports are in 10..100, never decrease, all but the last are below 100, and `Download ready.` comes last iff the file was saved |
| M3u8Downloader.DownloadProgress | src/services/m3u8Downloader.ts:139-173 | a download reports `Checking…` (2) then `Loading playlist…` (8). Its reports never decrease and only the last can be 100. It succeeds iff the last report is `Download ready.` |
| M3u8Downloader.DownloadSavesSegmentsInOrder | src/services/m3u8Downloader.ts:153-171 | a saved file is the concatenation, in order, of the bodies of the segment requests. These follow the playlist requests, all answered ok, and are exactly the proxied requests of the playlist's segment URLs (init segment first) in order. The name is the output name |
| M3u8Downloader.RefusedPlaylistSavesNothing | src/services/m3u8Downloader.ts:101-117 | an encrypted media playlist, or one without segments, ends the download after the playlist requests: no segment request, no report after `Loading playlist…`, nothing saved. The failure is `Encrypted` iff some line is an `#EXT-X-KEY` tag, and `NoSegments` iff there is none and no segment line |
| M3u8Downloader.DownloadM3u8AsTs | src/services/m3u8Downloader.ts:133-176 | the download method's reports, requests and outcome are those of the specification |
| M3u8Downloader.DownloadFrom | src/services/m3u8Downloader.ts:142-175 | the part after the proxy choice equals its specification |
| M3u8Downloader.LoadMediaPlaylist | src/services/m3u8Downloader.ts:142-151 | the playlist loading equals the media stage specification |
| M3u8Downloader.FetchSegments | src/services/m3u8Downloader.ts:159-167 | the segment loop equals the segment stage specification |
| M3u8Text.CloseQuote | supabase/functions/m3u8-proxy/index.ts:82 | the closing quote of `URI="…"` is the first `"` after the opening |
| M3u8Text.UriValueAt | supabase/functions/m3u8-proxy/index.ts:82 | the captured value is non-empty, holds no `"`, and is followed by a `"` |
| M3u8Text.FirstUriMatch | src/services/m3u8Downloader.ts:106 | the match found is the leftmost at or after `i`, or there is none |
| M3u8Text.UriAttribute | src/services/m3u8Downloader.ts:106-107 | a captured `URI` value is non-empty and quote-free |
| M3u8Text.UriAttributeIsLeftmost | src/services/m3u8Downloader.ts:106-107 | the case-insensitive match is absent iff nothing matches, otherwise it is the leftmost |
| M3u8Text.ReplaceUrisKeeping | supabase/functions/m3u8-proxy/index.ts:82-89 | a global replace whose replacement rebuilds every match leaves the text unchanged |
| M3u8Text.ReplaceUrisAvoids | supabase/functions/m3u8-proxy/index.ts:82-89 | a character in neither the text nor any replacement is not in the result |
| M3u8Text.ReplaceUrisNoMatch | supabase/functions/m3u8-proxy/index.ts:82-89 | a text without a match is unchanged |
| M3u8Proxy.Handle | supabase/functions/m3u8-proxy/index.ts:10-131 | `OPTIONS` gives 200 `ok` with the CORS headers. A missing or empty `url` gives 400 with a JSON error. Otherwise the target is fetched with the forwarded headers and the answer is relayed, with a 304 turned into the `catch`'s 500 |
| M3u8Proxy.BuildFetchHeaders | supabase/functions/m3u8-proxy/index.ts:26-42 | the method computes the forwarded headers of the specification; an unparsable `headers` value adds nothing |
| M3u8Proxy.ForwardHeadersGet | supabase/functions/m3u8-proxy/index.ts:38-42 | a forwarded header is the caller's value when given, else the default `User-Agent` for that key, else absent |
| M3u8Proxy.Relay | supabase/functions/m3u8-proxy/index.ts:49-130 | a thrown fetch gives 500. A non-ok status is passed on with `Upstream returned <status>`, except a null body status (304): the `Response` constructor throws for it and the `catch` answers 500 with the error's message. A playlist is rewritten and served as `application/vnd.apple.mpegurl` with `no-cache`. Anything else passes its bytes through with their length and content type |
| M3u8Proxy.RelayedStatus | supabase/functions/m3u8-proxy/index.ts:49-130 | the answer is 500 for a thrown fetch or an upstream 304, the upstream status for any other error, 200 otherwise; it is not 200 exactly when the fetch failed, and then its body is JSON |
| M3u8Proxy.ErrorResponseIsJson | supabase/functions/m3u8-proxy/index.ts:124-129 | an error answer declares `Content-Type: application/json` |
| M3u8Proxy.ErrorMessage | supabase/functions/m3u8-proxy/index.ts:124 | the 500 message is never empty: a non-empty error message is kept, and `Proxy error` stands in for an empty one |
| M3u8Proxy.ContentTypeOf | supabase/functions/m3u8-proxy/index.ts:60-61 | the content type is never empty: a present non-empty upstream type is kept, else `application/octet-stream` |
| M3u8Proxy.PlainErrorBodyIsJson | supabase/functions/m3u8-proxy/index.ts:19 | for a message without characters JSON escapes, the error body is `JSON.stringify({error: message})` |
| M3u8Proxy.MissingUrlIsPlain | supabase/functions/m3u8-proxy/index.ts:19 | the missing-url message needs no JSON escaping |
| M3u8Proxy.IsPlaylistIff | supabase/functions/m3u8-proxy/index.ts:64-68 | the playlist branch is taken iff the content type contains `mpegurl` or the target ends in `.m3u8` |
| M3u8Proxy.BaseUrl | supabase/functions/m3u8-proxy/index.ts:72-73 | the base URL is a prefix of the target |
| M3u8Proxy.BaseUrlResolvesAlike | supabase/functions/m3u8-proxy/index.ts:72-73 | for an http(s) target the base is http(s) and resolves every reference as the target itself does |
| M3u8Proxy.CutAfterLastSlash | supabase/functions/m3u8-proxy/index.ts:72-73 | cutting after a last `/` beyond index 8 keeps scheme, origin and directory |
| M3u8Proxy.RewriteLines | supabase/functions/m3u8-proxy/index.ts:77-101 | the rewrite maps lines one to one |
| M3u8Proxy.RewritePlaylistLines | supabase/functions/m3u8-proxy/index.ts:76-103 | the rewritten text splits into exactly the rewritten lines, as many as the input had |
| M3u8Proxy.RewriteLineOneLine | supabase/functions/m3u8-proxy/index.ts:78-101 | a rewritten line never holds a newline |
| M3u8Proxy.RewriteKeepsAbsoluteLine | supabase/functions/m3u8-proxy/index.ts:93-95 | a URI line that is already `http(s)://` is kept verbatim |
| M3u8Proxy.RewriteRelativeLine | supabase/functions/m3u8-proxy/index.ts:96-100 | a relative URI line becomes its resolution against the base: absolute, and ending in the reference |
| M3u8Proxy.RewriteKeepsPlainTag | supabase/functions/m3u8-proxy/index.ts:79-91 | an empty or `#` line without `URI="` is kept verbatim |
| M3u8Proxy.RewriteKeepsAbsoluteAttributes | supabase/functions/m3u8-proxy/index.ts:81-90 | a tag whose `URI="…"` values are all absolute comes back trimmed and otherwise unchanged |
| M3u8Proxy.ResolveOrAppendAvoids | supabase/functions/m3u8-proxy/index.ts:84-88 | resolution adds no character that is in neither the reference nor the base, other than `/` |
| EpisodeList.RangeCount | src/components/watch/EpisodeList.tsx:40 | the count is `ceil(total/100)`, and 0 for a total of 0 or less |
| EpisodeList.Ranges | src/components/watch/EpisodeList.tsx:38-45 | there is one range per hundred episodes |
| EpisodeList.RangesTile | src/components/watch/EpisodeList.tsx:38-45 | the ranges start at 1, end at the total, follow each other without gap or overlap, and each holds 1 to 100 numbers |
| EpisodeList.RangesCover | src/components/watch/EpisodeList.tsx:38-45 | episode `n` is in range `i` iff `1 <= n <= total` and `i == (n-1)/100`; every such `n` has its range |
| EpisodeList.FilteredEpisodesSpec | src/components/watch/EpisodeList.tsx:48-55 | the shown episodes are a subsequence of the list. With the selected range missing they are the whole list. Otherwise they are exactly the episodes inside the range |
| EpisodeList.ShownEpisodesOfRange | src/components/watch/EpisodeList.tsx:38-55 | choosing range `k` shows exactly the episodes numbered `100k+1 … min(100k+100, total)` |
| EpisodeList.SearchTarget | src/components/watch/EpisodeList.tsx:58-64 | a search succeeds only with a parsed number in `1..total`, and then gives that number |
| EpisodeList.SearchTargetOfTyped | src/components/watch/EpisodeList.tsx:58-64 | typing a number, zero-padded or not, finds it iff it lies in `1..total` |
| EpisodeList.RangeLabelReadsBack | src/components/watch/EpisodeList.tsx:115-127 | a label is two digit strings of at least three characters around `-`, which read back as the start and the end |
| EpisodeList.SelectedRangeLabelFallback | src/components/watch/EpisodeList.tsx:114-116 | the fallback caption `001-100`, shown when the selected index names no range, is the first range's caption whenever there are at least 100 episodes |
| EpisodeList.IsActiveIff | src/components/watch/EpisodeList.tsx:159 | an episode is active iff its number is the current one |
| EpisodeList.EpisodeListView.constructor | src/components/watch/EpisodeList.tsx:33-35 | the view starts on filter `all`, an empty search and range 0 |
| EpisodeList.EpisodeListView.SetSearchNum | src/components/watch/EpisodeList.tsx:140 | typing replaces the search text only |
| EpisodeList.EpisodeListView.HandleSearch | src/components/watch/EpisodeList.tsx:58-64 | the episode clicked is the search target, and the input is cleared iff there is one |
| EpisodeList.EpisodeListView.SelectRange | src/components/watch/EpisodeList.tsx:124 | choosing a range shows exactly that range's episodes |
| EpisodeList.EpisodeListView.SetFilter | src/components/watch/EpisodeList.tsx:89-101 | choosing an offered filter sets it and nothing else |
| WatchPage.Or | src/pages/WatchPage.tsx:83 | `a \|\| b` is one of its operands: `a` when it is a non-empty string, else `b` |
| WatchPage.SlugifyServer | src/pages/WatchPage.tsx:10-11 | a slug has no whitespace and no upper-case letter; a missing name gives `""` |
| WatchPage.SlugifyServerIdempotent | src/pages/WatchPage.tsx:10-11 | slugifying a slug changes nothing |
| WatchPage.SlugifyServerOfSlug | src/pages/WatchPage.tsx:10-11 | a lower-case name without whitespace is its own slug |
| WatchPage.SlugifyServerSplit | src/pages/WatchPage.tsx:10-11 | an inner whitespace run between two non-whitespace characters becomes exactly one `-`, and the two sides are slugified on their own, in order |
| WatchPage.SlugifyServerEdges | src/pages/WatchPage.tsx:10-11 | trimmed whitespace leaves no `-`: the slug starts and ends with the lower-cased first and last characters of the trimmed name, and an all-blank name gives `""` |
| WatchPage.SlugsOfType | src/pages/WatchPage.tsx:82-83 | there is one slug per server of the type |
| WatchPage.ValidatedServer | src/pages/WatchPage.tsx:82-86 | after a load the server is one the type offers, if it offers any; a current server the type offers, or a type offering none, keeps the current one; otherwise the first server of the type is chosen |
| WatchPage.ServerForType | src/pages/WatchPage.tsx:107-110 | a type change picks the slug of the type's first server, or keeps the server when the type has none |
| WatchPage.TypeChangeThenValidate | src/pages/WatchPage.tsx:79-111 | the server a type change picks survives the next load's validation |
| WatchPage.ValidatedServerStable | src/pages/WatchPage.tsx:82-86 | validating twice against the same servers changes nothing |
| WatchPage.SelectedStream | src/pages/WatchPage.tsx:62-69 | there is a stream iff there are links, and it is one of them |
| WatchPage.SelectedStreamPrefersHls | src/pages/WatchPage.tsx:62-69 | the stream is the first link whose lower-cased type contains `m3u8` or `mpegurl`, else the first link |
| WatchPage.NavigationBounds | src/pages/WatchPage.tsx:113-152 | from a valid index each move stays in range and moves at most one. A button is disabled iff its move changes nothing. Back after forward returns to the start, and forward after back too |
| WatchPage.TotalOf | src/pages/WatchPage.tsx:49 | the total is 0, and the header shows no count, exactly when the API gives no non-zero total and there are no episodes; a non-zero API total wins, and any other non-zero total is the number of episodes |
| WatchPage.WatchState.constructor | src/pages/WatchPage.tsx:17-27 | the page starts on episode 0, type `sub`, server `hd-1`, no links, loading episodes |
| WatchPage.WatchState.EpisodesLoaded | src/pages/WatchPage.tsx:42-58 | a load replaces the episodes and the total and resets the index to 0. A failure changes nothing but the loading flag, and the index stays valid |
| WatchPage.WatchState.LoadStream | src/pages/WatchPage.tsx:72-98 | without an episode id nothing happens. Otherwise the answer's non-empty server list replaces the servers and revalidates the server, the links are replaced, and a failure empties the links |
| WatchPage.WatchState.HandleServerChange | src/pages/WatchPage.tsx:100-102 | the server becomes the slug, and nothing else changes |
| WatchPage.WatchState.HandleTypeChange | src/pages/WatchPage.tsx:104-111 | the type is set and the server becomes the type's first server, if any |
| WatchPage.WatchState.GoPrev | src/pages/WatchPage.tsx:113 | the index goes back one unless it is 0, and stays valid |
| WatchPage.WatchState.GoNext | src/pages/WatchPage.tsx:114 | the index goes forward one unless it is the last, and stays valid on a non-empty list |
| ServerSelector.ServerGroups | src/components/watch/ServerSelector.tsx:29-30 | each group is an order-preserving subsequence holding exactly the servers of its type; no server is in both, so together they hold at most all servers |
| ServerSelector.DisjointFiltersLength | src/components/watch/ServerSelector.tsx:29-30 | two filters no element passes together keep at most all the elements between them |
| ServerSelector.ClickServerButton | src/components/watch/ServerSelector.tsx:99-102 | after a click the type and server are the button's, that button is highlighted, and only buttons of its group with the same slug are |
| ServerSelector.ServerLabel | src/components/watch/ServerSelector.tsx:111 | the label is the first non-empty name, else `Server <id>` with the id read back |
| ServerSelector.DownloadVideoUrlParts | src/components/watch/ServerSelector.tsx:36-43 | the link is the first configured proxy followed by exactly two `&`-separated parts: the encoded stream URL, and `headers=` with the encoded header JSON (`{}` without headers) |
| ServerSelector.SingleProxyConfig | src/components/watch/ServerSelector.tsx:37 | a configuration without a comma is one proxy, used whole |
| ServerSelector.CaptionSubsSpec | src/components/watch/ServerSelector.tsx:120-122 | the caption tracks are, in order, exactly those of kind `captions` or `subtitles` |
| ServerSelector.ChosenSubtitle | src/components/watch/ServerSelector.tsx:169-172 | a track is chosen iff there are caption tracks, and it is one of them |
| ServerSelector.ChosenSubtitlePrefersEnglish | src/components/watch/ServerSelector.tsx:169-172 | the choice is the first track labelled `english` in any case, else the first track |
| ServerSelector.SubtitleFilename | src/components/watch/ServerSelector.tsx:55 | the filename ends in `.vtt` after the label, or after `subtitle` when the label is missing or empty |
| ServerSelector.DownloadSubtitle | src/components/watch/ServerSelector.tsx:47-63 | the file is saved exactly when the fetch succeeds, as `<label>.vtt` (`subtitle.vtt` without a label); a failure opens the track's own file URL |
| ServerSelector.SubtitleButton | src/components/watch/ServerSelector.tsx:163-176 | with a caption track the button acts on one of them; a fetched English track is saved as a `.vtt` whose stem reads `english`; a failure opens the file of a caption track |
| HeroSection.JsRemainder | src/components/HeroSection.tsx:35-49 | JavaScript `%`: the remainder has the sign of the dividend, is smaller than the divisor in size, and is the dividend iff that already is |
| HeroSection.SlideIndexBounds | src/components/HeroSection.tsx:41-51 | from a slide both arrows land on a slide, and each undoes the other |
| HeroSection.AdvanceIsModular | src/components/HeroSection.tsx:34-36 | `k` ticks from slide `i` show slide `(i + k) % n` |
| HeroSection.RemainderSucc | src/components/HeroSection.tsx:35 | stepping the remainder agrees with the remainder of the step |
| HeroSection.AdvanceFullRound | src/components/HeroSection.tsx:34-36 | `n` ticks come back to the starting slide |
| HeroSection.EpisodeCountSources | src/components/HeroSection.tsx:64-67 | with episode info the count does not depend on `eps` at all: two shows that differ only in `eps` get the same count. The count is never negative when the API's counts are not. Its other clauses (sub plus dub, else `eps`, else 0) only spell out the function |
| HeroSection.Carousel.constructor | src/components/HeroSection.tsx:11-14 | the carousel starts empty, loading, on slide 0 with autoplay on |
| HeroSection.Carousel.Loaded | src/components/HeroSection.tsx:16-29 | the fetched spotlights, or none on a missing list or an error, replace the empty list; loading ends |
| HeroSection.Carousel.Tick | src/components/HeroSection.tsx:31-39 | while autoplay is on and there are spotlights, a tick moves to the next slide; otherwise nothing changes |
| HeroSection.Carousel.NextSlide | src/components/HeroSection.tsx:41-45 | nothing happens on an empty list; otherwise the next slide is shown and autoplay stops |
| HeroSection.Carousel.PrevSlide | src/components/HeroSection.tsx:47-51 | nothing happens on an empty list; otherwise the previous slide is shown and autoplay stops |
| HeroSection.Carousel.SelectSlide | src/components/HeroSection.tsx:193-196 | a dot click shows that slide and stops autoplay |
| PeertubeApi.ProxyUrlFields | src/services/peertubeApi.ts:35-41 | the query's `path` is the last `path` given, else the path. Every other key has the last value given. The query's fields are the encoded pairs in order |
| PeertubeApi.ThumbnailUrlShape | src/services/peertubeApi.ts:100-105 | a thumbnail URL is the proxy with `?path=` and the encoded path |
| PeertubeApi.EncodeFormOfUnreserved | src/services/peertubeApi.ts:36 | form encoding keeps letters, digits and `*-._` unchanged |
| PeertubeApi.PtFetchOutcome | src/services/peertubeApi.ts:41-45 | a request succeeds iff an answer arrives with a 2xx status, giving its text. A non-ok answer fails with `PeerTube API error <status>: …`, with the status read back. A rejected `fetch` fails with its own message, unchanged |
| PeertubeApi.CategoryTexts | src/services/peertubeApi.ts:62 | there is one text per category id |
| PeertubeApi.VideosParamsBasics | src/services/peertubeApi.ts:56-60 | `start` and `count` read back as the numbers given, and `sort` is the sort given |
| PeertubeApi.VideosParamsCategories | src/services/peertubeApi.ts:61-63 | `categoryOneOf` is set iff a non-empty list is given, and then splits on `,` back into the ids |
| PeertubeApi.GetVideosDefaults | src/services/peertubeApi.ts:50-64 | `getVideos()` with no arguments asks `/api/v1/videos` for `start=0`, `count=50` and `sort=-publishedAt`, with no category |
| PeertubeApi.FormatDuration | src/services/peertubeApi.ts:115-123 | the text is `N/A` iff the duration is 0 |
| PeertubeApi.FormatFields | src/services/peertubeApi.ts:120-122 | the text ends in a unit, `m` or `s` |
| PeertubeApi.DurationFields | src/services/peertubeApi.ts:117-119 | hours, minutes and seconds add back up to the duration, with minutes and seconds below 60 |
| PeertubeApi.FormatDurationReadsBack | src/services/peertubeApi.ts:115-123 | reading the text back gives the duration, with the seconds dropped from an hour on |
| PeertubeApi.FormatFieldsPieces | src/services/peertubeApi.ts:120-122 | split at spaces the text is `<h>h <m>m` from one hour on, `<m>m <s>s` from one minute on, else `<s>s`, and each number reads back as its field |
| SearchPage.ToggleMembership | src/pages/SearchPage.tsx:27-33 | after a toggle the genre is selected iff it was not, and every other genre keeps its state |
| SearchPage.ToggleOrder | src/pages/SearchPage.tsx:29-31 | a new genre is appended at the end; a removal keeps the others in order |
| SearchPage.ToggleKeepsNoDuplicates | src/pages/SearchPage.tsx:29-31 | a selection without duplicates stays without |
| SearchPage.ToggleTwice | src/pages/SearchPage.tsx:27-33 | toggling an unselected genre twice restores the selection |
| SearchPage.YearsRange | src/pages/SearchPage.tsx:19 | there are 30 years, strictly descending from 2024 to 1995, exactly the years in between |
| AnimeInfoSection.DisplayDescriptionSpec | src/components/watch/AnimeInfoSection.tsx:47-51 | a collapsed text over 300 characters shows its first 300 and `...`, 303 in all; otherwise the whole text. A short text is never cut and an expanded one never |
| AnimeInfoSection.ToggleSpec | src/components/watch/AnimeInfoSection.tsx:106-110 | toggling twice restores the flag. When the toggle is shown the display changes unless the text is its own cut. When it is not shown the display does not depend on the flag |
| AnimeInfoSection.HighlightIsUnique | src/components/watch/AnimeInfoSection.tsx:203 | a season is highlighted iff its id is the current one; among seasons with distinct ids at most one is |
| AnimeInfoSection.SeasonLinksDistinct | src/components/watch/AnimeInfoSection.tsx:201 | a season links to `/watch/` followed by its id, so two links are equal iff the ids are |
| Strings.TrimIdempotent | src/services/m3u8Downloader.ts:71 | trimming a trimmed line changes nothing |
| Strings.ReplaceRunsSplit | src/services/m3u8Downloader.ts:15 | `replace(/\s+/g, rep)` turns a whitespace run between two non-whitespace characters (or the text's ends) into exactly one `rep` and replaces each side on its own |
| Strings.ReplaceRunsAppendChar | src/services/m3u8Downloader.ts:15 | a final non-whitespace character is copied as the last character |
| Strings.ReplaceRunsEdges | src/pages/WatchPage.tsx:11 | a text starting and ending with non-whitespace characters keeps both at its ends |
| Strings.JoinSplit | supabase/functions/m3u8-proxy/index.ts:76-103 | joining the split text gives the text back |
| Strings.SplitJoin | src/services/peertubeApi.ts:62 | splitting parts that do not hold the separator gives them back |
| Strings.ParseIntOfZeroPadded | src/components/watch/EpisodeList.tsx:59 | `parseInt` reads a zero-padded decimal as its number |
| Strings.ParseIntOfInt | src/components/watch/ServerSelector.tsx:111 | `parseInt(String(i))` is `i` |
| Urls.AssignGet | supabase/functions/m3u8-proxy/index.ts:31-42 | after `Object.assign` a key holds the source's last value for it, else the object's |
| Urls.EncodeComponentIsQuerySafe | src/services/m3u8Downloader.ts:19 | an encoded component holds no `&`, `=` or newline |
| Urls.ResolveRelative | src/services/m3u8Downloader.ts:46-52 | a reference without a scheme resolves, against an http(s) base, to an http(s) URL of the same scheme that ends in the reference |
| Urls.ResolveIdempotent | src/services/m3u8Downloader.ts:46-52 | resolving a resolved URL again changes nothing |
| Urls.ResolveInDirectory | src/services/m3u8Downloader.ts:155-156 | a relative reference without `:` or a leading `/` resolves into the directory of an `https://host/dir/file` playlist URL |

The functions below model source code but carry no contract of their own. Each is
characterised by the rowed members named after it:

- `M3u8Downloader.BuildProxyUrl` (src/services/m3u8Downloader.ts:18-24): `BuildProxyUrlTarget`, `BuildProxyUrlHeaders`.
- `M3u8Downloader.Download` (src/services/m3u8Downloader.ts:133-176): `DownloadProgress`, `RefusedPlaylistSavesNothing`, `DownloadM3u8AsTs`.
- `M3u8Downloader.DownloadThrough` (src/services/m3u8Downloader.ts:142-175): `ThroughProgress`, `DownloadSavesSegmentsInOrder`, `DownloadFrom`.
- `M3u8Downloader.MediaStageOf` (src/services/m3u8Downloader.ts:142-151): `MediaStageChoice`, `LoadMediaPlaylist`.
- `M3u8Downloader.SegmentStageOf` (src/services/m3u8Downloader.ts:159-167): `StageBuffers`, `StageReports`, `SegmentFailureStops`, `FetchSegments`.
- `M3u8Downloader.OutputName` (src/services/m3u8Downloader.ts:169-170): `OutputNameShape`, `OutputNameDefault`.
- `M3u8Text.ReplaceUris` (supabase/functions/m3u8-proxy/index.ts:82-89): `ReplaceUrisKeeping`, `ReplaceUrisAvoids`, `ReplaceUrisNoMatch`.
- `M3u8Proxy.RewriteLine` (supabase/functions/m3u8-proxy/index.ts:77-101): `RewriteLineOneLine`, `RewriteKeepsAbsoluteLine`, `RewriteRelativeLine`, `RewriteKeepsPlainTag`, `RewriteKeepsAbsoluteAttributes`.
- `M3u8Proxy.RewritePlaylist` (supabase/functions/m3u8-proxy/index.ts:76-103): `RewritePlaylistLines`, `RewriteLines`.
- `M3u8Proxy.IsPlaylist` (supabase/functions/m3u8-proxy/index.ts:64-68): `IsPlaylistIff`.
- `M3u8Proxy.TargetOf` (supabase/functions/m3u8-proxy/index.ts:17-18): `Handle`.
- `M3u8Proxy.CustomHeaders` (supabase/functions/m3u8-proxy/index.ts:26-35): `BuildFetchHeaders`, `Handle`.
- `PeertubeApi.PtFetch` (src/services/peertubeApi.ts:35-46): `PtFetchOutcome`.
- `PeertubeApi.ProxyUrl` (src/services/peertubeApi.ts:36-40): `ProxyUrlFields`.
- `PeertubeApi.ThumbnailUrl` (src/services/peertubeApi.ts:100-105): `ThumbnailUrlShape`.
- `PeertubeApi.VideosParams` (src/services/peertubeApi.ts:56-63): `VideosParamsBasics`, `VideosParamsCategories`.
- `PeertubeApi.GetVideos` (src/services/peertubeApi.ts:50-64): `GetVideosDefaults`, with `VideosParamsBasics`, `VideosParamsCategories` and `PtFetchOutcome` for the request and its outcome.
- `EpisodeList.FilteredEpisodes` (src/components/watch/EpisodeList.tsx:48-55): `FilteredEpisodesSpec`, `ShownEpisodesOfRange`.
- `EpisodeList.PadNumber` and `EpisodeList.RangeLabel` (src/components/watch/EpisodeList.tsx:126-127): `RangeLabelReadsBack`.
- `EpisodeList.SelectedRangeLabel` (src/components/watch/EpisodeList.tsx:114-116): `SelectedRangeLabelFallback`, with `RangeLabelReadsBack` for a named range.
- `EpisodeList.IsActive` (src/components/watch/EpisodeList.tsx:159): `IsActiveIff`.
- `WatchPage.ServersOfType` (src/pages/WatchPage.tsx:82): `SlugsOfType`, `ServerForType`, and `ServerSelector.ServerGroups` for the selector's groups.
- `WatchPage.IsHls` (src/pages/WatchPage.tsx:65-66): `SelectedStreamPrefersHls`.
- `WatchPage.Prev` and `WatchPage.Next` (src/pages/WatchPage.tsx:113-114): `NavigationBounds`, `WatchState.GoPrev`, `WatchState.GoNext`.
- `WatchPage.ServerSlug` (src/pages/WatchPage.tsx:83): the `SlugifyServer` lemmas and `ServerSelector.ClickServerButton`.
- `ServerSelector.IsActiveButton` (src/components/watch/ServerSelector.tsx:92-93): `ClickServerButton`.
- `ServerSelector.CaptionSubs` (src/components/watch/ServerSelector.tsx:120-122): `CaptionSubsSpec`, `SubtitleButton`.
- `ServerSelector.DownloadVideoUrl` (src/components/watch/ServerSelector.tsx:35-44): `DownloadVideoUrlParts`.
- `HeroSection.NextIndex` and `HeroSection.PrevIndex` (src/components/HeroSection.tsx:41-51): `SlideIndexBounds`, `AdvanceIsModular`, `Carousel.NextSlide`, `Carousel.PrevSlide`, `Carousel.Tick`.
- `HeroSection.EpisodeCount` (src/components/HeroSection.tsx:64-67): `EpisodeCountSources`.
- `AnimeInfoSection.DisplayDescription` (src/components/watch/AnimeInfoSection.tsx:47-51): `DisplayDescriptionSpec`, `ToggleSpec`.
- `AnimeInfoSection.Description` (src/components/watch/AnimeInfoSection.tsx:46): no lemma. It is only the `||` fallback of the overview, which the description lemmas take as their input.
- `SearchPage.ToggleGenre` (src/pages/SearchPage.tsx:27-33): `ToggleMembership`, `ToggleOrder`, `ToggleKeepsNoDuplicates`, `ToggleTwice`.
- `SearchPage.Years` (src/pages/SearchPage.tsx:19): `YearsRange`.

## Left out

- Network, timing and the browser: `fetch`, the probe's `AbortController` timeout and every `await` are inputs (answer functions). Concurrent and re-run React effects, and the races between them, are not modelled.
- `triggerDownload` (Blob, object URL, anchor click), `window.open` and the subtitle Blob download are DOM work. The model records what would be saved or opened.
- The proxy list: `src/config/api.ts` does not export `M3U8_PROXIES` or `PROXY_TIMEOUT_MS`, so the list is a parameter required to be non-empty.
- `Date.now()` is the parameter `nowMillis`.
- Text decoding: `res.text()` and `res.arrayBuffer()` are given as separate answers, and neither can throw. A rejected `fetch` is modelled: `Reply.Threw` in the downloader, `Upstream.Threw` in the proxy and `PtResponse.Rejected` in the PeerTube client.
- `JSON.parse` of the proxy's `headers` parameter is the parameter `parseJson`. The proxy's `new URL(req.url)` is given as the decoded query, so its failure (a 500) is not modelled.
- Header names are compared exactly; HTTP header names are case-insensitive.
- `M3u8Downloader.ToAbsoluteUrl` uses a simplified `new URL(ref, base)`. A reference with a scheme passes through, and a base that is not `http(s)://` throws. Otherwise `//x` is scheme-relative, `/x` is origin-relative, and anything else is the base directory plus the reference. Dot segments are not removed and nothing is normalised.
- `M3u8Downloader.ChunkProgress` computes `Math.round(10 + ((i + 1) / n) * 88)` in exact rational arithmetic, rounding halves up. The floating-point rounding of `(i + 1) / n` and of the product is not modelled, so a value within rounding error of a half may round differently in the source.
- `BANDWIDTH` is read as an unbounded integer. `Number()` precision beyond 2^53 is not modelled.
- `Strings.ParseInt` reads decimal digits after optional whitespace and a sign. `parseInt`'s `0x` prefix is not modelled.
- `Strings.ToLower` folds ASCII letters only; the source's `toLowerCase` folds all of Unicode.
- `Urls.EncodeComponent` covers the code points of the model's `char`. Lone surrogates, which make `encodeURIComponent` throw, are not modelled.
- `AnimeInfoSection.DisplayDescriptionSpec`: the 300-character cut counts the model's characters; JavaScript's `slice` counts UTF-16 code units.
- `PeertubeApi.FormatDuration` takes a natural number of seconds. Fractional and negative durations are not modelled.
- `PeertubeApi.PtFetch`: the JSON body of a successful response is returned as text; decoding it is not modelled. `searchVideos`, `getVideoDetails` and `getCategories` only call `ptFetch` with fixed paths and are not modelled separately. `getEmbedUrl` and `getPeerTubeBaseUrl` build nothing beyond what `ProxyUrl` does.
- `WatchPage.WatchState.EpisodesLoaded`: the `if (!id) return` guard of the episodes effect (and of the anime-details effect) is not modelled, and the anime-details effect itself is not modelled.
- `EpisodeList.EpisodeListView.SetFilter`: the filter only changes the menu label in the source, so the model records the choice and nothing else.
- `HeroSection.Carousel.Loaded` requires the list to be empty: it models the one fetch made at mount.
- `HeroSection.Carousel.SelectSlide` requires an index in range, because there is one dot per spotlight.
- `WatchPage.WatchState.GoNext` on an empty list sets the index to -1, as the handler does. The button is disabled there, so this is not reachable from the page.
- The static `GENRES` list, the mock search results and the unused search query of the search page are presentation and are not modelled.
