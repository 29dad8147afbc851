/** The server and download panel under the player
 *  (`src/components/watch/ServerSelector.tsx`): the servers split into a sub group and
 *  a dub group of buttons, a "Download Video" link through the M3U8 proxy, and a
 *  "Download Subtitle" button that prefers the English track. */
module ServerSelector {

  import opened Wrappers
  import opened Strings
  import opened Seqs
  import opened Urls
  import opened WatchPage

  /** `M3U8_PROXY_URL` of `src/config/api.ts`. */
  const M3U8_PROXY_URL: string := "https://proxyfy-two.vercel.app/m3u8-proxy?url="

  // ---------------------------------------------------------------------------
  // Server groups and buttons
  // ---------------------------------------------------------------------------

  /** `subServers` and `dubServers` are the servers of each type in the API's order:
   *  every server of a type is in its group and nothing else is, no server is in both
   *  groups, and together they hold no more servers than the list. */
  lemma ServerGroups(servers: seq<Server>)
    ensures IsSubsequence(ServersOfType(servers, Sub), servers)
    ensures IsSubsequence(ServersOfType(servers, Dub), servers)
    ensures forall s :: s in ServersOfType(servers, Sub) <==> s in servers && s.kind == "sub"
    ensures forall s :: s in ServersOfType(servers, Dub) <==> s in servers && s.kind == "dub"
    ensures forall s :: !(s in ServersOfType(servers, Sub) && s in ServersOfType(servers, Dub))
    ensures |ServersOfType(servers, Sub)| + |ServersOfType(servers, Dub)| <= |servers|
  {
    var isSub := (s: Server) => s.kind == TypeName(Sub);
    var isDub := (s: Server) => s.kind == TypeName(Dub);
    FilterMembers(servers, isSub);
    FilterMembers(servers, isDub);
    FilterIsSubsequence(servers, isSub);
    FilterIsSubsequence(servers, isDub);
    DisjointFiltersLength(servers, isSub, isDub);
  }

  /** Two filters with predicates no element satisfies together keep at most all the
   *  elements between them. */
  lemma {:induction false} DisjointFiltersLength<T>(s: seq<T>, p: T -> bool, q: T -> bool)
    requires forall x :: x in s ==> !(p(x) && q(x))
    ensures |Filter(s, p)| + |Filter(s, q)| <= |s|
    decreases |s|
  {
    if s != [] {
      DisjointFiltersLength(s[1..], p, q);
    }
  }

  /** A button of group `group` is highlighted when its slug is the active server and the
   *  group is the current type. */
  predicate IsActiveButton(activeServerId: string, server: Server, currentType: StreamType, group: StreamType)
  {
    activeServerId == ServerSlug(server) && currentType == group
  }

  /** A button click calls `onTypeChange(type)` and then `onServerChange(slug, type)`,
   *  which the watch page wires to its two handlers. Afterwards the clicked button is
   *  highlighted, and only buttons of its group with the same slug are. */
  method ClickServerButton(page: WatchState, server: Server, group: StreamType)
    modifies page
    ensures page.currentType == group && page.currentServer == ServerSlug(server)
    ensures IsActiveButton(page.currentServer, server, page.currentType, group)
    ensures forall other, g :: IsActiveButton(page.currentServer, other, page.currentType, g) ==>
      g == group && ServerSlug(other) == ServerSlug(server)
    ensures page.episodes == old(page.episodes) && page.currentIndex == old(page.currentIndex)
    ensures page.servers == old(page.servers) && page.streamingLinks == old(page.streamingLinks)
    ensures page.totalEpisodes == old(page.totalEpisodes) && page.loadingEpisodes == old(page.loadingEpisodes)
      && page.loadingStream == old(page.loadingStream)
  {
    page.HandleTypeChange(group);
    page.HandleServerChange(ServerSlug(server));
  }

  /** `server.server_name || server.serverName || \`Server ${server.server_id}\``. */
  function ServerLabel(s: Server): (r: string)
    ensures r != ""
    ensures Or(s.serverName, s.altName).Some? && Or(s.serverName, s.altName).value != "" ==>
      r == Or(s.serverName, s.altName).value
    ensures (Or(s.serverName, s.altName).None? || Or(s.serverName, s.altName).value == "") ==>
      StartsWith(r, "Server ") && r[7..] == IntToString(s.serverId) && ParseInt(r[7..]) == Some(s.serverId)
  {
    var fallback := "Server " + IntToString(s.serverId);
    ParseIntOfInt(s.serverId);
    assert (fallback)[7..] == IntToString(s.serverId);
    Or(Or(s.serverName, s.altName), Some(fallback)).GetOr(fallback)
  }

  // ---------------------------------------------------------------------------
  // Video download link
  // ---------------------------------------------------------------------------

  /** `handleDownloadVideo`'s URL: the first comma-separated proxy, the encoded stream
   *  URL, and the encoded JSON of the stream headers (`{}` when there are none). No
   *  stream URL, no link. */
  function DownloadVideoUrl(proxyConfig: string, streamUrl: Option<string>, streamHeaders: Option<Headers>): Option<string>
  {
    if streamUrl.None? || streamUrl.value == "" then None
    else
      var proxy := Split(proxyConfig, ',')[0];
      Some(proxy + EncodeComponent(streamUrl.value) + "&headers=" + EncodeComponent(JsonObject(streamHeaders.GetOr([]))))
  }

  /** After the proxy prefix, the link holds exactly two `&`-separated parts: the encoded
   *  stream URL and `headers=` with the encoded header JSON, which is sent even when there
   *  are no headers. */
  lemma DownloadVideoUrlParts(proxyConfig: string, streamUrl: string, streamHeaders: Option<Headers>)
    requires streamUrl != ""
    ensures var proxy := Split(proxyConfig, ',')[0];
      var r := DownloadVideoUrl(proxyConfig, Some(streamUrl), streamHeaders);
      && r.Some? && StartsWith(r.value, proxy)
      && Split(r.value[|proxy|..], '&') ==
           [EncodeComponent(streamUrl), "headers=" + EncodeComponent(JsonObject(streamHeaders.GetOr([])))]
  {
    var json := JsonObject(streamHeaders.GetOr([]));
    var proxy := Split(proxyConfig, ',')[0];
    assert DownloadVideoUrl(proxyConfig, Some(streamUrl), streamHeaders)
      == Some(proxy + EncodeComponent(streamUrl) + "&headers=" + EncodeComponent(json));
    EncodeComponentIsQuerySafe(streamUrl);
    EncodeComponentIsQuerySafe(json);
    ProxyLinkParts(proxy, EncodeComponent(streamUrl), EncodeComponent(json));
  }

  lemma ProxyLinkParts(proxy: string, target: string, headers: string)
    requires '&' !in target && '&' !in headers
    ensures var r := proxy + target + "&headers=" + headers;
      StartsWith(r, proxy) && Split(r[|proxy|..], '&') == [target, "headers=" + headers]
  {
    var r := proxy + target + "&headers=" + headers;
    var tail := target + "&headers=" + headers;
    assert r == proxy + tail;
    assert r[|proxy|..] == tail;
    assert "&headers=" == ['&'] + "headers=";
    assert tail == target + ['&'] + ("headers=" + headers);
    assert '&' !in "headers=";
    SplitTwo(target, '&', "headers=" + headers);
  }

  /** A configuration without a comma is one proxy, used whole. */
  lemma SingleProxyConfig(proxyConfig: string)
    requires ',' !in proxyConfig
    ensures Split(proxyConfig, ',')[0] == proxyConfig
  {
  }

  // ---------------------------------------------------------------------------
  // Subtitles
  // ---------------------------------------------------------------------------

  /** A text track of the stream; `label` may be missing. */
  datatype Track = Track(file: string, labelText: Option<string>, kind: string)

  predicate IsCaption(t: Track)
  {
    t.kind == "captions" || t.kind == "subtitles"
  }

  /** `captionSubs`. */
  function CaptionSubs(subtitles: seq<Track>): seq<Track>
  {
    Filter(subtitles, IsCaption)
  }

  /** The caption tracks are exactly the tracks of kind `captions` or `subtitles`, in
   *  their order. */
  lemma CaptionSubsSpec(subtitles: seq<Track>)
    ensures IsSubsequence(CaptionSubs(subtitles), subtitles)
    ensures forall t :: t in CaptionSubs(subtitles) <==>
      t in subtitles && (t.kind == "captions" || t.kind == "subtitles")
  {
    FilterMembers(subtitles, IsCaption);
    FilterIsSubsequence(subtitles, IsCaption);
  }

  /** `s.label?.toLowerCase() === "english"`. */
  predicate IsEnglish(t: Track)
  {
    t.labelText.Some? && ToLower(t.labelText.value) == "english"
  }

  /** The track "Download Subtitle" fetches: the first English one, else the first. */
  function ChosenSubtitle(captions: seq<Track>): (r: Option<Track>)
    ensures r.None? <==> |captions| == 0
    ensures r.Some? ==> r.value in captions
  {
    var english := Find(captions, IsEnglish);
    if english.Some? then english
    else if |captions| > 0 then Some(captions[0])
    else None
  }

  /** The choice is the first track labelled English in any letter case when there is
   *  one, and the first track otherwise. */
  lemma ChosenSubtitlePrefersEnglish(captions: seq<Track>)
    ensures (exists i :: 0 <= i < |captions| && IsEnglish(captions[i])) ==>
      exists i :: 0 <= i < |captions| && IsEnglish(captions[i]) && ChosenSubtitle(captions) == Some(captions[i])
                  && forall j :: 0 <= j < i ==> !IsEnglish(captions[j])
    ensures |captions| > 0 && (forall i :: 0 <= i < |captions| ==> !IsEnglish(captions[i])) ==>
      ChosenSubtitle(captions) == Some(captions[0])
  {
    FindIsFirst(captions, IsEnglish);
  }

  /** `${sub.label || "subtitle"}.vtt`. */
  function SubtitleFilename(labelText: Option<string>): (r: string)
    ensures EndsWith(r, ".vtt")
    ensures r[..|r| - 4] == if labelText.Some? && labelText.value != "" then labelText.value else "subtitle"
  {
    var stem := Or(labelText, Some("subtitle")).GetOr("subtitle");
    stem + ".vtt"
  }

  /** What `handleDownloadSubtitle` ends in. */
  datatype SubtitleAction = SaveAs(filename: string) | OpenInTab(url: string)

  /** A fetched subtitle is saved under its filename; any failure opens the file's URL in
   *  a new tab instead. */
  function DownloadSubtitle(sub: Track, fetchOk: bool): (r: SubtitleAction)
    ensures r.SaveAs? <==> fetchOk
    ensures r.SaveAs? ==> EndsWith(r.filename, ".vtt")
    ensures r.SaveAs? ==>
      r.filename[..|r.filename| - 4] == if sub.labelText.Some? && sub.labelText.value != "" then sub.labelText.value else "subtitle"
    ensures r.OpenInTab? ==> r.url == sub.file
  {
    if fetchOk then SaveAs(SubtitleFilename(sub.labelText)) else OpenInTab(sub.file)
  }

  /** The "Download Subtitle" button, shown only when there is a caption track: on a
   *  fetch the file saved is named after an English track's label when one exists (its
   *  stem reads `english` in lower case); on a failure the tab opened shows the file of
   *  one of the caption tracks. */
  lemma SubtitleButton(subtitles: seq<Track>, fetchOk: bool)
    requires |CaptionSubs(subtitles)| > 0
    ensures ChosenSubtitle(CaptionSubs(subtitles)).Some?
    ensures var sub := ChosenSubtitle(CaptionSubs(subtitles)).value;
      sub in subtitles && IsCaption(sub)
    ensures var r := DownloadSubtitle(ChosenSubtitle(CaptionSubs(subtitles)).value, fetchOk);
      fetchOk && (exists t :: t in CaptionSubs(subtitles) && IsEnglish(t)) ==>
        r.SaveAs? && ToLower(r.filename[..|r.filename| - 4]) == "english"
    ensures var r := DownloadSubtitle(ChosenSubtitle(CaptionSubs(subtitles)).value, fetchOk);
      !fetchOk ==> r.OpenInTab? && exists t :: t in subtitles && IsCaption(t) && t.file == r.url
  {
    var captions := CaptionSubs(subtitles);
    CaptionSubsSpec(subtitles);
    ChosenSubtitlePrefersEnglish(captions);
    var sub := ChosenSubtitle(captions).value;
    if fetchOk && (exists t :: t in captions && IsEnglish(t)) {
      var t :| t in captions && IsEnglish(t);
      var i :| 0 <= i < |captions| && captions[i] == t;
      assert IsEnglish(captions[i]);
      assert IsEnglish(sub);
      var stem := sub.labelText.value;
      assert |stem| == 7;
    }
  }
}
