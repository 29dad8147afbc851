/** The watch page (`src/pages/WatchPage.tsx`): it loads the episode list of a show,
 *  keeps the index of the current episode, the chosen server and the sub/dub choice,
 *  and on every change asks the streaming API for links and the servers on offer.
 *
 *  The page's state hooks are the fields of `WatchState`; its handlers and the
 *  completions of its two loading effects are methods. The API calls are inputs: a
 *  loaded episode list, and a function from (episode id, server, type) to the answer. */
module WatchPage {

  import opened Wrappers
  import opened Strings
  import opened Seqs
  import opened EpisodeList

  // ---------------------------------------------------------------------------
  // Server names
  // ---------------------------------------------------------------------------

  /** `a || b` on optional strings: an absent or empty `a` gives `b`. */
  function Or(a: Option<string>, b: Option<string>): (r: Option<string>)
    ensures r == a || r == b
    ensures a.Some? && a.value != "" ==> r == a
    ensures !(a.Some? && a.value != "") ==> r == b
    ensures r.Some? && r.value != "" ==> (a.Some? && a.value != "") || r == b
  {
    if a.Some? && a.value != "" then a else b
  }

  /** `slugifyServer`: trimmed, lower-cased, each run of whitespace turned into `-`. */
  function SlugifyServer(name: Option<string>): (r: string)
    ensures NoWhitespace(r) && IsLower(r)
    ensures name.None? ==> r == ""
  {
    var text := if name.Some? then name.value else "";
    var lowered := ToLower(Trim(text));
    ReplaceRunsNoWhitespace(lowered, "-");
    ReplaceRunsKeepsLower(lowered, "-");
    ReplaceWhitespaceRuns(lowered, "-")
  }

  /** A slug is its own slug. */
  lemma SlugifyServerIdempotent(name: Option<string>)
    ensures SlugifyServer(Some(SlugifyServer(name))) == SlugifyServer(name)
  {
    var s := SlugifyServer(name);
    assert Trim(s) == s;
    ToLowerOfLower(s);
    ReplaceRunsIdentity(s, "-");
  }

  /** A name that is already lower case and free of whitespace is its own slug. */
  lemma SlugifyServerOfSlug(name: string)
    requires NoWhitespace(name) && IsLower(name)
    ensures SlugifyServer(Some(name)) == name
  {
    assert Trim(name) == name;
    ToLowerOfLower(name);
    ReplaceRunsIdentity(name, "-");
  }

  /** Each inner whitespace run becomes exactly one `-`: a run between two characters
   *  that are not whitespace splits the name into two parts slugified on their own. */
  lemma SlugifyServerSplit(a: string, w: string, b: string)
    requires a != [] && !IsWhitespace(a[|a| - 1])
    requires w != [] && AllWhitespace(w)
    requires b != [] && !IsWhitespace(b[0])
    ensures SlugifyServer(Some(a + w + b)) == SlugifyServer(Some(a)) + "-" + SlugifyServer(Some(b))
  {
    TrimAroundRun(a, w, b);
    var x := Trim(a);
    var y := Trim(b);
    LowerAroundRun(x, w, y);
    ReplaceRunsSplit(ToLower(x), ToLower(w), ToLower(y), "-");
    SlugifyServerSteps(a + w + b);
    SlugifyServerSteps(a);
    SlugifyServerSteps(b);
  }

  /** The whitespace trimmed from either end of a name leaves no `-`: the slug starts
   *  and ends with the lower-cased first and last characters of the trimmed name. */
  lemma SlugifyServerEdges(name: string)
    ensures Trim(name) == [] ==> SlugifyServer(Some(name)) == []
    ensures var t := Trim(name); var r := SlugifyServer(Some(name));
      t != [] ==> r != [] && r[0] == LowerChar(t[0]) && r[|r| - 1] == LowerChar(t[|t| - 1])
  {
    SlugifyServerSteps(name);
    var t := Trim(name);
    if t != [] {
      ReplaceRunsEdges(ToLower(t), "-");
    }
  }

  /** The three steps of `slugifyServer` in their order. */
  lemma SlugifyServerSteps(text: string)
    ensures SlugifyServer(Some(text)) == ReplaceWhitespaceRuns(ToLower(Trim(text)), "-")
  {
  }

  /** Trimming a name with an inner whitespace run trims each side on its own. */
  lemma TrimAroundRun(a: string, w: string, b: string)
    requires a != [] && !IsWhitespace(a[|a| - 1])
    requires b != [] && !IsWhitespace(b[0])
    ensures Trim(a + w + b) == Trim(a) + w + Trim(b)
    ensures Trim(a) != [] && !IsWhitespace(Trim(a)[|Trim(a)| - 1])
    ensures Trim(b) != [] && !IsWhitespace(Trim(b)[0])
  {
    TrimStartKeepsLast(a);
    TrimEndKeepsFirst(b);
    var t := TrimStart(a);
    assert a + w + b == a + (w + b);
    TrimStartConcat(a, w + b);
    assert t + (w + b) == (t + w) + b;
    TrimEndConcat(t + w, b);
  }

  /** Lower-casing keeps a whitespace run and the characters around it as they are
   *  with respect to whitespace. */
  lemma LowerAroundRun(x: string, w: string, y: string)
    requires x != [] && !IsWhitespace(x[|x| - 1])
    requires w != [] && AllWhitespace(w)
    requires y != [] && !IsWhitespace(y[0])
    ensures ToLower(x + w + y) == ToLower(x) + ToLower(w) + ToLower(y)
    ensures ToLower(x) != [] && !IsWhitespace(ToLower(x)[|x| - 1])
    ensures ToLower(w) != [] && AllWhitespace(ToLower(w))
    ensures ToLower(y) != [] && !IsWhitespace(ToLower(y)[0])
  {
    ToLowerAppend(x + w, y);
    ToLowerAppend(x, w);
  }

  // ---------------------------------------------------------------------------
  // Servers
  // ---------------------------------------------------------------------------

  datatype StreamType = Sub | Dub

  /** The `'sub' | 'dub'` text of a type. */
  function TypeName(t: StreamType): string
  {
    match t
    case Sub => "sub"
    case Dub => "dub"
  }

  /** A server as the streaming API lists it; the name may come under either key. */
  datatype Server = Server(kind: string, serverId: int, serverName: Option<string>, altName: Option<string>)

  /** `slugifyServer(s.server_name || s.serverName)`. */
  function ServerSlug(s: Server): string
  {
    SlugifyServer(Or(s.serverName, s.altName))
  }

  /** The servers of a type, in the API's order. */
  function ServersOfType(servers: seq<Server>, t: StreamType): seq<Server>
  {
    Filter(servers, (s: Server) => s.kind == TypeName(t))
  }

  /** The slugs of the servers of a type, in order. */
  function SlugsOfType(servers: seq<Server>, t: StreamType): (r: seq<string>)
    ensures |r| == |ServersOfType(servers, t)|
  {
    var of := ServersOfType(servers, t);
    seq(|of|, i requires 0 <= i < |of| => ServerSlug(of[i]))
  }

  /** The server kept after a stream load that listed `servers`: the current one while
   *  the type offers it or offers nothing, otherwise the type's first server. */
  function ValidatedServer(current: string, servers: seq<Server>, t: StreamType): (r: string)
    ensures |SlugsOfType(servers, t)| > 0 ==> r in SlugsOfType(servers, t)
    ensures current in SlugsOfType(servers, t) || |SlugsOfType(servers, t)| == 0 ==> r == current
    ensures |SlugsOfType(servers, t)| > 0 && current !in SlugsOfType(servers, t) ==> r == SlugsOfType(servers, t)[0]
  {
    var names := SlugsOfType(servers, t);
    if |names| > 0 && current !in names then names[0] else current
  }

  /** The server `handleTypeChange` switches to: the slug of the type's first server, or
   *  the current one when the type has none. */
  function ServerForType(current: string, servers: seq<Server>, t: StreamType): (r: string)
    ensures |ServersOfType(servers, t)| == 0 ==> r == current
    ensures |ServersOfType(servers, t)| > 0 ==> r == SlugsOfType(servers, t)[0]
  {
    var available := ServersOfType(servers, t);
    if |available| > 0 then ServerSlug(available[0]) else current
  }

  /** The server a type change picks survives the validation of the next stream load
   *  that lists the same servers, and it is always one the type offers when it offers
   *  any. */
  lemma TypeChangeThenValidate(current: string, servers: seq<Server>, t: StreamType)
    ensures var picked := ServerForType(current, servers, t);
      && ValidatedServer(picked, servers, t) == picked
      && (|SlugsOfType(servers, t)| > 0 ==> picked in SlugsOfType(servers, t))
  {
  }

  /** Validation is idempotent: a second load with the same servers changes nothing. */
  lemma ValidatedServerStable(current: string, servers: seq<Server>, t: StreamType)
    ensures ValidatedServer(ValidatedServer(current, servers, t), servers, t) == ValidatedServer(current, servers, t)
  {
  }

  // ---------------------------------------------------------------------------
  // Stream selection
  // ---------------------------------------------------------------------------

  /** A streaming link; `linkType` is `link?.type`. */
  datatype StreamLink = StreamLink(id: int, linkType: Option<string>, file: string)

  /** The lower-cased link type names an HLS stream. */
  predicate IsHls(l: StreamLink)
  {
    var t := ToLower(l.linkType.GetOr(""));
    Contains(t, "m3u8") || Contains(t, "mpegurl")
  }

  /** `selectedStream`: the first HLS link, else the first link, else nothing. */
  function SelectedStream(links: seq<StreamLink>): (r: Option<StreamLink>)
    ensures r.None? <==> |links| == 0
    ensures r.Some? ==> r.value in links
  {
    if |links| == 0 then None
    else
      var m := Find(links, IsHls);
      if m.Some? then m else Some(links[0])
  }

  /** The chosen stream is the first HLS link when there is one, and the first link
   *  when none is HLS. */
  lemma SelectedStreamPrefersHls(links: seq<StreamLink>)
    ensures (exists i :: 0 <= i < |links| && IsHls(links[i])) ==>
      exists i :: 0 <= i < |links| && IsHls(links[i]) && SelectedStream(links) == Some(links[i])
                  && forall j :: 0 <= j < i ==> !IsHls(links[j])
    ensures |links| > 0 && (forall i :: 0 <= i < |links| ==> !IsHls(links[i])) ==>
      SelectedStream(links) == Some(links[0])
  {
    FindIsFirst(links, IsHls);
  }

  // ---------------------------------------------------------------------------
  // Episode navigation
  // ---------------------------------------------------------------------------

  /** `goPrev`: `Math.max(0, i - 1)`. */
  function Prev(i: int): int
  {
    if i - 1 >= 0 then i - 1 else 0
  }

  /** `goNext`: `Math.min(len - 1, i + 1)`. */
  function Next(i: int, len: int): int
  {
    if len - 1 <= i + 1 then len - 1 else i + 1
  }

  predicate PrevDisabled(i: int) { i == 0 }

  predicate NextDisabled(i: int, len: int) { i >= len - 1 }

  /** From a valid index, each move stays in `0..len-1` and goes at most one step; a
   *  button is disabled exactly when its move would change nothing; and going back
   *  after going forward returns to the start. */
  lemma NavigationBounds(i: int, len: int)
    requires 0 <= i < len
    ensures 0 <= Prev(i) < len && 0 <= Next(i, len) < len
    ensures i - 1 <= Prev(i) <= i && i <= Next(i, len) <= i + 1
    ensures PrevDisabled(i) <==> Prev(i) == i
    ensures NextDisabled(i, len) <==> Next(i, len) == i
    ensures !NextDisabled(i, len) ==> Prev(Next(i, len)) == i
    ensures !PrevDisabled(i) ==> Next(Prev(i), len) == i
  {
  }

  // ---------------------------------------------------------------------------
  // API answers
  // ---------------------------------------------------------------------------

  /** The answer of `getEpisodes`. */
  datatype EpisodesData = EpisodesData(episodes: Option<seq<Episode>>, totalEpisodes: Option<int>)

  /** `data.totalEpisodes || (data.episodes?.length ?? 0)`. */
  function TotalOf(data: EpisodesData): (r: int)
    ensures r == 0 <==> (data.totalEpisodes.None? || data.totalEpisodes.value == 0) && |data.episodes.GetOr([])| == 0
    ensures data.totalEpisodes.Some? && data.totalEpisodes.value != 0 ==> r == data.totalEpisodes.value
    ensures r != 0 && r != |data.episodes.GetOr([])| ==> data.totalEpisodes == Some(r)
  {
    if data.totalEpisodes.Some? && data.totalEpisodes.value != 0 then data.totalEpisodes.value
    else |data.episodes.GetOr([])|
  }

  /** The answer of `getStreamingInfo`. */
  datatype StreamingInfo = StreamingInfo(streamingLink: Option<seq<StreamLink>>, servers: Option<seq<Server>>)

  // ---------------------------------------------------------------------------
  // The page's state
  // ---------------------------------------------------------------------------

  class WatchState {
    var episodes: seq<Episode>
    var totalEpisodes: int
    var currentIndex: int
    var currentType: StreamType
    var servers: seq<Server>
    var currentServer: string
    var streamingLinks: seq<StreamLink>
    var loadingEpisodes: bool
    var loadingStream: bool

    /** The index names an episode, or is 0 while there is none. */
    predicate Valid()
      reads this
    {
      0 <= currentIndex && (|episodes| > 0 ==> currentIndex < |episodes|)
      && (|episodes| == 0 ==> currentIndex == 0)
    }

    constructor()
      ensures Valid()
      ensures episodes == [] && totalEpisodes == 0 && currentIndex == 0
      ensures currentType == Sub && servers == [] && currentServer == "hd-1"
      ensures streamingLinks == [] && loadingEpisodes && !loadingStream
    {
      episodes := [];
      totalEpisodes := 0;
      currentIndex := 0;
      currentType := Sub;
      servers := [];
      currentServer := "hd-1";
      streamingLinks := [];
      loadingEpisodes := true;
      loadingStream := false;
    }

    /** The stream the player receives. */
    function Selected(): Option<StreamLink>
      reads this
    {
      SelectedStream(streamingLinks)
    }

    /** The completion of the episode-loading effect: on success the list and the total
     *  are replaced and the index goes back to 0; on failure only the loading flag
     *  changes. */
    method EpisodesLoaded(outcome: Result<EpisodesData, string>)
      requires Valid()
      modifies this
      ensures Valid()
      ensures outcome.Success? ==>
        && episodes == outcome.value.episodes.GetOr([])
        && totalEpisodes == TotalOf(outcome.value)
        && currentIndex == 0
      ensures outcome.Failure? ==>
        episodes == old(episodes) && totalEpisodes == old(totalEpisodes) && currentIndex == old(currentIndex)
      ensures !loadingEpisodes
      ensures currentType == old(currentType) && servers == old(servers)
      ensures currentServer == old(currentServer) && streamingLinks == old(streamingLinks)
      ensures loadingStream == old(loadingStream)
    {
      match outcome {
        case Success(data) =>
          episodes := data.episodes.GetOr([]);
          totalEpisodes := TotalOf(data);
          currentIndex := 0;
        case Failure(_) =>
      }
      loadingEpisodes := false;
    }

    /** The stream-loading effect for the current episode, server and type. Without a
     *  current episode id it does nothing. Otherwise `fetch` answers for exactly that
     *  request: a non-empty server list replaces the servers and revalidates the
     *  current server against the current type, the links are replaced (an error empties
     *  them), and the loading flag drops. */
    method LoadStream(fetch: (string, string, StreamType) -> Result<StreamingInfo, string>)
      modifies this
      ensures episodes == old(episodes) && totalEpisodes == old(totalEpisodes)
      ensures currentIndex == old(currentIndex) && currentType == old(currentType)
      ensures loadingEpisodes == old(loadingEpisodes)
      ensures !(0 <= currentIndex < |episodes|) || episodes[currentIndex].id == "" ==>
        && servers == old(servers) && currentServer == old(currentServer)
        && streamingLinks == old(streamingLinks) && loadingStream == old(loadingStream)
      ensures 0 <= currentIndex < |episodes| && episodes[currentIndex].id != "" ==>
        var answer := fetch(episodes[currentIndex].id, old(currentServer), currentType);
        && !loadingStream
        && (answer.Failure? ==>
              streamingLinks == [] && servers == old(servers) && currentServer == old(currentServer))
        && (answer.Success? ==>
              var listed := answer.value.servers;
              && streamingLinks == answer.value.streamingLink.GetOr([])
              && (listed.Some? && |listed.value| > 0 ==>
                    servers == listed.value
                    && currentServer == ValidatedServer(old(currentServer), listed.value, currentType))
              && (listed.None? || |listed.value| == 0 ==>
                    servers == old(servers) && currentServer == old(currentServer)))
    {
      if !(0 <= currentIndex < |episodes|) || episodes[currentIndex].id == "" {
        return;
      }
      loadingStream := true;
      var answer := fetch(episodes[currentIndex].id, currentServer, currentType);
      match answer {
        case Success(info) =>
          if info.servers.Some? && |info.servers.value| > 0 {
            servers := info.servers.value;
            var names := SlugsOfType(info.servers.value, currentType);
            if |names| > 0 && currentServer !in names {
              currentServer := names[0];
            }
          }
          streamingLinks := info.streamingLink.GetOr([]);
        case Failure(_) =>
          streamingLinks := [];
      }
      loadingStream := false;
    }

    /** `handleServerChange`. */
    method HandleServerChange(slug: string)
      modifies this
      ensures currentServer == slug
      ensures episodes == old(episodes) && totalEpisodes == old(totalEpisodes)
      ensures currentIndex == old(currentIndex) && currentType == old(currentType)
      ensures servers == old(servers) && streamingLinks == old(streamingLinks)
      ensures loadingEpisodes == old(loadingEpisodes) && loadingStream == old(loadingStream)
    {
      currentServer := slug;
    }

    /** `handleTypeChange`: sets the type and moves to the type's first server, if any. */
    method HandleTypeChange(t: StreamType)
      modifies this
      ensures currentType == t
      ensures currentServer == ServerForType(old(currentServer), servers, t)
      ensures episodes == old(episodes) && totalEpisodes == old(totalEpisodes)
      ensures currentIndex == old(currentIndex)
      ensures servers == old(servers) && streamingLinks == old(streamingLinks)
      ensures loadingEpisodes == old(loadingEpisodes) && loadingStream == old(loadingStream)
    {
      currentType := t;
      var available := ServersOfType(servers, t);
      if |available| > 0 {
        currentServer := ServerSlug(available[0]);
      }
    }

    /** `goPrev`: one episode back, never below the first. */
    method GoPrev()
      requires Valid()
      modifies this
      ensures Valid()
      ensures currentIndex == Prev(old(currentIndex))
      ensures currentIndex == if PrevDisabled(old(currentIndex)) then old(currentIndex) else old(currentIndex) - 1
      ensures episodes == old(episodes) && totalEpisodes == old(totalEpisodes)
      ensures currentType == old(currentType) && currentServer == old(currentServer)
      ensures servers == old(servers) && streamingLinks == old(streamingLinks)
      ensures loadingEpisodes == old(loadingEpisodes) && loadingStream == old(loadingStream)
    {
      currentIndex := Prev(currentIndex);
    }

    /** `goNext`: one episode forward, never past the last. On an empty list, where the
     *  button is disabled, the handler itself would set the index to -1. */
    method GoNext()
      requires Valid()
      modifies this
      ensures currentIndex == Next(old(currentIndex), |episodes|)
      ensures |episodes| > 0 ==> Valid()
      ensures |episodes| > 0 ==>
        currentIndex == if NextDisabled(old(currentIndex), |episodes|) then old(currentIndex) else old(currentIndex) + 1
      ensures |episodes| == 0 ==> currentIndex == -1
      ensures episodes == old(episodes) && totalEpisodes == old(totalEpisodes)
      ensures currentType == old(currentType) && currentServer == old(currentServer)
      ensures servers == old(servers) && streamingLinks == old(streamingLinks)
      ensures loadingEpisodes == old(loadingEpisodes) && loadingStream == old(loadingStream)
    {
      currentIndex := Next(currentIndex, |episodes|);
    }
  }
}
