/** The information panel of the watch page (`src/components/watch/AnimeInfoSection.tsx`):
 *  a long overview is cut to 300 characters behind a "Show more" toggle, and the season
 *  of the page's anime is highlighted among the season links. */
module AnimeInfoSection {

  import opened Wrappers

  const TRUNCATE_LENGTH: nat := 300

  /** The `animeInfo` block of the API's answer, reduced to its overview. */
  datatype AnimeInfo = AnimeInfo(overview: Option<string>)

  /** A season entry: the id its link goes to and its name. */
  datatype Season = Season(id: string, season: string)

  /** `info?.Overview || ""`. */
  function Description(info: Option<AnimeInfo>): string
  {
    if info.Some? && info.value.overview.Some? && info.value.overview.value != "" then
      info.value.overview.value
    else ""
  }

  /** `shouldTruncate`. */
  predicate ShouldTruncate(description: string)
  {
    |description| > TRUNCATE_LENGTH
  }

  /** `displayDescription`: while collapsed, a long description shows its first 300
   *  characters and an ellipsis. */
  function DisplayDescription(description: string, isExpanded: bool): string
  {
    if ShouldTruncate(description) && !isExpanded then
      description[..TRUNCATE_LENGTH] + "..."
    else description
  }

  /** The displayed text: 303 characters that begin like the description when it is cut,
   *  the whole description otherwise; a short description is never cut, and an expanded
   *  one is always whole. */
  lemma DisplayDescriptionSpec(description: string, isExpanded: bool)
    ensures var r := DisplayDescription(description, isExpanded);
      && (ShouldTruncate(description) && !isExpanded ==>
            |r| == 303 && r[..300] == description[..300] && r[300..] == "...")
      && (!ShouldTruncate(description) || isExpanded ==> r == description)
    ensures |description| <= 300 ==> DisplayDescription(description, false) == description
    ensures DisplayDescription(description, true) == description
  {
    var r := DisplayDescription(description, isExpanded);
    if ShouldTruncate(description) && !isExpanded {
      assert r[..300] == description[..300];
      assert r[300..] == "...";
    }
  }

  /** The "Show more" / "Show less" button is rendered only for a long description. */
  predicate ToggleShown(description: string)
  {
    ShouldTruncate(description)
  }

  /** Its click handler: `setIsExpanded(!isExpanded)`. */
  function ToggleExpanded(isExpanded: bool): bool
  {
    !isExpanded
  }

  /** Two clicks restore the flag. Where the toggle exists a click changes the displayed
   *  text, unless the description is exactly its own cut (300 characters and "...");
   *  without the toggle the display never depends on the flag. */
  lemma ToggleSpec(description: string, isExpanded: bool)
    ensures ToggleExpanded(ToggleExpanded(isExpanded)) == isExpanded
    ensures ToggleShown(description) ==>
      (DisplayDescription(description, ToggleExpanded(isExpanded)) == DisplayDescription(description, isExpanded)
       <==> description == description[..TRUNCATE_LENGTH] + "...")
    ensures !ToggleShown(description) ==>
      DisplayDescription(description, true) == DisplayDescription(description, false)
  {
  }

  /** `currentAnimeId === season.id`. */
  predicate IsHighlighted(currentAnimeId: Option<string>, s: Season)
  {
    currentAnimeId.Some? && currentAnimeId.value == s.id
  }

  /** A season link goes to the season's watch page. */
  function SeasonLink(s: Season): string
  {
    "/watch/" + s.id
  }

  /** Among seasons with distinct ids at most one is highlighted, and it is the one whose
   *  id is the current anime's; without a current id none is. */
  lemma HighlightIsUnique(currentAnimeId: Option<string>, seasons: seq<Season>)
    requires forall i, j :: 0 <= i < j < |seasons| ==> seasons[i].id != seasons[j].id
    ensures forall i, j ::
      (0 <= i < |seasons| && 0 <= j < |seasons|
       && IsHighlighted(currentAnimeId, seasons[i]) && IsHighlighted(currentAnimeId, seasons[j])) ==> i == j
    ensures forall i :: 0 <= i < |seasons| ==>
      (IsHighlighted(currentAnimeId, seasons[i]) <==> currentAnimeId == Some(seasons[i].id))
  {
  }

  /** Seasons with distinct ids link to distinct pages, and the id is read back from
   *  the link after `/watch/`. */
  lemma SeasonLinksDistinct(a: Season, b: Season)
    ensures |SeasonLink(a)| >= 7 && SeasonLink(a)[7..] == a.id
    ensures SeasonLink(a) == SeasonLink(b) <==> a.id == b.id
  {
    assert SeasonLink(a)[7..] == a.id;
    assert SeasonLink(b)[7..] == b.id;
  }
}
