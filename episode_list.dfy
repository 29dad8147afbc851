/** The episode list beside the player (`src/components/watch/EpisodeList.tsx`): the
 *  episodes are grouped into ranges of one hundred, one range is shown at a time, a
 *  number typed into the search box opens that episode, and the entry for the current
 *  episode is highlighted.
 *
 *  The component's props are the constant fields of `EpisodeListView`; its `useState`
 *  hooks are the mutable ones, and each handler is a method. */
module EpisodeList {

  import opened Wrappers
  import opened Strings
  import opened Seqs

  /** The part of an episode record the list uses. */
  datatype Episode = Episode(id: string, episodeNo: int)

  const RANGE_SIZE: int := 100

  /** One entry of the range selector: the episode numbers `start..end`. */
  datatype EpisodeRange = EpisodeRange(start: int, end: int)

  predicate InRange(r: EpisodeRange, n: int)
  {
    r.start <= n <= r.end
  }

  function Min(a: int, b: int): int
  {
    if a <= b then a else b
  }

  // ---------------------------------------------------------------------------
  // Ranges
  // ---------------------------------------------------------------------------

  /** `Math.ceil(total / 100)` read as an `Array.from` length, which turns a negative
   *  length into 0. */
  function RangeCount(total: int): (n: nat)
    ensures total <= 0 ==> n == 0
    ensures total > 0 ==> (n - 1) * RANGE_SIZE < total <= n * RANGE_SIZE
  {
    if total <= 0 then 0 else (total + RANGE_SIZE - 1) / RANGE_SIZE
  }

  /** Range `i` covers `100i+1 .. min(100(i+1), total)`. */
  function Ranges(total: int): (r: seq<EpisodeRange>)
    ensures |r| == RangeCount(total)
  {
    seq(RangeCount(total), i => EpisodeRange(i * RANGE_SIZE + 1, Min((i + 1) * RANGE_SIZE, total)))
  }

  /** The ranges tile `1..total`: the first starts at 1, each one starts right after the
   *  previous one ends, the last ends at `total`, and each holds 1 to 100 numbers. */
  lemma RangesTile(total: int)
    ensures total <= 0 ==> Ranges(total) == []
    ensures total > 0 ==>
      var r := Ranges(total);
      && r[0].start == 1
      && r[|r| - 1].end == total
      && (forall i :: 0 <= i < |r| - 1 ==> r[i + 1].start == r[i].end + 1)
      && (forall i :: 0 <= i < |r| ==> 1 <= r[i].end - r[i].start + 1 <= RANGE_SIZE)
  {
    if total > 0 {
      var r := Ranges(total);
      var n := |r|;
      assert r[n - 1].end == Min(n * RANGE_SIZE, total);
      forall i | 0 <= i < n
        ensures 1 <= r[i].end - r[i].start + 1 <= RANGE_SIZE
      {
        assert i * RANGE_SIZE < total by {
          assert i <= n - 1;
          assert i * RANGE_SIZE <= (n - 1) * RANGE_SIZE;
        }
      }
      forall i | 0 <= i < n - 1
        ensures r[i + 1].start == r[i].end + 1
      {
        assert (i + 1) * RANGE_SIZE < total by {
          assert i + 1 <= n - 1;
          assert (i + 1) * RANGE_SIZE <= (n - 1) * RANGE_SIZE;
        }
      }
    }
  }

  /** Every number `1..total` lies in exactly one range, the one at `(n-1) div 100`, and
   *  no other number lies in any range. */
  lemma RangesCover(total: int, n: int)
    ensures forall i :: 0 <= i < |Ranges(total)| ==>
      (InRange(Ranges(total)[i], n) <==> 1 <= n <= total && i == (n - 1) / RANGE_SIZE)
    ensures 1 <= n <= total ==> (n - 1) / RANGE_SIZE < |Ranges(total)|
  {
    var r := Ranges(total);
    forall i | 0 <= i < |r|
      ensures InRange(r[i], n) <==> 1 <= n <= total && i == (n - 1) / RANGE_SIZE
    {
      if InRange(r[i], n) {
        DivBetween(n - 1, i);
      }
      if 1 <= n <= total && i == (n - 1) / RANGE_SIZE {
        assert i * RANGE_SIZE <= n - 1 < (i + 1) * RANGE_SIZE;
      }
    }
    if 1 <= n <= total {
      var q := (n - 1) / RANGE_SIZE;
      assert q * RANGE_SIZE <= n - 1;
      assert q * RANGE_SIZE < |r| * RANGE_SIZE;
    }
  }

  lemma DivBetween(m: int, q: int)
    requires q * RANGE_SIZE <= m < (q + 1) * RANGE_SIZE
    ensures m / RANGE_SIZE == q
  {
  }

  // ---------------------------------------------------------------------------
  // The episodes shown
  // ---------------------------------------------------------------------------

  /** `filteredEpisodes`: all episodes when there is no range or the selected index names
   *  none, otherwise those whose number lies in the selected range. */
  function FilteredEpisodes(episodes: seq<Episode>, ranges: seq<EpisodeRange>, selected: int): seq<Episode>
  {
    if |ranges| == 0 then episodes
    else if !(0 <= selected < |ranges|) then episodes
    else
      var range := ranges[selected];
      Filter(episodes, (ep: Episode) => InRange(range, ep.episodeNo))
  }

  /** The shown episodes keep the list's order; with a range selected they are exactly
   *  the episodes numbered inside it, and otherwise they are the whole list. */
  lemma FilteredEpisodesSpec(episodes: seq<Episode>, ranges: seq<EpisodeRange>, selected: int)
    ensures IsSubsequence(FilteredEpisodes(episodes, ranges, selected), episodes)
    ensures !(0 <= selected < |ranges|) ==> FilteredEpisodes(episodes, ranges, selected) == episodes
    ensures 0 <= selected < |ranges| ==> forall ep ::
      ep in FilteredEpisodes(episodes, ranges, selected) <==> ep in episodes && InRange(ranges[selected], ep.episodeNo)
  {
    if 0 <= selected < |ranges| {
      var range := ranges[selected];
      var p := (ep: Episode) => InRange(range, ep.episodeNo);
      FilterMembers(episodes, p);
      FilterIsSubsequence(episodes, p);
    } else {
      IsSubsequenceRefl(episodes);
    }
  }

  /** With the ranges of `total` and range `k` selected, an episode is shown exactly when
   *  its number is in `1..total` and falls in the `k`-th block of one hundred. */
  lemma ShownEpisodesOfRange(episodes: seq<Episode>, total: int, k: int)
    requires 0 <= k < |Ranges(total)|
    ensures forall ep :: ep in FilteredEpisodes(episodes, Ranges(total), k) <==>
      ep in episodes && 1 <= ep.episodeNo <= total && (ep.episodeNo - 1) / RANGE_SIZE == k
  {
    FilteredEpisodesSpec(episodes, Ranges(total), k);
    forall ep | ep in episodes
      ensures InRange(Ranges(total)[k], ep.episodeNo) <==>
        1 <= ep.episodeNo <= total && (ep.episodeNo - 1) / RANGE_SIZE == k
    {
      RangesCover(total, ep.episodeNo);
    }
  }

  // ---------------------------------------------------------------------------
  // Search box
  // ---------------------------------------------------------------------------

  /** The episode `handleSearch` opens for the typed text: `parseInt` must give a number
   *  (`NaN` and 0 are falsy) between 1 and the episode total. */
  function SearchTarget(searchNum: string, total: int): (r: Option<int>)
    ensures r.Some? ==> 1 <= r.value <= total && ParseInt(searchNum) == r
    ensures r.None? ==> ParseInt(searchNum).None? || !(1 <= ParseInt(searchNum).value <= total)
  {
    var num := ParseInt(searchNum);
    if num.Some? && num.value != 0 && num.value > 0 && num.value <= total then Some(num.value) else None
  }

  /** Typing a number, with or without leading zeros, opens that episode exactly when it
   *  is between 1 and the total. */
  lemma SearchTargetOfTyped(n: nat, width: nat, total: int)
    ensures SearchTarget(PadStart(NatToString(n), width, '0'), total) ==
      if 1 <= n <= total then Some(n) else None
  {
    ParseIntOfZeroPadded(n, width);
  }

  // ---------------------------------------------------------------------------
  // Labels and the active entry
  // ---------------------------------------------------------------------------

  /** `String(n).padStart(3, "0")`. */
  function PadNumber(n: int): string
  {
    PadStart(IntToString(n), 3, '0')
  }

  function RangeLabel(r: EpisodeRange): string
  {
    PadNumber(r.start) + "-" + PadNumber(r.end)
  }

  /** The selector's caption: the selected range's label, or `001-100` when the index
   *  names no range. */
  function SelectedRangeLabel(ranges: seq<EpisodeRange>, selected: int): string
  {
    if 0 <= selected < |ranges| then RangeLabel(ranges[selected]) else "001-100"
  }

  /** A label of non-negative bounds is two zero-padded numbers of at least three digits
   *  around one `-`, and reading each number back gives the bounds. */
  lemma RangeLabelReadsBack(r: EpisodeRange)
    requires r.start >= 0 && r.end >= 0
    ensures var parts := Split(RangeLabel(r), '-');
      && |parts| == 2
      && |parts[0]| >= 3 && AllDigits(parts[0]) && ParseInt(parts[0]) == Some(r.start)
      && |parts[1]| >= 3 && AllDigits(parts[1]) && ParseInt(parts[1]) == Some(r.end)
  {
    var a := PadNumber(r.start);
    var b := PadNumber(r.end);
    PadNumberReadsBack(r.start);
    PadNumberReadsBack(r.end);
    JoinTwo(a, b);
    SplitJoin([a, b], '-');
    assert Split(RangeLabel(r), '-') == [a, b];
  }

  lemma JoinTwo(a: string, b: string)
    ensures Join([a, b], '-') == a + "-" + b
  {
    assert [a, b][1..] == [b];
  }

  /** One padded bound: at least three digits, no `-`, and it reads back. */
  lemma PadNumberReadsBack(n: int)
    requires n >= 0
    ensures var a := PadNumber(n);
      |a| >= 3 && AllDigits(a) && ParseInt(a) == Some(n) && '-' !in a
  {
    var a := PadNumber(n);
    PaddedDigits(n, 3);
    ParseIntOfZeroPadded(n, 3);
    assert forall i :: 0 <= i < |a| ==> IsDigit(a[i]);
  }

  /** The caption `001-100` shown when the selected index names no range is the caption
   *  of the first range of any list of at least one hundred episodes. */
  lemma SelectedRangeLabelFallback(total: int, selected: int)
    requires total >= RANGE_SIZE
    ensures SelectedRangeLabel(Ranges(total), 0) == "001-100"
    ensures !(0 <= selected < |Ranges(total)|) ==>
      SelectedRangeLabel(Ranges(total), selected) == SelectedRangeLabel(Ranges(total), 0)
  {
    assert Ranges(total)[0] == EpisodeRange(1, 100);
    FirstRangeLabel();
  }

  lemma FirstRangeLabel()
    ensures RangeLabel(EpisodeRange(1, 100)) == "001-100"
  {
    var one, hundred := IntToString(1), IntToString(100);
    assert one == "1";
    assert NatToString(10) == NatToString(1) + [DigitChar(0)] == "10";
    assert hundred == NatToString(10) + [DigitChar(0)] == "100";
    assert PadNumber(1) == Repeat('0', 2) + one == "001";
    assert PadNumber(100) == "100";
  }

  /** `String(ep.episode_no) === currentEpisode`. */
  predicate IsActive(ep: Episode, currentEpisode: string)
  {
    IntToString(ep.episodeNo) == currentEpisode
  }

  /** When the current episode is given as the text of a number, exactly the entries
   *  with that number are active. */
  lemma IsActiveIff(ep: Episode, current: int)
    ensures IsActive(ep, IntToString(current)) <==> ep.episodeNo == current
  {
    if IsActive(ep, IntToString(current)) {
      ParseIntOfInt(ep.episodeNo);
      ParseIntOfInt(current);
    }
  }

  // ---------------------------------------------------------------------------
  // The component's state
  // ---------------------------------------------------------------------------

  /** The sub/dub filter menu (its choice only changes the menu's caption). */
  datatype FilterType = All | SubOnly | DubOnly

  class EpisodeListView {
    const episodes: seq<Episode>
    const currentEpisode: string
    const totalEpisodes: int
    const hasSubbed: bool
    const hasDubbed: bool

    var filter: FilterType
    var searchNum: string
    var selectedRange: int

    constructor(episodes: seq<Episode>, currentEpisode: string, totalEpisodes: int, hasSubbed: bool, hasDubbed: bool)
      ensures this.episodes == episodes && this.currentEpisode == currentEpisode
      ensures this.totalEpisodes == totalEpisodes
      ensures this.hasSubbed == hasSubbed && this.hasDubbed == hasDubbed
      ensures filter == All && searchNum == "" && selectedRange == 0
    {
      this.episodes := episodes;
      this.currentEpisode := currentEpisode;
      this.totalEpisodes := totalEpisodes;
      this.hasSubbed := hasSubbed;
      this.hasDubbed := hasDubbed;
      filter := All;
      searchNum := "";
      selectedRange := 0;
    }

    /** The entries the list renders. */
    function Shown(): seq<Episode>
      reads this
    {
      FilteredEpisodes(episodes, Ranges(totalEpisodes), selectedRange)
    }

    /** The search box's `onChange`. */
    method SetSearchNum(text: string)
      modifies this
      ensures searchNum == text
      ensures filter == old(filter) && selectedRange == old(selectedRange)
    {
      searchNum := text;
    }

    /** `handleSearch`: returns the number passed to `onEpisodeClick`, if the handler
     *  calls it, and clears the box exactly then. */
    method HandleSearch() returns (clicked: Option<int>)
      modifies this
      ensures clicked == SearchTarget(old(searchNum), totalEpisodes)
      ensures searchNum == if clicked.Some? then "" else old(searchNum)
      ensures filter == old(filter) && selectedRange == old(selectedRange)
    {
      var num := ParseInt(searchNum);
      if num.Some? && num.value != 0 && num.value > 0 && num.value <= totalEpisodes {
        clicked := Some(num.value);
        searchNum := "";
      } else {
        clicked := None;
      }
    }

    /** A click on the `idx`-th entry of the range menu, which lists every range. */
    method SelectRange(idx: int)
      requires 0 <= idx < |Ranges(totalEpisodes)|
      modifies this
      ensures selectedRange == idx
      ensures filter == old(filter) && searchNum == old(searchNum)
      ensures forall ep :: ep in Shown() <==>
        ep in episodes && 1 <= ep.episodeNo <= totalEpisodes && (ep.episodeNo - 1) / RANGE_SIZE == idx
    {
      selectedRange := idx;
      ShownEpisodesOfRange(episodes, totalEpisodes, idx);
    }

    /** The filter menu offers "Only Sub" when the show has subtitles and "Only Dub" when
     *  it has a dub. */
    predicate Offered(f: FilterType)
      reads this
    {
      match f
      case All => true
      case SubOnly => hasSubbed
      case DubOnly => hasDubbed
    }

    method SetFilter(f: FilterType)
      requires Offered(f)
      modifies this
      ensures filter == f
      ensures searchNum == old(searchNum) && selectedRange == old(selectedRange)
    {
      filter := f;
    }
  }
}
