/** The spotlight carousel of the home page (`src/components/HeroSection.tsx`): the
 *  spotlight list loads once, an interval advances the slide while autoplay is on, and
 *  the arrows and the indicator dots move to a slide and switch autoplay off.
 *
 *  The component's state hooks are the fields of `Carousel`; the handlers and the
 *  interval's callback are its methods. */
module HeroSection {

  import opened Wrappers

  // ---------------------------------------------------------------------------
  // Slide arithmetic
  // ---------------------------------------------------------------------------

  function Abs(n: int): int
  {
    if n >= 0 then n else -n
  }

  /** JavaScript's `a % n`: the remainder of truncating division, which takes the sign
   *  of `a`, written as repeated subtraction of `|n|` from `|a|`. A number strictly
   *  between `-|n|` and `|n|` is its own remainder. */
  function JsRemainder(a: int, n: int): (r: int)
    requires n != 0
    ensures a >= 0 ==> 0 <= r < Abs(n)
    ensures a < 0 ==> -Abs(n) < r <= 0
    ensures r == a <==> -Abs(n) < a < Abs(n)
    decreases Abs(a), if a < 0 then 1 else 0
  {
    if a < 0 then -JsRemainder(-a, n)
    else if a < Abs(n) then a
    else JsRemainder(a - Abs(n), n)
  }

  /** `nextSlide`'s update `(prev + 1) % n`, also the interval's. */
  function NextIndex(i: int, n: int): int
    requires n != 0
  {
    JsRemainder(i + 1, n)
  }

  /** `prevSlide`'s update `(prev - 1 + n) % n`. */
  function PrevIndex(i: int, n: int): int
    requires n != 0
  {
    JsRemainder(i - 1 + n, n)
  }

  /** From a slide of a non-empty carousel both arrows land on a slide, and each undoes
   *  the other. */
  lemma SlideIndexBounds(i: int, n: int)
    requires 0 <= i < n
    ensures 0 <= NextIndex(i, n) < n && 0 <= PrevIndex(i, n) < n
    ensures PrevIndex(NextIndex(i, n), n) == i
    ensures NextIndex(PrevIndex(i, n), n) == i
  {
    if i + 1 == n {
      assert NextIndex(i, n) == JsRemainder(0, n) == 0;
    }
    if i == 0 {
      assert PrevIndex(i, n) == n - 1;
    } else {
      assert PrevIndex(i, n) == JsRemainder(i - 1, n) == i - 1;
    }
  }

  /** `k` steps forward from slide `i`. */
  function Advance(i: int, n: int, k: nat): int
    requires n > 0
  {
    if k == 0 then i else NextIndex(Advance(i, n, k - 1), n)
  }

  /** `k` autoplay ticks from slide `i` show slide `(i + k) % n`, so `n` ticks come back
   *  to the start. */
  lemma {:induction false} AdvanceIsModular(i: int, n: int, k: nat)
    requires 0 <= i < n
    ensures Advance(i, n, k) == JsRemainder(i + k, n)
  {
    if k > 0 {
      var m: nat := i + k - 1;
      AdvanceIsModular(i, n, k - 1);
      RemainderSucc(m, n);
    }
  }

  lemma {:induction false} RemainderSucc(a: nat, n: int)
    requires n > 0
    ensures JsRemainder(JsRemainder(a, n) + 1, n) == JsRemainder(a + 1, n)
    decreases a
  {
    if a >= n {
      RemainderSucc(a - n, n);
    }
  }

  /** A full round of `n` ticks shows the starting slide again. */
  lemma AdvanceFullRound(i: int, n: int)
    requires 0 <= i < n
    ensures Advance(i, n, n) == i
  {
    AdvanceIsModular(i, n, n);
    assert JsRemainder(i + n, n) == JsRemainder(i, n);
  }

  // ---------------------------------------------------------------------------
  // Episode count of a spotlight
  // ---------------------------------------------------------------------------

  datatype EpisodeInfo = EpisodeInfo(sub: Option<int>, dub: Option<int>)

  datatype TvInfo = TvInfo(eps: Option<int>, episodeInfo: Option<EpisodeInfo>)

  /** The part of a spotlight entry the carousel logic uses. */
  datatype AnimeBasic = AnimeBasic(id: string, tvInfo: Option<TvInfo>)

  /** `n || 0` for an optional count. */
  function OrZero(n: Option<int>): int
  {
    if n.Some? then n.value else 0
  }

  /** `episodeCount`: sub plus dub (a missing count is 0) when the show has episode
   *  info, else `eps`, else 0. */
  function EpisodeCount(anime: Option<AnimeBasic>): int
  {
    if anime.Some? && anime.value.tvInfo.Some? && anime.value.tvInfo.value.episodeInfo.Some? then
      var info := anime.value.tvInfo.value.episodeInfo.value;
      OrZero(info.sub) + OrZero(info.dub)
    else if anime.Some? && anime.value.tvInfo.Some? then OrZero(anime.value.tvInfo.value.eps)
    else 0
  }

  /** `eps` counts only without episode info, and the count is never negative when the
   *  API's counts are not. */
  lemma EpisodeCountSources(id: string, eps: Option<int>, otherEps: Option<int>, info: Option<EpisodeInfo>)
    ensures info.Some? ==>
      EpisodeCount(Some(AnimeBasic(id, Some(TvInfo(eps, info))))) ==
      EpisodeCount(Some(AnimeBasic(id, Some(TvInfo(otherEps, info)))))
    ensures info.Some? ==>
      EpisodeCount(Some(AnimeBasic(id, Some(TvInfo(eps, info))))) == OrZero(info.value.sub) + OrZero(info.value.dub)
    ensures info.None? ==> EpisodeCount(Some(AnimeBasic(id, Some(TvInfo(eps, info))))) == OrZero(eps)
    ensures (eps.Some? ==> eps.value >= 0)
      && (info.Some? ==> (info.value.sub.Some? ==> info.value.sub.value >= 0) && (info.value.dub.Some? ==> info.value.dub.value >= 0))
      ==> EpisodeCount(Some(AnimeBasic(id, Some(TvInfo(eps, info))))) >= 0
    ensures EpisodeCount(None) == 0 && EpisodeCount(Some(AnimeBasic(id, None))) == 0
  {
  }

  // ---------------------------------------------------------------------------
  // The carousel's state
  // ---------------------------------------------------------------------------

  class Carousel {
    var spotlights: seq<AnimeBasic>
    var loading: bool
    var currentSlide: int
    var isAutoPlaying: bool

    /** The slide index names a spotlight, or is 0 while there is none. */
    predicate Valid()
      reads this
    {
      0 <= currentSlide && (|spotlights| > 0 ==> currentSlide < |spotlights|)
      && (|spotlights| == 0 ==> currentSlide == 0)
    }

    constructor()
      ensures Valid()
      ensures spotlights == [] && loading && currentSlide == 0 && isAutoPlaying
    {
      spotlights := [];
      loading := true;
      currentSlide := 0;
      isAutoPlaying := true;
    }

    /** The spotlight on screen. */
    function Current(): Option<AnimeBasic>
      reads this
    {
      if 0 <= currentSlide < |spotlights| then Some(spotlights[currentSlide]) else None
    }

    /** The mount-time fetch: its spotlights (none when missing or on an error) replace
     *  the empty list and the skeleton goes away. */
    method Loaded(outcome: Result<Option<seq<AnimeBasic>>, string>)
      requires Valid() && spotlights == []
      modifies this
      ensures Valid()
      ensures spotlights == if outcome.Success? then outcome.value.GetOr([]) else []
      ensures !loading && currentSlide == old(currentSlide) && isAutoPlaying == old(isAutoPlaying)
    {
      if outcome.Success? {
        spotlights := outcome.value.GetOr([]);
      }
      loading := false;
    }

    /** The interval's callback: it runs only while autoplay is on and there are
     *  spotlights, and then shows the next slide. */
    method Tick()
      requires Valid()
      modifies this
      ensures Valid()
      ensures isAutoPlaying && |spotlights| > 0 ==> currentSlide == NextIndex(old(currentSlide), |spotlights|)
      ensures !(isAutoPlaying && |spotlights| > 0) ==> currentSlide == old(currentSlide)
      ensures spotlights == old(spotlights) && isAutoPlaying == old(isAutoPlaying) && loading == old(loading)
    {
      if !isAutoPlaying || |spotlights| == 0 {
        return;
      }
      SlideIndexBounds(currentSlide, |spotlights|);
      currentSlide := NextIndex(currentSlide, |spotlights|);
    }

    /** `nextSlide`: nothing on an empty list; otherwise the next slide, and autoplay
     *  stops. */
    method NextSlide()
      requires Valid()
      modifies this
      ensures Valid()
      ensures |spotlights| > 0 ==> currentSlide == NextIndex(old(currentSlide), |spotlights|) && !isAutoPlaying
      ensures |spotlights| == 0 ==> currentSlide == old(currentSlide) && isAutoPlaying == old(isAutoPlaying)
      ensures spotlights == old(spotlights) && loading == old(loading)
    {
      if |spotlights| == 0 {
        return;
      }
      SlideIndexBounds(currentSlide, |spotlights|);
      currentSlide := NextIndex(currentSlide, |spotlights|);
      isAutoPlaying := false;
    }

    /** `prevSlide`: nothing on an empty list; otherwise the previous slide, and autoplay
     *  stops. */
    method PrevSlide()
      requires Valid()
      modifies this
      ensures Valid()
      ensures |spotlights| > 0 ==> currentSlide == PrevIndex(old(currentSlide), |spotlights|) && !isAutoPlaying
      ensures |spotlights| == 0 ==> currentSlide == old(currentSlide) && isAutoPlaying == old(isAutoPlaying)
      ensures spotlights == old(spotlights) && loading == old(loading)
    {
      if |spotlights| == 0 {
        return;
      }
      SlideIndexBounds(currentSlide, |spotlights|);
      currentSlide := PrevIndex(currentSlide, |spotlights|);
      isAutoPlaying := false;
    }

    /** A click on the `index`-th indicator dot (one per spotlight). */
    method SelectSlide(index: int)
      requires Valid() && 0 <= index < |spotlights|
      modifies this
      ensures Valid()
      ensures currentSlide == index && !isAutoPlaying
      ensures spotlights == old(spotlights) && loading == old(loading)
    {
      currentSlide := index;
      isAutoPlaying := false;
    }
  }
}
