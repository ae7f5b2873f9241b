/** The fallback choice among candidates (`ImageOptimizer.selectImageSource`):
    a left-to-right scan that keeps the candidate whose width is nearest the
    viewport width, replacing it only on a strictly smaller distance. The
    viewport width, read from `window.innerWidth` in the browser, is a
    parameter here; the unused `sizes` argument is dropped. */
module Selection {
  import opened Srcset

  /** `Math.abs(viewportWidth - width)`. */
  function Distance(viewportWidth: int, width: int): (d: nat)
    ensures d == 0 <==> viewportWidth == width
    ensures d >= viewportWidth - width && d >= width - viewportWidth
    ensures d == viewportWidth - width || d == width - viewportWidth
  {
    if viewportWidth >= width then viewportWidth - width else width - viewportWidth
  }

  /** The index the scan ends on: the scan over all but the last candidate,
      moved to the last one only when that one is strictly nearer. */
  function NearestIndex(sources: seq<Source>, viewportWidth: int): (k: nat)
    requires |sources| > 0
    ensures k < |sources|
  {
    if |sources| == 1 then 0
    else
      var last := |sources| - 1;
      var k := NearestIndex(sources[..last], viewportWidth);
      if Distance(viewportWidth, sources[last].width) < Distance(viewportWidth, sources[k].width)
      then last else k
  }

  /** Candidate `k` is at least as near as every candidate, and strictly
      nearer than every candidate before it: the first of the nearest. */
  ghost predicate IsFirstNearest(sources: seq<Source>, viewportWidth: int, k: int)
  {
    && 0 <= k < |sources|
    && (forall j :: 0 <= j < |sources| ==>
          Distance(viewportWidth, sources[k].width) <= Distance(viewportWidth, sources[j].width))
    && (forall j :: 0 <= j < k ==>
          Distance(viewportWidth, sources[k].width) < Distance(viewportWidth, sources[j].width))
  }

  /** The scan finds the first of the nearest candidates: no candidate is
      nearer, and ties go to the earliest. */
  lemma {:induction false} NearestIndexIsFirstNearest(sources: seq<Source>, viewportWidth: int)
    requires |sources| > 0
    ensures IsFirstNearest(sources, viewportWidth, NearestIndex(sources, viewportWidth))
  {
    if |sources| > 1 {
      var last := |sources| - 1;
      var init := sources[..last];
      NearestIndexIsFirstNearest(init, viewportWidth);
      assert forall j :: 0 <= j < last ==> sources[j] == init[j];
    }
  }

  /** Being the first of the nearest characterises the scan's result
      exactly: there is one such candidate, and it is the one chosen. */
  lemma NearestIndexCharacterized(sources: seq<Source>, viewportWidth: int, k: int)
    requires |sources| > 0
    ensures IsFirstNearest(sources, viewportWidth, k) <==> k == NearestIndex(sources, viewportWidth)
  {
    NearestIndexIsFirstNearest(sources, viewportWidth);
  }

  /** With one candidate, that candidate is chosen whatever the viewport. */
  lemma SingleCandidate(source: Source, viewportWidth: int)
    ensures NearestIndex([source], viewportWidth) == 0
  {
  }

  /** The example candidates `a` at 400 and `b` at 800: a 750-wide viewport
      gets `b` (distance 50 against 350), a 500-wide one gets `a` (100
      against 300). */
  lemma NearestExamples()
    ensures NearestIndex([Source("a", 400), Source("b", 800)], 750) == 1
    ensures NearestIndex([Source("a", 400), Source("b", 800)], 500) == 0
  {
    var s := [Source("a", 400), Source("b", 800)];
    assert s[..1] == [Source("a", 400)];
  }

  /** `selectImageSource(sources, sizes)` with the viewport width given.
      `sources[0]` on an empty list throws, so the list must not be empty;
      every list `ParseSrcset` returns is non-empty. */
  method SelectImageSource(sources: seq<Source>, viewportWidth: int) returns (url: string)
    requires |sources| > 0
    ensures url == sources[NearestIndex(sources, viewportWidth)].url
    ensures exists k :: IsFirstNearest(sources, viewportWidth, k) && url == sources[k].url
  {
    var bestSource := sources[0];
    var bestDiff := Distance(viewportWidth, bestSource.width);
    ghost var best := 0;
    for i := 0 to |sources|
      invariant best == NearestIndex(sources[..if i == 0 then 1 else i], viewportWidth)
      invariant bestSource == sources[best]
      invariant bestDiff == Distance(viewportWidth, bestSource.width)
      invariant forall j :: 0 <= j < i ==> bestDiff <= Distance(viewportWidth, sources[j].width)
    {
      var diff := Distance(viewportWidth, sources[i].width);
      if i > 0 {
        assert sources[..i + 1][..i] == sources[..i];
      }
      if diff < bestDiff {
        bestDiff := diff;
        bestSource := sources[i];
        best := i;
      }
    }
    assert sources[..|sources|] == sources;
    url := bestSource.url;
    NearestIndexIsFirstNearest(sources, viewportWidth);
  }
}
