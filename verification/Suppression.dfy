/** Greedy non-maximum suppression, as the pose parser and the tile merger run it. */
module Suppression {
  import opened Geometry
  import opened Sorting
  import opened Domain

  predicate Overlaps(threshold: real, a: Detection, b: Detection) {
    Iou(a.box, b.box) > threshold
  }

  predicate Suppressed(threshold: real, kept: seq<Detection>, d: Detection) {
    exists k <- kept :: Overlaps(threshold, d, k)
  }

  /** Greedy suppression without a limit, over a ranked list. */
  function Greedy(threshold: real, ranked: seq<Detection>): seq<Detection> {
    if ranked == [] then []
    else
      var d := ranked[|ranked| - 1];
      var kept := Greedy(threshold, ranked[..|ranked| - 1]);
      if d.box.IsValid() && !Suppressed(threshold, kept, d) then kept + [d] else kept
  }

  function Take(list: seq<Detection>, n: nat): seq<Detection> {
    if |list| <= n then list else list[..n]
  }

  /** The kept boxes overlap pairwise by at most the threshold. */
  ghost predicate Spread(threshold: real, kept: seq<Detection>) {
    forall i, j | 0 <= i < j < |kept| :: Iou(kept[i].box, kept[j].box) <= threshold
  }

  /** The list is a selection of the ranked list's elements, in order. */
  ghost predicate SelectedFrom(ranked: seq<Detection>, kept: seq<Detection>, at: seq<nat>) {
    && |at| == |kept|
    && (forall i | 0 <= i < |at| :: at[i] < |ranked| && kept[i] == ranked[at[i]])
    && (forall i, j | 0 <= i < j < |at| :: at[i] < at[j])
  }

  method Suppress(ranked: seq<Detection>, threshold: real, limit: nat) returns (kept: seq<Detection>)
    requires limit > 0
    ensures kept == Take(Greedy(threshold, ranked), limit)
  {
    hide Overlaps, BoundingBox.IsValid;
    kept := [];
    for i := 0 to |ranked|
      invariant kept == Greedy(threshold, ranked[..i]) && |kept| < limit
    {
      var d := ranked[i];
      assert ranked[..i + 1][..i] == ranked[..i];
      if !d.box.IsValid() {
        continue;
      }
      if !Suppressed(threshold, kept, d) {
        kept := kept + [d];
        if |kept| >= limit {
          GreedyGrows(threshold, ranked, i + 1);
          break;
        }
      }
    }
    assert ranked[..|ranked|] == ranked;
  }

  /** Looking further down the list only appends. */
  lemma {:induction false} GreedyGrows(threshold: real, ranked: seq<Detection>, n: nat)
    requires n <= |ranked|
    ensures Greedy(threshold, ranked[..n]) <= Greedy(threshold, ranked)
    decreases |ranked|
  {
    hide Suppressed, BoundingBox.IsValid;
    if n == |ranked| {
      assert ranked[..n] == ranked;
    } else {
      var m := |ranked| - 1;
      GreedyGrows(threshold, ranked[..m], n);
      assert ranked[..m][..n] == ranked[..n];
    }
  }

  lemma {:induction false} GreedySelects(threshold: real, ranked: seq<Detection>) returns (at: seq<nat>)
    ensures SelectedFrom(ranked, Greedy(threshold, ranked), at)
    ensures Spread(threshold, Greedy(threshold, ranked))
    ensures forall d <- Greedy(threshold, ranked) :: d.box.IsValid()
  {
    hide Iou, BoundingBox.IsValid;
    if ranked == [] {
      at := [];
    } else {
      var n := |ranked| - 1;
      at := GreedySelects(threshold, ranked[..n]);
      var kept := Greedy(threshold, ranked[..n]);
      if ranked[n].box.IsValid() && !Suppressed(threshold, kept, ranked[n]) {
        at := at + [n];
        forall i | 0 <= i < |kept| ensures Iou(kept[i].box, ranked[n].box) <= threshold {
          assert kept[i] in kept && !Overlaps(threshold, ranked[n], kept[i]);
          IouSymmetric(kept[i].box, ranked[n].box);
        }
      }
    }
  }

  /** Whatever is valid and left out overlaps something kept that is ranked before it. */
  lemma {:induction false} LeftOutOverlaps(threshold: real, ranked: seq<Detection>, i: nat)
    requires i < |ranked| && ranked[i].box.IsValid()
    ensures ranked[i] in Greedy(threshold, ranked)
      || exists k <- Greedy(threshold, ranked[..i]) :: k in Greedy(threshold, ranked) && Iou(ranked[i].box, k.box) > threshold
  {
    hide Iou, BoundingBox.IsValid;
    GreedyGrows(threshold, ranked, i);
    GreedyGrows(threshold, ranked, i + 1);
    assert ranked[..i + 1][..i] == ranked[..i];
    var before, after, all := Greedy(threshold, ranked[..i]), Greedy(threshold, ranked[..i + 1]), Greedy(threshold, ranked);
    if Suppressed(threshold, before, ranked[i]) {
      var k :| k in before && Overlaps(threshold, ranked[i], k);
      var p :| 0 <= p < |before| && before[p] == k;
      assert all[p] == k;
    } else {
      assert after == before + [ranked[i]];
      assert all[|before|] == after[|before|];
    }
  }

  /** A spread list of valid boxes passes through unchanged. */
  lemma {:induction false} SpreadStays(threshold: real, list: seq<Detection>)
    requires Spread(threshold, list) && forall d <- list :: d.box.IsValid()
    ensures Greedy(threshold, list) == list
  {
    hide Spread, Suppressed, BoundingBox.IsValid;
    if list != [] {
      var n := |list| - 1;
      LastIsSpread(threshold, list);
      assert list == list[..n] + [list[n]];
      assert list[n] in list && forall d <- list[..n] :: d in list;
      SpreadStays(threshold, list[..n]);
    }
  }

  lemma LastIsSpread(threshold: real, list: seq<Detection>)
    requires Spread(threshold, list) && list != []
    ensures Spread(threshold, list[..|list| - 1])
    ensures !Suppressed(threshold, list[..|list| - 1], list[|list| - 1])
  {
    hide Iou;
    var n := |list| - 1;
    forall k | k in list[..n] ensures !Overlaps(threshold, list[n], k) {
      var i :| 0 <= i < n && list[i] == k;
      IouSymmetric(k.box, list[n].box);
    }
  }

  /** Suppression applied to its own output, whatever the limits, changes nothing. */
  lemma Idempotent(threshold: real, ranked: seq<Detection>, n: nat, m: nat)
    requires n <= m
    ensures Take(Greedy(threshold, Take(Greedy(threshold, ranked), n)), m) == Take(Greedy(threshold, ranked), n)
  {
    hide Iou, BoundingBox.IsValid, Greedy;
    var at := GreedySelects(threshold, ranked);
    var kept := Greedy(threshold, ranked);
    var head := Take(kept, n);
    assert forall i | 0 <= i < |head| :: head[i] == kept[i];
    assert forall d <- head :: d in kept;
    SpreadStays(threshold, head);
  }

  // ---------------------------------------------------------------- the two users

  /** The pose parser's order: confidence, then the candidate's place in the output tensor. */
  datatype Ranked = Ranked(detection: Detection, index: nat)

  predicate ParserBefore(a: Ranked, b: Ranked) {
    if a.detection.confidence != b.detection.confidence then a.detection.confidence > b.detection.confidence
    else a.index < b.index
  }

  /** The tile merger's order; ties keep their place. */
  predicate MergerBefore(a: Detection, b: Detection) {
    if a.confidence != b.confidence then a.confidence > b.confidence else a.geometryScore > b.geometryScore
  }

  lemma Orders()
    ensures StrictWeakOrder(ParserBefore) && StrictWeakOrder(MergerBefore)
  {
  }

  function Detections(list: seq<Ranked>): (r: seq<Detection>)
    ensures |r| == |list| && forall i | 0 <= i < |r| :: r[i] == list[i].detection
  {
    seq(|list|, i requires 0 <= i < |list| => list[i].detection)
  }

  /** Each place of the output tensor gives at most one candidate. */
  ghost predicate DistinctPlaces(candidates: seq<Ranked>) {
    forall i, j | 0 <= i < j < |candidates| :: candidates[i].index != candidates[j].index
  }

  predicate Descending(kept: seq<Detection>) {
    forall i, j | 0 <= i < j < |kept| :: kept[i].confidence >= kept[j].confidence
  }

  /** Some kept candidate ranks before this one and overlaps it. */
  ghost predicate Overlapped(threshold: real, candidates: seq<Ranked>, kept: seq<Detection>, c: Ranked) {
    exists k <- candidates :: k.detection in kept && ParserBefore(k, c) && Iou(c.detection.box, k.detection.box) > threshold
  }

  /** What is kept, and why anything else is not: a candidate overlaps a kept one ranked before it, or the limit was
      reached with candidates that are at least as confident. */
  ghost predicate Explained(threshold: real, limit: nat, candidates: seq<Ranked>, kept: seq<Detection>) {
    && |kept| <= limit && Spread(threshold, kept) && Descending(kept)
    && (forall d <- kept :: exists c <- candidates :: c.detection == d)
    && forall c <- candidates ::
         || c.detection in kept
         || Overlapped(threshold, candidates, kept, c)
         || (|kept| == limit && forall d <- kept :: d.confidence >= c.detection.confidence)
  }

  lemma RankingDistinct(candidates: seq<Ranked>, ranked: seq<Ranked>, p: nat, i: nat)
    requires DistinctPlaces(candidates) && multiset(ranked) == multiset(candidates) && Sorted(ParserBefore, ranked)
    requires p < i < |ranked|
    ensures ParserBefore(ranked[p], ranked[i]) && ranked[p].detection.confidence >= ranked[i].detection.confidence
  {
    OnceEach(candidates, ranked, p, i);
    SameElements(ranked, candidates);
    assert ranked[p] in ranked && ranked[i] in ranked;
    var k, l :| 0 <= k < |candidates| && 0 <= l < |candidates| && candidates[k] == ranked[p] && candidates[l] == ranked[i];
    assert k < l || l < k;
    assert !ParserBefore(ranked[i], ranked[p]);
  }

  lemma KeptExplained(candidates: seq<Ranked>, threshold: real, limit: nat)
    requires DistinctPlaces(candidates) && forall c <- candidates :: c.detection.box.IsValid()
    ensures Explained(threshold, limit, candidates, Take(Greedy(threshold, Detections(StableSort(ParserBefore, candidates))), limit))
  {
    hide ParserBefore, Greedy, StableSort, Iou, BoundingBox.IsValid, DistinctPlaces;
    var ranked := StableSort(ParserBefore, candidates);
    Orders();
    StableSortSorted(ParserBefore, candidates);
    SameElements(ranked, candidates);
    var list := Detections(ranked);
    var at := GreedySelects(threshold, list);
    var all := Greedy(threshold, list);
    var kept := Take(all, limit);
    forall i, j | 0 <= i < j < |kept| ensures kept[i].confidence >= kept[j].confidence {
      RankingDistinct(candidates, ranked, at[i], at[j]);
    }
    forall d | d in kept ensures exists c <- candidates :: c.detection == d {
      var i :| 0 <= i < |kept| && kept[i] == d;
      assert ranked[at[i]] in ranked;
    }
    forall c | c in candidates
      ensures || c.detection in kept
              || Overlapped(threshold, candidates, kept, c)
              || (|kept| == limit && forall d <- kept :: d.confidence >= c.detection.confidence)
    {
      assert c in ranked;
      var i :| 0 <= i < |ranked| && ranked[i] == c;
      OneExplained(candidates, ranked, threshold, limit, at, i);
    }
  }

  /** The candidate at place i of the ranking is kept, overlaps a kept one before it, or comes after all kept ones. */
  lemma OneExplained(candidates: seq<Ranked>, ranked: seq<Ranked>, threshold: real, limit: nat, at: seq<nat>, i: nat)
    requires DistinctPlaces(candidates) && multiset(ranked) == multiset(candidates) && Sorted(ParserBefore, ranked)
    requires i < |ranked| && ranked[i].detection.box.IsValid()
    requires SelectedFrom(Detections(ranked), Greedy(threshold, Detections(ranked)), at)
    ensures var kept := Take(Greedy(threshold, Detections(ranked)), limit);
      || ranked[i].detection in kept
      || Overlapped(threshold, candidates, kept, ranked[i])
      || (|kept| == limit && forall d <- kept :: d.confidence >= ranked[i].detection.confidence)
  {
    hide ParserBefore, Greedy, Iou, BoundingBox.IsValid, DistinctPlaces, Sorted, Overlapped;
    var list := Detections(ranked);
    var all := Greedy(threshold, list);
    var kept, before := Take(all, limit), Greedy(threshold, list[..i]);
    LeftOutOverlaps(threshold, list, i);
    if list[i] in all {
      if list[i] !in kept {
        var p :| 0 <= p < |all| && all[p] == list[i];
        KeptBefore(candidates, ranked, all, at, limit, p);
      }
    } else {
      GreedyGrows(threshold, list, i);
      var at' := GreedySelects(threshold, list[..i]);
      var k :| k in before && k in all && Iou(list[i].box, k.box) > threshold;
      var p :| 0 <= p < |before| && before[p] == k;
      assert all[p] == k && list[..i][at'[p]] == k;
      RankingDistinct(candidates, ranked, at'[p], i);
      if p < |kept| {
        assert kept[p] == k;
        OverlappedBy(threshold, candidates, ranked, kept, at'[p], i);
      } else {
        KeptBefore(candidates, ranked, all, at, limit, p);
      }
    }
  }

  lemma OverlappedBy(threshold: real, candidates: seq<Ranked>, ranked: seq<Ranked>, kept: seq<Detection>, p: nat, i: nat)
    requires multiset(ranked) == multiset(candidates) && p < |ranked| && i < |ranked|
    requires ranked[p].detection in kept && ParserBefore(ranked[p], ranked[i])
    requires Iou(ranked[i].detection.box, ranked[p].detection.box) > threshold
    ensures Overlapped(threshold, candidates, kept, ranked[i])
  {
    hide ParserBefore, Iou;
    SameElements(ranked, candidates);
    assert ranked[p] in ranked;
  }

  /** What stands in the selection behind the limit is no more confident than what is kept. */
  lemma KeptBefore(candidates: seq<Ranked>, ranked: seq<Ranked>, all: seq<Detection>, at: seq<nat>, limit: nat, p: nat)
    requires DistinctPlaces(candidates) && multiset(ranked) == multiset(candidates) && Sorted(ParserBefore, ranked)
    requires SelectedFrom(Detections(ranked), all, at) && |Take(all, limit)| <= p < |all|
    ensures |Take(all, limit)| == limit && forall d <- Take(all, limit) :: d.confidence >= all[p].confidence
  {
    hide ParserBefore, DistinctPlaces, Sorted;
    var kept := Take(all, limit);
    forall d | d in kept ensures d.confidence >= all[p].confidence {
      var q :| 0 <= q < |kept| && kept[q] == d;
      RankingDistinct(candidates, ranked, at[q], at[p]);
    }
  }

  /** The tail of the pose parser: rank the candidates and suppress. */
  method RankAndSuppress(candidates: seq<Ranked>, threshold: real, limit: nat) returns (kept: seq<Detection>)
    requires limit > 0 && DistinctPlaces(candidates) && forall c <- candidates :: c.detection.box.IsValid()
    ensures kept == Take(Greedy(threshold, Detections(StableSort(ParserBefore, candidates))), limit)
    ensures Explained(threshold, limit, candidates, kept)
  {
    hide Greedy, StableSort, Explained;
    KeptExplained(candidates, threshold, limit);
    var ranked := StableSort(ParserBefore, candidates);
    kept := Suppress(Detections(ranked), threshold, limit);
  }

  function Merged(detections: seq<Detection>, threshold: real, limit: nat): seq<Detection> {
    Take(Greedy(threshold, StableSort(MergerBefore, detections)), limit)
  }

  method MergeDetections(detections: seq<Detection>, threshold: real, limit: nat) returns (kept: seq<Detection>)
    requires limit > 0
    ensures kept == Merged(detections, threshold, limit)
  {
    hide Greedy, StableSort;
    kept := Suppress(StableSort(MergerBefore, detections), threshold, limit);
  }

  lemma KeptSorted(threshold: real, ranked: seq<Detection>, n: nat)
    requires Sorted(MergerBefore, ranked)
    ensures Sorted(MergerBefore, Take(Greedy(threshold, ranked), n))
  {
    hide MergerBefore, Greedy;
    var at := GreedySelects(threshold, ranked);
  }

  /** Merged detections are sorted, valid, spread, drawn from the input, and every valid input detection is either
      among them, cut off by the limit, or overlaps a kept or cut-off one that does not rank behind it. */
  lemma MergedFacts(detections: seq<Detection>, threshold: real, limit: nat)
    ensures var all := Greedy(threshold, StableSort(MergerBefore, detections));
      && Sorted(MergerBefore, all) && Spread(threshold, all)
      && (forall d <- all :: d in detections && d.box.IsValid())
      && (forall d <- detections | d.box.IsValid() ::
            d in all || exists k <- all :: Iou(d.box, k.box) > threshold && !MergerBefore(d, k))
      && Merged(detections, threshold, limit) == Take(all, limit)
  {
    hide MergerBefore, Greedy, StableSort, Iou, BoundingBox.IsValid;
    Orders();
    StableSortSorted(MergerBefore, detections);
    var ranked := StableSort(MergerBefore, detections);
    SameElements(ranked, detections);
    var all := Greedy(threshold, ranked);
    KeptSorted(threshold, ranked, |all|);
    var at := GreedySelects(threshold, ranked);
    forall d | d in all ensures d in detections {
      var i :| 0 <= i < |all| && all[i] == d;
      assert ranked[at[i]] in ranked;
    }
    forall d | d in detections && d.box.IsValid()
      ensures d in all || exists k <- all :: Iou(d.box, k.box) > threshold && !MergerBefore(d, k)
    {
      assert d in ranked;
      var i :| 0 <= i < |ranked| && ranked[i] == d;
      LeftOutOverlaps(threshold, ranked, i);
      if d !in all {
        var k :| k in Greedy(threshold, ranked[..i]) && k in all && Iou(d.box, k.box) > threshold;
        var at' := GreedySelects(threshold, ranked[..i]);
        var p :| 0 <= p < |at'| && Greedy(threshold, ranked[..i])[p] == k;
        assert ranked[at'[p]] == k;
      }
    }
  }

  /** Merging what was merged changes nothing. */
  lemma MergeIdempotent(detections: seq<Detection>, threshold: real, limit: nat)
    ensures Merged(Merged(detections, threshold, limit), threshold, limit) == Merged(detections, threshold, limit)
  {
    hide MergerBefore, Greedy, StableSort;
    Orders();
    StableSortSorted(MergerBefore, detections);
    var ranked := StableSort(MergerBefore, detections);
    KeptSorted(threshold, ranked, limit);
    SortedStays(MergerBefore, Merged(detections, threshold, limit));
    Idempotent(threshold, ranked, limit, limit);
  }
}
