/** Multi-detector fusion: per-provider deduplication, grouping by chains of cross-provider overlaps, and
    the fusion of each group. */
module DetectorFusion {
  import opened Reals
  import opened Geometry
  import opened Sorting
  import opened Outcomes
  import opened Domain
  import opened DisjointSets

  datatype Evidence = Evidence(
    box: BoundingBox,
    quadrilateral: seq<Keypoint>,
    confidence: real,
    geometryScore: real,
    provider: string,
    weight: real)
  {
    predicate Valid() {
      box.IsValid() && 0.0 <= confidence <= 1.0
    }

    function Score(): real {
      confidence * weight
    }
  }

  datatype FusionConfig = FusionConfig(
    sameModelIou: real,
    sameModelMinArea: real,
    crossModelIou: real,
    crossModelMinArea: real,
    maximumGroups: nat)
  {
    predicate Valid() {
      && 0.0 <= sameModelIou <= 1.0 && 0.0 <= sameModelMinArea <= 1.0
      && 0.0 <= crossModelIou <= 1.0 && 0.0 <= crossModelMinArea <= 1.0
      && maximumGroups > 0
    }
  }

  function Ratio(part: real, whole: real): real {
    if whole > 0.0 then part / whole else 0.0
  }

  /** Enough overlap by either measure: over the union, or over the smaller box. An invalid box measures 0. */
  predicate OverlapsEnough(a: BoundingBox, b: BoundingBox, iou: real, minArea: real) {
    if !a.IsValid() || !b.IsValid() then 0.0 >= iou || 0.0 >= minArea
    else
      || Ratio(Intersection(a, b), Union(a, b)) >= iou
      || Ratio(Intersection(a, b), Min(a.Area(), b.Area())) >= minArea
  }

  lemma OverlapSymmetric(a: BoundingBox, b: BoundingBox, iou: real, minArea: real)
    ensures OverlapsEnough(a, b, iou, minArea) == OverlapsEnough(b, a, iou, minArea)
  {
    IntersectionSymmetric(a, b);
  }

  // ---------------------------------------------------------------- deduplication within a provider

  /** By provider, then strongest first, then by box. Quadrilateral, geometry score and weight do not take part. */
  predicate EvidenceBefore(a: Evidence, b: Evidence) {
    if a.provider != b.provider then TextBefore(a.provider, b.provider)
    else StrengthBefore(a.confidence, a.box, b.confidence, b.box)
  }

  predicate StrengthBefore(c: real, a: BoundingBox, d: real, b: BoundingBox) {
    if c != d then c > d
    else if a.x != b.x then a.x < b.x
    else if a.y != b.y then a.y < b.y
    else if a.width != b.width then a.width < b.width
    else a.height < b.height
  }

  lemma EvidenceOrder()
    ensures StrictWeakOrder(EvidenceBefore)
  {
    forall a, b | EvidenceBefore(a, b) ensures !EvidenceBefore(b, a) {
      TextBeforeTotal(a.provider, b.provider);
    }
    forall a, b, c | EvidenceBefore(a, c) ensures EvidenceBefore(a, b) || EvidenceBefore(b, c) {
      EvidenceNegativelyTransitive(a, b, c);
    }
  }

  lemma EvidenceNegativelyTransitive(a: Evidence, b: Evidence, c: Evidence)
    requires EvidenceBefore(a, c)
    ensures EvidenceBefore(a, b) || EvidenceBefore(b, c)
  {
    hide TextBefore;
    TextBeforeTotal(a.provider, b.provider);
    TextBeforeTotal(b.provider, c.provider);
    TextBeforeTotal(a.provider, c.provider);
    if a.provider != c.provider {
      TextBeforeNegativelyTransitive(a.provider, b.provider, c.provider);
    }
  }

  /** An unstable sort: some sorted rearrangement, ties in any order. */
  method SortEvidence(evidence: seq<Evidence>) returns (sorted: seq<Evidence>)
    ensures Sorted(EvidenceBefore, sorted) && multiset(sorted) == multiset(evidence)
  {
    EvidenceOrder();
    StableSortSorted(EvidenceBefore, evidence);
    sorted := StableSort(EvidenceBefore, evidence);
  }

  predicate SameDetection(cfg: FusionConfig, a: Evidence, b: Evidence) {
    a.provider == b.provider && OverlapsEnough(a.box, b.box, cfg.sameModelIou, cfg.sameModelMinArea)
  }

  /** Kept evidence of one provider never overlaps enough to be the same detection ... */
  ghost predicate Unrepeated(cfg: FusionConfig, kept: seq<Evidence>) {
    forall i, j | 0 <= i < j < |kept| :: !SameDetection(cfg, kept[i], kept[j])
  }

  /** ... and evidence left out repeats something kept that does not rank behind it. */
  ghost predicate Represented(cfg: FusionConfig, kept: seq<Evidence>, e: Evidence) {
    e in kept || exists k <- kept :: SameDetection(cfg, k, e) && !EvidenceBefore(e, k)
  }

  method Deduplicate(evidence: seq<Evidence>, cfg: FusionConfig) returns (kept: seq<Evidence>)
    ensures Unrepeated(cfg, kept)
    ensures forall e <- evidence :: Represented(cfg, kept, e)
    ensures multiset(kept) <= multiset(evidence)
    ensures Sorted(EvidenceBefore, kept)
  {
    hide OverlapsEnough, EvidenceBefore;
    var sorted := SortEvidence(evidence);
    kept := [];
    for i := 0 to |sorted|
      invariant Unrepeated(cfg, kept)
      invariant forall e <- sorted[..i] :: Represented(cfg, kept, e)
      invariant multiset(kept) <= multiset(sorted[..i])
      invariant Sorted(EvidenceBefore, kept)
      invariant forall k <- kept :: k in sorted[..i]
    {
      var candidate := sorted[i];
      assert sorted[..i + 1] == sorted[..i] + [candidate];
      forall k | k in kept ensures !EvidenceBefore(candidate, k) {
        var j :| 0 <= j < i && sorted[j] == k;
      }
      var duplicate := exists k <- kept :: SameDetection(cfg, k, candidate);
      ghost var before := kept;
      if !duplicate {
        kept := kept + [candidate];
      }
      forall e | e in sorted[..i + 1] ensures Represented(cfg, kept, e) {
        if e in sorted[..i] {
          assert Represented(cfg, before, e);
        } else {
          assert duplicate || candidate in kept;
        }
      }
    }
    assert sorted[..|sorted|] == sorted;
    SameElements(sorted, evidence);
  }

  // ---------------------------------------------------------------- chains of cross-provider overlaps

  predicate CrossOverlap(cfg: FusionConfig, a: Evidence, b: Evidence) {
    a.provider != b.provider && OverlapsEnough(a.box, b.box, cfg.crossModelIou, cfg.crossModelMinArea)
  }

  type Edges = set<(nat, nat)>

  ghost predicate Joined(edges: Edges, u: nat, v: nat) {
    (u, v) in edges || (v, u) in edges
  }

  ghost predicate Chain(edges: Edges, path: seq<nat>) {
    forall i | 0 <= i < |path| - 1 :: Joined(edges, path[i], path[i + 1])
  }

  ghost predicate ChainBetween(edges: Edges, path: seq<nat>, u: nat, v: nat) {
    path != [] && path[0] == u && path[|path| - 1] == v && Chain(edges, path)
  }

  ghost predicate Connected(edges: Edges, u: nat, v: nat) {
    exists path :: ChainBetween(edges, path, u, v)
  }

  lemma ConnectedSelf(edges: Edges, u: nat)
    ensures Connected(edges, u, u)
  {
    assert ChainBetween(edges, [u], u, u);
  }

  lemma ConnectedJoined(edges: Edges, u: nat, v: nat)
    requires Joined(edges, u, v)
    ensures Connected(edges, u, v)
  {
    assert ChainBetween(edges, [u, v], u, v);
  }

  lemma ConnectedTransitive(edges: Edges, u: nat, v: nat, w: nat)
    requires Connected(edges, u, v) && Connected(edges, v, w)
    ensures Connected(edges, u, w)
  {
    var p :| ChainBetween(edges, p, u, v);
    var q :| ChainBetween(edges, q, v, w);
    var path := p + q[1..];
    forall i | 0 <= i < |path| - 1 ensures Joined(edges, path[i], path[i + 1]) {
      if i < |p| - 1 {
        assert path[i] == p[i] && path[i + 1] == p[i + 1];
      } else {
        assert path[i] == q[i - (|p| - 1)] && path[i + 1] == q[i + 1 - (|p| - 1)];
      }
    }
    assert ChainBetween(edges, path, u, w);
  }

  lemma ConnectedMore(edges: Edges, more: Edges, u: nat, v: nat)
    requires edges <= more && Connected(edges, u, v)
    ensures Connected(more, u, v)
  {
    var path :| ChainBetween(edges, path, u, v);
    forall i | 0 <= i < |path| - 1 ensures Joined(more, path[i], path[i + 1]) {
      assert Joined(edges, path[i], path[i + 1]);
    }
    assert ChainBetween(more, path, u, v);
  }

  /** What one more edge connects: what was connected, and the two ends of the edge. */
  ghost predicate ConnectedVia(edges: Edges, a: nat, b: nat, u: nat, v: nat) {
    || Connected(edges, u, v)
    || (Connected(edges, u, a) && Connected(edges, b, v))
    || (Connected(edges, u, b) && Connected(edges, a, v))
  }

  lemma {:induction false} ChainVia(edges: Edges, a: nat, b: nat, path: seq<nat>, u: nat, v: nat)
    requires ChainBetween(edges + {(a, b)}, path, u, v)
    ensures ConnectedVia(edges, a, b, u, v)
    decreases |path|
  {
    ConnectedSelf(edges, u);
    ConnectedSelf(edges, a);
    ConnectedSelf(edges, b);
    if |path| > 1 {
      var front := path[..|path| - 1];
      var w := path[|path| - 2];
      assert Joined(edges + {(a, b)}, path[|path| - 2], path[|path| - 1]);
      ChainVia(edges, a, b, front, u, w);
      hide Chain, ChainBetween, Connected;
      ViaOneMore(edges, a, b, u, w, v);
    }
  }

  lemma ViaOneMore(edges: Edges, a: nat, b: nat, u: nat, w: nat, v: nat)
    requires ConnectedVia(edges, a, b, u, w) && Joined(edges + {(a, b)}, w, v)
    ensures ConnectedVia(edges, a, b, u, v)
  {
    hide Connected;
    ConnectedSelf(edges, a);
    ConnectedSelf(edges, b);
    if Joined(edges, w, v) {
      ConnectedJoined(edges, w, v);
      forall x | Connected(edges, x, w) ensures Connected(edges, x, v) {
        ConnectedTransitive(edges, x, w, v);
      }
    }
  }

  lemma ConnectedReverse(edges: Edges, u: nat, v: nat)
    requires Connected(edges, u, v)
    ensures Connected(edges, v, u)
  {
    var path :| ChainBetween(edges, path, u, v);
    var back := seq(|path|, i requires 0 <= i < |path| => path[|path| - 1 - i]);
    forall i | 0 <= i < |back| - 1 ensures Joined(edges, back[i], back[i + 1]) {
      assert Joined(edges, path[|path| - 2 - i], path[|path| - 1 - i]);
    }
    assert ChainBetween(edges, back, v, u);
  }

  lemma ConnectedSymmetric(edges: Edges, u: nat, v: nat)
    ensures Connected(edges, u, v) == Connected(edges, v, u)
  {
    if Connected(edges, u, v) {
      ConnectedReverse(edges, u, v);
    }
    if Connected(edges, v, u) {
      ConnectedReverse(edges, v, u);
    }
  }

  lemma ConnectedByOneMore(edges: Edges, a: nat, b: nat, u: nat, v: nat)
    ensures Connected(edges + {(a, b)}, u, v) <==> ConnectedVia(edges, a, b, u, v)
  {
    var more := edges + {(a, b)};
    if Connected(more, u, v) {
      var path :| ChainBetween(more, path, u, v);
      ChainVia(edges, a, b, path, u, v);
    }
    hide Connected;
    ConnectedJoined(more, a, b);
    ConnectedJoined(more, b, a);
    forall x, y | Connected(edges, x, y) ensures Connected(more, x, y) {
      ConnectedMore(edges, more, x, y);
    }
    if Connected(edges, u, a) && Connected(edges, b, v) {
      ConnectedTransitive(more, u, a, b);
      ConnectedTransitive(more, u, b, v);
    }
    if Connected(edges, u, b) && Connected(edges, a, v) {
      ConnectedTransitive(more, u, b, a);
      ConnectedTransitive(more, u, a, v);
    }
  }

  // ---------------------------------------------------------------- grouping

  /** Two elements share a root exactly when a chain of edges connects them. */
  ghost predicate RootsMatch(sets: DisjointSet, edges: Edges)
    requires sets.Valid()
    reads sets, sets.parent, sets.rank
  {
    forall u, v | 0 <= u < sets.parent.Length && 0 <= v < sets.parent.Length ::
      sets.RootOf(u) == sets.RootOf(v) <==> Connected(edges, u, v)
  }

  lemma NoEdges(u: nat, v: nat)
    ensures Connected({}, u, v) <==> u == v
  {
    ConnectedSelf({}, u);
    if Connected({}, u, v) {
      var path :| ChainBetween({}, path, u, v);
      assert |path| > 1 ==> Joined({}, path[0], path[1]);
    }
  }

  /** Uniting the ends of a new edge keeps roots and chains in step. */
  method UniteEdge(sets: DisjointSet, a: nat, b: nat, ghost edges: Edges)
    requires sets.Valid() && a < sets.parent.Length && b < sets.parent.Length
    requires RootsMatch(sets, edges)
    modifies sets.parent, sets.rank
    ensures sets.Valid() && RootsMatch(sets, edges + {(a, b)})
  {
    hide Connected, Joined;
    label before:
    sets.Unite(a, b);
    forall u, v | 0 <= u < sets.parent.Length && 0 <= v < sets.parent.Length
      ensures sets.RootOf(u) == sets.RootOf(v) <==> Connected(edges + {(a, b)}, u, v)
    {
      ConnectedByOneMore(edges, a, b, u, v);
      assert old@before(sets.RootOf(u) == sets.RootOf(a)) <==> Connected(edges, u, a);
      assert old@before(sets.RootOf(b) == sets.RootOf(v)) <==> Connected(edges, b, v);
      assert old@before(sets.RootOf(u) == sets.RootOf(b)) <==> Connected(edges, u, b);
      assert old@before(sets.RootOf(a) == sets.RootOf(v)) <==> Connected(edges, a, v);
    }
  }

  /** The overlaps the pair loop looks for: (i, j) with i < j. */
  ghost predicate IsOverlapSet(cfg: FusionConfig, evidence: seq<Evidence>, edges: Edges) {
    forall i: nat, j: nat :: (i, j) in edges <==> i < j < |evidence| && CrossOverlap(cfg, evidence[i], evidence[j])
  }

  /** Groups evidence by chains of cross-provider overlaps. */
  method Group(cfg: FusionConfig, evidence: seq<Evidence>) returns (sets: DisjointSet, ghost edges: Edges)
    ensures fresh(sets) && fresh(sets.parent) && fresh(sets.rank)
    ensures sets.Valid() && sets.parent.Length == |evidence|
    ensures IsOverlapSet(cfg, evidence, edges) && RootsMatch(sets, edges)
  {
    hide Connected, CrossOverlap, RootsMatch, OverlapsUpTo, IsOverlapSet;
    sets := new DisjointSet(|evidence|);
    edges := {};
    NothingJoined(sets);
    NoOverlapsYet(cfg, evidence);
    for lhs := 0 to |evidence|
      invariant fresh(sets) && fresh(sets.parent) && fresh(sets.rank)
      invariant sets.Valid() && sets.parent.Length == |evidence| && RootsMatch(sets, edges)
      invariant OverlapsUpTo(cfg, evidence, edges, lhs, lhs + 1)
    {
      for rhs := lhs + 1 to |evidence|
        invariant fresh(sets) && fresh(sets.parent) && fresh(sets.rank)
        invariant sets.Valid() && sets.parent.Length == |evidence| && RootsMatch(sets, edges)
        invariant OverlapsUpTo(cfg, evidence, edges, lhs, rhs)
      {
        NextPair(cfg, evidence, edges, lhs, rhs);
        if CrossOverlap(cfg, evidence[lhs], evidence[rhs]) {
          UniteEdge(sets, lhs, rhs, edges);
          edges := edges + {(lhs, rhs)};
        }
      }
      NextElement(cfg, evidence, edges, lhs);
    }
    AllPairs(cfg, evidence, edges);
  }

  lemma NothingJoined(sets: DisjointSet)
    requires sets.Valid() && forall v | 0 <= v < sets.parent.Length :: sets.RootOf(v) == v
    ensures RootsMatch(sets, {})
  {
    hide Connected;
    forall u: nat, v: nat | u < sets.parent.Length && v < sets.parent.Length
      ensures sets.RootOf(u) == sets.RootOf(v) <==> Connected({}, u, v)
    {
      NoEdges(u, v);
    }
  }

  /** The overlaps among the pairs compared before (lhs, rhs). */
  ghost predicate OverlapsUpTo(cfg: FusionConfig, evidence: seq<Evidence>, edges: Edges, lhs: nat, rhs: nat) {
    forall i: nat, j: nat :: (i, j) in edges <==>
      i < j < |evidence| && (i < lhs || (i == lhs && j < rhs)) && CrossOverlap(cfg, evidence[i], evidence[j])
  }

  lemma NoOverlapsYet(cfg: FusionConfig, evidence: seq<Evidence>)
    ensures OverlapsUpTo(cfg, evidence, {}, 0, 1)
  {
    hide CrossOverlap;
  }

  lemma NextPair(cfg: FusionConfig, evidence: seq<Evidence>, edges: Edges, lhs: nat, rhs: nat)
    requires lhs < rhs < |evidence| && OverlapsUpTo(cfg, evidence, edges, lhs, rhs)
    ensures OverlapsUpTo(cfg, evidence, if CrossOverlap(cfg, evidence[lhs], evidence[rhs]) then edges + {(lhs, rhs)} else edges,
                         lhs, rhs + 1)
  {
    hide CrossOverlap;
  }

  lemma NextElement(cfg: FusionConfig, evidence: seq<Evidence>, edges: Edges, lhs: nat)
    requires lhs < |evidence| && OverlapsUpTo(cfg, evidence, edges, lhs, |evidence|)
    ensures OverlapsUpTo(cfg, evidence, edges, lhs + 1, lhs + 2)
  {
    hide CrossOverlap;
  }

  lemma AllPairs(cfg: FusionConfig, evidence: seq<Evidence>, edges: Edges)
    requires OverlapsUpTo(cfg, evidence, edges, |evidence|, |evidence| + 1)
    ensures IsOverlapSet(cfg, evidence, edges)
  {
    hide CrossOverlap;
  }

  /** The evidence in the same component as element r, in order. */
  ghost function Component(evidence: seq<Evidence>, edges: Edges, r: nat): seq<Evidence> {
    if evidence == [] then []
    else
      var n := |evidence| - 1;
      Component(evidence[..n], edges, r) + if Connected(edges, n, r) then [evidence[n]] else []
  }

  lemma ComponentStep(evidence: seq<Evidence>, edges: Edges, n: nat, r: nat)
    requires n < |evidence|
    ensures Component(evidence[..n + 1], edges, r)
         == Component(evidence[..n], edges, r) + if Connected(edges, n, r) then [evidence[n]] else []
  {
    assert evidence[..n + 1][..n] == evidence[..n];
  }

  // ---------------------------------------------------------------- fusing one group

  datatype DetectionGroup = DetectionGroup(
    evidence: seq<Evidence>,
    box: BoundingBox,
    quadrilateral: seq<Keypoint>,
    confidence: real,
    geometryScore: real)

  function Contribution(e: Evidence): real {
    Clamp01(e.Score())
  }

  function BoxWeight(e: Evidence): (w: real)
    ensures w > 0.0
  {
    Max(Contribution(e), 0.000001)
  }

  function TotalWeight(list: seq<Evidence>): real {
    if list == [] then 0.0 else TotalWeight(list[..|list| - 1]) + BoxWeight(list[|list| - 1])
  }

  function Weighted(list: seq<Evidence>, f: Evidence -> real): real {
    if list == [] then 0.0
    else Weighted(list[..|list| - 1], f) + f(list[|list| - 1]) * BoxWeight(list[|list| - 1])
  }

  /** The probability that the member is wrong. */
  function Miss(e: Evidence): real {
    1.0 - Contribution(e)
  }

  /** The probability that every member is wrong, were they independent. */
  function Complement(list: seq<Evidence>): real {
    if list == [] then 1.0 else Complement(list[..|list| - 1]) * Miss(list[|list| - 1])
  }

  function FieldX(): Evidence -> real { (e: Evidence) => e.box.x }

  function FieldY(): Evidence -> real { (e: Evidence) => e.box.y }

  function FieldWidth(): Evidence -> real { (e: Evidence) => e.box.width }

  function FieldHeight(): Evidence -> real { (e: Evidence) => e.box.height }

  function FieldGeometry(): Evidence -> real { (e: Evidence) => e.geometryScore }

  /** Element i has its provider's best score, and had it first. */
  ghost predicate FirstBest(evidence: seq<Evidence>, i: nat)
    requires i < |evidence|
  {
    && (forall j | 0 <= j < i && evidence[j].provider == evidence[i].provider :: evidence[j].Score() < evidence[i].Score())
    && (forall j | i < j < |evidence| && evidence[j].provider == evidence[i].provider ::
          evidence[j].Score() <= evidence[i].Score())
  }

  ghost predicate ProvidersBest(evidence: seq<Evidence>, e: Evidence) {
    exists i | 0 <= i < |evidence| :: evidence[i] == e && FirstBest(evidence, i)
  }

  /** Exactly one member per provider present, in provider order: the provider's best score, among equals the earliest. */
  ghost predicate StrongestPerProvider(evidence: seq<Evidence>, chosen: seq<Evidence>) {
    && (forall e <- chosen :: ProvidersBest(evidence, e))
    && (forall i, j | 0 <= i < j < |chosen| :: TextBefore(chosen[i].provider, chosen[j].provider))
    && (forall e <- evidence :: exists c <- chosen :: c.provider == e.provider)
  }

  /** The earliest of the members that contribute most. */
  ghost predicate FirstStrongest(chosen: seq<Evidence>, k: nat)
    requires k < |chosen|
  {
    && (forall i | 0 <= i < k :: Contribution(chosen[i]) < Contribution(chosen[k]))
    && (forall i | k < i < |chosen| :: Contribution(chosen[i]) <= Contribution(chosen[k]))
  }

  ghost predicate IsFusion(evidence: seq<Evidence>, g: DetectionGroup) {
    && StrongestPerProvider(evidence, g.evidence)
    && TotalWeight(g.evidence) > 0.0
    && g.box == BoundingBox(
         Weighted(g.evidence, FieldX()) / TotalWeight(g.evidence),
         Weighted(g.evidence, FieldY()) / TotalWeight(g.evidence),
         Weighted(g.evidence, FieldWidth()) / TotalWeight(g.evidence),
         Weighted(g.evidence, FieldHeight()) / TotalWeight(g.evidence))
    && g.confidence == Clamp01(1.0 - Complement(g.evidence))
    && g.geometryScore == Clamp01(Weighted(g.evidence, FieldGeometry()) / TotalWeight(g.evidence))
    && exists k | 0 <= k < |g.evidence| :: FirstStrongest(g.evidence, k) && g.quadrilateral == g.evidence[k].quadrilateral
  }

  ghost predicate StrongestSoFar(evidence: seq<Evidence>, strongest: map<string, Evidence>) {
    && (forall p <- strongest :: strongest[p].provider == p && ProvidersBest(evidence, strongest[p]))
    && (forall e <- evidence :: e.provider in strongest)
  }

  lemma StrongestStep(evidence: seq<Evidence>, i: nat, before: map<string, Evidence>, after: map<string, Evidence>)
    requires i < |evidence| && StrongestSoFar(evidence[..i], before)
    requires var item := evidence[i];
      after == if item.provider !in before || item.Score() > before[item.provider].Score()
               then before[item.provider := item] else before
    ensures StrongestSoFar(evidence[..i + 1], after)
  {
    hide Evidence.Score, FirstBest;
    var item, now := evidence[i], evidence[..i + 1];
    assert now == evidence[..i] + [item];
    forall p | p in after ensures after[p].provider == p && ProvidersBest(now, after[p]) {
      if p in before {
        var k :| 0 <= k < i && evidence[..i][k] == before[p] && FirstBest(evidence[..i], k);
        if p == item.provider && item.Score() > before[p].Score() {
          BestReplaced(evidence, i, k);
          assert now[i] == item;
        } else {
          BestStays(evidence, i, k);
          assert now[k] == after[p];
        }
      } else {
        forall j | 0 <= j < i ensures evidence[j].provider != p {
          assert evidence[..i][j] == evidence[j] && evidence[..i][j] in evidence[..i];
        }
        FirstOfProvider(evidence, i);
        assert now[i] == item;
      }
    }
  }

  lemma BestStays(evidence: seq<Evidence>, i: nat, k: nat)
    requires k < i < |evidence| && FirstBest(evidence[..i], k)
    requires evidence[i].provider == evidence[k].provider ==> evidence[i].Score() <= evidence[k].Score()
    ensures FirstBest(evidence[..i + 1], k)
  {
    hide Evidence.Score;
    assert evidence[..i][k] == evidence[k];
    forall j | 0 <= j < i ensures evidence[..i + 1][j] == evidence[..i][j] {
    }
  }

  lemma BestReplaced(evidence: seq<Evidence>, i: nat, k: nat)
    requires k < i < |evidence| && FirstBest(evidence[..i], k)
    requires evidence[i].provider == evidence[k].provider && evidence[i].Score() > evidence[k].Score()
    ensures FirstBest(evidence[..i + 1], i)
  {
    hide Evidence.Score;
    assert evidence[..i][k] == evidence[k];
    forall j | 0 <= j < i ensures evidence[..i + 1][j] == evidence[..i][j] {
    }
  }

  lemma FirstOfProvider(evidence: seq<Evidence>, i: nat)
    requires i < |evidence| && forall j | 0 <= j < i :: evidence[j].provider != evidence[i].provider
    ensures FirstBest(evidence[..i + 1], i)
  {
  }

  method PickStrongest(evidence: seq<Evidence>) returns (strongest: map<string, Evidence>)
    ensures StrongestSoFar(evidence, strongest)
  {
    strongest := map[];
    for i := 0 to |evidence|
      invariant StrongestSoFar(evidence[..i], strongest)
    {
      var item := evidence[i];
      ghost var before := strongest;
      if item.provider !in strongest || item.Score() > strongest[item.provider].Score() {
        strongest := strongest[item.provider := item];
      }
      StrongestStep(evidence, i, before, strongest);
    }
    assert evidence[..|evidence|] == evidence;
  }

  /** The map's values in key order. */
  method InProviderOrder(strongest: map<string, Evidence>) returns (chosen: seq<Evidence>)
    requires forall p <- strongest :: strongest[p].provider == p
    ensures forall e :: e in chosen <==> e.provider in strongest && strongest[e.provider] == e
    ensures forall i, j | 0 <= i < j < |chosen| :: TextBefore(chosen[i].provider, chosen[j].provider)
  {
    hide TextBefore;
    var keys := KeysInOrder(strongest);
    chosen := seq(|keys|, i requires 0 <= i < |keys| && keys[i] in strongest => strongest[keys[i]]);
    forall e: Evidence | e.provider in strongest && strongest[e.provider] == e ensures e in chosen {
      var i :| 0 <= i < |keys| && keys[i] == e.provider;
      assert chosen[i] == e;
    }
  }

  lemma {:induction false} TotalWeightPositive(list: seq<Evidence>)
    ensures TotalWeight(list) >= 0.0
    ensures list != [] ==> TotalWeight(list) > 0.0
  {
    if list != [] {
      TotalWeightPositive(list[..|list| - 1]);
    }
  }

  /** Each running value after one more member. */
  lemma RunningValues(list: seq<Evidence>, i: nat)
    requires i < |list|
    ensures TotalWeight(list[..i + 1]) == TotalWeight(list[..i]) + BoxWeight(list[i])
    ensures Complement(list[..i + 1]) == Complement(list[..i]) * Miss(list[i])
  {
    hide Miss, BoxWeight;
    assert list[..i + 1][..i] == list[..i];
  }

  lemma RunningSum(list: seq<Evidence>, i: nat, f: Evidence -> real)
    requires i < |list|
    ensures Weighted(list[..i + 1], f) == Weighted(list[..i], f) + f(list[i]) * BoxWeight(list[i])
  {
    hide BoxWeight;
    assert list[..i + 1][..i] == list[..i];
  }

  lemma NoValues()
    ensures TotalWeight([]) == 0.0 && Complement([]) == 1.0
    ensures forall f: Evidence -> real :: Weighted([], f) == 0.0
  {
  }

  ghost predicate FirstStrongestSoFar(chosen: seq<Evidence>, k: nat, n: nat) {
    k < n <= |chosen| && FirstStrongest(chosen[..n], k)
  }

  lemma FirstStrongestStep(chosen: seq<Evidence>, before: nat, after: nat, i: nat)
    requires before < |chosen| && i < |chosen| && (before == 0 || before < i)
    requires i > 0 ==> FirstStrongestSoFar(chosen, before, i)
    requires after == if Contribution(chosen[i]) > Contribution(chosen[before]) then i else before
    ensures FirstStrongestSoFar(chosen, after, i + 1)
  {
    hide Contribution;
    assert i > 0 ==> chosen[..i][before] == chosen[before];
    forall j | 0 <= j < i ensures chosen[..i + 1][j] == chosen[..i][j] {
    }
  }

  /** The running sums after the members of a list. */
  ghost predicate Accumulated(list: seq<Evidence>, total: real, x: real, y: real, width: real, height: real,
                              geometry: real, complement: real) {
    && total == TotalWeight(list) && complement == Complement(list)
    && x == Weighted(list, FieldX()) && y == Weighted(list, FieldY())
    && width == Weighted(list, FieldWidth()) && height == Weighted(list, FieldHeight())
    && geometry == Weighted(list, FieldGeometry())
  }

  lemma NothingAccumulated()
    ensures Accumulated([], 0.0, 0.0, 0.0, 0.0, 0.0, 0.0, 1.0)
  {
    NoValues();
  }

  lemma AccumulatedStep(list: seq<Evidence>, i: nat, e: Evidence, w: real, total: real, x: real, y: real,
                        width: real, height: real, geometry: real, complement: real)
    requires i < |list| && Accumulated(list[..i], total, x, y, width, height, geometry, complement)
    requires e == list[i] && w == BoxWeight(e)
    ensures Accumulated(list[..i + 1], total + w, x + e.box.x * w, y + e.box.y * w, width + e.box.width * w,
                        height + e.box.height * w, geometry + e.geometryScore * w, complement * Miss(e))
  {
    hide TotalWeight, Weighted, Complement, BoxWeight, Miss;
    RunningValues(list, i);
    RunningSum(list, i, FieldX());
    RunningSum(list, i, FieldY());
    RunningSum(list, i, FieldWidth());
    RunningSum(list, i, FieldHeight());
    RunningSum(list, i, FieldGeometry());
    RunningComplement(list, i, complement, complement * Miss(list[i]));
  }

  lemma AccumulatedPositive(list: seq<Evidence>, total: real, x: real, y: real, width: real, height: real,
                            geometry: real, complement: real)
    requires list != [] && Accumulated(list, total, x, y, width, height, geometry, complement)
    ensures total > 0.0
  {
    hide Weighted, Complement;
    TotalWeightPositive(list);
  }

  /** Fuses a non-empty group; the source's empty-group error cannot arise. */
  method BuildGroup(evidence: seq<Evidence>) returns (g: DetectionGroup)
    requires evidence != []
    ensures IsFusion(evidence, g)
  {
    hide *;
    var strongest := PickStrongest(evidence);
    StrongestKeyed(evidence, strongest);
    var chosen := InProviderOrder(strongest);
    ChosenAreStrongest(evidence, strongest, chosen);
    SomebodyChosen(evidence, chosen);
    var total, x, y, width, height, geometry, complement := 0.0, 0.0, 0.0, 0.0, 0.0, 0.0, 1.0;
    var best := 0;
    assert chosen[..0] == [];
    NothingAccumulated();
    for i := 0 to |chosen|
      invariant Accumulated(chosen[..i], total, x, y, width, height, geometry, complement)
      invariant best == 0 || best < i
      invariant i > 0 ==> FirstStrongestSoFar(chosen, best, i)
    {
      var item := chosen[i];
      var w := BoxWeight(item);
      AccumulatedStep(chosen, i, item, w, total, x, y, width, height, geometry, complement);
      total := total + w;
      x := x + item.box.x * w;
      y := y + item.box.y * w;
      width := width + item.box.width * w;
      height := height + item.box.height * w;
      geometry := geometry + item.geometryScore * w;
      complement := complement * Miss(item);
      ghost var so := best;
      if Contribution(item) > Contribution(chosen[best]) {
        best := i;
      }
      FirstStrongestStep(chosen, so, best, i);
    }
    assert chosen[..|chosen|] == chosen;
    AccumulatedPositive(chosen, total, x, y, width, height, geometry, complement);
    g := DetectionGroup(chosen, BoundingBox(x / total, y / total, width / total, height / total), chosen[best].quadrilateral,
                        Clamp01(1.0 - complement), Clamp01(geometry / total));
    FusionAssembled(evidence, g, best, total, x, y, width, height, geometry, complement);
  }

  lemma StrongestKeyed(evidence: seq<Evidence>, strongest: map<string, Evidence>)
    requires StrongestSoFar(evidence, strongest)
    ensures forall p <- strongest :: strongest[p].provider == p
  {
  }

  lemma SomebodyChosen(evidence: seq<Evidence>, chosen: seq<Evidence>)
    requires evidence != [] && StrongestPerProvider(evidence, chosen)
    ensures chosen != []
  {
    hide TextBefore, Evidence.Score;
    assert evidence[0] in evidence;
  }

  lemma Quotient(a: real, b: real, c: real, d: real)
    requires a == c && b == d && b > 0.0
    ensures a / b == c / d
  {
  }

  lemma FusionAssembled(evidence: seq<Evidence>, g: DetectionGroup, best: nat, total: real,
                        x: real, y: real, width: real, height: real, geometry: real, complement: real)
    requires StrongestPerProvider(evidence, g.evidence) && total > 0.0
    requires Accumulated(g.evidence, total, x, y, width, height, geometry, complement)
    requires g.box == BoundingBox(x / total, y / total, width / total, height / total)
    requires g.confidence == Clamp01(1.0 - complement) && g.geometryScore == Clamp01(geometry / total)
    requires FirstStrongestSoFar(g.evidence, best, |g.evidence|) && g.quadrilateral == g.evidence[best].quadrilateral
    ensures IsFusion(evidence, g)
  {
    hide Weighted, TotalWeight, Complement, StrongestPerProvider, Contribution, Clamp01, FieldX, FieldY, FieldWidth,
         FieldHeight, FieldGeometry;
    assert g.evidence[..|g.evidence|] == g.evidence;
    Quotient(x, total, Weighted(g.evidence, FieldX()), TotalWeight(g.evidence));
    Quotient(y, total, Weighted(g.evidence, FieldY()), TotalWeight(g.evidence));
    Quotient(width, total, Weighted(g.evidence, FieldWidth()), TotalWeight(g.evidence));
    Quotient(height, total, Weighted(g.evidence, FieldHeight()), TotalWeight(g.evidence));
    Quotient(geometry, total, Weighted(g.evidence, FieldGeometry()), TotalWeight(g.evidence));
  }

  lemma RunningComplement(list: seq<Evidence>, i: nat, before: real, after: real)
    requires i < |list| && before == Complement(list[..i]) && after == before * Miss(list[i])
    ensures after == Complement(list[..i + 1])
  {
    hide Miss, Complement;
    RunningValues(list, i);
    assert before * Miss(list[i]) == Complement(list[..i]) * Miss(list[i]);
  }

  lemma ChosenAreStrongest(evidence: seq<Evidence>, strongest: map<string, Evidence>, chosen: seq<Evidence>)
    requires StrongestSoFar(evidence, strongest)
    requires forall e :: e in chosen <==> e.provider in strongest && strongest[e.provider] == e
    requires forall i, j | 0 <= i < j < |chosen| :: TextBefore(chosen[i].provider, chosen[j].provider)
    ensures StrongestPerProvider(evidence, chosen)
  {
    hide TextBefore, ProvidersBest;
    forall e | e in evidence ensures exists c <- chosen :: c.provider == e.provider {
      assert strongest[e.provider] in chosen;
    }
  }

  // ---------------------------------------------------------------- what a fused detection is worth

  lemma {:induction false} WeightedBounds(list: seq<Evidence>, f: Evidence -> real, lo: real, hi: real)
    requires forall e <- list :: lo <= f(e) <= hi
    ensures lo * TotalWeight(list) <= Weighted(list, f) <= hi * TotalWeight(list)
  {
    hide TotalWeight, Weighted, BoxWeight, Contribution;
    if list == [] {
      NoValues();
    } else {
      var n := |list| - 1;
      assert list[n] in list && forall e <- list[..n] :: e in list;
      WeightedBounds(list[..n], f, lo, hi);
      assert list[..n + 1] == list;
      RunningValues(list, n);
      RunningSum(list, n, f);
      BoundsGrow(lo, hi, TotalWeight(list[..n]), Weighted(list[..n], f), BoxWeight(list[n]), f(list[n]),
                 TotalWeight(list), Weighted(list, f));
    }
  }

  lemma BoundsGrow(lo: real, hi: real, total: real, sum: real, weight: real, value: real, total': real, sum': real)
    requires lo * total <= sum <= hi * total && lo <= value <= hi && weight > 0.0
    requires total' == total + weight && sum' == sum + value * weight
    ensures lo * total' <= sum' <= hi * total'
  {
    assert lo * weight <= value * weight;
    assert value * weight <= hi * weight;
    assert lo * (total + weight) == lo * total + lo * weight;
    assert hi * (total + weight) == hi * total + hi * weight;
  }

  lemma MeanBounds(list: seq<Evidence>, f: Evidence -> real, lo: real, hi: real)
    requires TotalWeight(list) > 0.0 && forall e <- list :: lo <= f(e) <= hi
    ensures lo <= Weighted(list, f) / TotalWeight(list) <= hi
  {
    hide TotalWeight, Weighted;
    WeightedBounds(list, f, lo, hi);
    var mean := Weighted(list, f) / TotalWeight(list);
    assert mean * TotalWeight(list) == Weighted(list, f);
  }

  /** Every fused coordinate lies between the smallest and the largest member coordinate. */
  lemma FusedBoxInHull(evidence: seq<Evidence>, g: DetectionGroup, lo: BoundingBox, hi: BoundingBox)
    requires IsFusion(evidence, g)
    requires forall e <- g.evidence ::
      lo.x <= e.box.x <= hi.x && lo.y <= e.box.y <= hi.y
      && lo.width <= e.box.width <= hi.width && lo.height <= e.box.height <= hi.height
    ensures lo.x <= g.box.x <= hi.x && lo.y <= g.box.y <= hi.y
    ensures lo.width <= g.box.width <= hi.width && lo.height <= g.box.height <= hi.height
  {
    hide *;
    FusedFields(evidence, g);
    InHull(g.evidence, lo, hi);
    MeanBounds(g.evidence, FieldX(), lo.x, hi.x);
    MeanBounds(g.evidence, FieldY(), lo.y, hi.y);
    MeanBounds(g.evidence, FieldWidth(), lo.width, hi.width);
    MeanBounds(g.evidence, FieldHeight(), lo.height, hi.height);
  }

  lemma FusedFields(evidence: seq<Evidence>, g: DetectionGroup)
    requires IsFusion(evidence, g)
    ensures TotalWeight(g.evidence) > 0.0
    ensures g.box.x == Weighted(g.evidence, FieldX()) / TotalWeight(g.evidence)
    ensures g.box.y == Weighted(g.evidence, FieldY()) / TotalWeight(g.evidence)
    ensures g.box.width == Weighted(g.evidence, FieldWidth()) / TotalWeight(g.evidence)
    ensures g.box.height == Weighted(g.evidence, FieldHeight()) / TotalWeight(g.evidence)
  {
    hide StrongestPerProvider, Complement, TotalWeight, Weighted, FieldX, FieldY, FieldWidth, FieldHeight, FieldGeometry;
  }

  lemma InHull(list: seq<Evidence>, lo: BoundingBox, hi: BoundingBox)
    requires forall e <- list ::
      lo.x <= e.box.x <= hi.x && lo.y <= e.box.y <= hi.y
      && lo.width <= e.box.width <= hi.width && lo.height <= e.box.height <= hi.height
    ensures forall e <- list :: lo.x <= FieldX()(e) <= hi.x && lo.y <= FieldY()(e) <= hi.y
    ensures forall e <- list :: lo.width <= FieldWidth()(e) <= hi.width && lo.height <= FieldHeight()(e) <= hi.height
  {
  }

  lemma {:induction false} ComplementBounds(list: seq<Evidence>, e: Evidence)
    ensures 0.0 <= Complement(list) <= 1.0
    ensures e in list ==> Complement(list) <= Miss(e)
  {
    hide Miss;
    if list != [] {
      var n := |list| - 1;
      ComplementBounds(list[..n], e);
      MissBounds(list[n]);
      assert list == list[..n] + [list[n]];
      ShrinkProduct(Complement(list[..n]), Miss(list[n]), Complement(list));
    }
  }

  lemma MissBounds(e: Evidence)
    ensures 0.0 <= Miss(e) <= 1.0
  {
  }

  lemma ShrinkProduct(a: real, b: real, product: real)
    requires 0.0 <= a <= 1.0 && 0.0 <= b <= 1.0 && product == a * b
    ensures 0.0 <= product <= a && product <= b
  {
    NonNegativeProduct(a, b);
    NonNegativeProduct(a, 1.0 - b);
    NonNegativeProduct(1.0 - a, b);
    assert a * (1.0 - b) == a - a * b;
    assert (1.0 - a) * b == b - a * b;
  }

  /** A fused detection is at least as confident as each member's weighted confidence, and never above 1. */
  lemma FusedConfidenceDominates(evidence: seq<Evidence>, g: DetectionGroup, e: Evidence)
    requires IsFusion(evidence, g) && e in evidence
    ensures Contribution(e) <= g.confidence <= 1.0
  {
    hide Complement, TotalWeight, Weighted, StrongestPerProvider, Contribution, BoxWeight;
    StrongestOf(evidence, g.evidence, e);
    var c :| c in g.evidence && Contribution(e) <= Contribution(c);
    ComplementBounds(g.evidence, c);
    MissAndContribution(c);
  }

  lemma MissAndContribution(e: Evidence)
    ensures Miss(e) == 1.0 - Contribution(e) && 0.0 <= Contribution(e) <= 1.0
  {
  }

  lemma ProviderRepresented(evidence: seq<Evidence>, chosen: seq<Evidence>, e: Evidence)
    requires StrongestPerProvider(evidence, chosen) && e in evidence
    ensures exists c <- chosen :: c.provider == e.provider && e.Score() <= c.Score()
  {
    hide TextBefore, Evidence.Score;
    var c :| c in chosen && c.provider == e.provider;
    assert ProvidersBest(evidence, c);
    var i :| 0 <= i < |evidence| && evidence[i] == c && FirstBest(evidence, i);
    var j :| 0 <= j < |evidence| && evidence[j] == e;
    assert i == j || j < i || i < j;
  }

  lemma StrongestOf(evidence: seq<Evidence>, chosen: seq<Evidence>, e: Evidence)
    requires StrongestPerProvider(evidence, chosen) && e in evidence
    ensures exists c <- chosen :: Contribution(e) <= Contribution(c)
  {
    hide *;
    ProviderRepresented(evidence, chosen, e);
    var c :| c in chosen && c.provider == e.provider && e.Score() <= c.Score();
    ContributionMonotone(e, c);
  }

  lemma ContributionMonotone(e: Evidence, c: Evidence)
    requires e.Score() <= c.Score()
    ensures Contribution(e) <= Contribution(c)
  {
    hide Evidence.Score;
  }

  // ---------------------------------------------------------------- the whole detector

  /** A registered detector and what it reported for the image. */
  datatype Registration = Registration(name: string, enabled: bool, weight: real, detections: seq<Detection>)

  predicate Consulted(r: Registration) {
    r.enabled && r.weight > 0.0
  }

  predicate DetectionOk(d: Detection) {
    d.box.IsValid() && 0.0 <= d.confidence <= 1.0
  }

  function EvidenceOf(r: Registration, detections: seq<Detection>): seq<Evidence> {
    if detections == [] then []
    else
      var d := detections[|detections| - 1];
      EvidenceOf(r, detections[..|detections| - 1])
      + [Evidence(d.box, d.quadrilateral, d.confidence, d.geometryScore, r.name, r.weight)]
  }

  /** What the consulted detectors reported, in registration order. */
  function Reported(registrations: seq<Registration>): seq<Evidence> {
    if registrations == [] then []
    else
      var r := registrations[|registrations| - 1];
      Reported(registrations[..|registrations| - 1]) + if Consulted(r) then EvidenceOf(r, r.detections) else []
  }

  /** One invalid detection of a consulted detector fails the call. */
  ghost predicate AllUsable(registrations: seq<Registration>) {
    forall r, d | r in registrations && d in r.detections :: Consulted(r) ==> DetectionOk(d)
  }

  method CollectOne(g: Registration) returns (usable: bool, evidence: seq<Evidence>)
    ensures usable <==> forall d <- g.detections :: DetectionOk(d)
    ensures usable ==> evidence == EvidenceOf(g, g.detections)
  {
    hide DetectionOk;
    evidence := [];
    for j := 0 to |g.detections|
      invariant forall d <- g.detections[..j] :: DetectionOk(d)
      invariant evidence == EvidenceOf(g, g.detections[..j])
    {
      var d := g.detections[j];
      assert d in g.detections && g.detections[..j + 1][..j] == g.detections[..j];
      if !DetectionOk(d) {
        return false, evidence;
      }
      evidence := evidence + [Evidence(d.box, d.quadrilateral, d.confidence, d.geometryScore, g.name, g.weight)];
    }
    assert g.detections[..|g.detections|] == g.detections;
    usable := true;
  }

  /** All evidence of the consulted detectors. */
  method Collect(registrations: seq<Registration>) returns (r: Result<seq<Evidence>>)
    ensures if AllUsable(registrations) then r.Success? else r == Failure(ProviderError)
    ensures r.Success? ==> r.value == Reported(registrations)
  {
    hide DetectionOk;
    var evidence: seq<Evidence> := [];
    for i := 0 to |registrations|
      invariant AllUsable(registrations[..i])
      invariant evidence == Reported(registrations[..i])
    {
      var g := registrations[i];
      assert registrations[..i + 1] == registrations[..i] + [g] && registrations[..i + 1][..i] == registrations[..i];
      assert g in registrations;
      if Consulted(g) {
        var usable, more := CollectOne(g);
        if !usable {
          return Failure(ProviderError);
        }
        evidence := evidence + more;
      }
    }
    assert registrations[..|registrations|] == registrations;
    return Success(evidence);
  }

  /** A group under construction, with the root it belongs to. */
  datatype Rooted = Rooted(root: nat, group: DetectionGroup)

  predicate GroupBefore(a: DetectionGroup, b: DetectionGroup) {
    StrengthBefore(a.confidence, a.box, b.confidence, b.box)
  }

  predicate RootedBefore(a: Rooted, b: Rooted) {
    GroupBefore(a.group, b.group)
  }

  lemma RootedOrder()
    ensures StrictWeakOrder(RootedBefore)
  {
  }

  /** Buckets built so far: one per root seen, holding that root's component of the first n elements. */
  ghost predicate Bucketed(sets: DisjointSet, evidence: seq<Evidence>, edges: Edges, n: nat,
                           buckets: map<nat, seq<Evidence>>)
    requires sets.Valid() && sets.parent.Length == |evidence| && n <= |evidence|
    reads sets, sets.parent, sets.rank
  {
    && (forall r <- buckets :: r < |evidence| && sets.RootOf(r) == r && buckets[r] == Component(evidence[..n], edges, r)
                               && buckets[r] != [])
    && (forall i | 0 <= i < n :: sets.RootOf(i) in buckets)
    && (forall r | 0 <= r < |evidence| && sets.RootOf(r) == r && r !in buckets :: Component(evidence[..n], edges, r) == [])
  }

  lemma RootOfRoot(sets: DisjointSet, v: nat)
    requires sets.Valid() && v < sets.parent.Length
    ensures sets.RootOf(v) < sets.parent.Length && sets.RootOf(sets.RootOf(v)) == sets.RootOf(v)
  {
  }

  lemma {:induction false} BucketStep(sets: DisjointSet, evidence: seq<Evidence>, edges: Edges, n: nat,
                                      buckets: map<nat, seq<Evidence>>, next: map<nat, seq<Evidence>>)
    requires sets.Valid() && sets.parent.Length == |evidence| && n < |evidence| && RootsMatch(sets, edges)
    requires Bucketed(sets, evidence, edges, n, buckets)
    requires var root := sets.RootOf(n);
      next == buckets[root := (if root in buckets then buckets[root] else []) + [evidence[n]]]
    ensures Bucketed(sets, evidence, edges, n + 1, next)
  {
    hide Connected, Root, Forest, RanksPaidFor, Component;
    var root := sets.RootOf(n);
    RootOfRoot(sets, n);
    forall r | 0 <= r < |evidence| && sets.RootOf(r) == r
      ensures Component(evidence[..n + 1], edges, r)
           == Component(evidence[..n], edges, r) + if r == root then [evidence[n]] else []
    {
      ComponentStep(evidence, edges, n, r);
      assert sets.RootOf(n) == sets.RootOf(r) <==> Connected(edges, n, r);
    }
  }

  lemma NothingBucketed(sets: DisjointSet, evidence: seq<Evidence>, edges: Edges)
    requires sets.Valid() && sets.parent.Length == |evidence|
    ensures Bucketed(sets, evidence, edges, 0, map[])
  {
    hide Connected, Root, Forest, RanksPaidFor;
  }

  method Bucket(sets: DisjointSet, evidence: seq<Evidence>, ghost edges: Edges) returns (buckets: map<nat, seq<Evidence>>)
    requires sets.Valid() && sets.parent.Length == |evidence| && RootsMatch(sets, edges)
    modifies sets.parent
    ensures sets.Valid() && RootsMatch(sets, edges)
    ensures Bucketed(sets, evidence, edges, |evidence|, buckets)
  {
    hide Connected, Component, Root, Forest, RanksPaidFor;
    buckets := map[];
    NothingBucketed(sets, evidence, edges);
    for i := 0 to |evidence|
      invariant sets.Valid() && RootsMatch(sets, edges)
      invariant Bucketed(sets, evidence, edges, i, buckets)
    {
      var root := sets.Find(i);
      ghost var so := buckets;
      buckets := buckets[root := (if root in buckets then buckets[root] else []) + [evidence[i]]];
      BucketStep(sets, evidence, edges, i, so, buckets);
    }
  }

  ghost predicate Covered(edges: Edges, groups: seq<Rooted>, v: nat) {
    exists g <- groups :: Connected(edges, v, g.root)
  }

  /** One fused group per component: each group fuses its whole component, no component appears twice, none is missed. */
  ghost predicate OneGroupPerComponent(evidence: seq<Evidence>, edges: Edges, groups: seq<Rooted>) {
    && (forall g <- groups :: g.root < |evidence| && IsFusion(Component(evidence, edges, g.root), g.group))
    && (forall i, j | 0 <= i < j < |groups| :: !Connected(edges, groups[i].root, groups[j].root))
    && (forall v: nat | v < |evidence| :: Covered(edges, groups, v))
  }

  ghost predicate HasGroup(groups: seq<Rooted>, root: nat) {
    exists g <- groups :: g.root == root
  }

  /** Fuses every bucket, in key order. */
  method FuseBuckets(sets: DisjointSet, evidence: seq<Evidence>, ghost edges: Edges, buckets: map<nat, seq<Evidence>>)
    returns (groups: seq<Rooted>)
    requires sets.Valid() && sets.parent.Length == |evidence| && RootsMatch(sets, edges)
    requires Bucketed(sets, evidence, edges, |evidence|, buckets)
    ensures OneGroupPerComponent(evidence, edges, groups)
  {
    hide Connected, Root, Forest, RanksPaidFor, Component, IsFusion;
    assert evidence[..|evidence|] == evidence;
    groups := [];
    for r := 0 to |evidence|
      invariant forall g <- groups :: g.root < r && g.root in buckets
      invariant forall g <- groups :: IsFusion(Component(evidence, edges, g.root), g.group)
      invariant forall i, j | 0 <= i < j < |groups| :: groups[i].root < groups[j].root
      invariant forall k <- buckets | k < r :: HasGroup(groups, k)
    {
      if r in buckets {
        var group := BuildGroup(buckets[r]);
        ghost var before := groups;
        groups := groups + [Rooted(r, group)];
        assert groups[|before|] in groups && forall g <- before :: g in groups;
        forall k | k in buckets && k < r + 1 ensures HasGroup(groups, k) {
          assert k < r ==> HasGroup(before, k);
        }
      }
    }
    forall v: nat | v < |evidence| ensures HasGroup(groups, sets.RootOf(v)) {
      RootOfRoot(sets, v);
      assert sets.RootOf(v) in buckets;
    }
    OnePerRoot(sets, evidence, edges, groups);
  }

  lemma OnePerRoot(sets: DisjointSet, evidence: seq<Evidence>, edges: Edges, groups: seq<Rooted>)
    requires sets.Valid() && sets.parent.Length == |evidence| && RootsMatch(sets, edges)
    requires forall g <- groups :: g.root < |evidence| && sets.RootOf(g.root) == g.root
                                   && IsFusion(Component(evidence, edges, g.root), g.group)
    requires forall i, j | 0 <= i < j < |groups| :: groups[i].root < groups[j].root
    requires forall v: nat | v < |evidence| :: HasGroup(groups, sets.RootOf(v))
    ensures OneGroupPerComponent(evidence, edges, groups)
  {
    hide Connected, Root, Forest, RanksPaidFor, Component, IsFusion;
    forall i, j | 0 <= i < j < |groups| ensures !Connected(edges, groups[i].root, groups[j].root) {
      assert groups[i] in groups && groups[j] in groups;
      assert sets.RootOf(groups[i].root) != sets.RootOf(groups[j].root);
    }
    forall v: nat | v < |evidence| ensures Covered(edges, groups, v) {
      RootOfRoot(sets, v);
      assert HasGroup(groups, sets.RootOf(v));
      var g :| g in groups && g.root == sets.RootOf(v);
      assert sets.RootOf(v) == sets.RootOf(g.root);
    }
  }

  lemma RearrangedGroups(evidence: seq<Evidence>, edges: Edges, groups: seq<Rooted>, sorted: seq<Rooted>)
    requires OneGroupPerComponent(evidence, edges, groups) && multiset(sorted) == multiset(groups)
    ensures OneGroupPerComponent(evidence, edges, sorted)
  {
    hide Connected, Component, IsFusion;
    SameElements(groups, sorted);
    forall i, j | 0 <= i < j < |groups| ensures groups[i] != groups[j] {
      ConnectedSelf(edges, groups[i].root);
      assert !Connected(edges, groups[i].root, groups[j].root);
    }
    forall v: nat | v < |evidence| ensures Covered(edges, sorted, v) {
      assert Covered(edges, groups, v);
    }
    forall i, j | 0 <= i < j < |sorted| ensures !Connected(edges, sorted[i].root, sorted[j].root) {
      OnceEach(groups, sorted, i, j);
      assert sorted[i] in groups && sorted[j] in groups;
      var k, l :| 0 <= k < |groups| && 0 <= l < |groups| && groups[k] == sorted[i] && groups[l] == sorted[j];
      ConnectedSymmetric(edges, groups[k].root, groups[l].root);
      assert k < l || l < k;
    }
  }

  /** The evidence that grouping works on: the reported evidence with each provider's repetitions dropped. */
  ghost predicate IsDeduplicated(cfg: FusionConfig, reported: seq<Evidence>, evidence: seq<Evidence>) {
    && multiset(evidence) <= multiset(reported)
    && Unrepeated(cfg, evidence)
    && (forall e <- reported :: Represented(cfg, evidence, e))
    && Sorted(EvidenceBefore, evidence)
  }

  lemma RearrangedEvidence(cfg: FusionConfig, reported: seq<Evidence>, evidence: seq<Evidence>, sorted: seq<Evidence>)
    requires IsDeduplicated(cfg, reported, evidence)
    requires multiset(sorted) == multiset(evidence) && Sorted(EvidenceBefore, sorted)
    ensures IsDeduplicated(cfg, reported, sorted)
  {
    hide EvidenceBefore, OverlapsEnough;
    SameElements(evidence, sorted);
    forall e | e in reported ensures Represented(cfg, sorted, e) {
      assert Represented(cfg, evidence, e);
    }
    forall i, j | 0 <= i < j < |sorted| ensures !SameDetection(cfg, sorted[i], sorted[j]) {
      UnrepeatedPair(cfg, evidence, sorted, i, j);
    }
  }

  lemma UnrepeatedPair(cfg: FusionConfig, evidence: seq<Evidence>, sorted: seq<Evidence>, i: nat, j: nat)
    requires Unrepeated(cfg, evidence) && multiset(sorted) == multiset(evidence) && i < j < |sorted|
    ensures !SameDetection(cfg, sorted[i], sorted[j])
  {
    hide OverlapsEnough;
    var a, b := sorted[i], sorted[j];
    OverlapSymmetric(a.box, b.box, cfg.sameModelIou, cfg.sameModelMinArea);
    SameElements(evidence, sorted);
    assert a in evidence && b in evidence;
    var k, l :| 0 <= k < |evidence| && 0 <= l < |evidence| && evidence[k] == a && evidence[l] == b;
    if k == l {
      Twice(sorted, i, j);
      TwiceApart(evidence, a);
      var u, v :| 0 <= u < v < |evidence| && evidence[u] == a && evidence[v] == a;
      assert !SameDetection(cfg, evidence[u], evidence[v]);
    } else {
      assert k < l || l < k;
    }
  }

  lemma {:induction false} TwiceApart<T>(list: seq<T>, x: T)
    requires multiset(list)[x] >= 2
    ensures exists i, j :: 0 <= i < j < |list| && list[i] == x && list[j] == x
  {
    var n := |list| - 1;
    assert list == list[..n] + [list[n]];
    if list[n] == x {
      assert x in multiset(list[..n]);
      assert x in list[..n];
    } else {
      TwiceApart(list[..n], x);
    }
  }

  /**
   * Detects with every registered detector and fuses what they agree on. The ghost results are the evidence grouped,
   * the overlaps found in it, and all groups in rank order, of which the first maximumGroups are returned.
   */
  method DetectGroups(cfg: FusionConfig, registrations: seq<Registration>)
    returns (r: Result<seq<DetectionGroup>>, ghost evidence: seq<Evidence>, ghost edges: Edges, ghost ranked: seq<Rooted>)
    requires cfg.Valid()
    ensures if AllUsable(registrations) then r.Success? else r == Failure(ProviderError)
    ensures r.Success? ==>
      && IsDeduplicated(cfg, Reported(registrations), evidence)
      && IsOverlapSet(cfg, evidence, edges)
      && OneGroupPerComponent(evidence, edges, ranked) && Sorted(RootedBefore, ranked)
      && |r.value| == (if |ranked| <= cfg.maximumGroups then |ranked| else cfg.maximumGroups)
      && forall k | 0 <= k < |r.value| :: r.value[k] == ranked[k].group
  {
    hide *;
    evidence, edges, ranked := [], {}, [];
    var collected := Collect(registrations);
    if collected.Failure? {
      return Failure(ProviderError), evidence, edges, ranked;
    }
    var kept := Deduplicate(collected.value, cfg);
    Deduplicated(cfg, collected.value, kept);
    if kept == [] {
      NothingToGroup(cfg);
      return Success([]), [], {}, [];
    }
    var sorted := SortEvidence(kept);
    RearrangedEvidence(cfg, collected.value, kept, sorted);
    evidence := sorted;
    var sets: DisjointSet;
    sets, edges := Group(cfg, sorted);
    var buckets := Bucket(sets, sorted, edges);
    var groups := FuseBuckets(sets, sorted, edges, buckets);
    RootedOrder();
    StableSortSorted(RootedBefore, groups);
    var order := StableSort(RootedBefore, groups);
    RearrangedGroups(sorted, edges, groups, order);
    ranked := order;
    var count := if |order| > cfg.maximumGroups then cfg.maximumGroups else |order|;
    r := Success(seq(count, k requires 0 <= k < |order| => order[k].group));
  }

  lemma Deduplicated(cfg: FusionConfig, reported: seq<Evidence>, kept: seq<Evidence>)
    requires Unrepeated(cfg, kept) && Sorted(EvidenceBefore, kept)
    requires forall e <- reported :: Represented(cfg, kept, e)
    requires multiset(kept) <= multiset(reported)
    ensures IsDeduplicated(cfg, reported, kept)
  {
  }

  lemma NothingToGroup(cfg: FusionConfig)
    ensures IsOverlapSet(cfg, [], {}) && OneGroupPerComponent([], {}, []) && Sorted(RootedBefore, [])
  {
  }
}
