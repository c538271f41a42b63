/** The pose model's output: reading candidates from the tensor, mapping them to the image, and suppression. */
module YoloParser {
  import opened Outcomes
  import opened Machine
  import opened Reals
  import opened Geometry
  import opened Domain
  import opened Sorting
  import opened Suppression
  import Letterbox

  datatype CandidateLayout = FeaturesFirst | CandidatesFirst

  const KEYPOINTS := 4

  datatype OutputSpec = OutputSpec(
    layout: CandidateLayout,
    boxOffset: Size,
    objectness: Option<Size>,
    classOffset: Size,
    classCount: Size,
    keypointOffset: Size,
    keypointStride: Size,
    keypointX: Size,
    keypointY: Size,
    keypointConfidence: Option<Size>,
    threshold: real,
    nmsThreshold: real,
    maximumDetections: nat)
  {
    predicate Valid() {
      && classCount > 0
      && keypointStride >= 2 && keypointX < keypointStride && keypointY < keypointStride
      && (keypointConfidence.Some? ==> keypointConfidence.value < keypointStride)
      && 0.0 <= threshold <= 1.0 && 0.0 <= nmsThreshold <= 1.0
      && 1 <= maximumDetections <= 4096
      && Required() <= SIZE_MAX
    }

    /** One more than the last feature column the parser reads. */
    function Required(): nat {
      var boxes := boxOffset + 4;
      var classes := classOffset + classCount;
      var keypoints := keypointOffset + KEYPOINTS * keypointStride;
      var objects := if objectness.Some? then objectness.value + 1 else 0;
      Larger(Larger(boxes, classes), Larger(keypoints, objects))
    }
  }

  function Larger(a: nat, b: nat): nat {
    if a < b then b else a
  }

  // ---------------------------------------------------------------- the tensor as a matrix

  datatype Matrix = Matrix(features: nat, candidates: nat, layout: CandidateLayout, data: seq<real>)
  {
    ghost predicate Valid() {
      |data| == features * candidates
    }

    /** Where the value of a feature of a candidate lies. */
    function At(feature: nat, candidate: nat): int {
      if layout.FeaturesFirst? then feature * candidates + candidate else candidate * features + feature
    }
  }

  lemma AtInData(m: Matrix, feature: nat, candidate: nat)
    requires m.Valid() && feature < m.features && candidate < m.candidates
    ensures 0 <= m.At(feature, candidate) < |m.data|
  {
    CellBelow(feature, candidate, m.features, m.candidates);
    CellBelow(candidate, feature, m.candidates, m.features);
  }

  lemma CellBelow(q: nat, r: nat, n: nat, d: nat)
    requires q < n && r < d
    ensures 0 <= q * d + r < n * d
  {
    assert (q + 1) * d == q * d + d;
    assert (q + 1) * d <= n * d;
  }

  /** Different features and candidates are read from different places. */
  lemma AtInjective(m: Matrix, f: nat, c: nat, f': nat, c': nat)
    requires f < m.features && f' < m.features && c < m.candidates && c' < m.candidates && m.At(f, c) == m.At(f', c')
    ensures f == f' && c == c'
  {
    if m.layout.FeaturesFirst? {
      Letterbox.SameQuotient(f, f * m.candidates, c, f', f' * m.candidates, c', m.candidates);
    } else {
      Letterbox.SameQuotient(c, c * m.features, f, c', c' * m.features, f', m.features);
    }
  }

  function ResolveMatrix(output: seq<real>, shape: seq<int>, layout: CandidateLayout): (r: Result<Matrix>)
    ensures r.Success? ==> r.value.Valid() && r.value.data == output && r.value.features > 0 && r.value.candidates > 0
    ensures r.Failure? ==> r.error == InferenceError
  {
    if |shape| == 3 && shape[0] != 1 then Failure(InferenceError)
    else if |shape| != 3 && |shape| != 2 then Failure(InferenceError)
    else
      var first, second := shape[|shape| - 2], shape[|shape| - 1];
      if first <= 0 || second <= 0 then Failure(InferenceError)
      else if first * second != |output| then Failure(InferenceError)
      else if layout.FeaturesFirst? then Success(Matrix(first, second, layout, output))
      else Success(Matrix(second, first, layout, output))
  }

  // ---------------------------------------------------------------- one candidate

  function Value(m: Matrix, feature: nat, candidate: nat): real
    requires m.Valid() && feature < m.features && candidate < m.candidates
  {
    AtInData(m, feature, candidate);
    m.data[m.At(feature, candidate)]
  }

  /** The strongest of the first n class scores. */
  function ClassConfidence(spec: OutputSpec, m: Matrix, candidate: nat, n: nat): (r: real)
    requires m.Valid() && candidate < m.candidates && spec.classOffset + n <= m.features
    ensures 0.0 <= r <= 1.0
  {
    if n == 0 then 0.0
    else Max(ClassConfidence(spec, m, candidate, n - 1), Clamp01(Value(m, spec.classOffset + n - 1, candidate)))
  }

  function Confidence(spec: OutputSpec, m: Matrix, candidate: nat): (r: real)
    requires m.Valid() && candidate < m.candidates && spec.Required() <= m.features
    ensures 0.0 <= r <= 1.0
  {
    var classes := ClassConfidence(spec, m, candidate, spec.classCount);
    var objects := if spec.objectness.Some? then Clamp01(Value(m, spec.objectness.value, candidate)) else 1.0;
    ProductBound(classes, objects, 1.0, 1.0);
    classes * objects
  }

  function SourceX(v: real, meta: Letterbox.Metadata): (r: real)
    requires meta.scale > 0.0
    ensures 0.0 <= r <= meta.sourceWidth as real
  {
    Letterbox.SourceCoordinate(v, meta.padLeft, meta.scale, meta.sourceWidth)
  }

  function SourceY(v: real, meta: Letterbox.Metadata): (r: real)
    requires meta.scale > 0.0
    ensures 0.0 <= r <= meta.sourceHeight as real
  {
    Letterbox.SourceCoordinate(v, meta.padTop, meta.scale, meta.sourceHeight)
  }

  function PointConfidence(spec: OutputSpec, m: Matrix, candidate: nat, base: nat): (r: real)
    requires spec.Valid() && m.Valid() && candidate < m.candidates && spec.Required() <= m.features
    requires base + spec.keypointStride <= m.features
    ensures 0.0 <= r <= 1.0
  {
    if spec.keypointConfidence.Some? then Clamp01(Value(m, base + spec.keypointConfidence.value, candidate))
    else Confidence(spec, m, candidate)
  }

  predicate PointInImage(meta: Letterbox.Metadata, p: Keypoint) {
    && 0.0 <= p.x <= meta.sourceWidth as real && 0.0 <= p.y <= meta.sourceHeight as real
    && 0.0 <= p.confidence <= 1.0
  }

  /** The first n keypoints; one without a confidence of its own has the candidate's. */
  function Keypoints(spec: OutputSpec, m: Matrix, meta: Letterbox.Metadata, candidate: nat, n: nat): (r: seq<Keypoint>)
    requires spec.Valid() && m.Valid() && candidate < m.candidates && spec.Required() <= m.features && meta.scale > 0.0
    requires n <= KEYPOINTS
    ensures |r| == n && forall p <- r :: PointInImage(meta, p)
  {
    if n == 0 then []
    else
      var base := spec.keypointOffset + (n - 1) * spec.keypointStride;
      assert (n - 1) * spec.keypointStride + spec.keypointStride <= KEYPOINTS * spec.keypointStride;
      Keypoints(spec, m, meta, candidate, n - 1)
      + [Keypoint(SourceX(Value(m, base + spec.keypointX, candidate), meta),
                  SourceY(Value(m, base + spec.keypointY, candidate), meta),
                  PointConfidence(spec, m, candidate, base))]
  }

  /** The detection a candidate amounts to, if it is confident enough and its box is not empty. */
  function Candidate(spec: OutputSpec, m: Matrix, meta: Letterbox.Metadata, candidate: nat): Option<Detection>
    requires spec.Valid() && m.Valid() && candidate < m.candidates && spec.Required() <= m.features && meta.scale > 0.0
  {
    var confidence := Confidence(spec, m, candidate);
    var cx, cy := Value(m, spec.boxOffset, candidate), Value(m, spec.boxOffset + 1, candidate);
    var width, height := Value(m, spec.boxOffset + 2, candidate), Value(m, spec.boxOffset + 3, candidate);
    var x1, y1 := SourceX(cx - width * 0.5, meta), SourceY(cy - height * 0.5, meta);
    var x2, y2 := SourceX(cx + width * 0.5, meta), SourceY(cy + height * 0.5, meta);
    if confidence < spec.threshold || width <= 0.0 || height <= 0.0 || x2 <= x1 || y2 <= y1 then None
    else Some(Detection(BoundingBox(x1, y1, x2 - x1, y2 - y1), Keypoints(spec, m, meta, candidate, KEYPOINTS), confidence, 0.0))
  }

  /** A box and keypoints inside the source image. */
  predicate InImage(meta: Letterbox.Metadata, d: Detection) {
    && (forall p <- d.quadrilateral :: PointInImage(meta, p))
    && d.box.IsValid() && 0.0 <= d.box.x && d.box.x + d.box.width <= meta.sourceWidth as real
    && 0.0 <= d.box.y && d.box.y + d.box.height <= meta.sourceHeight as real
  }

  lemma CandidateInImage(spec: OutputSpec, m: Matrix, meta: Letterbox.Metadata, candidate: nat)
    requires spec.Valid() && m.Valid() && candidate < m.candidates && spec.Required() <= m.features && meta.scale > 0.0
    ensures Candidate(spec, m, meta, candidate).Some? ==>
      var d := Candidate(spec, m, meta, candidate).value;
      InImage(meta, d) && spec.threshold <= d.confidence <= 1.0 && |d.quadrilateral| == KEYPOINTS
  {
    hide Confidence, Keypoints, Value, SourceX, SourceY;
  }

  function Candidates(spec: OutputSpec, m: Matrix, meta: Letterbox.Metadata, n: nat): seq<Ranked>
    requires spec.Valid() && m.Valid() && n <= m.candidates && spec.Required() <= m.features && meta.scale > 0.0
  {
    if n == 0 then []
    else
      var candidate := Candidate(spec, m, meta, n - 1);
      Candidates(spec, m, meta, n - 1) + if candidate.Some? then [Ranked(candidate.value, n - 1)] else []
  }

  /** The strongest class score, by a loop over the classes. */
  method StrongestClass(spec: OutputSpec, m: Matrix, candidate: nat) returns (confidence: real)
    requires m.Valid() && candidate < m.candidates && spec.Required() <= m.features
    ensures confidence == ClassConfidence(spec, m, candidate, spec.classCount)
  {
    hide Value;
    confidence := 0.0;
    for k := 0 to spec.classCount
      invariant confidence == ClassConfidence(spec, m, candidate, k)
    {
      confidence := Max(confidence, Clamp01(Value(m, spec.classOffset + k, candidate)));
    }
  }

  /** The detections of an output tensor: in the image, most confident first, spread, and every other candidate accounted
      for. */
  method Parse(spec: OutputSpec, output: seq<real>, shape: seq<int>, meta: Letterbox.Metadata) returns (r: Result<seq<Detection>>)
    requires spec.Valid()
    ensures r.Failure? ==> r.error == InferenceError
    ensures output == [] ==> r == Success([])
    ensures output != [] ==>
      var m := ResolveMatrix(output, shape, spec.layout);
      if meta.scale <= 0.0 || meta.sourceWidth == 0 || meta.sourceHeight == 0 || m.Failure? || m.value.features < spec.Required()
      then r.Failure?
      else r == Success(Take(Greedy(spec.nmsThreshold,
                                    Detections(StableSort(ParserBefore, Candidates(spec, m.value, meta, m.value.candidates)))),
                             spec.maximumDetections))
    ensures r.Success? ==> |r.value| <= spec.maximumDetections && Spread(spec.nmsThreshold, r.value)
    ensures r.Success? && output != [] ==>
      var m := ResolveMatrix(output, shape, spec.layout).value;
      Explained(spec.nmsThreshold, spec.maximumDetections, Candidates(spec, m, meta, m.candidates), r.value)
    ensures r.Success? ==> forall d <- r.value :: InImage(meta, d) && spec.threshold <= d.confidence <= 1.0
  {
    hide *;
    if output == [] {
      NothingSpread(spec.nmsThreshold);
      return Success([]);
    }
    if meta.scale <= 0.0 || meta.sourceWidth == 0 || meta.sourceHeight == 0 {
      return Failure(InferenceError);
    }
    var resolved := ResolveMatrix(output, shape, spec.layout);
    if resolved.Failure? {
      return Failure(InferenceError);
    }
    var m := resolved.value;
    if m.features < spec.Required() {
      return Failure(InferenceError);
    }
    var candidates: seq<Ranked> := [];
    NoCandidates(spec, m, meta);
    for c := 0 to m.candidates
      invariant candidates == Candidates(spec, m, meta, c)
      invariant forall k <- candidates :: Acceptable(spec, meta, k.detection) && k.index < c
      invariant DistinctPlaces(candidates)
    {
      OneMoreCandidate(spec, m, meta, c);
      OneMorePlace(candidates, c);
      var detection := ReadCandidate(spec, m, meta, c);
      if detection.Some? {
        candidates := candidates + [Ranked(detection.value, c)];
      }
    }
    AllValid(spec, meta, candidates);
    SpecLimit(spec);
    var kept := RankAndSuppress(candidates, spec.nmsThreshold, spec.maximumDetections);
    KeptAcceptable(spec, meta, candidates);
    r := Success(kept);
  }

  predicate Acceptable(spec: OutputSpec, meta: Letterbox.Metadata, d: Detection) {
    InImage(meta, d) && spec.threshold <= d.confidence <= 1.0
  }

  /** One candidate, step by step. */
  method ReadCandidate(spec: OutputSpec, m: Matrix, meta: Letterbox.Metadata, candidate: nat) returns (d: Option<Detection>)
    requires spec.Valid() && m.Valid() && candidate < m.candidates && spec.Required() <= m.features && meta.scale > 0.0
    ensures d == Candidate(spec, m, meta, candidate)
    ensures d.Some? ==> Acceptable(spec, meta, d.value)
  {
    hide Value, ClassConfidence, Keypoints, SourceX, SourceY, InImage;
    CandidateInImage(spec, m, meta, candidate);
    var classConfidence := StrongestClass(spec, m, candidate);
    var objectness := if spec.objectness.Some? then Clamp01(Value(m, spec.objectness.value, candidate)) else 1.0;
    var confidence := classConfidence * objectness;
    assert confidence == Confidence(spec, m, candidate);
    hide Confidence;
    if confidence < spec.threshold {
      return None;
    }
    var cx, cy := Value(m, spec.boxOffset, candidate), Value(m, spec.boxOffset + 1, candidate);
    var width, height := Value(m, spec.boxOffset + 2, candidate), Value(m, spec.boxOffset + 3, candidate);
    if width <= 0.0 || height <= 0.0 {
      return None;
    }
    var x1, y1 := SourceX(cx - width * 0.5, meta), SourceY(cy - height * 0.5, meta);
    var x2, y2 := SourceX(cx + width * 0.5, meta), SourceY(cy + height * 0.5, meta);
    if x2 <= x1 || y2 <= y1 {
      return None;
    }
    var quadrilateral := ReadKeypoints(spec, m, meta, candidate, confidence);
    d := Some(Detection(BoundingBox(x1, y1, x2 - x1, y2 - y1), quadrilateral, confidence, 0.0));
  }

  method ReadKeypoints(spec: OutputSpec, m: Matrix, meta: Letterbox.Metadata, candidate: nat, confidence: real)
    returns (quadrilateral: seq<Keypoint>)
    requires spec.Valid() && m.Valid() && candidate < m.candidates && spec.Required() <= m.features && meta.scale > 0.0
    requires confidence == Confidence(spec, m, candidate)
    ensures quadrilateral == Keypoints(spec, m, meta, candidate, KEYPOINTS)
  {
    hide Value, Confidence, SourceX, SourceY;
    quadrilateral := [];
    for point := 0 to KEYPOINTS
      invariant quadrilateral == Keypoints(spec, m, meta, candidate, point)
    {
      var base := spec.keypointOffset + point * spec.keypointStride;
      assert point * spec.keypointStride + spec.keypointStride <= KEYPOINTS * spec.keypointStride;
      quadrilateral := quadrilateral
                       + [Keypoint(SourceX(Value(m, base + spec.keypointX, candidate), meta),
                                   SourceY(Value(m, base + spec.keypointY, candidate), meta),
                                   if spec.keypointConfidence.Some?
                                   then Clamp01(Value(m, base + spec.keypointConfidence.value, candidate))
                                   else confidence)];
    }
  }

  lemma NothingSpread(threshold: real)
    ensures Spread(threshold, [])
  {
  }

  lemma NoCandidates(spec: OutputSpec, m: Matrix, meta: Letterbox.Metadata)
    requires spec.Valid() && m.Valid() && spec.Required() <= m.features && meta.scale > 0.0
    ensures Candidates(spec, m, meta, 0) == [] && DistinctPlaces([])
  {
  }

  lemma OneMoreCandidate(spec: OutputSpec, m: Matrix, meta: Letterbox.Metadata, n: nat)
    requires spec.Valid() && m.Valid() && n < m.candidates && spec.Required() <= m.features && meta.scale > 0.0
    ensures Candidates(spec, m, meta, n + 1)
         == Candidates(spec, m, meta, n)
            + if Candidate(spec, m, meta, n).Some? then [Ranked(Candidate(spec, m, meta, n).value, n)] else []
  {
    hide Candidate;
  }

  lemma OneMorePlace(candidates: seq<Ranked>, n: nat)
    requires DistinctPlaces(candidates) && forall k <- candidates :: k.index < n
    ensures forall d: Detection :: DistinctPlaces(candidates + [Ranked(d, n)])
  {
    assert forall i | 0 <= i < |candidates| :: candidates[i] in candidates;
  }

  lemma SpecLimit(spec: OutputSpec)
    requires spec.Valid()
    ensures spec.maximumDetections > 0
  {
  }

  lemma AllValid(spec: OutputSpec, meta: Letterbox.Metadata, candidates: seq<Ranked>)
    requires forall k <- candidates :: Acceptable(spec, meta, k.detection)
    ensures forall k <- candidates :: k.detection.box.IsValid()
  {
  }

  lemma KeptAcceptable(spec: OutputSpec, meta: Letterbox.Metadata, candidates: seq<Ranked>)
    requires forall k <- candidates :: Acceptable(spec, meta, k.detection)
    ensures var all := Greedy(spec.nmsThreshold, Detections(StableSort(ParserBefore, candidates)));
      && Spread(spec.nmsThreshold, Take(all, spec.maximumDetections))
      && |Take(all, spec.maximumDetections)| <= spec.maximumDetections
      && forall d <- Take(all, spec.maximumDetections) :: InImage(meta, d) && spec.threshold <= d.confidence <= 1.0
  {
    hide StableSort, Greedy, InImage, Iou;
    var ranked := StableSort(ParserBefore, candidates);
    SameElements(ranked, candidates);
    var list := Detections(ranked);
    var at := GreedySelects(spec.nmsThreshold, list);
    var all := Greedy(spec.nmsThreshold, list);
    forall i | 0 <= i < |all| ensures Acceptable(spec, meta, all[i]) {
      assert ranked[at[i]] in ranked;
    }
  }
}
