/** The pipeline over the detections of an image: failure accounting and fail-closed acceptance. */
module RecognitionPipeline {
  import opened Outcomes
  import opened Reals
  import opened Domain
  import opened Grammar
  import opened Sorting
  import opened RecognitionEnsemble
  import Fusion = CandidateFusion
  import Policy = DecisionPolicy

  /** One crop of a detection, and what its providers do. */
  datatype Crop = Crop(
    kind: string,
    quality: real,
    interruption: Option<Error>,
    responses: seq<Response>,
    layout: Result<Fusion.Layout>,
    interruptionAfter: Option<Error>)

  /** One detection, and what the providers between detection and recognition do. */
  datatype Scene = Scene(
    detection: Detection,
    geometry: Result<real>,
    interruptionAfterGeometry: Option<Error>,
    alignment: Result<()>,
    interruptionAfterAlignment: Option<Error>,
    crops: Result<seq<Crop>>,
    interruptionAfterCrops: Option<Error>,
    interruptionAfterDecision: Option<Error>)

  datatype Setup = Setup(
    recognizers: seq<Recognizer>,
    calibrate: (string, real, real, string) -> Result<real>,
    fusion: Fusion.FusionConfig,
    policy: Policy.DecisionConfig)
  {
    predicate Valid() {
      fusion.Valid()
    }
  }

  predicate Fits(setup: Setup, scene: Scene) {
    scene.crops.Success? ==> forall c <- scene.crops.value :: |c.responses| == |setup.recognizers|
  }

  datatype PipelineResult = PipelineResult(
    recognitions: seq<Recognition>,
    failures: seq<ProviderFailure>,
    failureCount: nat,
    degraded: bool)

  /** The accounting invariant: the counter is the list's length, and degraded means the list is not empty. */
  predicate Accounted(p: PipelineResult) {
    p.failureCount == |p.failures| && (p.degraded <==> p.failures != [])
  }

  // ---------------------------------------------------------------- one crop

  function ProviderWeight(recognizers: seq<Recognizer>, source: string): real {
    if recognizers == [] then 1.0
    else if recognizers[0].name == source then
      if recognizers[0].enabled then Clamp01(recognizers[0].weight) else 0.0
    else ProviderWeight(recognizers[1..], source)
  }

  /** Same texts and format verdicts. */
  ghost predicate SameReadings(a: RecognitionEvidence, b: RecognitionEvidence) {
    && a.source == b.source && a.cropQuality == b.cropQuality && |a.candidates| == |b.candidates|
    && forall k | 0 <= k < |a.candidates| ::
         a.candidates[k].text == b.candidates[k].text && a.candidates[k].formatValid == b.candidates[k].formatValid
  }

  function Calibration(setup: Setup, e: RecognitionEvidence, crop: Crop, k: nat): Result<real>
    requires k < |e.candidates|
  {
    setup.calibrate(e.source, e.candidates[k].confidence, crop.quality, crop.kind)
  }

  /** Candidate k with its calibrated confidence, scaled by the recognizer's weight. */
  predicate Recalibrated(setup: Setup, e: RecognitionEvidence, crop: Crop, k: nat, c: PlateCandidate)
    requires k < |e.candidates|
  {
    var calibrated := Calibration(setup, e, crop, k);
    && calibrated.Success?
    && c == e.candidates[k].(calibratedConfidence := Scaled(calibrated.value, ProviderWeight(setup.recognizers, e.source)))
  }

  function Scaled(confidence: real, weight: real): real {
    Clamp01(confidence * weight)
  }

  /** Recomputes the calibrated confidences; a failing calibrator fails the call. */
  method Calibrate(setup: Setup, e: RecognitionEvidence, crop: Crop) returns (r: Result<RecognitionEvidence>)
    ensures r.Success? ==> SameReadings(e, r.value)
    ensures r.Success? ==> forall k | 0 <= k < |e.candidates| :: Recalibrated(setup, e, crop, k, r.value.candidates[k])
    ensures r.Failure? ==> exists k :: 0 <= k < |e.candidates| && Calibration(setup, e, crop, k) == Failure(r.error)
  {
    hide Scaled, ProviderWeight;
    var weight := ProviderWeight(setup.recognizers, e.source);
    var candidates: seq<PlateCandidate> := [];
    for k := 0 to |e.candidates|
      invariant |candidates| == k && forall j | 0 <= j < k :: Recalibrated(setup, e, crop, j, candidates[j])
    {
      var calibrated := Calibration(setup, e, crop, k);
      if calibrated.Failure? {
        return Failure(calibrated.error);
      }
      candidates := candidates + [e.candidates[k].(calibratedConfidence := Scaled(calibrated.value, weight))];
    }
    assert forall k | 0 <= k < |e.candidates| :: Recalibrated(setup, e, crop, k, candidates[k]);
    r := Success(e.(candidates := candidates));
  }

  /** Every recognizer asked about the crop answered, and the layout analysis worked. */
  ghost predicate CleanCrop(setup: Setup, crop: Crop)
    requires |crop.responses| == |setup.recognizers|
  {
    && crop.layout.Success?
    && forall m | 0 <= m < |setup.recognizers| :: !Refuses(setup.recognizers, crop.responses, crop.quality, m)
  }

  /** What one crop adds to the detection. */
  datatype CropReading = CropReading(evidence: seq<RecognitionEvidence>, layout: Fusion.Layout, failures: seq<ProviderFailure>)

  method ReadCrop(setup: Setup, crop: Crop) returns (r: Result<CropReading>)
    requires |crop.responses| == |setup.recognizers|
    ensures r.Success? ==>
      && (forall e <- r.value.evidence ::
            AllOffered(setup.recognizers, crop.responses, e) && e.cropQuality == Clamp01(crop.quality))
      && (r.value.failures == [] <==> CleanCrop(setup, crop))
      && r.value.failures
         == Failures(setup.recognizers, crop.responses, crop.quality, |setup.recognizers|)
            + (if crop.layout.Failure? then [ProviderFailure("layout", ProviderError)] else [])
      && r.value.layout == (if crop.layout.Success? then crop.layout.value else Fusion.Layout(false, 0.0))
  {
    hide Refuses, Consulted, AllOffered, Clamp01;
    var ensemble := RecognitionEnsemble.Recognize(setup.recognizers, crop.responses, crop.quality, crop.interruption);
    if ensemble.Failure? {
      return Failure(ensemble.error);
    }
    EvidenceIsOffered(setup.recognizers, crop.responses, crop.quality, |setup.recognizers|);
    NoFailuresMeansAllHeard(setup.recognizers, crop.responses, crop.quality, |setup.recognizers|);
    var failures := ensemble.value.failures;
    var evidence: seq<RecognitionEvidence> := [];
    for i := 0 to |ensemble.value.evidence|
      invariant forall e <- evidence ::
        AllOffered(setup.recognizers, crop.responses, e) && e.cropQuality == Clamp01(crop.quality)
    {
      var e := ensemble.value.evidence[i];
      assert e in ensemble.value.evidence;
      var calibrated := Calibrate(setup, e, crop);
      if calibrated.Failure? {
        return Failure(calibrated.error);
      }
      StillOffered(setup.recognizers, crop.responses, e, calibrated.value);
      evidence := evidence + [calibrated.value];
    }
    var layout := Fusion.Layout(false, 0.0);
    match crop.layout {
      case Success(found) => layout := found;
      case Failure(error) =>
        if error != ProviderError {
          return Failure(error);
        }
        failures := failures + [ProviderFailure("layout", error)];
    }
    if crop.interruptionAfter.Some? {
      return Failure(crop.interruptionAfter.value);
    }
    r := Success(CropReading(evidence, layout, failures));
  }

  lemma StillOffered(recognizers: seq<Recognizer>, responses: seq<Response>, a: RecognitionEvidence, b: RecognitionEvidence)
    requires |recognizers| == |responses| && AllOffered(recognizers, responses, a) && SameReadings(a, b)
    ensures AllOffered(recognizers, responses, b)
  {
    hide Offered;
    forall c | c in b.candidates ensures Offered(recognizers, responses, c.text, c.formatValid) {
      var k :| 0 <= k < |b.candidates| && b.candidates[k] == c;
      assert a.candidates[k] in a.candidates;
    }
  }

  // ---------------------------------------------------------------- one detection

  function BestQuality(crops: seq<Crop>): real {
    if crops == [] then 0.0
    else Max(BestQuality(crops[..|crops| - 1]), Clamp01(crops[|crops| - 1].quality))
  }

  predicate CropsFit(setup: Setup, crops: seq<Crop>) {
    forall c <- crops :: |c.responses| == |setup.recognizers|
  }

  /** The evidence is some crop's. */
  ghost predicate FromCrop(setup: Setup, crops: seq<Crop>, e: RecognitionEvidence)
    requires CropsFit(setup, crops)
  {
    exists j :: 0 <= j < |crops| && AllOffered(setup.recognizers, crops[j].responses, e)
                && e.cropQuality == Clamp01(crops[j].quality)
  }

  ghost predicate AllClean(setup: Setup, crops: seq<Crop>)
    requires CropsFit(setup, crops)
  {
    forall c <- crops :: CleanCrop(setup, c)
  }

  datatype Readings = Readings(
    evidence: seq<RecognitionEvidence>,
    layouts: seq<Fusion.Layout>,
    bestQuality: real,
    failures: seq<ProviderFailure>)

  method ReadCrops(setup: Setup, crops: seq<Crop>) returns (r: Result<Readings>)
    requires CropsFit(setup, crops)
    ensures r.Success? ==>
      && (forall e <- r.value.evidence :: FromCrop(setup, crops, e))
      && |r.value.layouts| == |r.value.evidence|
      && r.value.bestQuality == BestQuality(crops)
      && (r.value.failures == [] <==> AllClean(setup, crops))
  {
    hide CleanCrop, AllOffered, Clamp01;
    var readings := Readings([], [], 0.0, []);
    for j := 0 to |crops|
      invariant forall e <- readings.evidence :: FromCrop(setup, crops, e)
      invariant |readings.layouts| == |readings.evidence|
      invariant readings.bestQuality == BestQuality(crops[..j])
      invariant readings.failures == [] <==> AllClean(setup, crops[..j])
    {
      var crop := crops[j];
      assert crops[..j + 1] == crops[..j] + [crop] && crops[..j + 1][..j] == crops[..j];
      assert crop in crops;
      var bestQuality := Max(readings.bestQuality, Clamp01(crop.quality));
      var reading := ReadCrop(setup, crop);
      if reading.Failure? {
        return Failure(reading.error);
      }
      forall e | e in reading.value.evidence ensures FromCrop(setup, crops, e) {
        assert AllOffered(setup.recognizers, crops[j].responses, e);
      }
      readings := Readings(readings.evidence + reading.value.evidence,
                           readings.layouts + seq(|reading.value.evidence|, _ => reading.value.layout),
                           bestQuality,
                           readings.failures + reading.value.failures);
    }
    assert crops[..|crops|] == crops;
    r := Success(readings);
  }

  /** No provider failed anywhere in the detection. */
  ghost predicate CleanScene(setup: Setup, scene: Scene)
    requires Fits(setup, scene)
  {
    && scene.geometry.Success? && scene.alignment.Success? && scene.crops.Success?
    && AllClean(setup, scene.crops.value)
  }

  /** Some recognizer that was asked about some crop offered the text as format-valid. */
  ghost predicate ReadFrom(setup: Setup, crops: seq<Crop>, text: string)
    requires CropsFit(setup, crops)
  {
    exists j :: 0 <= j < |crops| && Offered(setup.recognizers, crops[j].responses, text, true)
  }

  /** Everything an accepted recognition stands for. */
  ghost predicate Trustworthy(setup: Setup, scene: Scene, r: Recognition)
    requires Fits(setup, scene)
  {
    && CleanScene(setup, scene)
    && r.detection.confidence == scene.detection.confidence >= setup.policy.minimumDetectorConfidence
    && r.detection.geometryScore == Clamp01(scene.geometry.value) >= setup.policy.minimumGeometryScore
    && r.cropQuality == BestQuality(scene.crops.value) >= setup.policy.minimumCropQuality
    && r.confidence >= setup.policy.acceptedThreshold
    // The text is a recognizer's, read from one of the crops and marked format-valid there ...
    && ReadFrom(setup, scene.crops.value, r.plate)
    // ... and every other format-valid text in the fused list is weak.
    && (exists c <- r.alternatives :: c.text == r.plate && c.formatValid && c.confidence == r.confidence)
    && (forall c <- r.alternatives | c.formatValid && c.text != r.plate ::
          c.confidence < setup.policy.strongConflictThreshold)
  }

  lemma {:induction false} EvidenceQuality(setup: Setup, crops: seq<Crop>, evidence: seq<RecognitionEvidence>)
    requires CropsFit(setup, crops) && forall e <- evidence :: FromCrop(setup, crops, e)
    ensures Policy.BestCrop(evidence) <= BestQuality(crops)
    ensures forall e <- evidence :: 0.0 <= e.cropQuality <= 1.0
  {
    hide AllOffered;
    if evidence == [] {
      QualityBounds(crops, 0);
    } else {
      var n := |evidence| - 1;
      assert forall e <- evidence[..n] :: e in evidence;
      EvidenceQuality(setup, crops, evidence[..n]);
      assert evidence[n] in evidence;
      var j :| 0 <= j < |crops| && evidence[n].cropQuality == Clamp01(crops[j].quality);
      QualityBounds(crops, j);
      assert evidence == evidence[..n] + [evidence[n]];
    }
  }

  lemma {:induction false} QualityBounds(crops: seq<Crop>, j: nat)
    ensures 0.0 <= BestQuality(crops)
    ensures j < |crops| ==> Clamp01(crops[j].quality) <= BestQuality(crops)
  {
    if crops != [] {
      QualityBounds(crops[..|crops| - 1], j);
    }
  }

  /** The fused list: distinct texts, and decisive confidences that are the supports, in range. */
  lemma FusedShape(cfg: Fusion.FusionConfig, evidence: seq<RecognitionEvidence>, layouts: seq<Fusion.Layout>,
                   poll: seq<PlateCandidate>, fused: seq<PlateCandidate>)
    requires cfg.Valid() && Fusion.IsPoll(cfg, evidence, layouts, poll)
    requires fused == if |poll| > cfg.maxCandidates then poll[..cfg.maxCandidates] else poll
    ensures Policy.DistinctTexts(fused)
    ensures forall c <- fused :: c.text != "" && Policy.DecisiveConfidence(c) == c.confidence && 0.0 <= c.confidence <= 1.0
  {
    hide Fusion.CandidateBefore, Fusion.Doubt, Fusion.Mentioned, Fusion.MentionedValid;
    forall c | c in fused
      ensures c.text != "" && Policy.DecisiveConfidence(c) == c.confidence && 0.0 <= c.confidence <= 1.0
    {
      assert c in poll;
      assert Fusion.IsPolled(cfg, evidence, layouts, c);
      Fusion.DoubtRange(cfg, evidence, layouts, |evidence|, c.text);
      MentionedText(cfg, evidence, c.text);
    }
  }

  /** The fused list: distinct texts, decisive confidences in range, and every format-valid one a recognizer's. */
  lemma FusedFacts(setup: Setup, crops: seq<Crop>, evidence: seq<RecognitionEvidence>, layouts: seq<Fusion.Layout>,
                   poll: seq<PlateCandidate>, fused: seq<PlateCandidate>)
    requires setup.Valid() && CropsFit(setup, crops) && forall e <- evidence :: FromCrop(setup, crops, e)
    requires Fusion.IsPoll(setup.fusion, evidence, layouts, poll)
    requires fused == if |poll| > setup.fusion.maxCandidates then poll[..setup.fusion.maxCandidates] else poll
    ensures Policy.DistinctTexts(fused)
    ensures forall c <- fused :: c.text != "" && Policy.DecisiveConfidence(c) == c.confidence && 0.0 <= c.confidence <= 1.0
    ensures forall c <- fused | c.formatValid :: ReadFrom(setup, crops, c.text)
  {
    hide Offered, Fusion.CandidateBefore, Fusion.Doubt, Fusion.Mentioned, Fusion.MentionedValid, FromCrop, ReadFrom;
    FusedShape(setup.fusion, evidence, layouts, poll, fused);
    forall c | c in fused && c.formatValid ensures ReadFrom(setup, crops, c.text) {
      assert c in poll;
      assert Fusion.IsPolled(setup.fusion, evidence, layouts, c);
      ValidTextOffered(setup, crops, evidence, c.text);
    }
  }

  lemma MentionedText(cfg: Fusion.FusionConfig, evidence: seq<RecognitionEvidence>, text: string)
    requires Fusion.Mentioned(cfg, evidence, |evidence|, text)
    ensures text != ""
  {
  }

  lemma ValidTextOffered(setup: Setup, crops: seq<Crop>, evidence: seq<RecognitionEvidence>, text: string)
    requires CropsFit(setup, crops) && forall e <- evidence :: FromCrop(setup, crops, e)
    requires Fusion.MentionedValid(setup.fusion, evidence, |evidence|, text)
    ensures ReadFrom(setup, crops, text)
  {
    hide Offered, Fusion.Usable, Fusion.Counts, Clamp01;
    var i :| 0 <= i < |evidence| && Fusion.Usable(setup.fusion, evidence[i])
             && Fusion.ValidIn(setup.fusion, evidence[i].candidates, |evidence[i].candidates|, text);
    var k :| 0 <= k < |evidence[i].candidates| && evidence[i].candidates[k].text == text && evidence[i].candidates[k].formatValid;
    assert evidence[i] in evidence;
    assert FromCrop(setup, crops, evidence[i]);
    var j :| 0 <= j < |crops| && AllOffered(setup.recognizers, crops[j].responses, evidence[i])
             && evidence[i].cropQuality == Clamp01(crops[j].quality);
    assert evidence[i].candidates[k] in evidence[i].candidates;
  }

  /** Geometry, alignment, crops, recognition, fusion and decision for one detection. */
  method RecognizeScene(setup: Setup, scene: Scene) returns (r: Result<(Recognition, seq<ProviderFailure>)>)
    requires setup.Valid() && Fits(setup, scene)
    ensures r.Success? ==>
      var (recognition, failures) := r.value;
      && (failures == [] <==> CleanScene(setup, scene))
      && (recognition.degraded <==> failures != [])
      && (recognition.status == Accepted ==> Trustworthy(setup, scene, recognition))
  {
    hide AllClean, BestQuality, Clamp01, FromCrop, Policy.Decided, Policy.Sound, Fusion.FusionConfig.Valid;
    var failures: seq<ProviderFailure> := [];
    var detection := scene.detection;
    match scene.geometry {
      case Success(score) => detection := detection.(geometryScore := Clamp01(score));
      case Failure(error) =>
        if error != ProviderError {
          return Failure(error);
        }
        detection := detection.(geometryScore := 0.0);
        failures := failures + [ProviderFailure("geometry", error)];
    }
    if scene.interruptionAfterGeometry.Some? {
      return Failure(scene.interruptionAfterGeometry.value);
    }
    if scene.alignment.Failure? {
      if scene.alignment.error != ProviderError {
        return Failure(scene.alignment.error);
      }
      failures := failures + [ProviderFailure("alignment", scene.alignment.error)];
    }
    if scene.interruptionAfterAlignment.Some? {
      return Failure(scene.interruptionAfterAlignment.value);
    }
    if scene.crops.Failure? {
      return Failure(scene.crops.error);
    }
    if scene.interruptionAfterCrops.Some? {
      return Failure(scene.interruptionAfterCrops.value);
    }
    var crops := scene.crops.value;
    var readings := ReadCrops(setup, crops);
    if readings.Failure? {
      return Failure(readings.error);
    }
    failures := failures + readings.value.failures;
    var fused, poll := Fusion.Fuse(setup.fusion, readings.value.evidence, readings.value.layouts);
    var context := Policy.DecisionContext(failures != [], false, |failures|);
    var decided := Policy.Decide(setup.policy, detection, readings.value.evidence, fused, context);
    if decided.Failure? {
      return Failure(decided.error);
    }
    var recognition := decided.value;
    DecisionIsTrustworthy(setup, scene, detection, readings.value.evidence, readings.value.layouts, poll, fused, context, recognition);
    recognition := recognition.(cropQuality := readings.value.bestQuality, degraded := recognition.degraded || context.degraded);
    if scene.interruptionAfterDecision.Some? {
      return Failure(scene.interruptionAfterDecision.value);
    }
    r := Success((recognition, failures));
  }

  lemma DecisionIsTrustworthy(setup: Setup, scene: Scene, detection: Detection, evidence: seq<RecognitionEvidence>,
                              layouts: seq<Fusion.Layout>, poll: seq<PlateCandidate>, fused: seq<PlateCandidate>,
                              context: Policy.DecisionContext, r: Recognition)
    requires setup.Valid() && Fits(setup, scene) && scene.crops.Success?
    requires forall e <- evidence :: FromCrop(setup, scene.crops.value, e)
    requires Fusion.IsPoll(setup.fusion, evidence, layouts, poll)
    requires fused == if |poll| > setup.fusion.maxCandidates then poll[..setup.fusion.maxCandidates] else poll
    requires Policy.Decided(setup.policy, detection, evidence, fused, context, r)
    requires detection.confidence == scene.detection.confidence
    requires scene.geometry.Success? ==> detection.geometryScore == Clamp01(scene.geometry.value)
    requires context.degraded <==> context.failureCount > 0
    requires context.failureCount == 0 ==> CleanScene(setup, scene)
    ensures r.degraded <==> context.degraded
    ensures r.status == Accepted ==>
      !context.degraded && Trustworthy(setup, scene, r.(cropQuality := BestQuality(scene.crops.value)))
  {
    hide Policy.Ranking, Policy.Conflict, Policy.DecisiveConfidence, Policy.BestCrop, BestQuality, Clamp01, FromCrop, ReadFrom,
      AllClean, Fusion.IsPoll, Fusion.FusionConfig.Valid, Policy.Concern, Policy.Veto, Policy.IsTop;
    DecidedShape(setup.policy, detection, evidence, fused, context, r);
    if r.status == Accepted {
      hide Policy.Decided;
      Policy.AcceptedExactlyIfSafe(setup.policy, detection, evidence, fused, context, r);
      EvidenceQuality(setup, scene.crops.value, evidence);
      FusedFacts(setup, scene.crops.value, evidence, layouts, poll, fused);
      var top :| Policy.IsTop(fused, top) && top.text == r.plate && Policy.DecisiveConfidence(top) == r.confidence;
      NoOtherStrong(setup.policy, fused, top);
    }
  }

  lemma DecidedShape(cfg: Policy.DecisionConfig, d: Detection, evidence: seq<RecognitionEvidence>, fused: seq<PlateCandidate>,
                     context: Policy.DecisionContext, r: Recognition)
    requires Policy.Decided(cfg, d, evidence, fused, context, r)
    ensures r.detection == d && r.alternatives == fused && r.degraded == (context.degraded || context.failureCount > 0)
  {
    hide Policy.Ranking, Policy.Concern, Policy.Veto, Policy.BestCrop;
  }

  /** When the runner-up does not conflict, no other format-valid text of a list with distinct texts is strong. */
  lemma NoOtherStrong(cfg: Policy.DecisionConfig, fused: seq<PlateCandidate>, top: PlateCandidate)
    requires Policy.DistinctTexts(fused) && Policy.IsTop(fused, top) && !Policy.Conflict(cfg, Policy.Ranking(fused))
    requires forall c <- fused :: c.text != "" && Policy.DecisiveConfidence(c) == c.confidence
    ensures top in fused && top.formatValid
    ensures forall c <- fused | c.formatValid && c.text != top.text :: c.confidence < cfg.strongConflictThreshold
  {
    hide Policy.Ranking, Policy.Conflict, Policy.DecisiveConfidence;
    Policy.TopIsCandid(fused, top);
    Policy.RankingFacts(fused);
    var ranking := Policy.Ranking(fused);
    assert top in ranking;
    TopIsUnique(fused, top, ranking[0]);
    Policy.RunnerUpSuffices(cfg, fused);
  }

  lemma TopIsUnique(fused: seq<PlateCandidate>, a: PlateCandidate, b: PlateCandidate)
    requires Policy.IsTop(fused, a) && Policy.IsTop(fused, b)
    ensures a.text == b.text
  {
    TextBeforeTotal(a.text, b.text);
  }

  // ---------------------------------------------------------------- the whole image

  /** What the call as a whole meets: checks of the context, of the image, and the detector. */
  datatype Request = Request(
    interruption: Option<Error>,
    image: Result<()>,
    detections: Result<seq<Scene>>,
    interruptionAfterDetection: Option<Error>)

  ghost predicate Reported(setup: Setup, scenes: seq<Scene>, p: PipelineResult)
    requires forall s <- scenes :: Fits(setup, s)
  {
    && Accounted(p)
    && |p.recognitions| == |scenes|
    && (p.degraded <==> exists k | 0 <= k < |scenes| :: !CleanScene(setup, scenes[k]))
    && forall k | 0 <= k < |scenes| ::
         && (p.recognitions[k].degraded <==> !CleanScene(setup, scenes[k]))
         && (p.recognitions[k].status == Accepted ==> Trustworthy(setup, scenes[k], p.recognitions[k]))
  }

  /** One recognition per detection; the failure list, its count and the degraded flags agree; acceptance fails closed. */
  method Recognize(setup: Setup, request: Request) returns (r: Result<PipelineResult>)
    requires setup.Valid()
    requires request.detections.Success? ==> forall s <- request.detections.value :: Fits(setup, s)
    ensures r.Success? ==> request.detections.Success? && Reported(setup, request.detections.value, r.value)
  {
    hide CleanScene, Trustworthy, Fits, Setup.Valid;
    if request.interruption.Some? {
      return Failure(request.interruption.value);
    }
    if request.image.Failure? {
      return Failure(request.image.error);
    }
    if request.detections.Failure? {
      return Failure(request.detections.error);
    }
    if request.interruptionAfterDetection.Some? {
      return Failure(request.interruptionAfterDetection.value);
    }
    var scenes := request.detections.value;
    var p := PipelineResult([], [], 0, false);
    for k := 0 to |scenes|
      invariant Reported(setup, scenes[..k], p)
    {
      assert scenes[k] in scenes;
      var one := RecognizeScene(setup, scenes[k]);
      if one.Failure? {
        return Failure(one.error);
      }
      var (recognition, failures) := one.value;
      ghost var before := p;
      p := PipelineResult(p.recognitions + [recognition], p.failures + failures, p.failureCount + |failures|,
                          p.degraded || failures != []);
      OneMoreScene(setup, scenes, k, before, recognition, failures, p);
    }
    assert scenes[..|scenes|] == scenes;
    r := Success(p);
  }

  lemma OneMoreScene(setup: Setup, scenes: seq<Scene>, k: nat, before: PipelineResult, recognition: Recognition,
                     failures: seq<ProviderFailure>, after: PipelineResult)
    requires k < |scenes| && forall s <- scenes :: Fits(setup, s)
    requires Reported(setup, scenes[..k], before)
    requires Fits(setup, scenes[k])
    requires failures == [] <==> CleanScene(setup, scenes[k])
    requires recognition.degraded <==> failures != []
    requires recognition.status == Accepted ==> Trustworthy(setup, scenes[k], recognition)
    requires after == PipelineResult(before.recognitions + [recognition], before.failures + failures,
                                     before.failureCount + |failures|, before.degraded || failures != [])
    ensures Reported(setup, scenes[..k + 1], after)
  {
    hide CleanScene, Trustworthy, Fits;
    var all := scenes[..k + 1];
    assert all == scenes[..k] + [scenes[k]];
    assert forall i | 0 <= i < k :: all[i] == scenes[..k][i];
    if exists i | 0 <= i < k :: !CleanScene(setup, scenes[..k][i]) {
      var i :| 0 <= i < k && !CleanScene(setup, scenes[..k][i]);
      assert !CleanScene(setup, all[i]);
    }
    assert all[k] == scenes[k];
  }

  /** With recognizers that call a text format-valid only if the grammar accepts it, as the CTC recognizer does, an
      accepted plate is grammatical. */
  lemma AcceptedPlateIsGrammatical(setup: Setup, scene: Scene, r: Recognition, g: PlateGrammar)
    requires Fits(setup, scene) && r.status == Accepted && Trustworthy(setup, scene, r)
    requires forall crop, m, c | crop in scene.crops.value && 0 <= m < |setup.recognizers|
               && Consulted(setup.recognizers[m]) && crop.responses[m].Success? && c in crop.responses[m].value ::
               c.formatValid ==> Plate(g, c.text)
    ensures Plate(g, r.plate)
  {
    hide Plate, CleanScene, Consulted;
    assert scene.crops.Success? by {
      CleanSceneHasCrops(setup, scene);
    }
    var crops := scene.crops.value;
    var j :| 0 <= j < |crops| && Offered(setup.recognizers, crops[j].responses, r.plate, true);
    assert crops[j] in crops;
    var m, k :| 0 <= m < |setup.recognizers| && Consulted(setup.recognizers[m]) && crops[j].responses[m].Success?
                && 0 <= k < |crops[j].responses[m].value|
                && crops[j].responses[m].value[k].text == r.plate && crops[j].responses[m].value[k].formatValid;
    assert crops[j].responses[m].value[k] in crops[j].responses[m].value;
  }

  lemma TrustworthyHasCrops(setup: Setup, scene: Scene, r: Recognition)
    requires Fits(setup, scene) && Trustworthy(setup, scene, r)
    ensures scene.crops.Success?
  {
  }

  lemma CleanSceneHasCrops(setup: Setup, scene: Scene)
    requires Fits(setup, scene) && CleanScene(setup, scene)
    ensures scene.crops.Success?
  {
  }
}
