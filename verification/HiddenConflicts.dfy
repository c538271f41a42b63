/** What the candidate limit can hide from the decision: strong rivals beyond the fused list. */
module HiddenConflicts {
  import opened Reals
  import opened Sorting
  import opened Geometry
  import opened Domain
  import Fusion = CandidateFusion
  import Policy = DecisionPolicy
  import opened RecognitionPipeline

  /** A text other than the plate that counted candidates mention as format-valid, with strong support over all the
      evidence. */
  ghost predicate StrongRival(setup: Setup, evidence: seq<RecognitionEvidence>, layouts: seq<Fusion.Layout>, plate: string,
                              text: string)
    requires setup.Valid()
  {
    && text != plate && Fusion.MentionedValid(setup.fusion, evidence, |evidence|, text)
    && 1.0 - Fusion.Doubt(setup.fusion, evidence, layouts, |evidence|, text) >= setup.policy.strongConflictThreshold
  }

  /** An entry that the limit cuts off is format-valid and strong. */
  predicate CutsOffStrong(setup: Setup, poll: seq<PlateCandidate>) {
    exists m | setup.fusion.maxCandidates <= m < |poll| ::
      poll[m].formatValid && poll[m].confidence >= setup.policy.strongConflictThreshold
  }

  /** The plate is the only format-valid text that the limit lets through. */
  predicate OnlyPlateLeft(fused: seq<PlateCandidate>, plate: string) {
    forall c <- fused :: c.formatValid ==> c.text == plate
  }

  /** What fusion and decision make of the evidence of one detection. */
  ghost predicate Judged(setup: Setup, detection: Detection, evidence: seq<RecognitionEvidence>, layouts: seq<Fusion.Layout>,
                         poll: seq<PlateCandidate>, context: Policy.DecisionContext, r: Recognition)
    requires setup.Valid()
  {
    && Fusion.IsPoll(setup.fusion, evidence, layouts, poll)
    && Policy.Decided(setup.policy, detection, evidence, Head(setup, poll), context, r)
  }

  function Head(setup: Setup, poll: seq<PlateCandidate>): seq<PlateCandidate> {
    if |poll| > setup.fusion.maxCandidates then poll[..setup.fusion.maxCandidates] else poll
  }

  /** Exactly when an accepted plate has a strong format-valid rival somewhere in the evidence: the limit cut off a strong
      format-valid text, and left the plate as the only format-valid one. */
  lemma HiddenConflictExactly(setup: Setup, detection: Detection, evidence: seq<RecognitionEvidence>,
                              layouts: seq<Fusion.Layout>, poll: seq<PlateCandidate>, context: Policy.DecisionContext,
                              r: Recognition)
    requires setup.Valid() && Judged(setup, detection, evidence, layouts, poll, context, r) && r.status == Accepted
    ensures (exists text :: StrongRival(setup, evidence, layouts, r.plate, text))
       <==> CutsOffStrong(setup, poll) && OnlyPlateLeft(Head(setup, poll), r.plate)
  {
    hide Judged, StrongRival, CutsOffStrong, OnlyPlateLeft, Fusion.IsPoll, Fusion.FusionConfig.Valid;
    JudgedOnPoll(setup, detection, evidence, layouts, poll, context, r);
    OthersAreWeak(setup, detection, evidence, layouts, poll, context, r);
    if text :| StrongRival(setup, evidence, layouts, r.plate, text) {
      RivalIsHidden(setup, evidence, layouts, poll, r.plate, text);
    }
    if CutsOffStrong(setup, poll) {
      var text := CutOffIsRival(setup, evidence, layouts, poll, r.plate);
    }
  }

  lemma JudgedOnPoll(setup: Setup, detection: Detection, evidence: seq<RecognitionEvidence>, layouts: seq<Fusion.Layout>,
                     poll: seq<PlateCandidate>, context: Policy.DecisionContext, r: Recognition)
    requires setup.Valid() && Judged(setup, detection, evidence, layouts, poll, context, r)
    ensures Fusion.IsPoll(setup.fusion, evidence, layouts, poll)
  {
  }

  /** The fused list holds the plate, and nothing else in it is format-valid and strong. */
  predicate Uncontested(setup: Setup, fused: seq<PlateCandidate>, plate: string) {
    && (exists top :: top in fused && top.text == plate)
    && forall c <- fused | c.formatValid && c.text != plate :: c.confidence < setup.policy.strongConflictThreshold
  }

  lemma RivalIsHidden(setup: Setup, evidence: seq<RecognitionEvidence>, layouts: seq<Fusion.Layout>,
                      poll: seq<PlateCandidate>, plate: string, text: string)
    requires setup.Valid() && Fusion.IsPoll(setup.fusion, evidence, layouts, poll)
    requires Uncontested(setup, Head(setup, poll), plate) && StrongRival(setup, evidence, layouts, plate, text)
    ensures CutsOffStrong(setup, poll) && OnlyPlateLeft(Head(setup, poll), plate)
  {
    hide Fusion.Doubt, Fusion.Mentioned, Fusion.MentionedValid, Fusion.CandidateBefore, Fusion.FusionConfig.Valid;
    RivalIsCutOff(setup, evidence, layouts, poll, plate, text);
    var m :| setup.fusion.maxCandidates <= m < |poll| && poll[m].text == text;
    assert Fusion.IsPolled(setup.fusion, evidence, layouts, poll[m]);
    var fused := Head(setup, poll);
    forall c | c in fused && c.formatValid ensures c.text == plate {
      var j :| 0 <= j < |fused| && fused[j] == c;
      LaterIsWeaker(poll, j, m);
    }
  }

  lemma CutOffIsRival(setup: Setup, evidence: seq<RecognitionEvidence>, layouts: seq<Fusion.Layout>,
                      poll: seq<PlateCandidate>, plate: string) returns (text: string)
    requires setup.Valid() && Fusion.IsPoll(setup.fusion, evidence, layouts, poll)
    requires Uncontested(setup, Head(setup, poll), plate) && CutsOffStrong(setup, poll)
    ensures StrongRival(setup, evidence, layouts, plate, text)
  {
    hide Fusion.Doubt, Fusion.Mentioned, Fusion.MentionedValid, Fusion.CandidateBefore, Fusion.FusionConfig.Valid;
    var fused := Head(setup, poll);
    var m :| setup.fusion.maxCandidates <= m < |poll|
             && poll[m].formatValid && poll[m].confidence >= setup.policy.strongConflictThreshold;
    assert Fusion.IsPolled(setup.fusion, evidence, layouts, poll[m]);
    var top :| top in fused && top.text == plate;
    var j :| 0 <= j < |fused| && fused[j] == top;
    assert poll[j].text != poll[m].text;
    text := poll[m].text;
  }

  /** So acceptance leaves no strong rival in the whole evidence when nothing was cut off, or when the fused list still
      shows a second format-valid text. */
  lemma NothingHidden(setup: Setup, detection: Detection, evidence: seq<RecognitionEvidence>, layouts: seq<Fusion.Layout>,
                      poll: seq<PlateCandidate>, context: Policy.DecisionContext, r: Recognition, text: string)
    requires setup.Valid() && Judged(setup, detection, evidence, layouts, poll, context, r) && r.status == Accepted
    requires || |poll| <= setup.fusion.maxCandidates
             || exists i, j | 0 <= i < j < |Head(setup, poll)| :: Head(setup, poll)[i].formatValid && Head(setup, poll)[j].formatValid
    ensures !StrongRival(setup, evidence, layouts, r.plate, text)
  {
    hide Policy.Decided, StrongRival;
    HiddenConflictExactly(setup, detection, evidence, layouts, poll, context, r);
    var fused := Head(setup, poll);
    if i, j :| 0 <= i < j < |fused| && fused[i].formatValid && fused[j].formatValid {
      assert poll[i].text != poll[j].text;
      assert fused[i] in fused && fused[j] in fused;
    }
  }

  /** Within the fused list no other format-valid text is strong. */
  lemma OthersAreWeak(setup: Setup, detection: Detection, evidence: seq<RecognitionEvidence>, layouts: seq<Fusion.Layout>,
                      poll: seq<PlateCandidate>, context: Policy.DecisionContext, r: Recognition)
    requires setup.Valid() && Judged(setup, detection, evidence, layouts, poll, context, r) && r.status == Accepted
    ensures Uncontested(setup, Head(setup, poll), r.plate)
  {
    hide Policy.Decided, Policy.Ranking, Policy.Conflict, Policy.DecisiveConfidence, Policy.BestCrop, Policy.IsTop, Fusion.IsPoll,
      Fusion.FusionConfig.Valid, Policy.DistinctTexts;
    var fused := Head(setup, poll);
    Policy.AcceptedExactlyIfSafe(setup.policy, detection, evidence, fused, context, r);
    FusedShape(setup.fusion, evidence, layouts, poll, fused);
    var top :| Policy.IsTop(fused, top) && top.text == r.plate;
    NoOtherStrong(setup.policy, fused, top);
  }

  /** A strong rival that the fused list does not show was cut off. */
  lemma RivalIsCutOff(setup: Setup, evidence: seq<RecognitionEvidence>, layouts: seq<Fusion.Layout>,
                      poll: seq<PlateCandidate>, plate: string, text: string)
    requires setup.Valid() && Fusion.IsPoll(setup.fusion, evidence, layouts, poll)
    requires Uncontested(setup, Head(setup, poll), plate)
    requires StrongRival(setup, evidence, layouts, plate, text)
    ensures exists m :: setup.fusion.maxCandidates <= m < |poll| && poll[m].text == text
  {
    hide Fusion.Doubt, Fusion.Mentioned, Fusion.MentionedValid, Fusion.CandidateBefore;
    ValidIsMentioned(setup.fusion, evidence, text);
    var c :| c in poll && c.text == text;
    assert Fusion.IsPolled(setup.fusion, evidence, layouts, c);
    assert c !in Head(setup, poll);
    var k :| 0 <= k < |poll| && poll[k] == c;
    if k < setup.fusion.maxCandidates {
      HeadHolds(setup, poll, k);
    }
  }

  lemma HeadHolds(setup: Setup, poll: seq<PlateCandidate>, k: nat)
    requires k < |poll| && k < setup.fusion.maxCandidates
    ensures poll[k] in Head(setup, poll)
  {
    assert poll[k] == Head(setup, poll)[k];
  }

  lemma LaterIsWeaker(poll: seq<PlateCandidate>, j: nat, m: nat)
    requires j < m < |poll| && Sorted(Fusion.CandidateBefore, poll)
    ensures poll[m].confidence <= poll[j].confidence
  {
    assert !Fusion.CandidateBefore(poll[m], poll[j]);
  }

  lemma ValidIsMentioned(cfg: Fusion.FusionConfig, evidence: seq<RecognitionEvidence>, text: string)
    requires Fusion.MentionedValid(cfg, evidence, |evidence|, text)
    ensures Fusion.Mentioned(cfg, evidence, |evidence|, text)
  {
    hide Fusion.Usable, Fusion.Counts;
    var i :| 0 <= i < |evidence| && Fusion.Usable(cfg, evidence[i])
             && Fusion.ValidIn(cfg, evidence[i].candidates, |evidence[i].candidates|, text);
    assert Fusion.MentionedIn(cfg, evidence[i].candidates, |evidence[i].candidates|, text);
  }

  // ---------------------------------------------------------------- an accepted plate with a hidden rival

  /** The shipped settings of fusion and decision. */
  function DefaultFusion(): Fusion.FusionConfig {
    Fusion.FusionConfig(5, 1.0, map[], 0.65, 0.15, 0.10, 0.10, 0.01)
  }

  function DefaultPolicy(): Policy.DecisionConfig {
    Policy.DecisionConfig(0.78, 0.55, 0.70, 0.28, 0.20, 0.50)
  }

  /** A reading of one recognizer: a plate, four strong texts of no plate format, and another plate. */
  function CrowdedCandidates(): (candidates: seq<PlateCandidate>)
    ensures |candidates| == 6
  {
    [PlateCandidate("34A1234", 1.0, 1.0, true), PlateCandidate("W", 0.99, 0.99, false), PlateCandidate("X", 0.98, 0.98, false),
     PlateCandidate("Y", 0.97, 0.97, false), PlateCandidate("Z", 0.96, 0.96, false), PlateCandidate("06B1234", 0.95, 0.95, true)]
  }

  function CrowdedReading(): RecognitionEvidence {
    RecognitionEvidence("ocr", CrowdedCandidates(), 1.0)
  }

  const CLEAR := [Fusion.Layout(true, 1.0)]

  /** Each candidate of a single reading counts, and no text comes twice. */
  predicate PlainReading(cfg: Fusion.FusionConfig, e: RecognitionEvidence) {
    && Fusion.Usable(cfg, e)
    && (forall c <- e.candidates :: Fusion.Counts(cfg, c))
    && forall i, j | 0 <= i < j < |e.candidates| :: e.candidates[i].text != e.candidates[j].text
  }

  /** The poll of a single reading: its candidates with their scores. */
  function SinglePoll(cfg: Fusion.FusionConfig, e: RecognitionEvidence, layouts: seq<Fusion.Layout>): (poll: seq<PlateCandidate>)
    requires cfg.Valid()
    ensures |poll| == |e.candidates|
  {
    seq(|e.candidates|, k requires 0 <= k < |e.candidates| =>
      var score := Fusion.Score(cfg, e, Fusion.LayoutQuality(layouts, 0), k);
      PlateCandidate(e.candidates[k].text, score, score, e.candidates[k].formatValid))
  }

  lemma {:induction false} BestScoreOf(cfg: Fusion.FusionConfig, e: RecognitionEvidence, layout: real, n: nat, k: nat)
    requires cfg.Valid() && k < n <= |e.candidates| && PlainReading(cfg, e) && 0.0 <= cfg.SourceWeight(e.source) <= 1.0
    ensures Fusion.BestScore(cfg, e, layout, n, e.candidates[k].text) == Fusion.Score(cfg, e, layout, k)
  {
    hide Fusion.FusionConfig.Valid, Fusion.Counts;
    var text := e.candidates[k].text;
    if k < n - 1 {
      BestScoreOf(cfg, e, layout, n - 1, k);
    } else {
      assert e.candidates[k] in e.candidates;
      assert !Fusion.MentionedIn(cfg, e.candidates, k, text);
      Fusion.SilentCandidates(cfg, e, layout, k, text);
    }
  }

  lemma SinglePolled(cfg: Fusion.FusionConfig, e: RecognitionEvidence, layouts: seq<Fusion.Layout>, k: nat)
    requires cfg.Valid() && k < |e.candidates| && PlainReading(cfg, e)
    ensures Fusion.IsPolled(cfg, [e], layouts, SinglePoll(cfg, e, layouts)[k])
  {
    hide Fusion.FusionConfig.Valid, Fusion.Counts, Fusion.BestScore, Fusion.Score, Fusion.LayoutQuality;
    var text, layout := e.candidates[k].text, Fusion.LayoutQuality(layouts, 0);
    Fusion.WeightRange(cfg, e.source);
    BestScoreOf(cfg, e, layout, |e.candidates|, k);
    assert Fusion.Doubt(cfg, [e], layouts, 0, text) == 1.0;
    assert Fusion.Voice(cfg, [e], layouts, 0, text) == Fusion.Score(cfg, e, layout, k);
    assert Fusion.Doubt(cfg, [e], layouts, 1, text) == 1.0 - Fusion.Score(cfg, e, layout, k);
    assert e.candidates[k] in e.candidates;
    assert Fusion.MentionedIn(cfg, e.candidates, |e.candidates|, text);
    assert e.candidates[k].formatValid <==> Fusion.ValidIn(cfg, e.candidates, |e.candidates|, text);
    assert [e][0] == e;
  }

  lemma SinglePollIs(cfg: Fusion.FusionConfig, e: RecognitionEvidence, layouts: seq<Fusion.Layout>)
    requires cfg.Valid() && PlainReading(cfg, e) && Sorted(Fusion.CandidateBefore, SinglePoll(cfg, e, layouts))
    ensures Fusion.IsPoll(cfg, [e], layouts, SinglePoll(cfg, e, layouts))
  {
    hide Fusion.FusionConfig.Valid, Fusion.Counts, Fusion.Score, Fusion.Doubt, Fusion.CandidateBefore, Fusion.IsPolled;
    var poll := SinglePoll(cfg, e, layouts);
    forall c | c in poll ensures Fusion.IsPolled(cfg, [e], layouts, c) {
      var k :| 0 <= k < |poll| && poll[k] == c;
      SinglePolled(cfg, e, layouts, k);
    }
    forall t | Fusion.Mentioned(cfg, [e], 1, t) ensures exists c <- poll :: c.text == t {
      var k :| 0 <= k < |e.candidates| && e.candidates[k].text == t;
      assert poll[k] in poll;
    }
  }

  lemma {:induction false} RivalAtLeast(candidates: seq<PlateCandidate>, text: string, k: nat)
    requires k < |candidates| && candidates[k].text != text
    ensures Fusion.StrongestRival(candidates, text) >= Fusion.EffectiveConfidence(candidates[k])
  {
    hide Fusion.EffectiveConfidence;
    if k < |candidates| - 1 {
      RivalAtLeast(candidates[..|candidates| - 1], text, k);
    }
  }

  /** Every candidate but the first is less sure than the first. */
  lemma CrowdedMargin(k: nat)
    requires 0 < k < 6
    ensures Fusion.Margin(CrowdedCandidates(), k) == 0.0
  {
    hide Fusion.StrongestRival;
    var candidates := CrowdedCandidates();
    assert candidates[k].text[0] != candidates[0].text[0];
    RivalAtLeast(candidates, candidates[k].text, 0);
  }

  /** Under the shipped weights, on a perfect crop: what a candidate's score is when another one is at least as sure, and
      at least when none is. */
  lemma CrowdedScore(k: nat)
    requires k < 6
    ensures DefaultFusion().Valid()
    ensures var c, score := CrowdedCandidates()[k], Fusion.Score(DefaultFusion(), CrowdedReading(), 1.0, k);
      && score >= 0.25 + 0.65 * c.confidence
      && (k > 0 ==> score == 0.25 + 0.65 * c.confidence)
  {
    hide Fusion.Margin, Fusion.StrongestRival, Fusion.Blend;
    var e := CrowdedReading();
    var c, margin := e.candidates[k], Fusion.Margin(e.candidates, k);
    assert Fusion.EffectiveConfidence(c) == c.confidence;
    if k > 0 {
      CrowdedMargin(k);
    }
    BlendedIs(c.confidence, margin);
    assert DefaultFusion().SourceWeight(e.source) == 1.0;
  }

  lemma BlendedIs(confidence: real, margin: real)
    requires 0.0 <= confidence <= 1.0 && 0.0 <= margin <= 1.0
    ensures DefaultFusion().Valid()
    ensures Fusion.Blend(DefaultFusion(), confidence, 1.0, margin, 1.0) == 0.25 + 0.65 * confidence + 0.10 * margin
  {
  }

  lemma CrowdedIsPlain()
    ensures PlainReading(DefaultFusion(), CrowdedReading())
  {
    var e := CrowdedReading();
    forall i, j | 0 <= i < j < 6 ensures e.candidates[i].text != e.candidates[j].text {
      assert e.candidates[i].text[0] != e.candidates[j].text[0];
    }
  }

  lemma CrowdedDescends(i: nat, j: nat)
    requires i < j < 6
    ensures DefaultFusion().Valid()
    ensures Fusion.Score(DefaultFusion(), CrowdedReading(), 1.0, i) > Fusion.Score(DefaultFusion(), CrowdedReading(), 1.0, j)
  {
    hide Fusion.Score, Fusion.FusionConfig.Valid;
    CrowdedScore(i);
    CrowdedScore(j);
  }

  lemma CrowdedPoll()
    ensures var cfg, e := DefaultFusion(), CrowdedReading(); cfg.Valid() && Fusion.IsPoll(cfg, [e], CLEAR, SinglePoll(cfg, e, CLEAR))
  {
    hide DefaultFusion, CrowdedCandidates, Fusion.Score, Fusion.FusionConfig.Valid, Fusion.IsPoll, PlainReading, TextBefore;
    var cfg, e := DefaultFusion(), CrowdedReading();
    CrowdedIsPlain();
    CrowdedScore(0);
    assert |e.candidates| == 6;
    assert Fusion.LayoutQuality(CLEAR, 0) == 1.0;
    var poll := SinglePoll(cfg, e, CLEAR);
    forall i, j | 0 <= i < j < 6 ensures poll[i].confidence > poll[j].confidence {
      CrowdedDescends(i, j);
    }
    SinglePollIs(cfg, e, CLEAR);
  }

  lemma {:induction false} OnlyFirstRanked(fused: seq<PlateCandidate>)
    requires fused != [] && Policy.Candid(fused[0]) && forall i | 0 < i < |fused| :: !Policy.Candid(fused[i])
    ensures Policy.Filtered(fused) == [fused[0]] && Policy.Ranking(fused) == [fused[0]]
  {
    hide Policy.Candid, Policy.StrongerThan;
    if |fused| == 1 {
      assert Policy.Filtered(fused[..0]) == [];
    } else {
      OnlyFirstRanked(fused[..|fused| - 1]);
    }
    SortedStays(Policy.StrongerThan, Policy.Filtered(fused));
  }

  /** With the plate as the only format-valid text of the fused list, the shipped decision accepts it. */
  lemma LonePlateAccepted(detection: Detection, e: RecognitionEvidence, fused: seq<PlateCandidate>, r: Recognition)
    requires detection.confidence == 0.9 && detection.geometryScore == 0.9 && e.cropQuality == 1.0
    requires fused != [] && Policy.Candid(fused[0]) && forall i | 0 < i < |fused| :: !Policy.Candid(fused[i])
    requires fused[0].calibratedConfidence == fused[0].confidence >= 0.78
    requires r == Recognition(Accepted, fused[0].text, fused[0].confidence, detection, 1.0, [e], fused, [AcceptedConsensus], false)
    ensures Policy.Decided(DefaultPolicy(), detection, [e], fused, Policy.DecisionContext(false, false, 0), r)
  {
    hide Policy.Ranking, Policy.Candid;
    OnlyFirstRanked(fused);
    assert [e][..0] == [] && Policy.BestCrop([]) == 0.0;
    assert Policy.BestCrop([e]) == 1.0;
  }

  /** An input the condition describes, with the shipped settings: the plate is accepted although the recognizer was
      almost as sure of another one, which four strong texts of no plate format push beyond the limit of five. */
  lemma LimitHidesConflict(setup: Setup, detection: Detection)
    requires setup.fusion == DefaultFusion() && setup.policy == DefaultPolicy() && setup.Valid()
    requires detection.confidence == 0.9 && detection.geometryScore == 0.9
    ensures exists evidence, layouts, poll, context, r ::
      && Judged(setup, detection, evidence, layouts, poll, context, r)
      && r.status == Accepted && r.plate == "34A1234" && StrongRival(setup, evidence, layouts, r.plate, "06B1234")
  {
    hide Fusion.Score, Fusion.FusionConfig.Valid, Fusion.IsPoll, Fusion.Doubt, Fusion.MentionedValid, Policy.Decided;
    var cfg, e := DefaultFusion(), CrowdedReading();
    CrowdedPoll();
    CrowdedIsPlain();
    CrowdedScore(0);
    CrowdedScore(5);
    assert Fusion.LayoutQuality(CLEAR, 0) == 1.0;
    var poll := SinglePoll(cfg, e, CLEAR);
    var fused := Head(setup, poll);
    var r := Recognition(Accepted, "34A1234", poll[0].confidence, detection, 1.0, [e], fused, [AcceptedConsensus], false);
    LonePlateAccepted(detection, e, fused, r);
    SinglePolled(cfg, e, CLEAR, 5);
    assert r.plate[0] != poll[5].text[0];
    assert StrongRival(setup, [e], CLEAR, r.plate, poll[5].text);
    assert Judged(setup, detection, [e], CLEAR, poll, Policy.DecisionContext(false, false, 0), r);
  }
}
