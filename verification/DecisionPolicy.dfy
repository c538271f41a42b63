/** The fail-closed decision over a fused candidate list. */
module DecisionPolicy {
  import opened Outcomes
  import opened Reals
  import opened Sorting
  import opened Domain

  datatype DecisionConfig = DecisionConfig(
    acceptedThreshold: real,
    reviewThreshold: real,
    strongConflictThreshold: real,
    minimumCropQuality: real,
    minimumGeometryScore: real,
    minimumDetectorConfidence: real)

  datatype DecisionContext = DecisionContext(degraded: bool, fatal: bool, failureCount: nat)

  /** The policy's own reading of a confidence; outside [0, 1] it is an error. */
  function DecisiveConfidence(c: PlateCandidate): real {
    if c.calibratedConfidence > 0.0 then c.calibratedConfidence else c.confidence
  }

  predicate InUnit(x: real) {
    0.0 <= x <= 1.0
  }

  predicate Sound(evidence: seq<RecognitionEvidence>, fused: seq<PlateCandidate>) {
    (forall e <- evidence :: InUnit(e.cropQuality)) && (forall c <- fused :: InUnit(DecisiveConfidence(c)))
  }

  predicate Candid(c: PlateCandidate) {
    c.formatValid && c.text != ""
  }

  predicate StrongerThan(a: PlateCandidate, b: PlateCandidate) {
    if DecisiveConfidence(a) != DecisiveConfidence(b) then DecisiveConfidence(a) > DecisiveConfidence(b)
    else TextBefore(a.text, b.text)
  }

  lemma StrengthOrder()
    ensures StrictWeakOrder(StrongerThan)
  {
    hide TextBefore, DecisiveConfidence;
    forall a, b | StrongerThan(a, b) ensures !StrongerThan(b, a) {
      TextBeforeTotal(a.text, b.text);
    }
    forall a, b, c | StrongerThan(a, c) ensures StrongerThan(a, b) || StrongerThan(b, c) {
      if DecisiveConfidence(a) == DecisiveConfidence(c) {
        TextBeforeNegativelyTransitive(a.text, b.text, c.text);
      }
    }
  }

  /** The format-valid candidates, strongest first. */
  function Ranking(fused: seq<PlateCandidate>): seq<PlateCandidate> {
    StableSort(StrongerThan, Filtered(fused))
  }

  function Filtered(fused: seq<PlateCandidate>): seq<PlateCandidate> {
    if fused == [] then []
    else
      var n := |fused| - 1;
      Filtered(fused[..n]) + if Candid(fused[n]) then [fused[n]] else []
  }

  /** The candidate every other format-valid one is no stronger than. */
  ghost predicate IsTop(fused: seq<PlateCandidate>, top: PlateCandidate) {
    && top in fused && Candid(top)
    && forall c <- fused | Candid(c) ::
         || DecisiveConfidence(c) < DecisiveConfidence(top)
         || (DecisiveConfidence(c) == DecisiveConfidence(top) && !TextBefore(c.text, top.text))
  }

  /** A different format-valid text that is itself strong. */
  ghost predicate Contested(cfg: DecisionConfig, fused: seq<PlateCandidate>, plate: string) {
    exists c <- fused :: Candid(c) && c.text != plate && DecisiveConfidence(c) >= cfg.strongConflictThreshold
  }

  ghost predicate DistinctTexts(fused: seq<PlateCandidate>) {
    forall i, j | 0 <= i < j < |fused| :: fused[i].text != fused[j].text
  }

  /** What the policy looks at: the runner-up of the ranking. */
  predicate Conflict(cfg: DecisionConfig, ranking: seq<PlateCandidate>) {
    |ranking| > 1 && ranking[1].text != ranking[0].text && DecisiveConfidence(ranking[1]) >= cfg.strongConflictThreshold
  }

  lemma {:induction false} FilteredMembers(fused: seq<PlateCandidate>)
    ensures forall c :: c in Filtered(fused) <==> c in fused && Candid(c)
  {
    hide Candid;
    if fused != [] {
      var n := |fused| - 1;
      FilteredMembers(fused[..n]);
      assert fused == fused[..n] + [fused[n]];
    }
  }

  lemma RankingFacts(fused: seq<PlateCandidate>)
    ensures Sorted(StrongerThan, Ranking(fused))
    ensures forall c :: c in Ranking(fused) <==> c in fused && Candid(c)
    ensures Ranking(fused) != [] ==> IsTop(fused, Ranking(fused)[0])
  {
    hide Candid, TextBefore, DecisiveConfidence;
    FilteredMembers(fused);
    StrengthOrder();
    StableSortSorted(StrongerThan, Filtered(fused));
    var r := Ranking(fused);
    SameElements(Filtered(fused), r);
    if r != [] {
      assert r[0] in r;
      forall c | c in fused && Candid(c) ensures !StrongerThan(c, r[0]) {
        assert c in r;
        var i :| 0 <= i < |r| && r[i] == c;
        StrongerSelf(c);
      }
    }
  }

  lemma StrongerSelf(c: PlateCandidate)
    ensures !StrongerThan(c, c)
  {
    TextBeforeTotal(c.text, c.text);
  }

  /** A repeated top text with a strong other text ranked behind the repetition. */
  ghost predicate Shadowed(cfg: DecisionConfig, ranking: seq<PlateCandidate>) {
    && |ranking| > 1 && ranking[1].text == ranking[0].text
    && exists i | 2 <= i < |ranking| ::
         ranking[i].text != ranking[0].text && DecisiveConfidence(ranking[i]) >= cfg.strongConflictThreshold
  }

  /** Exactly what looking at the runner-up alone misses, for any list: it raises no false alarm, and a strong conflict
      goes unseen iff the top text is repeated at rank 1 and the conflict stands behind the repetition. In particular
      nothing is missed when the top two texts differ. */
  lemma ConflictUnseenExactly(cfg: DecisionConfig, fused: seq<PlateCandidate>)
    requires Ranking(fused) != []
    ensures var r := Ranking(fused);
      && (Conflict(cfg, r) ==> Contested(cfg, fused, r[0].text))
      && (Contested(cfg, fused, r[0].text) && !Conflict(cfg, r) <==> Shadowed(cfg, r))
      && (|r| > 1 && r[1].text != r[0].text ==> (Conflict(cfg, r) <==> Contested(cfg, fused, r[0].text)))
  {
    hide Candid, TextBefore, DecisiveConfidence, Ranking;
    RankingFacts(fused);
    var r := Ranking(fused);
    forall i | 1 <= i < |r| ensures DecisiveConfidence(r[i]) <= DecisiveConfidence(r[1]) && r[i] in fused && Candid(r[i]) {
      assert r[i] in r;
      StrongerSelf(r[i]);
      assert !StrongerThan(r[i], r[1]);
    }
    if Contested(cfg, fused, r[0].text) {
      var c :| c in fused && Candid(c) && c.text != r[0].text && DecisiveConfidence(c) >= cfg.strongConflictThreshold;
      assert c in r;
      var i :| 0 <= i < |r| && r[i] == c;
      assert i == 1 || 2 <= i;
    }
  }

  /** With distinct texts nothing is ever missed. */
  lemma RunnerUpSuffices(cfg: DecisionConfig, fused: seq<PlateCandidate>)
    requires DistinctTexts(fused) && Ranking(fused) != []
    ensures Conflict(cfg, Ranking(fused)) <==> Contested(cfg, fused, Ranking(fused)[0].text)
  {
    hide Candid, TextBefore, DecisiveConfidence, Ranking, Contested;
    ConflictUnseenExactly(cfg, fused);
    var r := Ranking(fused);
    if Shadowed(cfg, r) {
      RankingFacts(fused);
      assert r[0] in r && r[1] in r;
      SameTextSame(fused, r[0], r[1]);
      RankedOnce(fused);
    }
  }

  lemma SameTextSame(fused: seq<PlateCandidate>, a: PlateCandidate, b: PlateCandidate)
    requires DistinctTexts(fused) && a in fused && b in fused && a.text == b.text
    ensures a == b
  {
    var i, j :| 0 <= i < |fused| && 0 <= j < |fused| && fused[i] == a && fused[j] == b;
    assert !(i < j) && !(j < i);
  }

  lemma {:induction false} FilteredDistinct(fused: seq<PlateCandidate>)
    requires DistinctTexts(fused)
    ensures forall i, j | 0 <= i < j < |Filtered(fused)| :: Filtered(fused)[i] != Filtered(fused)[j]
  {
    hide Candid;
    if fused != [] {
      var n := |fused| - 1;
      FilteredDistinct(fused[..n]);
      FilteredMembers(fused[..n]);
      forall i | 0 <= i < |Filtered(fused[..n])| ensures Filtered(fused[..n])[i] != fused[n] {
        assert Filtered(fused[..n])[i] in fused[..n];
      }
    }
  }

  lemma RankedOnce(fused: seq<PlateCandidate>)
    requires DistinctTexts(fused) && |Ranking(fused)| > 1
    ensures Ranking(fused)[0] != Ranking(fused)[1]
  {
    FilteredDistinct(fused);
    OnceEach(Filtered(fused), Ranking(fused), 0, 1);
  }

  /** With a repeated text something can be: an input whose strong conflict stands behind the repetition. */
  lemma RepetitionHidesConflict(cfg: DecisionConfig)
    requires cfg.strongConflictThreshold <= 0.8
    ensures var fused := [PlateCandidate("34A1234", 0.9, 0.9, true), PlateCandidate("34A1234", 0.85, 0.85, true),
                          PlateCandidate("06B1234", 0.8, 0.8, true)];
      && Ranking(fused) == fused && !Conflict(cfg, Ranking(fused)) && Contested(cfg, fused, Ranking(fused)[0].text)
  {
    var a, b, c := PlateCandidate("34A1234", 0.9, 0.9, true), PlateCandidate("34A1234", 0.85, 0.85, true),
                   PlateCandidate("06B1234", 0.8, 0.8, true);
    assert a.text[0] != c.text[0];
    hide Filtered, StableSort, TextBefore, StrongerThan;
    var fused := [a, b, c];
    DescendingIsRanked(a, b, c);
    assert c in fused;
  }

  lemma DescendingIsRanked(a: PlateCandidate, b: PlateCandidate, c: PlateCandidate)
    requires Candid(a) && Candid(b) && Candid(c)
    requires DecisiveConfidence(a) > DecisiveConfidence(b) > DecisiveConfidence(c)
    ensures Ranking([a, b, c]) == [a, b, c]
  {
    hide StableSort, TextBefore, DecisiveConfidence, Filtered, Candid;
    var fused := [a, b, c];
    AllFiltered(fused);
    SortedStays(StrongerThan, fused);
  }

  lemma {:induction false} AllFiltered(fused: seq<PlateCandidate>)
    requires forall c <- fused :: Candid(c)
    ensures Filtered(fused) == fused
  {
    hide Candid;
    if fused != [] {
      AllFiltered(fused[..|fused| - 1]);
      assert fused[|fused| - 1] in fused;
    }
  }

  // ---------------------------------------------------------------- the decision

  /** The best crop quality among the evidence, at least 0. */
  function BestCrop(evidence: seq<RecognitionEvidence>): real {
    if evidence == [] then 0.0
    else Max(BestCrop(evidence[..|evidence| - 1]), evidence[|evidence| - 1].cropQuality)
  }

  /** A reason to reject outright, in the order the policy looks for them. */
  function Veto(cfg: DecisionConfig, d: Detection, ranking: seq<PlateCandidate>, fatal: bool): Option<Reason> {
    if fatal then Some(FatalProviderFailure)
    else if d.confidence < cfg.minimumDetectorConfidence then Some(DetectorConfidenceBelowMinimum)
    else if ranking == [] then Some(NoValidCandidate)
    else if DecisiveConfidence(ranking[0]) < cfg.reviewThreshold then Some(CandidateConfidenceBelowReview)
    else None
  }

  /** Whether a reason to review applies; no other reason is a concern. */
  predicate Concern(cfg: DecisionConfig, d: Detection, ranking: seq<PlateCandidate>, crop: real, degraded: bool, reason: Reason)
    requires ranking != []
  {
    match reason
    case GeometryBelowMinimum => d.geometryScore < cfg.minimumGeometryScore
    case CropQualityBelowMinimum => crop < cfg.minimumCropQuality
    case CandidateConfidenceBelowAccept => DecisiveConfidence(ranking[0]) < cfg.acceptedThreshold
    case ConflictingStrongCandidates => Conflict(cfg, ranking)
    case DegradedProviderSet => degraded
    case _ => false
  }

  /** Everything an acceptance stands for. */
  ghost predicate SafeToAccept(cfg: DecisionConfig, d: Detection, evidence: seq<RecognitionEvidence>, fused: seq<PlateCandidate>,
                               context: DecisionContext, plate: string, confidence: real)
  {
    && !context.fatal && !context.degraded && context.failureCount == 0
    && d.confidence >= cfg.minimumDetectorConfidence
    && d.geometryScore >= cfg.minimumGeometryScore
    && BestCrop(evidence) >= cfg.minimumCropQuality
    && (exists top :: IsTop(fused, top) && top.text == plate && DecisiveConfidence(top) == confidence)
    && confidence >= cfg.acceptedThreshold && confidence >= cfg.reviewThreshold
    && !Conflict(cfg, Ranking(fused))
  }

  ghost predicate Decided(cfg: DecisionConfig, d: Detection, evidence: seq<RecognitionEvidence>, fused: seq<PlateCandidate>,
                          context: DecisionContext, r: Recognition)
  {
    var ranking := Ranking(fused);
    && r.detection == d && r.evidence == evidence && r.alternatives == fused
    && r.degraded == (context.degraded || context.failureCount > 0)
    && r.cropQuality == BestCrop(evidence)
    && (if ranking == [] then r.plate == "" && r.confidence == 0.0
        else r.plate == ranking[0].text && r.confidence == DecisiveConfidence(ranking[0]))
    && match Veto(cfg, d, ranking, context.fatal)
       case Some(reason) => r.status == Rejected && r.reasons == [reason]
       case None =>
         if r.status == Accepted then
           r.reasons == [AcceptedConsensus] && forall x :: !Concern(cfg, d, ranking, r.cropQuality, r.degraded, x)
         else
           && r.status == Review && r.reasons != []
           && forall x :: x in r.reasons <==> Concern(cfg, d, ranking, r.cropQuality, r.degraded, x)
  }

  method Decide(cfg: DecisionConfig, d: Detection, evidence: seq<RecognitionEvidence>, fused: seq<PlateCandidate>,
                context: DecisionContext)
    returns (r: Result<Recognition>)
    ensures if Sound(evidence, fused) then r.Success? else r == Failure(ProviderError)
    ensures r.Success? ==> Decided(cfg, d, evidence, fused, context, r.value)
  {
    hide Candid, Ranking, StableSort, DecisiveConfidence, StrongerThan, BestCrop, InUnit;
    var degraded := context.degraded || context.failureCount > 0;
    var crop := BestCropQuality(evidence);
    if crop.Failure? {
      return Failure(crop.error);
    }
    var valid := RankValid(fused);
    if valid.Failure? {
      return Failure(valid.error);
    }
    var result := Judge(cfg, d, evidence, fused, context, crop.value, valid.value, degraded);
    r := Success(result);
  }

  method BestCropQuality(evidence: seq<RecognitionEvidence>) returns (r: Result<real>)
    ensures if forall e <- evidence :: InUnit(e.cropQuality) then r == Success(BestCrop(evidence)) else r == Failure(ProviderError)
  {
    hide InUnit;
    var crop := 0.0;
    for i := 0 to |evidence|
      invariant crop == BestCrop(evidence[..i])
      invariant forall e <- evidence[..i] :: InUnit(e.cropQuality)
    {
      assert evidence[..i + 1][..i] == evidence[..i] && evidence[i] in evidence;
      if !InUnit(evidence[i].cropQuality) {
        return Failure(ProviderError);
      }
      crop := Max(crop, evidence[i].cropQuality);
    }
    assert evidence[..|evidence|] == evidence;
    r := Success(crop);
  }

  method RankValid(fused: seq<PlateCandidate>) returns (r: Result<seq<PlateCandidate>>)
    ensures if forall c <- fused :: InUnit(DecisiveConfidence(c)) then r == Success(Ranking(fused)) else r == Failure(ProviderError)
  {
    hide InUnit, Candid, DecisiveConfidence, StableSort;
    var valid: seq<PlateCandidate> := [];
    for i := 0 to |fused|
      invariant valid == Filtered(fused[..i])
      invariant forall c <- fused[..i] :: InUnit(DecisiveConfidence(c))
    {
      assert fused[..i + 1][..i] == fused[..i] && fused[i] in fused;
      if !InUnit(DecisiveConfidence(fused[i])) {
        return Failure(ProviderError);
      }
      if Candid(fused[i]) {
        valid := valid + [fused[i]];
      }
    }
    assert fused[..|fused|] == fused;
    r := Success(StableSort(StrongerThan, valid));
  }

  lemma ConcernsAre(cfg: DecisionConfig, d: Detection, ranking: seq<PlateCandidate>, crop: real, degraded: bool,
                    reasons: seq<Reason>)
    requires ranking != []
    requires reasons
      == (if d.geometryScore < cfg.minimumGeometryScore then [GeometryBelowMinimum] else [])
       + (if crop < cfg.minimumCropQuality then [CropQualityBelowMinimum] else [])
       + (if DecisiveConfidence(ranking[0]) < cfg.acceptedThreshold then [CandidateConfidenceBelowAccept] else [])
       + (if Conflict(cfg, ranking) then [ConflictingStrongCandidates] else [])
       + (if degraded then [DegradedProviderSet] else [])
    ensures forall x :: x in reasons <==> Concern(cfg, d, ranking, crop, degraded, x)
  {
    hide DecisiveConfidence, Conflict;
  }

  method Judge(cfg: DecisionConfig, d: Detection, evidence: seq<RecognitionEvidence>, fused: seq<PlateCandidate>,
               context: DecisionContext, crop: real, valid: seq<PlateCandidate>, degraded: bool)
    returns (r: Recognition)
    requires crop == BestCrop(evidence) && valid == Ranking(fused)
    requires degraded == (context.degraded || context.failureCount > 0)
    ensures Decided(cfg, d, evidence, fused, context, r)
  {
    hide Ranking, DecisiveConfidence, BestCrop, Concern;
    var result := Recognition(Rejected, "", 0.0, d, crop, evidence, fused, [], degraded);
    if valid != [] {
      result := result.(plate := valid[0].text, confidence := DecisiveConfidence(valid[0]));
    }
    if context.fatal {
      return result.(reasons := [FatalProviderFailure]);
    }
    if d.confidence < cfg.minimumDetectorConfidence {
      return result.(reasons := [DetectorConfidenceBelowMinimum]);
    }
    if valid == [] {
      return result.(reasons := [NoValidCandidate]);
    }
    if result.confidence < cfg.reviewThreshold {
      return result.(reasons := [CandidateConfidenceBelowReview]);
    }
    var reasons := [];
    if d.geometryScore < cfg.minimumGeometryScore {
      reasons := reasons + [GeometryBelowMinimum];
    }
    if crop < cfg.minimumCropQuality {
      reasons := reasons + [CropQualityBelowMinimum];
    }
    if result.confidence < cfg.acceptedThreshold {
      reasons := reasons + [CandidateConfidenceBelowAccept];
    }
    if |valid| > 1 && valid[1].text != valid[0].text && DecisiveConfidence(valid[1]) >= cfg.strongConflictThreshold {
      reasons := reasons + [ConflictingStrongCandidates];
    }
    if degraded {
      reasons := reasons + [DegradedProviderSet];
    }
    ConcernsAre(cfg, d, valid, crop, degraded, reasons);
    if reasons != [] {
      return result.(status := Review, reasons := reasons);
    }
    r := result.(status := Accepted, reasons := [AcceptedConsensus]);
  }

  /** A recognition is accepted exactly when everything an acceptance stands for holds. */
  lemma AcceptedExactlyIfSafe(cfg: DecisionConfig, d: Detection, evidence: seq<RecognitionEvidence>, fused: seq<PlateCandidate>,
                              context: DecisionContext, r: Recognition)
    requires Decided(cfg, d, evidence, fused, context, r)
    ensures r.status == Accepted <==> SafeToAccept(cfg, d, evidence, fused, context, r.plate, r.confidence)
  {
    hide Candid, StableSort, DecisiveConfidence, Ranking, IsTop;
    RankingFacts(fused);
    var ranking := Ranking(fused);
    if SafeToAccept(cfg, d, evidence, fused, context, r.plate, r.confidence) {
      var top :| IsTop(fused, top) && top.text == r.plate && DecisiveConfidence(top) == r.confidence;
      TopIsCandid(fused, top);
      assert top in ranking;
      assert forall x :: !Concern(cfg, d, ranking, r.cropQuality, r.degraded, x);
      assert r.reasons != [] ==> r.reasons[0] in r.reasons;
    }
    if r.status == Accepted {
      assert IsTop(fused, ranking[0]);
      assert !Concern(cfg, d, ranking, r.cropQuality, r.degraded, GeometryBelowMinimum);
      assert !Concern(cfg, d, ranking, r.cropQuality, r.degraded, CropQualityBelowMinimum);
      assert !Concern(cfg, d, ranking, r.cropQuality, r.degraded, CandidateConfidenceBelowAccept);
      assert !Concern(cfg, d, ranking, r.cropQuality, r.degraded, ConflictingStrongCandidates);
      assert !Concern(cfg, d, ranking, r.cropQuality, r.degraded, DegradedProviderSet);
    }
  }

  lemma TopIsCandid(fused: seq<PlateCandidate>, top: PlateCandidate)
    requires IsTop(fused, top)
    ensures top in fused && Candid(top)
  {
  }
}
