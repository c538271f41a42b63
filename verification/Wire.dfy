/** The v1 result format: recognition results, the layout the serializer plans for them, the records as
    they lie in a buffer, and the reader that follows offsets and counts from byte 0. */
module Wire {
  import opened Outcomes
  import opened Machine
  import opened Domain

  type U32 = x: int | 0 <= x < 0x1_0000_0000
  type Text = seq<Byte>

  // ---------------------------------------------------------------- numbers on the wire

  /** Floats are their IEEE-754 binary32 bit patterns. */
  type Float = U32

  predicate Finite(f: Float) {
    (f / 0x80_0000) % 256 != 255
  }

  /** Finite and in [0, 1]: the patterns of +0 to 1, and of -0, which compares equal to 0. */
  predicate Probability(f: Float) {
    f <= 0x3F80_0000 || f == 0x8000_0000
  }

  /** A latency in milliseconds after narrowing to float, or one the v1 format cannot hold. */
  datatype Latency = InRange(bits: Float) | OutOfRange

  // ---------------------------------------------------------------- results

  datatype Candidate = Candidate(text: Text, confidence: Float, calibrated: Float, formatValid: bool)

  datatype Evidence = Evidence(source: Text, candidates: seq<Candidate>, cropQuality: Float, latency: Latency)

  datatype Box = Box(x: Float, y: Float, width: Float, height: Float)

  datatype Corner = Corner(x: Float, y: Float, confidence: Float)

  datatype Quad = Quad(c0: Corner, c1: Corner, c2: Corner, c3: Corner)

  datatype Plate = Plate(
    status: Status,
    plate: Text,
    confidence: Float,
    bbox: Option<Box>,
    quad: Option<Quad>,
    detectorConfidence: Float,
    geometryScore: Float,
    cropQuality: Float,
    evidence: seq<Evidence>,
    alternatives: seq<Candidate>,
    reasons: seq<Reason>,
    degraded: bool,
    latency: Latency)

  datatype PipelineResult = PipelineResult(
    recognitions: seq<Plate>,
    latency: Latency,
    failureCount: nat,
    degraded: bool)

  function StatusCode(s: Status): U32 {
    match s
    case Accepted => 0
    case Review => 1
    case Rejected => 2
  }

  function ReasonCode(r: Reason): U32 {
    match r
    case AcceptedConsensus => 0
    case FatalProviderFailure => 1
    case DegradedProviderSet => 2
    case DetectorConfidenceBelowMinimum => 3
    case GeometryBelowMinimum => 4
    case CropQualityBelowMinimum => 5
    case NoValidCandidate => 6
    case CandidateConfidenceBelowReview => 7
    case CandidateConfidenceBelowAccept => 8
    case ConflictingStrongCandidates => 9
  }

  function Flag(b: bool): U32 {
    if b then 1 else 0
  }

  // ---------------------------------------------------------------- the layout plan

  const ALIGNMENT: nat := 4
  const MAX_RESULT_BYTES: nat := 64 * 1024 * 1024
  const U32_MAX: nat := 0xFFFF_FFFF

  const CANDIDATE_SIZE: nat := 32
  const EVIDENCE_SIZE: nat := 32
  const REASON_SIZE: nat := 4
  const PLATE_SIZE: nat := 140
  const ROOT_SIZE: nat := 32

  /** A reserved byte range [start, end). */
  datatype Region = Region(start: nat, end: nat)

  /** Where writing something from a position on ends and which ranges it reserves, or why it cannot be
      written. It does not depend on a buffer. */
  datatype Plan = Laid(end: nat, regions: seq<Region>) | Refused(error: Error)

  function Align(position: nat): nat {
    if position % ALIGNMENT == 0 then position else position + (ALIGNMENT - position % ALIGNMENT)
  }

  function ReservePlan(position: nat, size: nat): Plan {
    if Align(position) + size > MAX_RESULT_BYTES then Refused(ResourceExhausted)
    else Laid(Align(position) + size, [Region(Align(position), Align(position) + size)])
  }

  /** The plan of doing one thing after another. */
  function Join(first: Plan, second: Plan): Plan {
    if first.Refused? then first
    else if second.Refused? then second
    else Laid(second.end, first.regions + second.regions)
  }

  function EndOf(plan: Plan): nat {
    if plan.Laid? then plan.end else 0
  }

  function Require(condition: bool, error: Error, position: nat): Plan {
    if condition then Laid(position, []) else Refused(error)
  }

  function TextPlan(position: nat, text: Text): Plan {
    if text == [] then Laid(position, []) else ReservePlan(position, |text|)
  }

  function CandidatePlan(position: nat, c: Candidate): Plan {
    var text := TextPlan(position, c.text);
    Join(text, Require(Probability(c.confidence) && Probability(c.calibrated), ProviderError, EndOf(text)))
  }

  function CandidateItemsPlan(position: nat, list: seq<Candidate>): Plan {
    if list == [] then Laid(position, [])
    else
      var front := CandidateItemsPlan(position, list[..|list| - 1]);
      Join(front, CandidatePlan(EndOf(front), list[|list| - 1]))
  }

  function CandidatesPlan(position: nat, list: seq<Candidate>): Plan {
    if list == [] then Laid(position, [])
    else
      var slots := ReservePlan(position, |list| * CANDIDATE_SIZE);
      Join(slots, CandidateItemsPlan(EndOf(slots), list))
  }

  function EvidencePlan(position: nat, e: Evidence): Plan {
    var candidates := CandidatesPlan(position, e.candidates);
    var source := Join(candidates, TextPlan(EndOf(candidates), e.source));
    Join(source, Require(Probability(e.cropQuality) && e.latency.InRange?, ProviderError, EndOf(source)))
  }

  function EvidenceItemsPlan(position: nat, list: seq<Evidence>): Plan {
    if list == [] then Laid(position, [])
    else
      var front := EvidenceItemsPlan(position, list[..|list| - 1]);
      Join(front, EvidencePlan(EndOf(front), list[|list| - 1]))
  }

  function EvidencesPlan(position: nat, list: seq<Evidence>): Plan {
    if list == [] then Laid(position, [])
    else
      var slots := ReservePlan(position, |list| * EVIDENCE_SIZE);
      Join(slots, EvidenceItemsPlan(EndOf(slots), list))
  }

  function ReasonsPlan(position: nat, list: seq<Reason>): Plan {
    if list == [] then Laid(position, []) else ReservePlan(position, |list| * REASON_SIZE)
  }

  predicate CornerOk(c: Corner) {
    Finite(c.x) && Finite(c.y) && Probability(c.confidence)
  }

  predicate QuadOk(q: Quad) {
    CornerOk(q.c0) && CornerOk(q.c1) && CornerOk(q.c2) && CornerOk(q.c3)
  }

  predicate BoxOk(b: Box) {
    Finite(b.x) && Finite(b.y) && Finite(b.width) && Finite(b.height)
  }

  /** The numeric checks of a recognition record, made once its plate text is in place. */
  predicate PlateNumbersOk(p: Plate) {
    && Probability(p.confidence) && Probability(p.detectorConfidence)
    && Probability(p.geometryScore) && Probability(p.cropQuality)
    && p.latency.InRange?
    && (p.bbox.Some? ==> BoxOk(p.bbox.value))
    && (p.quad.Some? ==> QuadOk(p.quad.value))
  }

  function PlatePlan(position: nat, p: Plate): Plan {
    var text := TextPlan(position, p.plate);
    var numbers := Join(text, Require(PlateNumbersOk(p), ProviderError, EndOf(text)));
    var evidence := Join(numbers, EvidencesPlan(EndOf(numbers), p.evidence));
    var alternatives := Join(evidence, CandidatesPlan(EndOf(evidence), p.alternatives));
    Join(alternatives, ReasonsPlan(EndOf(alternatives), p.reasons))
  }

  function PlateItemsPlan(position: nat, list: seq<Plate>): Plan {
    if list == [] then Laid(position, [])
    else
      var front := PlateItemsPlan(position, list[..|list| - 1]);
      Join(front, PlatePlan(EndOf(front), list[|list| - 1]))
  }

  function PlatesPlan(position: nat, list: seq<Plate>): Plan {
    if list == [] then Laid(position, [])
    else
      var slots := ReservePlan(position, |list| * PLATE_SIZE);
      Join(slots, PlateItemsPlan(EndOf(slots), list))
  }

  function ResultPlan(r: PipelineResult): Plan {
    var root := ReservePlan(0, ROOT_SIZE);
    var plates := Join(root, PlatesPlan(EndOf(root), r.recognitions));
    var latency := Join(plates, Require(r.latency.InRange?, ProviderError, EndOf(plates)));
    Join(latency, Require(r.failureCount <= U32_MAX, ResourceExhausted, EndOf(latency)))
  }

  // ---------------------------------------------------------------- what plans look like

  /** Regions follow one another without overlap, start aligned, and lie in [lo, hi). */
  ghost predicate Orderly(regions: seq<Region>, lo: nat, hi: nat) {
    && (forall r <- regions :: lo <= r.start <= r.end <= hi && r.start % ALIGNMENT == 0)
    && (forall i, j | 0 <= i < j < |regions| :: regions[i].end <= regions[j].start)
  }

  ghost predicate Tidy(plan: Plan, position: nat) {
    plan.Laid? ==> position <= plan.end && Orderly(plan.regions, position, plan.end)
  }

  lemma TidyReserve(position: nat, size: nat)
    ensures Tidy(ReservePlan(position, size), position)
    ensures ReservePlan(position, size).Laid? ==> ReservePlan(position, size).end <= MAX_RESULT_BYTES
  {
  }

  lemma TidyJoin(first: Plan, second: Plan, position: nat)
    requires Tidy(first, position) && (first.Laid? ==> Tidy(second, first.end))
    ensures Tidy(Join(first, second), position)
  {
    if first.Laid? && second.Laid? {
      var joined := first.regions + second.regions;
      forall r | r in joined ensures position <= r.start <= r.end <= second.end && r.start % ALIGNMENT == 0 {
        assert r in first.regions || r in second.regions;
      }
      forall i, j | 0 <= i < j < |joined| ensures joined[i].end <= joined[j].start {
        var n := |first.regions|;
        if i < n <= j {
          assert first.regions[i] in first.regions && second.regions[j - n] in second.regions;
        } else if j < n {
          assert joined[i] == first.regions[i] && joined[j] == first.regions[j];
        } else {
          assert joined[i] == second.regions[i - n] && joined[j] == second.regions[j - n];
        }
      }
    }
  }

  lemma {:induction false} TidyCandidateItems(position: nat, list: seq<Candidate>)
    ensures Tidy(CandidateItemsPlan(position, list), position)
  {
    hide Orderly;
    assert Orderly([], position, position) by { EmptyOrderly(position); }
    if list != [] {
      var front := CandidateItemsPlan(position, list[..|list| - 1]);
      TidyCandidateItems(position, list[..|list| - 1]);
      TidyCandidate(EndOf(front), list[|list| - 1]);
      TidyJoin(front, CandidatePlan(EndOf(front), list[|list| - 1]), position);
    }
  }

  lemma EmptyOrderly(position: nat)
    ensures Orderly([], position, position)
  {
  }

  lemma TidyText(position: nat, text: Text)
    ensures Tidy(TextPlan(position, text), position)
  {
  }

  lemma TidyCandidate(position: nat, c: Candidate)
    ensures Tidy(CandidatePlan(position, c), position)
  {
    hide Orderly;
    var text := TextPlan(position, c.text);
    TidyText(position, c.text);
    EmptyOrderly(EndOf(text));
    TidyJoin(text, Require(Probability(c.confidence) && Probability(c.calibrated), ProviderError, EndOf(text)), position);
  }

  lemma TidyCandidates(position: nat, list: seq<Candidate>)
    ensures Tidy(CandidatesPlan(position, list), position)
  {
    hide Orderly;
    EmptyOrderly(position);
    var slots := ReservePlan(position, |list| * CANDIDATE_SIZE);
    TidyReserve(position, |list| * CANDIDATE_SIZE);
    TidyCandidateItems(EndOf(slots), list);
    TidyJoin(slots, CandidateItemsPlan(EndOf(slots), list), position);
  }

  lemma TidyEvidence(position: nat, e: Evidence)
    ensures Tidy(EvidencePlan(position, e), position)
  {
    hide Orderly;
    var candidates := CandidatesPlan(position, e.candidates);
    TidyCandidates(position, e.candidates);
    TidyText(EndOf(candidates), e.source);
    TidyJoin(candidates, TextPlan(EndOf(candidates), e.source), position);
    var source := Join(candidates, TextPlan(EndOf(candidates), e.source));
    EmptyOrderly(EndOf(source));
    TidyJoin(source, Require(Probability(e.cropQuality) && e.latency.InRange?, ProviderError, EndOf(source)), position);
  }

  lemma {:induction false} TidyEvidenceItems(position: nat, list: seq<Evidence>)
    ensures Tidy(EvidenceItemsPlan(position, list), position)
  {
    hide Orderly;
    EmptyOrderly(position);
    if list != [] {
      var front := EvidenceItemsPlan(position, list[..|list| - 1]);
      TidyEvidenceItems(position, list[..|list| - 1]);
      TidyEvidence(EndOf(front), list[|list| - 1]);
      TidyJoin(front, EvidencePlan(EndOf(front), list[|list| - 1]), position);
    }
  }

  lemma TidyEvidences(position: nat, list: seq<Evidence>)
    ensures Tidy(EvidencesPlan(position, list), position)
  {
    hide Orderly;
    EmptyOrderly(position);
    var slots := ReservePlan(position, |list| * EVIDENCE_SIZE);
    TidyReserve(position, |list| * EVIDENCE_SIZE);
    TidyEvidenceItems(EndOf(slots), list);
    TidyJoin(slots, EvidenceItemsPlan(EndOf(slots), list), position);
  }

  lemma TidyReasons(position: nat, list: seq<Reason>)
    ensures Tidy(ReasonsPlan(position, list), position)
  {
    EmptyOrderly(position);
    TidyReserve(position, |list| * REASON_SIZE);
  }

  lemma TidyPlate(position: nat, p: Plate)
    ensures Tidy(PlatePlan(position, p), position)
  {
    hide Orderly;
    var text := TextPlan(position, p.plate);
    TidyText(position, p.plate);
    EmptyOrderly(EndOf(text));
    TidyJoin(text, Require(PlateNumbersOk(p), ProviderError, EndOf(text)), position);
    var numbers := Join(text, Require(PlateNumbersOk(p), ProviderError, EndOf(text)));
    TidyEvidences(EndOf(numbers), p.evidence);
    TidyJoin(numbers, EvidencesPlan(EndOf(numbers), p.evidence), position);
    var evidence := Join(numbers, EvidencesPlan(EndOf(numbers), p.evidence));
    TidyCandidates(EndOf(evidence), p.alternatives);
    TidyJoin(evidence, CandidatesPlan(EndOf(evidence), p.alternatives), position);
    var alternatives := Join(evidence, CandidatesPlan(EndOf(evidence), p.alternatives));
    TidyReasons(EndOf(alternatives), p.reasons);
    TidyJoin(alternatives, ReasonsPlan(EndOf(alternatives), p.reasons), position);
  }

  lemma {:induction false} TidyPlateItems(position: nat, list: seq<Plate>)
    ensures Tidy(PlateItemsPlan(position, list), position)
  {
    hide Orderly, PlatePlan;
    EmptyOrderly(position);
    if list != [] {
      var front := PlateItemsPlan(position, list[..|list| - 1]);
      TidyPlateItems(position, list[..|list| - 1]);
      TidyPlate(EndOf(front), list[|list| - 1]);
      TidyJoin(front, PlatePlan(EndOf(front), list[|list| - 1]), position);
    }
  }

  lemma TidyPlates(position: nat, list: seq<Plate>)
    ensures Tidy(PlatesPlan(position, list), position)
  {
    hide Orderly;
    EmptyOrderly(position);
    var slots := ReservePlan(position, |list| * PLATE_SIZE);
    TidyReserve(position, |list| * PLATE_SIZE);
    TidyPlateItems(EndOf(slots), list);
    TidyJoin(slots, PlateItemsPlan(EndOf(slots), list), position);
  }

  /** The regions reserved for a result are pairwise disjoint, 4-aligned and inside [0, required). */
  lemma TidyResult(r: PipelineResult)
    ensures Tidy(ResultPlan(r), 0)
  {
    hide Orderly;
    var root := ReservePlan(0, ROOT_SIZE);
    TidyReserve(0, ROOT_SIZE);
    TidyPlates(EndOf(root), r.recognitions);
    TidyJoin(root, PlatesPlan(EndOf(root), r.recognitions), 0);
    var plates := Join(root, PlatesPlan(EndOf(root), r.recognitions));
    EmptyOrderly(EndOf(plates));
    TidyJoin(plates, Require(r.latency.InRange?, ProviderError, EndOf(plates)), 0);
    var latency := Join(plates, Require(r.latency.InRange?, ProviderError, EndOf(plates)));
    EmptyOrderly(EndOf(latency));
    TidyJoin(latency, Require(r.failureCount <= U32_MAX, ResourceExhausted, EndOf(latency)), 0);
  }
}
