/** Records in a buffer: what it means that a value lies at an offset, that this survives writes
    elsewhere, and the reader that recovers the value. */
module WireReader {
  import opened Outcomes
  import opened Machine
  import opened Domain
  import opened Wire

  type Buffer = seq<Byte>

  // ---------------------------------------------------------------- words

  /** A 32-bit word, least significant byte first. */
  function WordAt(b: Buffer, o: nat): U32
    requires o + 4 <= |b|
  {
    var b0: int, b1: int, b2: int, b3: int := b[o], b[o + 1], b[o + 2], b[o + 3];
    b0 + 0x100 * b1 + 0x1_0000 * b2 + 0x100_0000 * b3
  }

  function WordByte(w: U32, k: nat): Byte
    requires k < 4
  {
    if k == 0 then w % 0x100
    else if k == 1 then w / 0x100 % 0x100
    else if k == 2 then w / 0x1_0000 % 0x100
    else w / 0x100_0000
  }

  lemma WordSplits(w: U32)
    ensures w % 0x100 + 0x100 * (w / 0x100 % 0x100) + 0x1_0000 * (w / 0x1_0000 % 0x100) + 0x100_0000 * (w / 0x100_0000) == w
  {
    var a, b, c := w / 0x100, w / 0x1_0000, w / 0x100_0000;
    assert b == a / 0x100 && c == b / 0x100;
    assert w == 0x100 * a + w % 0x100 && a == 0x100 * b + a % 0x100 && b == 0x100 * c + b % 0x100;
  }

  lemma WordFromBytes(b: Buffer, o: nat, w: U32)
    requires o + 4 <= |b| && forall k | 0 <= k < 4 :: b[o + k] == WordByte(w, k)
    ensures WordAt(b, o) == w
  {
    WordSplits(w);
    assert b[o + 0] == WordByte(w, 0) && b[o + 1] == WordByte(w, 1);
    assert b[o + 2] == WordByte(w, 2) && b[o + 3] == WordByte(w, 3);
  }

  /** The words of a record lie at an offset. */
  ghost predicate WordsAt(b: Buffer, o: nat, ws: seq<U32>) {
    o + 4 * |ws| <= |b| && forall k | 0 <= k < |ws| :: WordAt(b, o + 4 * k) == ws[k]
  }

  /** The buffers hold the same bytes in [lo, hi). */
  ghost predicate Agree(b: Buffer, c: Buffer, lo: nat, hi: nat) {
    |b| == |c| && forall i | lo <= i < hi && i < |b| :: b[i] == c[i]
  }

  lemma WordsFrame(b: Buffer, c: Buffer, o: nat, ws: seq<U32>)
    requires WordsAt(b, o, ws) && Agree(b, c, o, o + 4 * |ws|)
    ensures WordsAt(c, o, ws)
  {
    forall k | 0 <= k < |ws| ensures WordAt(c, o + 4 * k) == ws[k] {
      assert WordAt(b, o + 4 * k) == ws[k];
    }
  }

  // ---------------------------------------------------------------- records

  datatype TextRef = TextRef(offset: U32, length: U32)

  /** A text lies inside [lo, hi); the empty text is the reference (0, 0). */
  ghost predicate TextAt(b: Buffer, t: TextRef, lo: nat, hi: nat, text: Text) {
    if text == [] then t == TextRef(0, 0)
    else
      && lo <= t.offset && t.offset % ALIGNMENT == 0 && t.length == |text|
      && t.offset + |text| <= hi <= |b|
      && b[t.offset..t.offset + |text|] == text
  }

  lemma TextFrame(b: Buffer, c: Buffer, t: TextRef, lo: nat, hi: nat, lo': nat, hi': nat, text: Text)
    requires TextAt(b, t, lo, hi, text) && Agree(b, c, lo, hi) && lo' <= lo && hi <= hi' <= |c|
    ensures TextAt(c, t, lo', hi', text)
  {
    if text != [] {
      assert c[t.offset..t.offset + |text|] == b[t.offset..t.offset + |text|];
    }
  }

  function CandidateRecord(t: TextRef, c: Candidate): seq<U32> {
    [CANDIDATE_SIZE, 1, t.offset, t.length, c.confidence, c.calibrated, Flag(c.formatValid), 0]
  }

  ghost predicate CandidateAt(b: Buffer, o: nat, lo: nat, hi: nat, c: Candidate) {
    && o + CANDIDATE_SIZE <= |b|
    && var t := TextRef(WordAt(b, o + 8), WordAt(b, o + 12));
    WordsAt(b, o, CandidateRecord(t, c)) && TextAt(b, t, lo, hi, c.text)
  }

  ghost predicate CandidateItemsAt(b: Buffer, o: nat, lo: nat, hi: nat, list: seq<Candidate>) {
    forall k | 0 <= k < |list| :: CandidateAt(b, o + CANDIDATE_SIZE * k, lo, hi, list[k])
  }

  /** An array of candidate records and their texts lie in [lo, hi); the empty array is offset 0. */
  ghost predicate CandidatesAt(b: Buffer, o: U32, lo: nat, hi: nat, list: seq<Candidate>) {
    if list == [] then o == 0
    else
      && lo <= o && o % ALIGNMENT == 0 && o + CANDIDATE_SIZE * |list| <= hi <= |b|
      && CandidateItemsAt(b, o, lo, hi, list)
  }

  lemma CandidateFrame(b: Buffer, c: Buffer, o: nat, lo: nat, hi: nat, lo': nat, hi': nat, candidate: Candidate)
    requires CandidateAt(b, o, lo, hi, candidate)
    requires Agree(b, c, o, o + CANDIDATE_SIZE) && Agree(b, c, lo, hi) && lo' <= lo && hi <= hi' <= |c|
    ensures CandidateAt(c, o, lo', hi', candidate)
  {
    var t := TextRef(WordAt(b, o + 8), WordAt(b, o + 12));
    assert TextRef(WordAt(c, o + 8), WordAt(c, o + 12)) == t;
    WordsFrame(b, c, o, CandidateRecord(t, candidate));
    TextFrame(b, c, t, lo, hi, lo', hi', candidate.text);
  }

  lemma CandidateItemsFrame(b: Buffer, c: Buffer, o: nat, lo: nat, hi: nat, lo': nat, hi': nat, list: seq<Candidate>)
    requires CandidateItemsAt(b, o, lo, hi, list)
    requires Agree(b, c, o, o + CANDIDATE_SIZE * |list|) && Agree(b, c, lo, hi) && lo' <= lo && hi <= hi' <= |c|
    ensures CandidateItemsAt(c, o, lo', hi', list)
  {
    hide CandidateAt;
    forall k | 0 <= k < |list| ensures CandidateAt(c, o + CANDIDATE_SIZE * k, lo', hi', list[k]) {
      CandidateFrame(b, c, o + CANDIDATE_SIZE * k, lo, hi, lo', hi', list[k]);
    }
  }

  lemma CandidatesFrame(b: Buffer, c: Buffer, o: U32, lo: nat, hi: nat, lo': nat, hi': nat, list: seq<Candidate>)
    requires CandidatesAt(b, o, lo, hi, list) && Agree(b, c, lo, hi) && lo' <= lo && hi <= hi' <= |c|
    ensures CandidatesAt(c, o, lo', hi', list)
  {
    hide CandidateItemsAt;
    if list != [] {
      CandidateItemsFrame(b, c, o, lo, hi, lo', hi', list);
    }
  }

  function LatencyBits(l: Latency): Float {
    if l.InRange? then l.bits else 0
  }

  function EvidenceRecord(t: TextRef, count: U32, candidates: U32, e: Evidence): seq<U32> {
    [EVIDENCE_SIZE, 1, t.offset, t.length, e.cropQuality, LatencyBits(e.latency), count, candidates]
  }

  ghost predicate EvidenceAt(b: Buffer, o: nat, lo: nat, hi: nat, e: Evidence) {
    && o + EVIDENCE_SIZE <= |b| && |e.candidates| <= U32_MAX && e.latency.InRange?
    && var t, candidates := TextRef(WordAt(b, o + 8), WordAt(b, o + 12)), WordAt(b, o + 28);
    && WordsAt(b, o, EvidenceRecord(t, |e.candidates|, candidates, e))
    && TextAt(b, t, lo, hi, e.source)
    && CandidatesAt(b, candidates, lo, hi, e.candidates)
  }

  ghost predicate EvidenceItemsAt(b: Buffer, o: nat, lo: nat, hi: nat, list: seq<Evidence>) {
    forall k | 0 <= k < |list| :: EvidenceAt(b, o + EVIDENCE_SIZE * k, lo, hi, list[k])
  }

  ghost predicate EvidencesAt(b: Buffer, o: U32, lo: nat, hi: nat, list: seq<Evidence>) {
    if list == [] then o == 0
    else
      && lo <= o && o % ALIGNMENT == 0 && o + EVIDENCE_SIZE * |list| <= hi <= |b|
      && EvidenceItemsAt(b, o, lo, hi, list)
  }

  lemma EvidenceFrame(b: Buffer, c: Buffer, o: nat, lo: nat, hi: nat, lo': nat, hi': nat, e: Evidence)
    requires EvidenceAt(b, o, lo, hi, e)
    requires Agree(b, c, o, o + EVIDENCE_SIZE) && Agree(b, c, lo, hi) && lo' <= lo && hi <= hi' <= |c|
    ensures EvidenceAt(c, o, lo', hi', e)
  {
    hide CandidatesAt;
    var t, candidates := TextRef(WordAt(b, o + 8), WordAt(b, o + 12)), WordAt(b, o + 28);
    assert TextRef(WordAt(c, o + 8), WordAt(c, o + 12)) == t && WordAt(c, o + 28) == candidates;
    WordsFrame(b, c, o, EvidenceRecord(t, |e.candidates|, candidates, e));
    TextFrame(b, c, t, lo, hi, lo', hi', e.source);
    CandidatesFrame(b, c, candidates, lo, hi, lo', hi', e.candidates);
  }

  lemma EvidenceItemsFrame(b: Buffer, c: Buffer, o: nat, lo: nat, hi: nat, lo': nat, hi': nat, list: seq<Evidence>)
    requires EvidenceItemsAt(b, o, lo, hi, list)
    requires Agree(b, c, o, o + EVIDENCE_SIZE * |list|) && Agree(b, c, lo, hi) && lo' <= lo && hi <= hi' <= |c|
    ensures EvidenceItemsAt(c, o, lo', hi', list)
  {
    hide EvidenceAt;
    forall k | 0 <= k < |list| ensures EvidenceAt(c, o + EVIDENCE_SIZE * k, lo', hi', list[k]) {
      EvidenceFrame(b, c, o + EVIDENCE_SIZE * k, lo, hi, lo', hi', list[k]);
    }
  }

  lemma EvidencesFrame(b: Buffer, c: Buffer, o: U32, lo: nat, hi: nat, lo': nat, hi': nat, list: seq<Evidence>)
    requires EvidencesAt(b, o, lo, hi, list) && Agree(b, c, lo, hi) && lo' <= lo && hi <= hi' <= |c|
    ensures EvidencesAt(c, o, lo', hi', list)
  {
    hide EvidenceItemsAt;
    if list != [] {
      EvidenceItemsFrame(b, c, o, lo, hi, lo', hi', list);
    }
  }

  ghost predicate ReasonItemsAt(b: Buffer, o: nat, list: seq<Reason>) {
    o + REASON_SIZE * |list| <= |b| && forall k | 0 <= k < |list| :: WordAt(b, o + REASON_SIZE * k) == ReasonCode(list[k])
  }

  ghost predicate ReasonsAt(b: Buffer, o: U32, lo: nat, hi: nat, list: seq<Reason>) {
    if list == [] then o == 0
    else
      && lo <= o && o % ALIGNMENT == 0 && o + REASON_SIZE * |list| <= hi <= |b|
      && ReasonItemsAt(b, o, list)
  }

  lemma ReasonsFrame(b: Buffer, c: Buffer, o: U32, lo: nat, hi: nat, lo': nat, hi': nat, list: seq<Reason>)
    requires ReasonsAt(b, o, lo, hi, list) && Agree(b, c, lo, hi) && lo' <= lo && hi <= hi' <= |c|
    ensures ReasonsAt(c, o, lo', hi', list)
  {
    if list != [] {
      forall k | 0 <= k < |list| ensures WordAt(c, o + REASON_SIZE * k) == ReasonCode(list[k]) {
        assert WordAt(b, o + REASON_SIZE * k) == ReasonCode(list[k]);
      }
    }
  }

  function BoxWords(b: Option<Box>): seq<U32> {
    match b
    case None => [0, 0, 0, 0, 0]
    case Some(v) => [1, v.x, v.y, v.width, v.height]
  }

  function QuadWords(q: Option<Quad>): seq<U32> {
    match q
    case None => [0, 0, 0, 0, 0, 0, 0, 0, 0, 0, 0, 0, 0]
    case Some(v) => [1, v.c0.x, v.c0.y, v.c1.x, v.c1.y, v.c2.x, v.c2.y, v.c3.x, v.c3.y,
                     v.c0.confidence, v.c1.confidence, v.c2.confidence, v.c3.confidence]
  }

  /** Everything in a recognition record that the record itself decides, and the six words that refer
      to its arrays. */
  function PlateRecord(t: TextRef, evidence: U32, alternatives: U32, reasons: U32, p: Plate): seq<U32>
    requires |p.evidence| <= U32_MAX && |p.alternatives| <= U32_MAX && |p.reasons| <= U32_MAX
  {
    [PLATE_SIZE, 1, StatusCode(p.status), Flag(p.degraded), t.offset, t.length,
     p.confidence, p.detectorConfidence, p.geometryScore, p.cropQuality, LatencyBits(p.latency)]
    + BoxWords(p.bbox) + QuadWords(p.quad)
    + [|p.evidence|, evidence, |p.alternatives|, alternatives, |p.reasons|, reasons]
  }

  ghost predicate PlateAt(b: Buffer, o: nat, lo: nat, hi: nat, p: Plate) {
    && o + PLATE_SIZE <= |b| && p.latency.InRange?
    && |p.evidence| <= U32_MAX && |p.alternatives| <= U32_MAX && |p.reasons| <= U32_MAX
    && var t := TextRef(WordAt(b, o + 16), WordAt(b, o + 20));
    var evidence, alternatives, reasons := WordAt(b, o + 120), WordAt(b, o + 128), WordAt(b, o + 136);
    && WordsAt(b, o, PlateRecord(t, evidence, alternatives, reasons, p))
    && TextAt(b, t, lo, hi, p.plate)
    && EvidencesAt(b, evidence, lo, hi, p.evidence)
    && CandidatesAt(b, alternatives, lo, hi, p.alternatives)
    && ReasonsAt(b, reasons, lo, hi, p.reasons)
  }

  ghost predicate PlateItemsAt(b: Buffer, o: nat, lo: nat, hi: nat, list: seq<Plate>) {
    forall k | 0 <= k < |list| :: PlateAt(b, o + PLATE_SIZE * k, lo, hi, list[k])
  }

  lemma PlateFrame(b: Buffer, c: Buffer, o: nat, lo: nat, hi: nat, lo': nat, hi': nat, p: Plate)
    requires PlateAt(b, o, lo, hi, p)
    requires Agree(b, c, o, o + PLATE_SIZE) && Agree(b, c, lo, hi) && lo' <= lo && hi <= hi' <= |c|
    ensures PlateAt(c, o, lo', hi', p)
  {
    hide CandidatesAt, EvidencesAt, ReasonsAt, BoxWords, QuadWords;
    var t := TextRef(WordAt(b, o + 16), WordAt(b, o + 20));
    var evidence, alternatives, reasons := WordAt(b, o + 120), WordAt(b, o + 128), WordAt(b, o + 136);
    assert TextRef(WordAt(c, o + 16), WordAt(c, o + 20)) == t;
    assert WordAt(c, o + 120) == evidence && WordAt(c, o + 128) == alternatives && WordAt(c, o + 136) == reasons;
    PlateRecordLength(t, evidence, alternatives, reasons, p);
    WordsFrame(b, c, o, PlateRecord(t, evidence, alternatives, reasons, p));
    TextFrame(b, c, t, lo, hi, lo', hi', p.plate);
    EvidencesFrame(b, c, evidence, lo, hi, lo', hi', p.evidence);
    CandidatesFrame(b, c, alternatives, lo, hi, lo', hi', p.alternatives);
    ReasonsFrame(b, c, reasons, lo, hi, lo', hi', p.reasons);
  }

  lemma PlateRecordLength(t: TextRef, evidence: U32, alternatives: U32, reasons: U32, p: Plate)
    requires |p.evidence| <= U32_MAX && |p.alternatives| <= U32_MAX && |p.reasons| <= U32_MAX
    ensures 4 * |PlateRecord(t, evidence, alternatives, reasons, p)| == PLATE_SIZE
  {
    assert |BoxWords(p.bbox)| == 5 && |QuadWords(p.quad)| == 13;
  }

  lemma PlateItemsFrame(b: Buffer, c: Buffer, o: nat, lo: nat, hi: nat, lo': nat, hi': nat, list: seq<Plate>)
    requires PlateItemsAt(b, o, lo, hi, list)
    requires Agree(b, c, o, o + PLATE_SIZE * |list|) && Agree(b, c, lo, hi) && lo' <= lo && hi <= hi' <= |c|
    ensures PlateItemsAt(c, o, lo', hi', list)
  {
    hide PlateAt;
    forall k | 0 <= k < |list| ensures PlateAt(c, o + PLATE_SIZE * k, lo', hi', list[k]) {
      PlateFrame(b, c, o + PLATE_SIZE * k, lo, hi, lo', hi', list[k]);
    }
  }

  function RootRecord(recognitions: U32, r: PipelineResult): seq<U32>
    requires |r.recognitions| <= U32_MAX && r.failureCount <= U32_MAX
  {
    [ROOT_SIZE, 1, |r.recognitions|, recognitions, LatencyBits(r.latency), Flag(r.degraded), r.failureCount, 0]
  }

  /** The whole result lies in the first `hi` bytes, its root record at byte 0. */
  ghost predicate ResultAt(b: Buffer, hi: nat, r: PipelineResult) {
    && ROOT_SIZE <= hi <= |b| && r.latency.InRange?
    && |r.recognitions| <= U32_MAX && r.failureCount <= U32_MAX
    && var o := WordAt(b, 12);
    && WordsAt(b, 0, RootRecord(o, r))
    && (if r.recognitions == [] then o == 0
        else o % ALIGNMENT == 0 && ROOT_SIZE <= o && o + PLATE_SIZE * |r.recognitions| <= hi)
    && PlateItemsAt(b, o, ROOT_SIZE, hi, r.recognitions)
  }

  // ---------------------------------------------------------------- the reader

  function ReadText(b: Buffer, t: TextRef): Option<Text> {
    if t.length == 0 then Some([])
    else if t.offset + t.length <= |b| then Some(b[t.offset..t.offset + t.length])
    else None
  }

  function ReadFlag(w: U32): bool {
    w != 0
  }

  function ReadCandidate(b: Buffer, o: nat): Option<Candidate> {
    if o + CANDIDATE_SIZE > |b| then None
    else
      match ReadText(b, TextRef(WordAt(b, o + 8), WordAt(b, o + 12)))
      case None => None
      case Some(text) =>
        Some(Candidate(text, WordAt(b, o + 16), WordAt(b, o + 20), ReadFlag(WordAt(b, o + 24))))
  }

  function ReadCandidates(b: Buffer, o: nat, count: nat): Option<seq<Candidate>> {
    if count == 0 then Some([])
    else
      match (ReadCandidates(b, o, count - 1), ReadCandidate(b, o + CANDIDATE_SIZE * (count - 1)))
      case (Some(front), Some(last)) => Some(front + [last])
      case _ => None
  }

  function ReadEvidence(b: Buffer, o: nat): Option<Evidence> {
    if o + EVIDENCE_SIZE > |b| then None
    else
      match (ReadText(b, TextRef(WordAt(b, o + 8), WordAt(b, o + 12))), ReadCandidates(b, WordAt(b, o + 28), WordAt(b, o + 24)))
      case (Some(source), Some(candidates)) =>
        Some(Evidence(source, candidates, WordAt(b, o + 16), InRange(WordAt(b, o + 20))))
      case _ => None
  }

  function ReadEvidences(b: Buffer, o: nat, count: nat): Option<seq<Evidence>> {
    if count == 0 then Some([])
    else
      match (ReadEvidences(b, o, count - 1), ReadEvidence(b, o + EVIDENCE_SIZE * (count - 1)))
      case (Some(front), Some(last)) => Some(front + [last])
      case _ => None
  }

  function ReadStatus(w: U32): Option<Status> {
    if w == 0 then Some(Accepted) else if w == 1 then Some(Review) else if w == 2 then Some(Rejected) else None
  }

  function ReadReason(w: U32): Option<Reason> {
    match w
    case 0 => Some(AcceptedConsensus)
    case 1 => Some(FatalProviderFailure)
    case 2 => Some(DegradedProviderSet)
    case 3 => Some(DetectorConfidenceBelowMinimum)
    case 4 => Some(GeometryBelowMinimum)
    case 5 => Some(CropQualityBelowMinimum)
    case 6 => Some(NoValidCandidate)
    case 7 => Some(CandidateConfidenceBelowReview)
    case 8 => Some(CandidateConfidenceBelowAccept)
    case 9 => Some(ConflictingStrongCandidates)
    case _ => None
  }

  function ReadReasons(b: Buffer, o: nat, count: nat): Option<seq<Reason>> {
    if count == 0 then Some([])
    else if o + REASON_SIZE * count > |b| then None
    else
      match (ReadReasons(b, o, count - 1), ReadReason(WordAt(b, o + REASON_SIZE * (count - 1))))
      case (Some(front), Some(last)) => Some(front + [last])
      case _ => None
  }

  function ReadBox(b: Buffer, o: nat): Option<Box>
    requires o + 20 <= |b|
  {
    if WordAt(b, o) == 0 then None
    else Some(Box(WordAt(b, o + 4), WordAt(b, o + 8), WordAt(b, o + 12), WordAt(b, o + 16)))
  }

  function ReadQuad(b: Buffer, o: nat): Option<Quad>
    requires o + 52 <= |b|
  {
    if WordAt(b, o) == 0 then None
    else Some(Quad(
      Corner(WordAt(b, o + 4), WordAt(b, o + 8), WordAt(b, o + 36)),
      Corner(WordAt(b, o + 12), WordAt(b, o + 16), WordAt(b, o + 40)),
      Corner(WordAt(b, o + 20), WordAt(b, o + 24), WordAt(b, o + 44)),
      Corner(WordAt(b, o + 28), WordAt(b, o + 32), WordAt(b, o + 48))))
  }

  function ReadPlate(b: Buffer, o: nat): Option<Plate> {
    if o + PLATE_SIZE > |b| then None
    else
      var text := ReadText(b, TextRef(WordAt(b, o + 16), WordAt(b, o + 20)));
      var evidence := ReadEvidences(b, WordAt(b, o + 120), WordAt(b, o + 116));
      var alternatives := ReadCandidates(b, WordAt(b, o + 128), WordAt(b, o + 124));
      var reasons := ReadReasons(b, WordAt(b, o + 136), WordAt(b, o + 132));
      var status := ReadStatus(WordAt(b, o + 8));
      if text.None? || evidence.None? || alternatives.None? || reasons.None? || status.None? then None
      else Some(Plate(status.value, text.value, WordAt(b, o + 24), ReadBox(b, o + 44), ReadQuad(b, o + 64),
                      WordAt(b, o + 28), WordAt(b, o + 32), WordAt(b, o + 36), evidence.value, alternatives.value,
                      reasons.value, ReadFlag(WordAt(b, o + 12)), InRange(WordAt(b, o + 40))))
  }

  function ReadPlates(b: Buffer, o: nat, count: nat): Option<seq<Plate>> {
    if count == 0 then Some([])
    else
      match (ReadPlates(b, o, count - 1), ReadPlate(b, o + PLATE_SIZE * (count - 1)))
      case (Some(front), Some(last)) => Some(front + [last])
      case _ => None
  }

  /** Follows offsets and counts from byte 0. */
  function ReadResult(b: Buffer): Option<PipelineResult> {
    if ROOT_SIZE > |b| then None
    else
      match ReadPlates(b, WordAt(b, 12), WordAt(b, 8))
      case None => None
      case Some(plates) =>
        Some(PipelineResult(plates, InRange(WordAt(b, 16)), WordAt(b, 24), ReadFlag(WordAt(b, 20))))
  }

  // ---------------------------------------------------------------- the reader recovers what lies there

  lemma TextRecovered(b: Buffer, t: TextRef, lo: nat, hi: nat, text: Text)
    requires TextAt(b, t, lo, hi, text)
    ensures ReadText(b, t) == Some(text)
  {
  }

  lemma CandidateRecovered(b: Buffer, o: nat, lo: nat, hi: nat, c: Candidate)
    requires CandidateAt(b, o, lo, hi, c)
    ensures ReadCandidate(b, o) == Some(c)
  {
    var t := TextRef(WordAt(b, o + 8), WordAt(b, o + 12));
    var ws := CandidateRecord(t, c);
    TextRecovered(b, t, lo, hi, c.text);
    hide WordAt, TextAt, ReadText;
    assert WordAt(b, o + 4 * 4) == ws[4] && WordAt(b, o + 4 * 5) == ws[5] && WordAt(b, o + 4 * 6) == ws[6];
  }

  lemma {:induction false} CandidatesRecovered(b: Buffer, o: nat, lo: nat, hi: nat, list: seq<Candidate>)
    requires CandidateItemsAt(b, o, lo, hi, list)
    ensures ReadCandidates(b, o, |list|) == Some(list)
  {
    hide CandidateAt, ReadCandidate;
    if list != [] {
      var n := |list| - 1;
      assert list == list[..n] + [list[n]];
      CandidatesRecovered(b, o, lo, hi, list[..n]);
      CandidateRecovered(b, o + CANDIDATE_SIZE * n, lo, hi, list[n]);
    }
  }

  lemma EvidenceRecovered(b: Buffer, o: nat, lo: nat, hi: nat, e: Evidence)
    requires EvidenceAt(b, o, lo, hi, e)
    ensures ReadEvidence(b, o) == Some(e)
  {
    hide WordAt, TextAt, ReadText, CandidateItemsAt, ReadCandidates;
    var t, candidates := TextRef(WordAt(b, o + 8), WordAt(b, o + 12)), WordAt(b, o + 28);
    var ws := EvidenceRecord(t, |e.candidates|, candidates, e);
    TextRecovered(b, t, lo, hi, e.source);
    if e.candidates == [] {
      NothingRead(b, candidates);
    } else {
      CandidatesRecovered(b, candidates, lo, hi, e.candidates);
    }
    assert WordAt(b, o + 4 * 4) == ws[4] && WordAt(b, o + 4 * 5) == ws[5] && WordAt(b, o + 4 * 6) == ws[6];
  }

  lemma NothingRead(b: Buffer, o: nat)
    ensures ReadCandidates(b, o, 0) == Some([])
    ensures ReadEvidences(b, o, 0) == Some([])
    ensures ReadReasons(b, o, 0) == Some([])
    ensures ReadPlates(b, o, 0) == Some([])
  {
  }

  lemma {:induction false} EvidencesRecovered(b: Buffer, o: nat, lo: nat, hi: nat, list: seq<Evidence>)
    requires EvidenceItemsAt(b, o, lo, hi, list)
    ensures ReadEvidences(b, o, |list|) == Some(list)
  {
    hide EvidenceAt, ReadEvidence;
    if list != [] {
      var n := |list| - 1;
      assert list == list[..n] + [list[n]];
      EvidencesRecovered(b, o, lo, hi, list[..n]);
      EvidenceRecovered(b, o + EVIDENCE_SIZE * n, lo, hi, list[n]);
    }
  }

  lemma {:induction false} ReasonsRecovered(b: Buffer, o: nat, list: seq<Reason>)
    requires ReasonItemsAt(b, o, list)
    ensures ReadReasons(b, o, |list|) == Some(list)
  {
    hide WordAt;
    if list != [] {
      var n := |list| - 1;
      assert list == list[..n] + [list[n]];
      ReasonsRecovered(b, o, list[..n]);
      assert WordAt(b, o + REASON_SIZE * n) == ReasonCode(list[n]);
    }
  }

  /** Word k of a plate record, section by section. */
  lemma PlateRecordWords(t: TextRef, evidence: U32, alternatives: U32, reasons: U32, p: Plate)
    requires |p.evidence| <= U32_MAX && |p.alternatives| <= U32_MAX && |p.reasons| <= U32_MAX
    ensures var ws := PlateRecord(t, evidence, alternatives, reasons, p);
      && |ws| == 35
      && ws[2] == StatusCode(p.status) && ws[3] == Flag(p.degraded) && ws[4] == t.offset && ws[5] == t.length
      && ws[6] == p.confidence && ws[7] == p.detectorConfidence && ws[8] == p.geometryScore && ws[9] == p.cropQuality
      && ws[10] == LatencyBits(p.latency)
      && ws[11..16] == BoxWords(p.bbox) && ws[16..29] == QuadWords(p.quad)
      && ws[29] == |p.evidence| && ws[30] == evidence && ws[31] == |p.alternatives| && ws[32] == alternatives
      && ws[33] == |p.reasons| && ws[34] == reasons
  {
    assert |BoxWords(p.bbox)| == 5 && |QuadWords(p.quad)| == 13;
  }

  lemma BoxRecovered(b: Buffer, o: nat, box: Option<Box>)
    requires WordsAt(b, o, BoxWords(box))
    ensures ReadBox(b, o) == box
  {
    hide WordAt;
    var ws := BoxWords(box);
    assert WordAt(b, o + 4 * 0) == ws[0] && WordAt(b, o + 4 * 1) == ws[1] && WordAt(b, o + 4 * 2) == ws[2];
    assert WordAt(b, o + 4 * 3) == ws[3] && WordAt(b, o + 4 * 4) == ws[4];
  }

  lemma QuadRecovered(b: Buffer, o: nat, quad: Option<Quad>)
    requires WordsAt(b, o, QuadWords(quad))
    ensures ReadQuad(b, o) == quad
  {
    hide WordAt;
    var ws := QuadWords(quad);
    assert |ws| == 13;
    assert WordAt(b, o + 4 * 0) == ws[0] && WordAt(b, o + 4 * 1) == ws[1] && WordAt(b, o + 4 * 2) == ws[2];
    assert WordAt(b, o + 4 * 3) == ws[3] && WordAt(b, o + 4 * 4) == ws[4] && WordAt(b, o + 4 * 5) == ws[5];
    assert WordAt(b, o + 4 * 6) == ws[6] && WordAt(b, o + 4 * 7) == ws[7] && WordAt(b, o + 4 * 8) == ws[8];
    assert WordAt(b, o + 4 * 9) == ws[9] && WordAt(b, o + 4 * 10) == ws[10] && WordAt(b, o + 4 * 11) == ws[11];
    assert WordAt(b, o + 4 * 12) == ws[12];
  }

  lemma WordsSlice(b: Buffer, o: nat, ws: seq<U32>, i: nat, j: nat)
    requires WordsAt(b, o, ws) && i <= j <= |ws|
    ensures WordsAt(b, o + 4 * i, ws[i..j])
  {
    forall k | 0 <= k < j - i ensures WordAt(b, o + 4 * i + 4 * k) == ws[i..j][k] {
      assert WordAt(b, o + 4 * (i + k)) == ws[i + k];
    }
  }

  /** The words of a plate record as they lie in the buffer. */
  lemma PlateWordsInBuffer(b: Buffer, o: nat, lo: nat, hi: nat, p: Plate)
    requires PlateAt(b, o, lo, hi, p)
    ensures WordAt(b, o + 8) == StatusCode(p.status) && WordAt(b, o + 12) == Flag(p.degraded)
    ensures WordAt(b, o + 24) == p.confidence && WordAt(b, o + 28) == p.detectorConfidence
    ensures WordAt(b, o + 32) == p.geometryScore && WordAt(b, o + 36) == p.cropQuality
    ensures InRange(WordAt(b, o + 40)) == p.latency
    ensures WordsAt(b, o + 44, BoxWords(p.bbox)) && WordsAt(b, o + 64, QuadWords(p.quad))
    ensures WordAt(b, o + 116) == |p.evidence| && WordAt(b, o + 124) == |p.alternatives| && WordAt(b, o + 132) == |p.reasons|
  {
    hide WordAt, TextAt, EvidencesAt, CandidatesAt, ReasonsAt, PlateRecord, BoxWords, QuadWords;
    var t := TextRef(WordAt(b, o + 16), WordAt(b, o + 20));
    var evidence, alternatives, reasons := WordAt(b, o + 120), WordAt(b, o + 128), WordAt(b, o + 136);
    var ws := PlateRecord(t, evidence, alternatives, reasons, p);
    PlateRecordWords(t, evidence, alternatives, reasons, p);
    WordsSlice(b, o, ws, 11, 16);
    WordsSlice(b, o, ws, 16, 29);
    assert WordAt(b, o + 4 * 2) == ws[2] && WordAt(b, o + 4 * 3) == ws[3] && WordAt(b, o + 4 * 6) == ws[6];
    assert WordAt(b, o + 4 * 7) == ws[7] && WordAt(b, o + 4 * 8) == ws[8] && WordAt(b, o + 4 * 9) == ws[9];
    assert WordAt(b, o + 4 * 10) == ws[10] && WordAt(b, o + 4 * 29) == ws[29];
    assert WordAt(b, o + 4 * 31) == ws[31] && WordAt(b, o + 4 * 33) == ws[33];
  }

  lemma PlateRecovered(b: Buffer, o: nat, lo: nat, hi: nat, p: Plate)
    requires PlateAt(b, o, lo, hi, p)
    ensures ReadPlate(b, o) == Some(p)
  {
    hide WordAt, WordsAt, TextAt, ReadText, EvidenceItemsAt, CandidateItemsAt, ReasonItemsAt, PlateRecord,
         ReadBox, ReadQuad, ReadEvidences, ReadCandidates, ReadReasons, BoxWords, QuadWords;
    PlateWordsInBuffer(b, o, lo, hi, p);
    TextRecovered(b, TextRef(WordAt(b, o + 16), WordAt(b, o + 20)), lo, hi, p.plate);
    BoxRecovered(b, o + 44, p.bbox);
    QuadRecovered(b, o + 64, p.quad);
    NothingRead(b, 0);
    if p.evidence != [] {
      EvidencesRecovered(b, WordAt(b, o + 120), lo, hi, p.evidence);
    }
    if p.alternatives != [] {
      CandidatesRecovered(b, WordAt(b, o + 128), lo, hi, p.alternatives);
    }
    if p.reasons != [] {
      ReasonsRecovered(b, WordAt(b, o + 136), p.reasons);
    }
  }

  lemma {:induction false} PlatesRecovered(b: Buffer, o: nat, lo: nat, hi: nat, list: seq<Plate>)
    requires PlateItemsAt(b, o, lo, hi, list)
    ensures ReadPlates(b, o, |list|) == Some(list)
  {
    hide PlateAt, ReadPlate;
    if list != [] {
      var n := |list| - 1;
      assert list == list[..n] + [list[n]];
      PlatesRecovered(b, o, lo, hi, list[..n]);
      PlateRecovered(b, o + PLATE_SIZE * n, lo, hi, list[n]);
    }
  }

  /** Round trip: following offsets and counts from byte 0 recovers the whole result. */
  lemma ResultRecovered(b: Buffer, hi: nat, r: PipelineResult)
    requires ResultAt(b, hi, r)
    ensures ReadResult(b) == Some(r)
  {
    hide WordAt, PlateItemsAt, ReadPlates;
    var ws := RootRecord(WordAt(b, 12), r);
    assert WordAt(b, 0 + 4 * 2) == ws[2] && WordAt(b, 0 + 4 * 4) == ws[4];
    assert WordAt(b, 0 + 4 * 5) == ws[5] && WordAt(b, 0 + 4 * 6) == ws[6];
    PlatesRecovered(b, WordAt(b, 12), ROOT_SIZE, hi, r.recognitions);
  }
}
