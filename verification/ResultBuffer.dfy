/** The result serializer: a bump allocator over a caller's buffer, run once without a buffer to size the
    output and once more to write it. */
module ResultBuffer {
  import opened Outcomes
  import opened Machine
  import opened Domain
  import opened Wire
  import opened WireReader

  datatype Unit = Unit

  // ---------------------------------------------------------------- what a method may touch

  ghost predicate Covered(regions: seq<Region>, i: nat) {
    exists r <- regions :: r.start <= i < r.end
  }

  /** Only bytes inside the regions may differ. */
  ghost predicate Untouched(b: Buffer, c: Buffer, regions: seq<Region>) {
    |b| == |c| && forall i | 0 <= i < |b| && !Covered(regions, i) :: b[i] == c[i]
  }

  lemma UntouchedNothing(b: Buffer)
    ensures Untouched(b, b, [])
  {
  }

  lemma UntouchedJoin(a: Buffer, b: Buffer, c: Buffer, r: seq<Region>, s: seq<Region>)
    requires Untouched(a, b, r) && Untouched(b, c, s)
    ensures Untouched(a, c, r + s)
  {
    forall i | 0 <= i < |a| && !Covered(r + s, i) ensures a[i] == c[i] {
      assert Covered(r, i) ==> Covered(r + s, i);
      assert Covered(s, i) ==> Covered(r + s, i);
    }
  }

  lemma AgreeSelf(b: Buffer, lo: nat, hi: nat)
    ensures Agree(b, b, lo, hi)
  {
  }

  lemma UntouchedRange(b: Buffer, c: Buffer, regions: seq<Region>, lo: nat, hi: nat)
    requires Agree(b, c, 0, lo) && Agree(b, c, hi, |b|)
    requires exists r <- regions :: r.start <= lo && hi <= r.end
    ensures Untouched(b, c, regions)
  {
    var r :| r in regions && r.start <= lo && hi <= r.end;
    forall i | lo <= i < hi ensures Covered(regions, i) {
    }
  }

  lemma UntouchedAgree(b: Buffer, c: Buffer, regions: seq<Region>, lo: nat, hi: nat, x: nat, y: nat)
    requires Untouched(b, c, regions) && Orderly(regions, lo, hi) && (y <= lo || hi <= x)
    ensures Agree(b, c, x, y)
  {
  }

  /** Writing the value that was appended last (its own regions) and then its slot in the array. */
  lemma UntouchedStep(a: Buffer, b: Buffer, c: Buffer, d: Buffer,
                      slots: seq<Region>, items: seq<Region>, added: seq<Region>, lo: nat, hi: nat)
    requires Untouched(a, b, slots + items) && Untouched(b, c, added)
    requires Agree(c, d, 0, lo) && Agree(c, d, hi, |d|)
    requires exists r <- slots :: r.start <= lo && hi <= r.end
    ensures Untouched(a, d, slots + (items + added))
  {
    UntouchedJoin(a, b, c, slots + items, added);
    UntouchedRange(c, d, slots, lo, hi);
    forall i | 0 <= i < |a| && !Covered(slots + (items + added), i) ensures a[i] == d[i] {
      assert Covered(slots + items + added, i) ==> Covered(slots + (items + added), i);
      assert Covered(slots, i) ==> Covered(slots + (items + added), i);
    }
  }

  // ---------------------------------------------------------------- the writer

  class BufferWriter {
    const bytes: array?<Byte>
    const capacity: nat
    var position: nat

    ghost predicate Valid()
      reads this
    {
      (bytes != null ==> bytes.Length == capacity) && position <= MAX_RESULT_BYTES
    }

    function Memory(): Buffer
      reads this, bytes
    {
      if bytes == null then [] else bytes[..]
    }

    /** A plan can be carried out: the sizing pass tries any, the writing pass one that is known to fit. */
    ghost predicate Fits(plan: Plan)
      reads this
    {
      bytes != null ==> plan.Laid? && plan.end <= capacity
    }

    constructor (buffer: array?<Byte>, size: nat)
      requires buffer != null ==> buffer.Length == size
      ensures Valid() && bytes == buffer && capacity == size && position == 0
    {
      bytes := buffer;
      capacity := size;
      position := 0;
    }

    /** The source also guards the addition against wrapping; the assertion says the guard never fires. */
    method AlignPosition(value: nat) returns (aligned: nat)
      requires value <= MAX_RESULT_BYTES
      ensures aligned == Align(value)
    {
      var remainder := value % ALIGNMENT;
      if remainder == 0 {
        return value;
      }
      var padding := ALIGNMENT - remainder;
      assert padding <= SIZE_MAX - value;
      return value + padding;
    }

    method Reserve(size: nat) returns (r: Result<U32>)
      requires Valid()
      modifies `position
      ensures Valid()
      ensures var plan := ReservePlan(old(position), size);
        && (plan.Refused? ==> r == Failure(plan.error))
        && (plan.Laid? && bytes != null && plan.end > capacity ==> r == Failure(ResourceExhausted))
        && (plan.Laid? && (bytes != null ==> plan.end <= capacity) ==>
              r == Success(Align(old(position))) && position == plan.end)
        && (r.Failure? ==> position == old(position))
    {
      var aligned := AlignPosition(position);
      if size > SIZE_MAX - aligned {
        return Failure(ResourceExhausted);
      }
      var end := aligned + size;
      if end > MAX_RESULT_BYTES {
        return Failure(ResourceExhausted);
      }
      assert end <= U32_MAX;
      if bytes != null && end > capacity {
        return Failure(ResourceExhausted);
      }
      position := end;
      return Success(aligned);
    }

    /** Copies a record, word by word. */
    method Write(offset: U32, ws: seq<U32>) returns (r: Result<Unit>)
      requires Valid()
      modifies bytes
      ensures bytes == null ==> r == Success(Unit)
      ensures bytes != null ==> (r.Success? <==> offset + 4 * |ws| <= capacity)
      ensures r.Failure? ==> Memory() == old(Memory()) && r == Failure(ResourceExhausted)
      ensures bytes != null && r.Success? ==>
        && WordsAt(Memory(), offset, ws)
        && Agree(old(Memory()), Memory(), 0, offset)
        && Agree(old(Memory()), Memory(), offset + 4 * |ws|, |Memory()|)
    {
      if bytes == null {
        return Success(Unit);
      }
      if offset > capacity || 4 * |ws| > capacity - offset {
        return Failure(ResourceExhausted);
      }
      for k := 0 to |ws|
        invariant forall j | 0 <= j < k :: WordAt(bytes[..], offset + 4 * j) == ws[j]
        invariant forall i | 0 <= i < bytes.Length && (i < offset || offset + 4 * k <= i) :: bytes[i] == old(bytes[i])
      {
        ghost var before := bytes[..];
        var o := offset + 4 * k;
        bytes[o] := WordByte(ws[k], 0);
        bytes[o + 1] := WordByte(ws[k], 1);
        bytes[o + 2] := WordByte(ws[k], 2);
        bytes[o + 3] := WordByte(ws[k], 3);
        assert forall j | 0 <= j < 4 :: bytes[..][o + j] == WordByte(ws[k], j);
        WordFromBytes(bytes[..], o, ws[k]);
        forall j | 0 <= j < k ensures WordAt(bytes[..], offset + 4 * j) == ws[j] {
          assert WordAt(before, offset + 4 * j) == ws[j];
        }
      }
      return Success(Unit);
    }

    method WriteBytes(offset: U32, value: Text) returns (r: Result<Unit>)
      requires Valid()
      modifies bytes
      ensures bytes == null || value == [] ==> r == Success(Unit) && Memory() == old(Memory())
      ensures bytes != null && value != [] ==> (r.Success? <==> offset + |value| <= capacity)
      ensures r.Failure? ==> Memory() == old(Memory()) && r == Failure(ResourceExhausted)
      ensures bytes != null && value != [] && r.Success? ==>
        && Memory()[offset..offset + |value|] == value
        && Agree(old(Memory()), Memory(), 0, offset)
        && Agree(old(Memory()), Memory(), offset + |value|, |Memory()|)
    {
      if bytes == null || value == [] {
        return Success(Unit);
      }
      if offset > capacity || |value| > capacity - offset {
        return Failure(ResourceExhausted);
      }
      for k := 0 to |value|
        invariant forall j | 0 <= j < k :: bytes[offset + j] == value[j]
        invariant forall i | 0 <= i < bytes.Length && (i < offset || offset + k <= i) :: bytes[i] == old(bytes[i])
      {
        bytes[offset + k] := value[k];
      }
      return Success(Unit);
    }
  }

  // ---------------------------------------------------------------- appending

  function TextRefFor(position: nat, text: Text): TextRef
    requires TextPlan(position, text).Laid?
  {
    if text == [] then TextRef(0, 0) else TextRef(Align(position), |text|)
  }

  method AppendText(w: BufferWriter, text: Text) returns (r: Result<TextRef>)
    requires w.Valid() && w.Fits(TextPlan(w.position, text))
    modifies w`position, w.bytes
    ensures w.Valid()
    ensures var plan := TextPlan(old(w.position), text);
      && (plan.Refused? ==> r == Failure(plan.error))
      && (plan.Laid? ==> r == Success(TextRefFor(old(w.position), text)) && w.position == plan.end)
      && (w.bytes != null ==>
           && Untouched(old(w.Memory()), w.Memory(), plan.regions)
           && TextAt(w.Memory(), r.value, old(w.position), plan.end, text))
  {
    ghost var before := w.Memory();
    UntouchedNothing(before);
    if text == [] {
      return Success(TextRef(0, 0));
    }
    var offset :- w.Reserve(|text|);
    var written := w.WriteBytes(offset, text);
    assert written.Success?;
    if w.bytes != null {
      UntouchedRange(before, w.Memory(), ReservePlan(old(w.position), |text|).regions, offset, offset + |text|);
    }
    return Success(TextRef(offset, |text|));
  }

  // ---------------------------------------------------------------- plans of lists, from the front

  /** A list that is laid out whole has every prefix laid out, within the same end. */
  lemma {:induction false} CandidatePrefix(position: nat, list: seq<Candidate>, n: nat)
    requires n <= |list|
    ensures CandidateItemsPlan(position, list[..n]).Refused? ==>
      CandidateItemsPlan(position, list) == CandidateItemsPlan(position, list[..n])
    ensures CandidateItemsPlan(position, list).Laid? ==>
      CandidateItemsPlan(position, list[..n]).Laid?
      && CandidateItemsPlan(position, list[..n]).end <= CandidateItemsPlan(position, list).end
  {
    hide CandidatePlan;
    if n < |list| {
      var front := list[..|list| - 1];
      CandidatePrefix(position, front, n);
      assert front[..n] == list[..n];
      TidyCandidate(EndOf(CandidateItemsPlan(position, front)), list[|list| - 1]);
    } else {
      assert list[..n] == list;
    }
  }

  lemma CandidateNext(position: nat, list: seq<Candidate>, n: nat)
    requires n < |list|
    ensures var front := CandidateItemsPlan(position, list[..n]);
      CandidateItemsPlan(position, list[..n + 1]) == Join(front, CandidatePlan(EndOf(front), list[n]))
  {
    assert list[..n + 1][..n] == list[..n];
  }

  // ---------------------------------------------------------------- candidates

  /** Appends the candidate's text and checks its numbers; the record itself is written by the caller. */
  method SerializeCandidate(w: BufferWriter, c: Candidate) returns (r: Result<TextRef>)
    requires w.Valid() && w.Fits(CandidatePlan(w.position, c))
    modifies w`position, w.bytes
    ensures w.Valid()
    ensures var plan := CandidatePlan(old(w.position), c);
      && (plan.Refused? ==> r == Failure(plan.error))
      && (plan.Laid? ==> r.Success? && w.position == plan.end)
      && (w.bytes != null ==>
           && Untouched(old(w.Memory()), w.Memory(), plan.regions)
           && TextAt(w.Memory(), r.value, old(w.position), plan.end, c.text))
  {
    var t :- AppendText(w, c.text);
    if !Probability(c.confidence) || !Probability(c.calibrated) {
      return Failure(ProviderError);
    }
    assert TextPlan(old(w.position), c.text).regions + [] == TextPlan(old(w.position), c.text).regions;
    return Success(t);
  }

  lemma CandidateInPlace(b: Buffer, c: Buffer, o: nat, t: TextRef, lo: nat, hi: nat, candidate: Candidate)
    requires TextAt(b, t, lo, hi, candidate.text)
    requires WordsAt(c, o, CandidateRecord(t, candidate)) && Agree(b, c, lo, hi) && hi <= |c|
    ensures CandidateAt(c, o, lo, hi, candidate)
  {
    hide WordAt;
    var ws := CandidateRecord(t, candidate);
    assert WordAt(c, o + 4 * 2) == ws[2] && WordAt(c, o + 4 * 3) == ws[3];
    TextFrame(b, c, t, lo, hi, lo, hi, candidate.text);
  }

  /** One slot of the candidate array: the texts before it stay, the new text and record are added. */
  lemma CandidateAdded(b: Buffer, c: Buffer, d: Buffer, o: nat, lo: nat, mid: nat, hi: nat, t: TextRef,
                       list: seq<Candidate>, n: nat)
    requires n < |list| && CandidateItemsAt(b, o, lo, mid, list[..n])
    requires o + CANDIDATE_SIZE * |list| <= lo <= mid <= hi <= |d|
    requires Agree(b, c, 0, mid) && TextAt(c, t, mid, hi, list[n].text)
    requires var slot := o + CANDIDATE_SIZE * n;
      && WordsAt(d, slot, CandidateRecord(t, list[n]))
      && Agree(c, d, 0, slot) && Agree(c, d, slot + CANDIDATE_SIZE, |d|)
    ensures CandidateItemsAt(d, o, lo, hi, list[..n + 1])
  {
    hide CandidateAt, WordsAt, TextAt;
    var slot := o + CANDIDATE_SIZE * n;
    CandidateItemsFrame(b, d, o, lo, mid, lo, hi, list[..n]);
    CandidateInPlace(c, d, slot, t, mid, hi, list[n]);
    CandidateFrame(d, d, slot, mid, hi, lo, hi, list[n]);
    forall k | 0 <= k < n + 1 ensures CandidateAt(d, o + CANDIDATE_SIZE * k, lo, hi, list[..n + 1][k]) {
      assert k < n ==> list[..n][k] == list[..n + 1][k];
    }
  }

  method AppendCandidates(w: BufferWriter, list: seq<Candidate>) returns (r: Result<U32>)
    requires w.Valid() && w.Fits(CandidatesPlan(w.position, list))
    modifies w`position, w.bytes
    ensures w.Valid()
    ensures var plan := CandidatesPlan(old(w.position), list);
      && (plan.Refused? ==> r == Failure(plan.error))
      && (plan.Laid? ==> r.Success? && w.position == plan.end)
      && (w.bytes != null ==>
           && Untouched(old(w.Memory()), w.Memory(), plan.regions)
           && CandidatesAt(w.Memory(), r.value, old(w.position), plan.end, list))
  {
    hide CandidatePlan, CandidateItemsPlan, CandidateItemsAt, WordsAt, TextAt, Covered;
    ghost var start := w.Memory();
    ghost var from := w.position;
    UntouchedNothing(start);
    if list == [] {
      return Success(0);
    }
    ghost var slots := ReservePlan(from, |list| * CANDIDATE_SIZE);
    ghost var items := CandidateItemsPlan(EndOf(slots), list);
    if |list| * CANDIDATE_SIZE > MAX_RESULT_BYTES {
      return Failure(ResourceExhausted);
    }
    TidyCandidateItems(EndOf(slots), list);
    var offset :- w.Reserve(|list| * CANDIDATE_SIZE);
    NoCandidates(slots.end, start, offset);
    UntouchedWider(start, start, slots.regions);
    assert list[..0] == [];
    for i := 0 to |list|
      invariant w.Valid()
      invariant CandidateItemsPlan(slots.end, list[..i]).Laid?
      invariant w.position == CandidateItemsPlan(slots.end, list[..i]).end
      invariant w.bytes != null ==> CandidatesSoFar(start, w.Memory(), slots, offset, list, i)
    {
      ghost var before := w.Memory();
      CandidateNext(slots.end, list, i);
      CandidatePrefix(slots.end, list, i + 1);
      TidyCandidate(w.position, list[i]);
      var t :- SerializeCandidate(w, list[i]);
      ghost var middle := w.Memory();
      var written := w.Write(offset + CANDIDATE_SIZE * i, CandidateRecord(t, list[i]));
      assert written.Success?;
      if w.bytes != null {
        CandidateStep(start, before, middle, w.Memory(), slots, offset, list, i, t);
      }
    }
    assert list[..|list|] == list;
    if w.bytes != null {
      CandidatesDone(start, w.Memory(), from, slots, offset, list);
    }
    return Success(offset);
  }

  /** The first n slots of the candidate array are filled, and nothing else has been disturbed. */
  ghost predicate CandidatesSoFar(start: Buffer, b: Buffer, slots: Plan, offset: nat, list: seq<Candidate>, n: nat)
    requires slots.Laid? && n <= |list|
  {
    var items := CandidateItemsPlan(slots.end, list[..n]);
    && items.Laid? && slots.end <= items.end <= |b|
    && Untouched(start, b, slots.regions + items.regions)
    && CandidateItemsAt(b, offset, slots.end, items.end, list[..n])
  }

  lemma CandidateStep(start: Buffer, b: Buffer, c: Buffer, d: Buffer, slots: Plan, offset: nat,
                      list: seq<Candidate>, n: nat, t: TextRef)
    requires slots.Laid? && slots.regions == [Region(offset, offset + CANDIDATE_SIZE * |list|)]
    requires slots.end == offset + CANDIDATE_SIZE * |list|
    requires n < |list| && CandidatesSoFar(start, b, slots, offset, list, n)
    requires var at := CandidateItemsPlan(slots.end, list[..n]).end;
      var plan := CandidatePlan(at, list[n]);
      && plan.Laid? && plan.end <= |d|
      && Untouched(b, c, plan.regions) && TextAt(c, t, at, plan.end, list[n].text)
    requires var slot := offset + CANDIDATE_SIZE * n;
      && WordsAt(d, slot, CandidateRecord(t, list[n]))
      && Agree(c, d, 0, slot) && Agree(c, d, slot + CANDIDATE_SIZE, |d|)
    ensures CandidatesSoFar(start, d, slots, offset, list, n + 1)
  {
    hide CandidateItemsAt, CandidatePlan, CandidateItemsPlan, WordsAt, TextAt, Untouched, Orderly, CandidateRecord;
    var slot := offset + CANDIDATE_SIZE * n;
    var at := CandidateItemsPlan(slots.end, list[..n]).end;
    var plan := CandidatePlan(at, list[n]);
    CandidateNext(slots.end, list, n);
    TidyCandidate(at, list[n]);
    UntouchedLength(b, c, plan.regions);
    UntouchedAgree(b, c, plan.regions, at, plan.end, 0, at);
    assert slots.regions[0] in slots.regions;
    UntouchedStep(start, b, c, d, slots.regions, CandidateItemsPlan(slots.end, list[..n]).regions, plan.regions,
                  slot, slot + CANDIDATE_SIZE);
    CandidateAdded(b, c, d, offset, slots.end, at, plan.end, t, list, n);
  }

  lemma UntouchedLength(b: Buffer, c: Buffer, regions: seq<Region>)
    requires Untouched(b, c, regions)
    ensures |b| == |c|
  {
  }

  lemma CandidatesDone(start: Buffer, b: Buffer, from: nat, slots: Plan, offset: U32, list: seq<Candidate>)
    requires list != [] && slots == ReservePlan(from, |list| * CANDIDATE_SIZE) && slots.Laid? && offset == Align(from)
    requires CandidatesSoFar(start, b, slots, offset, list, |list|)
    ensures var plan := CandidatesPlan(from, list);
      plan.Laid? && Untouched(start, b, plan.regions) && CandidatesAt(b, offset, from, plan.end, list)
  {
    hide CandidateItemsAt, CandidateItemsPlan, Untouched, Agree, Align;
    AlignFacts(from);
    assert list[..|list|] == list;
    var end := CandidateItemsPlan(slots.end, list).end;
    AgreeSelf(b, offset, offset + CANDIDATE_SIZE * |list|);
    AgreeSelf(b, slots.end, end);
    CandidateItemsFrame(b, b, offset, slots.end, end, from, end, list);
  }

  lemma AlignFacts(position: nat)
    ensures position <= Align(position) && Align(position) % ALIGNMENT == 0
  {
  }

  lemma NoCandidates(position: nat, b: Buffer, o: nat)
    ensures CandidateItemsPlan(position, []) == Laid(position, [])
    ensures CandidateItemsAt(b, o, position, position, [])
  {
  }

  lemma UntouchedWider(b: Buffer, c: Buffer, regions: seq<Region>)
    requires Untouched(b, c, [])
    ensures Untouched(b, c, regions) && Untouched(b, c, regions + [])
  {
  }

  // ---------------------------------------------------------------- evidence

  datatype EvidenceRefs = EvidenceRefs(source: TextRef, candidates: U32)

  /** The parts an evidence record refers to lie in [lo, hi). */
  ghost predicate EvidencePartsAt(b: Buffer, refs: EvidenceRefs, lo: nat, hi: nat, e: Evidence) {
    && |e.candidates| <= U32_MAX && e.latency.InRange? && hi <= |b|
    && TextAt(b, refs.source, lo, hi, e.source)
    && CandidatesAt(b, refs.candidates, lo, hi, e.candidates)
  }

  lemma CandidatesCountFits(position: nat, list: seq<Candidate>)
    requires CandidatesPlan(position, list).Laid?
    ensures |list| <= U32_MAX
  {
  }

  lemma CandidatesThenText(a: Buffer, b: Buffer, c: Buffer, from: nat, e: Evidence, candidates: U32, t: TextRef)
    requires var first := CandidatesPlan(from, e.candidates);
      && first.Laid? && first.end <= |b| && Untouched(a, b, first.regions)
      && CandidatesAt(b, candidates, from, first.end, e.candidates)
      && var second := TextPlan(first.end, e.source);
      && second.Laid? && second.end <= |c| && Untouched(b, c, second.regions)
      && TextAt(c, t, first.end, second.end, e.source)
    requires e.latency.InRange? && Probability(e.cropQuality)
    ensures var plan := EvidencePlan(from, e);
      plan.Laid? && Untouched(a, c, plan.regions) && EvidencePartsAt(c, EvidenceRefs(t, candidates), from, plan.end, e)
  {
    hide CandidatesPlan, CandidatesAt, Untouched, TextAt, TextPlan, Orderly;
    var first := CandidatesPlan(from, e.candidates);
    var second := TextPlan(first.end, e.source);
    TidyCandidates(from, e.candidates);
    TidyText(first.end, e.source);
    UntouchedLength(b, c, second.regions);
    UntouchedAgree(b, c, second.regions, first.end, second.end, from, first.end);
    CandidatesFrame(b, c, candidates, from, first.end, from, second.end, e.candidates);
    TextFrame(c, c, t, first.end, second.end, from, second.end, e.source);
    UntouchedJoin(a, b, c, first.regions, second.regions);
    CandidatesCountFits(from, e.candidates);
    assert first.regions + second.regions + [] == first.regions + second.regions;
  }

  method SerializeEvidence(w: BufferWriter, e: Evidence) returns (r: Result<EvidenceRefs>)
    requires w.Valid() && w.Fits(EvidencePlan(w.position, e))
    modifies w`position, w.bytes
    ensures w.Valid()
    ensures var plan := EvidencePlan(old(w.position), e);
      && (plan.Refused? ==> r == Failure(plan.error))
      && (plan.Laid? ==> r.Success? && w.position == plan.end && |e.candidates| <= U32_MAX)
      && (w.bytes != null ==>
           && Untouched(old(w.Memory()), w.Memory(), plan.regions)
           && EvidencePartsAt(w.Memory(), r.value, old(w.position), plan.end, e))
  {
    hide CandidatesPlan, CandidatesAt, Untouched, TextAt, TextPlan, Orderly, EvidencePartsAt;
    ghost var from, a := w.position, w.Memory();
    TidyText(EndOf(CandidatesPlan(from, e.candidates)), e.source);
    var candidates :- AppendCandidates(w, e.candidates);
    ghost var b := w.Memory();
    var t :- AppendText(w, e.source);
    if !Probability(e.cropQuality) || e.latency.OutOfRange? {
      return Failure(ProviderError);
    }
    CandidatesCountFits(from, e.candidates);
    if w.bytes != null {
      CandidatesThenText(a, b, w.Memory(), from, e, candidates, t);
    }
    return Success(EvidenceRefs(t, candidates));
  }

  lemma {:induction false} EvidencePrefix(position: nat, list: seq<Evidence>, n: nat)
    requires n <= |list|
    ensures EvidenceItemsPlan(position, list[..n]).Refused? ==>
      EvidenceItemsPlan(position, list) == EvidenceItemsPlan(position, list[..n])
    ensures EvidenceItemsPlan(position, list).Laid? ==>
      EvidenceItemsPlan(position, list[..n]).Laid?
      && EvidenceItemsPlan(position, list[..n]).end <= EvidenceItemsPlan(position, list).end
  {
    hide EvidencePlan;
    if n < |list| {
      var front := list[..|list| - 1];
      EvidencePrefix(position, front, n);
      assert front[..n] == list[..n];
      TidyEvidence(EndOf(EvidenceItemsPlan(position, front)), list[|list| - 1]);
    } else {
      assert list[..n] == list;
    }
  }

  lemma EvidenceNext(position: nat, list: seq<Evidence>, n: nat)
    requires n < |list|
    ensures var front := EvidenceItemsPlan(position, list[..n]);
      EvidenceItemsPlan(position, list[..n + 1]) == Join(front, EvidencePlan(EndOf(front), list[n]))
  {
    assert list[..n + 1][..n] == list[..n];
  }

  lemma EvidenceInPlace(b: Buffer, c: Buffer, o: nat, refs: EvidenceRefs, lo: nat, hi: nat, e: Evidence)
    requires EvidencePartsAt(b, refs, lo, hi, e)
    requires WordsAt(c, o, EvidenceRecord(refs.source, |e.candidates|, refs.candidates, e)) && Agree(b, c, lo, hi)
    ensures EvidenceAt(c, o, lo, hi, e)
  {
    hide WordAt, CandidatesAt;
    var ws := EvidenceRecord(refs.source, |e.candidates|, refs.candidates, e);
    assert WordAt(c, o + 4 * 2) == ws[2] && WordAt(c, o + 4 * 3) == ws[3] && WordAt(c, o + 4 * 7) == ws[7];
    TextFrame(b, c, refs.source, lo, hi, lo, hi, e.source);
    CandidatesFrame(b, c, refs.candidates, lo, hi, lo, hi, e.candidates);
  }

  lemma EvidenceAdded(b: Buffer, c: Buffer, d: Buffer, o: nat, lo: nat, mid: nat, hi: nat, refs: EvidenceRefs,
                      list: seq<Evidence>, n: nat)
    requires n < |list| && EvidenceItemsAt(b, o, lo, mid, list[..n])
    requires o + EVIDENCE_SIZE * |list| <= lo <= mid <= hi <= |d|
    requires Agree(b, c, 0, mid) && EvidencePartsAt(c, refs, mid, hi, list[n])
    requires var slot := o + EVIDENCE_SIZE * n;
      && WordsAt(d, slot, EvidenceRecord(refs.source, |list[n].candidates|, refs.candidates, list[n]))
      && Agree(c, d, 0, slot) && Agree(c, d, slot + EVIDENCE_SIZE, |d|)
    ensures EvidenceItemsAt(d, o, lo, hi, list[..n + 1])
  {
    hide EvidenceAt, WordsAt, TextAt, CandidatesAt;
    var slot := o + EVIDENCE_SIZE * n;
    EvidenceItemsFrame(b, d, o, lo, mid, lo, hi, list[..n]);
    EvidenceInPlace(c, d, slot, refs, mid, hi, list[n]);
    EvidenceFrame(d, d, slot, mid, hi, lo, hi, list[n]);
    forall k | 0 <= k < n + 1 ensures EvidenceAt(d, o + EVIDENCE_SIZE * k, lo, hi, list[..n + 1][k]) {
      assert k < n ==> list[..n][k] == list[..n + 1][k];
    }
  }

  ghost predicate EvidencesSoFar(start: Buffer, b: Buffer, slots: Plan, offset: nat, list: seq<Evidence>, n: nat)
    requires slots.Laid? && n <= |list|
  {
    var items := EvidenceItemsPlan(slots.end, list[..n]);
    && items.Laid? && slots.end <= items.end <= |b|
    && Untouched(start, b, slots.regions + items.regions)
    && EvidenceItemsAt(b, offset, slots.end, items.end, list[..n])
  }

  lemma EvidenceStep(start: Buffer, b: Buffer, c: Buffer, d: Buffer, slots: Plan, offset: nat,
                     list: seq<Evidence>, n: nat, refs: EvidenceRefs)
    requires slots.Laid? && slots.regions == [Region(offset, offset + EVIDENCE_SIZE * |list|)]
    requires slots.end == offset + EVIDENCE_SIZE * |list|
    requires n < |list| && EvidencesSoFar(start, b, slots, offset, list, n)
    requires var at := EvidenceItemsPlan(slots.end, list[..n]).end;
      var plan := EvidencePlan(at, list[n]);
      && plan.Laid? && plan.end <= |d|
      && Untouched(b, c, plan.regions) && EvidencePartsAt(c, refs, at, plan.end, list[n])
    requires var slot := offset + EVIDENCE_SIZE * n;
      && WordsAt(d, slot, EvidenceRecord(refs.source, |list[n].candidates|, refs.candidates, list[n]))
      && Agree(c, d, 0, slot) && Agree(c, d, slot + EVIDENCE_SIZE, |d|)
    ensures EvidencesSoFar(start, d, slots, offset, list, n + 1)
  {
    hide EvidenceItemsAt, EvidencePlan, EvidenceItemsPlan, WordsAt, Untouched, Orderly, EvidenceRecord, TextAt, CandidatesAt;
    var slot := offset + EVIDENCE_SIZE * n;
    var at := EvidenceItemsPlan(slots.end, list[..n]).end;
    var plan := EvidencePlan(at, list[n]);
    EvidenceNext(slots.end, list, n);
    TidyEvidence(at, list[n]);
    UntouchedLength(b, c, plan.regions);
    UntouchedAgree(b, c, plan.regions, at, plan.end, 0, at);
    assert slots.regions[0] in slots.regions;
    UntouchedStep(start, b, c, d, slots.regions, EvidenceItemsPlan(slots.end, list[..n]).regions, plan.regions,
                  slot, slot + EVIDENCE_SIZE);
    EvidenceAdded(b, c, d, offset, slots.end, at, plan.end, refs, list, n);
  }

  lemma EvidencesDone(start: Buffer, b: Buffer, from: nat, slots: Plan, offset: U32, list: seq<Evidence>)
    requires list != [] && slots == ReservePlan(from, |list| * EVIDENCE_SIZE) && slots.Laid? && offset == Align(from)
    requires EvidencesSoFar(start, b, slots, offset, list, |list|)
    ensures var plan := EvidencesPlan(from, list);
      plan.Laid? && Untouched(start, b, plan.regions) && EvidencesAt(b, offset, from, plan.end, list)
  {
    hide EvidenceItemsAt, EvidenceItemsPlan, Untouched, Agree, Align;
    AlignFacts(from);
    assert list[..|list|] == list;
    var end := EvidenceItemsPlan(slots.end, list).end;
    AgreeSelf(b, offset, offset + EVIDENCE_SIZE * |list|);
    AgreeSelf(b, slots.end, end);
    EvidenceItemsFrame(b, b, offset, slots.end, end, from, end, list);
  }

  lemma NoEvidences(position: nat, b: Buffer, o: nat)
    ensures EvidenceItemsPlan(position, []) == Laid(position, [])
    ensures EvidenceItemsAt(b, o, position, position, [])
  {
  }

  method AppendEvidence(w: BufferWriter, list: seq<Evidence>) returns (r: Result<U32>)
    requires w.Valid() && w.Fits(EvidencesPlan(w.position, list))
    modifies w`position, w.bytes
    ensures w.Valid()
    ensures var plan := EvidencesPlan(old(w.position), list);
      && (plan.Refused? ==> r == Failure(plan.error))
      && (plan.Laid? ==> r.Success? && w.position == plan.end)
      && (w.bytes != null ==>
           && Untouched(old(w.Memory()), w.Memory(), plan.regions)
           && EvidencesAt(w.Memory(), r.value, old(w.position), plan.end, list))
  {
    hide EvidencePlan, EvidenceItemsPlan, EvidenceItemsAt, WordsAt, TextAt, Covered;
    ghost var start := w.Memory();
    ghost var from := w.position;
    UntouchedNothing(start);
    if list == [] {
      return Success(0);
    }
    ghost var slots := ReservePlan(from, |list| * EVIDENCE_SIZE);
    if |list| * EVIDENCE_SIZE > MAX_RESULT_BYTES {
      return Failure(ResourceExhausted);
    }
    TidyEvidenceItems(EndOf(slots), list);
    var offset :- w.Reserve(|list| * EVIDENCE_SIZE);
    NoEvidences(slots.end, start, offset);
    UntouchedWider(start, start, slots.regions);
    assert list[..0] == [];
    for i := 0 to |list|
      invariant w.Valid()
      invariant EvidenceItemsPlan(slots.end, list[..i]).Laid?
      invariant w.position == EvidenceItemsPlan(slots.end, list[..i]).end
      invariant w.bytes != null ==> EvidencesSoFar(start, w.Memory(), slots, offset, list, i)
    {
      ghost var before := w.Memory();
      EvidenceNext(slots.end, list, i);
      EvidencePrefix(slots.end, list, i + 1);
      TidyEvidence(w.position, list[i]);
      var refs :- SerializeEvidence(w, list[i]);
      ghost var middle := w.Memory();
      var written := w.Write(offset + EVIDENCE_SIZE * i,
                             EvidenceRecord(refs.source, |list[i].candidates|, refs.candidates, list[i]));
      assert written.Success?;
      if w.bytes != null {
        EvidenceStep(start, before, middle, w.Memory(), slots, offset, list, i, refs);
      }
    }
    assert list[..|list|] == list;
    if w.bytes != null {
      EvidencesDone(start, w.Memory(), from, slots, offset, list);
    }
    return Success(offset);
  }

  // ---------------------------------------------------------------- decision reasons

  method AppendReasons(w: BufferWriter, list: seq<Reason>) returns (r: Result<U32>)
    requires w.Valid() && w.Fits(ReasonsPlan(w.position, list))
    modifies w`position, w.bytes
    ensures w.Valid()
    ensures var plan := ReasonsPlan(old(w.position), list);
      && (plan.Refused? ==> r == Failure(plan.error))
      && (plan.Laid? ==> r.Success? && w.position == plan.end)
      && (w.bytes != null ==>
           && Untouched(old(w.Memory()), w.Memory(), plan.regions)
           && ReasonsAt(w.Memory(), r.value, old(w.position), plan.end, list))
  {
    hide WordAt, Untouched, Covered;
    ghost var start := w.Memory();
    ghost var from := w.position;
    UntouchedNothing(start);
    if list == [] {
      return Success(0);
    }
    if |list| * REASON_SIZE > MAX_RESULT_BYTES {
      return Failure(ResourceExhausted);
    }
    var offset :- w.Reserve(|list| * REASON_SIZE);
    for i := 0 to |list|
      invariant w.Valid() && w.position == ReservePlan(from, |list| * REASON_SIZE).end
      invariant w.bytes != null ==>
        && Agree(start, w.Memory(), 0, offset) && Agree(start, w.Memory(), offset + REASON_SIZE * |list|, |start|)
        && forall k | 0 <= k < i :: WordAt(w.Memory(), offset + REASON_SIZE * k) == ReasonCode(list[k])
    {
      ghost var before := w.Memory();
      var written := w.Write(offset + REASON_SIZE * i, [ReasonCode(list[i])]);
      assert written.Success?;
      if w.bytes != null {
        ReasonAdded(before, w.Memory(), offset, list, i);
      }
    }
    if w.bytes != null {
      UntouchedRange(start, w.Memory(), ReservePlan(from, |list| * REASON_SIZE).regions, offset, offset + REASON_SIZE * |list|);
    }
    return Success(offset);
  }

  lemma ReasonAdded(b: Buffer, c: Buffer, offset: nat, list: seq<Reason>, n: nat)
    requires n < |list| && offset + REASON_SIZE * |list| <= |b|
    requires forall k | 0 <= k < n :: WordAt(b, offset + REASON_SIZE * k) == ReasonCode(list[k])
    requires Agree(b, c, 0, offset + REASON_SIZE * n) && WordsAt(c, offset + REASON_SIZE * n, [ReasonCode(list[n])])
    ensures forall k | 0 <= k < n + 1 :: WordAt(c, offset + REASON_SIZE * k) == ReasonCode(list[k])
  {
    assert WordAt(c, offset + REASON_SIZE * n + 4 * 0) == [ReasonCode(list[n])][0];
    forall k | 0 <= k < n ensures WordAt(c, offset + REASON_SIZE * k) == ReasonCode(list[k]) {
      assert WordAt(b, offset + REASON_SIZE * k) == ReasonCode(list[k]);
    }
  }

  // ---------------------------------------------------------------- recognitions

  datatype PlateRefs = PlateRefs(plate: TextRef, evidence: U32, alternatives: U32, reasons: U32)

  ghost predicate CountsFit(p: Plate) {
    |p.evidence| <= U32_MAX && |p.alternatives| <= U32_MAX && |p.reasons| <= U32_MAX
  }

  /** The parts a recognition record refers to lie in [lo, hi). */
  ghost predicate PlatePartsAt(b: Buffer, refs: PlateRefs, lo: nat, hi: nat, p: Plate) {
    && CountsFit(p) && p.latency.InRange? && hi <= |b|
    && TextAt(b, refs.plate, lo, hi, p.plate)
    && EvidencesAt(b, refs.evidence, lo, hi, p.evidence)
    && CandidatesAt(b, refs.alternatives, lo, hi, p.alternatives)
    && ReasonsAt(b, refs.reasons, lo, hi, p.reasons)
  }

  lemma PlateCountsFit(position: nat, p: Plate)
    requires PlatePlan(position, p).Laid?
    ensures CountsFit(p)
  {
    hide EvidenceItemsPlan, CandidateItemsPlan, PlateNumbersOk;
  }

  /** One appended part: it lies where its plan says, and everything below its start has stayed. */
  ghost predicate Appended(b: Buffer, c: Buffer, plan: Plan, from: nat) {
    plan.Laid? && from <= plan.end <= |c| && Untouched(b, c, plan.regions) && Agree(b, c, 0, from)
  }

  lemma AppendedByPlan(b: Buffer, c: Buffer, plan: Plan, from: nat)
    requires plan.Laid? && plan.end <= |c| && Untouched(b, c, plan.regions) && Tidy(plan, from)
    ensures Appended(b, c, plan, from)
  {
    UntouchedAgree(b, c, plan.regions, from, plan.end, 0, from);
  }

  lemma AppendedJoin(a: Buffer, b: Buffer, c: Buffer, first: Plan, second: Plan, from: nat)
    requires Appended(a, b, first, from) && Appended(b, c, second, first.end)
    ensures Appended(a, c, Join(first, second), from)
  {
    hide Covered;
    UntouchedJoin(a, b, c, first.regions, second.regions);
  }

  function NumbersPlan(position: nat, p: Plate): Plan {
    var text := TextPlan(position, p.plate);
    Join(text, Require(PlateNumbersOk(p), ProviderError, EndOf(text)))
  }

  function WithEvidencePlan(position: nat, p: Plate): Plan {
    var numbers := NumbersPlan(position, p);
    Join(numbers, EvidencesPlan(EndOf(numbers), p.evidence))
  }

  function WithAlternativesPlan(position: nat, p: Plate): Plan {
    var evidence := WithEvidencePlan(position, p);
    Join(evidence, CandidatesPlan(EndOf(evidence), p.alternatives))
  }

  lemma PlatePlanInStages(position: nat, p: Plate)
    ensures var alternatives := WithAlternativesPlan(position, p);
      PlatePlan(position, p) == Join(alternatives, ReasonsPlan(EndOf(alternatives), p.reasons))
  {
  }

  lemma StagesTidy(position: nat, p: Plate)
    ensures Tidy(NumbersPlan(position, p), position)
    ensures Tidy(EvidencesPlan(EndOf(NumbersPlan(position, p)), p.evidence), EndOf(NumbersPlan(position, p)))
    ensures Tidy(CandidatesPlan(EndOf(WithEvidencePlan(position, p)), p.alternatives), EndOf(WithEvidencePlan(position, p)))
    ensures Tidy(ReasonsPlan(EndOf(WithAlternativesPlan(position, p)), p.reasons), EndOf(WithAlternativesPlan(position, p)))
  {
    hide Orderly, EvidencesPlan, CandidatesPlan, ReasonsPlan, PlateNumbersOk;
    TidyText(position, p.plate);
    EmptyOrderly(EndOf(TextPlan(position, p.plate)));
    TidyJoin(TextPlan(position, p.plate),
             Require(PlateNumbersOk(p), ProviderError, EndOf(TextPlan(position, p.plate))), position);
    TidyEvidences(EndOf(NumbersPlan(position, p)), p.evidence);
    TidyCandidates(EndOf(WithEvidencePlan(position, p)), p.alternatives);
    TidyReasons(EndOf(WithAlternativesPlan(position, p)), p.reasons);
  }

  /** The plate text, then evidence, alternatives and reasons: each stays put while the next is added. */
  lemma PlatePartsAssembled(b0: Buffer, b1: Buffer, b2: Buffer, b3: Buffer, b4: Buffer, from: nat, p: Plate, refs: PlateRefs)
    requires PlatePlan(from, p).Laid?
    requires var numbers := NumbersPlan(from, p);
      && Appended(b0, b1, numbers, from)
      && TextAt(b1, refs.plate, from, numbers.end, p.plate)
      && var evidence := EvidencesPlan(numbers.end, p.evidence);
      && Appended(b1, b2, evidence, numbers.end)
      && EvidencesAt(b2, refs.evidence, numbers.end, evidence.end, p.evidence)
      && var alternatives := CandidatesPlan(evidence.end, p.alternatives);
      && Appended(b2, b3, alternatives, evidence.end)
      && CandidatesAt(b3, refs.alternatives, evidence.end, alternatives.end, p.alternatives)
      && var reasons := ReasonsPlan(alternatives.end, p.reasons);
      && Appended(b3, b4, reasons, alternatives.end)
      && ReasonsAt(b4, refs.reasons, alternatives.end, reasons.end, p.reasons)
    ensures Appended(b0, b4, PlatePlan(from, p), from) && PlatePartsAt(b4, refs, from, PlatePlan(from, p).end, p)
  {
    hide TextAt, EvidencesAt, CandidatesAt, ReasonsAt, EvidencesPlan, CandidatesPlan, ReasonsPlan, Untouched, NumbersPlan, PlatePlan;
    var numbers := NumbersPlan(from, p);
    var evidence := EvidencesPlan(numbers.end, p.evidence);
    var alternatives := CandidatesPlan(evidence.end, p.alternatives);
    var reasons := ReasonsPlan(alternatives.end, p.reasons);
    PlatePlanInStages(from, p);
    PlateCountsFit(from, p);
    AppendedJoin(b0, b1, b2, numbers, evidence, from);
    AppendedJoin(b0, b2, b3, WithEvidencePlan(from, p), alternatives, from);
    AppendedJoin(b0, b3, b4, WithAlternativesPlan(from, p), reasons, from);
    TextFrame(b1, b4, refs.plate, from, numbers.end, from, reasons.end, p.plate);
    EvidencesFrame(b2, b4, refs.evidence, numbers.end, evidence.end, from, reasons.end, p.evidence);
    CandidatesFrame(b3, b4, refs.alternatives, evidence.end, alternatives.end, from, reasons.end, p.alternatives);
    ReasonsFrame(b4, b4, refs.reasons, alternatives.end, reasons.end, from, reasons.end, p.reasons);
    assert p.latency.InRange? by { PlateNumbersLaid(from, p); }
  }

  lemma PlateNumbersLaid(from: nat, p: Plate)
    requires PlatePlan(from, p).Laid?
    ensures PlateNumbersOk(p)
  {
    hide EvidencesPlan, CandidatesPlan, ReasonsPlan;
  }

  method SerializePlate(w: BufferWriter, p: Plate) returns (r: Result<PlateRefs>)
    requires w.Valid() && w.Fits(PlatePlan(w.position, p))
    modifies w`position, w.bytes
    ensures w.Valid()
    ensures var plan := PlatePlan(old(w.position), p);
      && (plan.Refused? ==> r == Failure(plan.error))
      && (plan.Laid? ==> r.Success? && w.position == plan.end && CountsFit(p))
      && (w.bytes != null ==>
           && Untouched(old(w.Memory()), w.Memory(), plan.regions)
           && PlatePartsAt(w.Memory(), r.value, old(w.position), plan.end, p))
  {
    hide TextAt, EvidencesAt, CandidatesAt, ReasonsAt, EvidencesPlan, CandidatesPlan, ReasonsPlan, TextPlan,
         Untouched, Orderly, PlateNumbersOk, PlatePartsAt, Agree, CountsFit, PlatePlan;
    ghost var from, b0 := w.position, w.Memory();
    PlatePlanInStages(from, p);
    StagesTidy(from, p);
    var t :- AppendText(w, p.plate);
    if !PlateNumbersOk(p) {
      return Failure(ProviderError);
    }
    ghost var b1 := w.Memory();
    if |p.evidence| > U32_MAX {
      TooManyToLay(w.position, p);
      return Failure(ResourceExhausted);
    }
    var evidence :- AppendEvidence(w, p.evidence);
    ghost var b2 := w.Memory();
    if |p.alternatives| > U32_MAX {
      TooManyToLay(w.position, p);
      return Failure(ResourceExhausted);
    }
    var alternatives :- AppendCandidates(w, p.alternatives);
    ghost var b3 := w.Memory();
    if |p.reasons| > U32_MAX {
      TooManyToLay(w.position, p);
      return Failure(ResourceExhausted);
    }
    var reasons :- AppendReasons(w, p.reasons);
    var refs := PlateRefs(t, evidence, alternatives, reasons);
    PlateCountsFit(from, p);
    if w.bytes != null {
      TextOnly(from, p);
      AppendedByPlan(b0, b1, NumbersPlan(from, p), from);
      AppendedByPlan(b1, b2, EvidencesPlan(EndOf(NumbersPlan(from, p)), p.evidence), EndOf(NumbersPlan(from, p)));
      AppendedByPlan(b2, b3, CandidatesPlan(EndOf(WithEvidencePlan(from, p)), p.alternatives), EndOf(WithEvidencePlan(from, p)));
      AppendedByPlan(b3, w.Memory(), ReasonsPlan(EndOf(WithAlternativesPlan(from, p)), p.reasons), EndOf(WithAlternativesPlan(from, p)));
      PlatePartsAssembled(b0, b1, b2, b3, w.Memory(), from, p, refs);
    }
    return Success(refs);
  }

  lemma TextOnly(from: nat, p: Plate)
    requires NumbersPlan(from, p).Laid?
    ensures NumbersPlan(from, p) == TextPlan(from, p.plate)
  {
  }

  /** Counts beyond 32 bits are refused with the same error by the array size check. */
  lemma TooManyToLay(position: nat, p: Plate)
    ensures |p.evidence| > U32_MAX ==> EvidencesPlan(position, p.evidence) == Refused(ResourceExhausted)
    ensures |p.alternatives| > U32_MAX ==> CandidatesPlan(position, p.alternatives) == Refused(ResourceExhausted)
    ensures |p.reasons| > U32_MAX ==> ReasonsPlan(position, p.reasons) == Refused(ResourceExhausted)
  {
  }

  lemma {:induction false} PlatePrefix(position: nat, list: seq<Plate>, n: nat)
    requires n <= |list|
    ensures PlateItemsPlan(position, list[..n]).Refused? ==>
      PlateItemsPlan(position, list) == PlateItemsPlan(position, list[..n])
    ensures PlateItemsPlan(position, list).Laid? ==>
      PlateItemsPlan(position, list[..n]).Laid?
      && PlateItemsPlan(position, list[..n]).end <= PlateItemsPlan(position, list).end
  {
    hide PlatePlan;
    if n < |list| {
      var front := list[..|list| - 1];
      PlatePrefix(position, front, n);
      assert front[..n] == list[..n];
      TidyPlate(EndOf(PlateItemsPlan(position, front)), list[|list| - 1]);
    } else {
      assert list[..n] == list;
    }
  }

  lemma PlateNext(position: nat, list: seq<Plate>, n: nat)
    requires n < |list|
    ensures var front := PlateItemsPlan(position, list[..n]);
      PlateItemsPlan(position, list[..n + 1]) == Join(front, PlatePlan(EndOf(front), list[n]))
  {
    hide PlatePlan;
    assert list[..n + 1][..n] == list[..n];
  }

  function PlateWords(refs: PlateRefs, p: Plate): seq<U32>
    requires |p.evidence| <= U32_MAX && |p.alternatives| <= U32_MAX && |p.reasons| <= U32_MAX
  {
    PlateRecord(refs.plate, refs.evidence, refs.alternatives, refs.reasons, p)
  }

  lemma PlateInPlace(b: Buffer, c: Buffer, o: nat, refs: PlateRefs, lo: nat, hi: nat, p: Plate)
    requires PlatePartsAt(b, refs, lo, hi, p)
    requires WordsAt(c, o, PlateWords(refs, p)) && Agree(b, c, lo, hi)
    ensures PlateAt(c, o, lo, hi, p)
  {
    hide WordAt, TextAt, EvidencesAt, CandidatesAt, ReasonsAt, PlateRecord;
    var ws := PlateWords(refs, p);
    PlateRecordWords(refs.plate, refs.evidence, refs.alternatives, refs.reasons, p);
    assert WordAt(c, o + 4 * 4) == ws[4] && WordAt(c, o + 4 * 5) == ws[5];
    assert WordAt(c, o + 4 * 30) == ws[30] && WordAt(c, o + 4 * 32) == ws[32] && WordAt(c, o + 4 * 34) == ws[34];
    TextFrame(b, c, refs.plate, lo, hi, lo, hi, p.plate);
    EvidencesFrame(b, c, refs.evidence, lo, hi, lo, hi, p.evidence);
    CandidatesFrame(b, c, refs.alternatives, lo, hi, lo, hi, p.alternatives);
    ReasonsFrame(b, c, refs.reasons, lo, hi, lo, hi, p.reasons);
  }

  lemma PlateAdded(b: Buffer, c: Buffer, d: Buffer, o: nat, lo: nat, mid: nat, hi: nat, refs: PlateRefs,
                   list: seq<Plate>, n: nat)
    requires n < |list| && PlateItemsAt(b, o, lo, mid, list[..n])
    requires o + PLATE_SIZE * |list| <= lo <= mid <= hi <= |d|
    requires Agree(b, c, 0, mid) && PlatePartsAt(c, refs, mid, hi, list[n])
    requires var slot := o + PLATE_SIZE * n;
      && WordsAt(d, slot, PlateWords(refs, list[n]))
      && Agree(c, d, 0, slot) && Agree(c, d, slot + PLATE_SIZE, |d|)
    ensures PlateItemsAt(d, o, lo, hi, list[..n + 1])
  {
    hide PlateAt, WordsAt, TextAt, CandidatesAt, EvidencesAt, ReasonsAt, PlateWords;
    var slot := o + PLATE_SIZE * n;
    PlateItemsFrame(b, d, o, lo, mid, lo, hi, list[..n]);
    PlateInPlace(c, d, slot, refs, mid, hi, list[n]);
    PlateFrame(d, d, slot, mid, hi, lo, hi, list[n]);
    forall k | 0 <= k < n + 1 ensures PlateAt(d, o + PLATE_SIZE * k, lo, hi, list[..n + 1][k]) {
      assert k < n ==> list[..n][k] == list[..n + 1][k];
    }
  }

  ghost predicate PlatesSoFar(start: Buffer, b: Buffer, slots: Plan, offset: nat, list: seq<Plate>, n: nat)
    requires slots.Laid? && n <= |list|
  {
    var items := PlateItemsPlan(slots.end, list[..n]);
    && items.Laid? && slots.end <= items.end <= |b|
    && Untouched(start, b, slots.regions + items.regions)
    && PlateItemsAt(b, offset, slots.end, items.end, list[..n])
  }

  lemma PlateStep(start: Buffer, b: Buffer, c: Buffer, d: Buffer, slots: Plan, offset: nat,
                  list: seq<Plate>, n: nat, refs: PlateRefs)
    requires slots.Laid? && slots.regions == [Region(offset, offset + PLATE_SIZE * |list|)]
    requires slots.end == offset + PLATE_SIZE * |list|
    requires n < |list| && PlatesSoFar(start, b, slots, offset, list, n)
    requires var at := PlateItemsPlan(slots.end, list[..n]).end;
      var plan := PlatePlan(at, list[n]);
      && plan.Laid? && plan.end <= |d|
      && Untouched(b, c, plan.regions) && PlatePartsAt(c, refs, at, plan.end, list[n])
    requires var slot := offset + PLATE_SIZE * n;
      && WordsAt(d, slot, PlateWords(refs, list[n]))
      && Agree(c, d, 0, slot) && Agree(c, d, slot + PLATE_SIZE, |d|)
    ensures PlatesSoFar(start, d, slots, offset, list, n + 1)
  {
    hide PlateItemsAt, PlatePlan, PlateItemsPlan, WordsAt, Untouched, Orderly, PlateWords, TextAt, CandidatesAt,
         EvidencesAt, ReasonsAt;
    var slot := offset + PLATE_SIZE * n;
    var at := PlateItemsPlan(slots.end, list[..n]).end;
    var plan := PlatePlan(at, list[n]);
    PlateNext(slots.end, list, n);
    TidyPlate(at, list[n]);
    UntouchedLength(b, c, plan.regions);
    UntouchedAgree(b, c, plan.regions, at, plan.end, 0, at);
    assert slots.regions[0] in slots.regions;
    UntouchedStep(start, b, c, d, slots.regions, PlateItemsPlan(slots.end, list[..n]).regions, plan.regions,
                  slot, slot + PLATE_SIZE);
    PlateAdded(b, c, d, offset, slots.end, at, plan.end, refs, list, n);
  }

  lemma NoPlates(position: nat, b: Buffer, o: nat)
    ensures PlateItemsPlan(position, []) == Laid(position, [])
    ensures PlateItemsAt(b, o, position, position, [])
  {
  }

  /** The array of recognitions, as part of the result: offset 0 when there is none. */
  ghost predicate PlatesAt(b: Buffer, o: U32, lo: nat, hi: nat, list: seq<Plate>) {
    if list == [] then o == 0
    else
      && lo <= o && o % ALIGNMENT == 0 && o + PLATE_SIZE * |list| <= hi <= |b|
      && PlateItemsAt(b, o, lo, hi, list)
  }

  lemma PlatesDone(start: Buffer, b: Buffer, from: nat, slots: Plan, offset: U32, list: seq<Plate>)
    requires list != [] && slots == ReservePlan(from, |list| * PLATE_SIZE) && slots.Laid? && offset == Align(from)
    requires PlatesSoFar(start, b, slots, offset, list, |list|)
    ensures var plan := PlatesPlan(from, list);
      plan.Laid? && Untouched(start, b, plan.regions) && PlatesAt(b, offset, from, plan.end, list)
  {
    hide PlateItemsAt, PlateItemsPlan, Untouched, Agree, Align;
    AlignFacts(from);
    assert list[..|list|] == list;
    var end := PlateItemsPlan(slots.end, list).end;
    AgreeSelf(b, offset, offset + PLATE_SIZE * |list|);
    AgreeSelf(b, slots.end, end);
    PlateItemsFrame(b, b, offset, slots.end, end, from, end, list);
  }

  method AppendRecognitions(w: BufferWriter, list: seq<Plate>) returns (r: Result<U32>)
    requires w.Valid() && w.Fits(PlatesPlan(w.position, list))
    modifies w`position, w.bytes
    ensures w.Valid()
    ensures var plan := PlatesPlan(old(w.position), list);
      && (plan.Refused? ==> r == Failure(plan.error))
      && (plan.Laid? ==> r.Success? && w.position == plan.end)
      && (w.bytes != null ==>
           && Untouched(old(w.Memory()), w.Memory(), plan.regions)
           && PlatesAt(w.Memory(), r.value, old(w.position), plan.end, list))
  {
    hide PlatePlan, PlateItemsPlan, PlateItemsAt, WordsAt, TextAt, Covered, PlateWords;
    ghost var start := w.Memory();
    ghost var from := w.position;
    UntouchedNothing(start);
    if list == [] {
      return Success(0);
    }
    ghost var slots := ReservePlan(from, |list| * PLATE_SIZE);
    if |list| * PLATE_SIZE > MAX_RESULT_BYTES {
      return Failure(ResourceExhausted);
    }
    TidyPlateItems(EndOf(slots), list);
    var offset :- w.Reserve(|list| * PLATE_SIZE);
    NoPlates(slots.end, start, offset);
    UntouchedWider(start, start, slots.regions);
    assert list[..0] == [];
    for i := 0 to |list|
      invariant w.Valid()
      invariant PlateItemsPlan(slots.end, list[..i]).Laid?
      invariant w.position == PlateItemsPlan(slots.end, list[..i]).end
      invariant w.bytes != null ==> PlatesSoFar(start, w.Memory(), slots, offset, list, i)
    {
      ghost var before := w.Memory();
      PlateNext(slots.end, list, i);
      PlatePrefix(slots.end, list, i + 1);
      TidyPlate(w.position, list[i]);
      var refs :- SerializePlate(w, list[i]);
      ghost var middle := w.Memory();
      PlateWordsLength(refs, list[i]);
      var written := w.Write(offset + PLATE_SIZE * i, PlateWords(refs, list[i]));
      assert written.Success?;
      if w.bytes != null {
        PlateStep(start, before, middle, w.Memory(), slots, offset, list, i, refs);
      }
    }
    assert list[..|list|] == list;
    if w.bytes != null {
      PlatesDone(start, w.Memory(), from, slots, offset, list);
    }
    return Success(offset);
  }

  lemma PlateWordsLength(refs: PlateRefs, p: Plate)
    requires CountsFit(p)
    ensures |PlateWords(refs, p)| == 35
  {
    PlateRecordWords(refs.plate, refs.evidence, refs.alternatives, refs.reasons, p);
  }

  // ---------------------------------------------------------------- the whole result

  lemma RootInPlace(b: Buffer, c: Buffer, recognitions: U32, hi: nat, r: PipelineResult)
    requires ResultPlan(r).Laid? && hi == ResultPlan(r).end && hi <= |b|
    requires PlatesAt(b, recognitions, ROOT_SIZE, hi, r.recognitions)
    requires |r.recognitions| <= U32_MAX && r.failureCount <= U32_MAX && r.latency.InRange?
    requires WordsAt(c, 0, RootRecord(recognitions, r)) && Agree(b, c, ROOT_SIZE, |b|)
    ensures ResultAt(c, hi, r)
  {
    hide WordAt, PlateItemsAt, PlatesPlan;
    var ws := RootRecord(recognitions, r);
    assert WordAt(c, 0 + 4 * 3) == ws[3];
    TidyPlates(ROOT_SIZE, r.recognitions);
    if r.recognitions == [] {
      NoPlates(hi, c, recognitions);
      EmptyPlateItems(c, recognitions, hi, r.recognitions);
    } else {
      PlateItemsFrame(b, c, recognitions, ROOT_SIZE, hi, ROOT_SIZE, hi, r.recognitions);
    }
  }

  lemma EmptyPlateItems(b: Buffer, o: nat, hi: nat, list: seq<Plate>)
    requires list == []
    ensures PlateItemsAt(b, o, ROOT_SIZE, hi, list)
  {
  }

  lemma ResultPlanParts(r: PipelineResult)
    ensures ReservePlan(0, ROOT_SIZE) == Laid(ROOT_SIZE, [Region(0, ROOT_SIZE)])
    ensures ResultPlan(r).Laid? <==>
      PlatesPlan(ROOT_SIZE, r.recognitions).Laid? && r.latency.InRange? && r.failureCount <= U32_MAX
    ensures ResultPlan(r).Laid? ==>
      && ResultPlan(r).end == PlatesPlan(ROOT_SIZE, r.recognitions).end
      && ResultPlan(r).regions == [Region(0, ROOT_SIZE)] + PlatesPlan(ROOT_SIZE, r.recognitions).regions
      && |r.recognitions| <= U32_MAX
    ensures PlatesPlan(ROOT_SIZE, r.recognitions).Refused? ==>
      ResultPlan(r) == PlatesPlan(ROOT_SIZE, r.recognitions)
  {
    hide PlateItemsPlan;
    TidyPlates(ROOT_SIZE, r.recognitions);
    if PlatesPlan(ROOT_SIZE, r.recognitions).Laid? {
      var regions := PlatesPlan(ROOT_SIZE, r.recognitions).regions;
      assert [Region(0, ROOT_SIZE)] + regions + [] + [] == [Region(0, ROOT_SIZE)] + regions;
    }
  }

  /** One pass over the result, sizing or writing. */
  method SerializeImpl(result: PipelineResult, buffer: array?<Byte>, size: nat) returns (r: Result<nat>)
    requires buffer != null ==> buffer.Length == size
    requires buffer != null ==> ResultPlan(result).Laid? && ResultPlan(result).end <= size
    modifies buffer
    ensures ResultPlan(result).Refused? ==> r == Failure(ResultPlan(result).error)
    ensures ResultPlan(result).Laid? ==> r == Success(ResultPlan(result).end)
    ensures buffer != null ==>
      && Untouched(old(buffer[..]), buffer[..], ResultPlan(result).regions)
      && ResultAt(buffer[..], ResultPlan(result).end, result)
  {
    hide ResultPlan, PlatesPlan, PlatesAt, ResultAt, Covered, RootRecord, WordAt, Orderly;
    var w := new BufferWriter(buffer, size);
    ghost var start := w.Memory();
    ResultPlanParts(result);
    TidyPlates(ROOT_SIZE, result.recognitions);
    var reserved := w.Reserve(ROOT_SIZE);
    assert reserved == Success(0);
    var root := reserved.value;
    var recognitions :- AppendRecognitions(w, result.recognitions);
    ghost var middle := w.Memory();
    PlatesCountFits(ROOT_SIZE, result.recognitions);
    if result.latency.OutOfRange? {
      LateRefusals(result);
      return Failure(ProviderError);
    }
    if result.failureCount > U32_MAX {
      LateRefusals(result);
      return Failure(ResourceExhausted);
    }
    RootLength(recognitions, result);
    var written := w.Write(root, RootRecord(recognitions, result));
    assert written.Success?;
    if w.bytes != null {
      RootInPlace(middle, w.Memory(), recognitions, w.position, result);
      RootUntouched(start, middle, w.Memory(), PlatesPlan(ROOT_SIZE, result.recognitions).regions);
    }
    return Success(w.position);
  }

  lemma RootLength(recognitions: U32, r: PipelineResult)
    requires |r.recognitions| <= U32_MAX && r.failureCount <= U32_MAX
    ensures |RootRecord(recognitions, r)| == 8
  {
  }

  lemma RootUntouched(a: Buffer, b: Buffer, c: Buffer, regions: seq<Region>)
    requires Untouched(a, b, regions) && Agree(b, c, ROOT_SIZE, |b|)
    ensures Untouched(a, c, [Region(0, ROOT_SIZE)] + regions)
  {
    forall i | 0 <= i < |a| && !Covered([Region(0, ROOT_SIZE)] + regions, i) ensures a[i] == c[i] {
      assert ([Region(0, ROOT_SIZE)] + regions)[0] == Region(0, ROOT_SIZE);
      assert Covered(regions, i) ==> Covered([Region(0, ROOT_SIZE)] + regions, i);
    }
  }

  lemma PlatesCountFits(position: nat, list: seq<Plate>)
    requires PlatesPlan(position, list).Laid?
    ensures |list| <= U32_MAX
  {
    hide PlateItemsPlan;
  }

  lemma LateRefusals(r: PipelineResult)
    requires PlatesPlan(ROOT_SIZE, r.recognitions).Laid?
    ensures r.latency.OutOfRange? ==> ResultPlan(r) == Refused(ProviderError)
    ensures r.latency.InRange? && r.failureCount > U32_MAX ==> ResultPlan(r) == Refused(ResourceExhausted)
  {
    hide PlatesPlan;
  }

  // ---------------------------------------------------------------- the entry point

  /** The C status; every engine error has its own. */
  datatype Code = Ok | BufferTooSmall | ErrorCode(error: Error)

  /** The reported size: 0 when the result cannot be laid out. */
  function RequiredSize(result: PipelineResult): nat {
    EndOf(ResultPlan(result))
  }

  /** Sizes the result, and writes it if the caller's buffer is there, large enough and aligned.
      `aligned` stands for the address check; `capacity` is the size the caller states for the buffer. */
  method SerializeResult(result: PipelineResult, output: array?<Byte>, capacity: nat, aligned: bool)
    returns (status: Code, required: nat)
    requires output != null ==> output.Length == capacity
    modifies output
    ensures required == RequiredSize(result)
    // Nothing is written unless the status is Ok; a result that cannot be laid out is refused by its plan.
    ensures status != Ok && output != null ==> output[..] == old(output[..])
    ensures ResultPlan(result).Refused? ==> status == ErrorCode(ResultPlan(result).error)
    ensures ResultPlan(result).Laid? && (output == null || capacity < required) ==> status == BufferTooSmall
    ensures ResultPlan(result).Laid? && output != null && capacity >= required && !aligned ==> status == ErrorCode(ConfigurationError)
    // The writing pass never fails: once sized, present, large enough and aligned, the status is Ok.
    ensures ResultPlan(result).Laid? && output != null && capacity >= required && aligned ==> status == Ok
    // Round trip, and bytes outside the reserved regions keep their values.
    ensures status == Ok ==>
      && output != null
      && ReadResult(output[..]) == Some(result)
      && Orderly(ResultPlan(result).regions, 0, required)
      && Untouched(old(output[..]), output[..], ResultPlan(result).regions)
  {
    hide ResultPlan, ResultAt, ReadResult, Untouched, Orderly;
    TidyResult(result);
    required := 0;
    var sized := SerializeImpl(result, null, 0);
    if sized.Failure? {
      return ErrorCode(sized.error), 0;
    }
    required := sized.value;
    if output == null || capacity < required {
      return BufferTooSmall, required;
    }
    if !aligned {
      return ErrorCode(ConfigurationError), required;
    }
    var written := SerializeImpl(result, output, capacity);
    ResultRecovered(output[..], required, result);
    assert written == Success(required);
    return Ok, required;
  }
}
