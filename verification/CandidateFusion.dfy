/** Candidate fusion: one noisy-OR vote per text over all crops and recognizers. */
module CandidateFusion {
  import opened Reals
  import opened Sorting
  import opened Domain

  datatype Layout = Layout(reliable: bool, confidence: real)

  datatype FusionConfig = FusionConfig(
    maxCandidates: nat,
    defaultSourceWeight: real,
    sourceWeights: map<string, real>,
    recognitionWeight: real,
    cropQualityWeight: real,
    marginWeight: real,
    layoutWeight: real,
    minimumConfidence: real)
  {
    predicate Valid() {
      && 1 <= maxCandidates <= 64
      && 0.0 <= defaultSourceWeight <= 1.0 && (forall s <- sourceWeights :: 0.0 <= sourceWeights[s] <= 1.0)
      && 0.0 <= recognitionWeight <= 1.0 && 0.0 <= cropQualityWeight <= 1.0
      && 0.0 <= marginWeight <= 1.0 && 0.0 <= layoutWeight <= 1.0
      && 0.0 <= minimumConfidence <= 1.0
      && TotalWeight() > 0.0
    }

    function TotalWeight(): real {
      recognitionWeight + cropQualityWeight + marginWeight + layoutWeight
    }

    function SourceWeight(source: string): real {
      if source in sourceWeights then sourceWeights[source] else defaultSourceWeight
    }
  }

  function EffectiveConfidence(c: PlateCandidate): (r: real)
    ensures 0.0 <= r <= 1.0
  {
    if c.calibratedConfidence > 0.0 then Clamp01(c.calibratedConfidence) else Clamp01(c.confidence)
  }

  // ---------------------------------------------------------------- one candidate's score

  /** The strongest candidate with another text, 0 if there is none. */
  function StrongestRival(candidates: seq<PlateCandidate>, text: string): (r: real)
    ensures 0.0 <= r <= 1.0
  {
    if candidates == [] then 0.0
    else
      var n := |candidates| - 1;
      var rest := StrongestRival(candidates[..n], text);
      if candidates[n].text == text then rest else Max(rest, EffectiveConfidence(candidates[n]))
  }

  method CandidateMargin(candidates: seq<PlateCandidate>, k: nat) returns (margin: real)
    requires k < |candidates|
    ensures margin == Margin(candidates, k)
  {
    hide EffectiveConfidence;
    var highest := 0.0;
    for i := 0 to |candidates|
      invariant highest == StrongestRival(candidates[..i], candidates[k].text)
    {
      assert candidates[..i + 1][..i] == candidates[..i];
      if !(i == k || candidates[i].text == candidates[k].text) {
        highest := Max(highest, EffectiveConfidence(candidates[i]));
      }
    }
    assert candidates[..|candidates|] == candidates;
    margin := Clamp01(EffectiveConfidence(candidates[k]) - highest);
  }

  function Margin(candidates: seq<PlateCandidate>, k: nat): (r: real)
    requires k < |candidates|
    ensures 0.0 <= r <= 1.0
  {
    Clamp01(EffectiveConfidence(candidates[k]) - StrongestRival(candidates, candidates[k].text))
  }

  function LayoutQuality(layouts: seq<Layout>, k: nat): (r: real)
    ensures 0.0 <= r <= 1.0
  {
    if k < |layouts| && layouts[k].reliable then Clamp01(layouts[k].confidence) else 0.0
  }

  /** The weighted mean of the four qualities. */
  function Blend(cfg: FusionConfig, recognition: real, crop: real, margin: real, layout: real): (r: real)
    requires cfg.Valid()
    ensures 0.0 <= r <= 1.0
  {
    Clamp01((recognition * cfg.recognitionWeight + crop * cfg.cropQualityWeight + margin * cfg.marginWeight
             + layout * cfg.layoutWeight) / cfg.TotalWeight())
  }

  function Score(cfg: FusionConfig, e: RecognitionEvidence, layout: real, k: nat): (r: real)
    requires cfg.Valid() && k < |e.candidates|
    ensures 0.0 <= cfg.SourceWeight(e.source) ==> r >= 0.0
    ensures 0.0 <= cfg.SourceWeight(e.source) <= 1.0 ==> r <= 1.0
  {
    var blend := Blend(cfg, EffectiveConfidence(e.candidates[k]), Clamp01(e.cropQuality), Margin(e.candidates, k), layout);
    ScoreRange(cfg.SourceWeight(e.source), blend);
    cfg.SourceWeight(e.source) * blend
  }

  lemma ScoreRange(weight: real, blend: real)
    requires 0.0 <= blend <= 1.0
    ensures weight >= 0.0 ==> weight * blend >= 0.0
    ensures 0.0 <= weight <= 1.0 ==> weight * blend <= 1.0
  {
    if weight >= 0.0 {
      NonNegativeProduct(weight, blend);
      NonNegativeProduct(weight, 1.0 - blend);
      assert weight * (1.0 - blend) == weight - weight * blend;
    }
  }

  // ---------------------------------------------------------------- the vote

  predicate Usable(cfg: FusionConfig, e: RecognitionEvidence) {
    cfg.SourceWeight(e.source) > 0.0
  }

  predicate Counts(cfg: FusionConfig, c: PlateCandidate) {
    c.text != "" && EffectiveConfidence(c) >= cfg.minimumConfidence
  }

  /** Some of the first n candidates counts for the text. */
  predicate MentionedIn(cfg: FusionConfig, candidates: seq<PlateCandidate>, n: nat, text: string)
    requires n <= |candidates|
  {
    exists k :: 0 <= k < n && candidates[k].text == text && Counts(cfg, candidates[k])
  }

  predicate ValidIn(cfg: FusionConfig, candidates: seq<PlateCandidate>, n: nat, text: string)
    requires n <= |candidates|
  {
    exists k :: 0 <= k < n && candidates[k].text == text && Counts(cfg, candidates[k]) && candidates[k].formatValid
  }

  /** The best score of a text among the first n candidates of one piece of evidence. */
  function BestScore(cfg: FusionConfig, e: RecognitionEvidence, layout: real, n: nat, text: string): (r: real)
    requires cfg.Valid() && n <= |e.candidates| && 0.0 <= cfg.SourceWeight(e.source) <= 1.0
    ensures 0.0 <= r <= 1.0
  {
    if n == 0 then 0.0
    else
      var rest := BestScore(cfg, e, layout, n - 1, text);
      if e.candidates[n - 1].text == text && Counts(cfg, e.candidates[n - 1]) then Max(rest, Score(cfg, e, layout, n - 1)) else rest
  }

  lemma WeightRange(cfg: FusionConfig, source: string)
    requires cfg.Valid()
    ensures 0.0 <= cfg.SourceWeight(source) <= 1.0
  {
  }

  /** What piece i of the evidence says for a text: 0 if it is not usable. */
  function Voice(cfg: FusionConfig, evidence: seq<RecognitionEvidence>, layouts: seq<Layout>, i: nat, text: string): (r: real)
    requires cfg.Valid() && i < |evidence|
    ensures 0.0 <= r <= 1.0
  {
    var e := evidence[i];
    WeightRange(cfg, e.source);
    if Usable(cfg, e) then BestScore(cfg, e, LayoutQuality(layouts, i), |e.candidates|, text) else 0.0
  }

  /** The probability that all of the first n pieces are wrong about a text, were they independent. */
  function Doubt(cfg: FusionConfig, evidence: seq<RecognitionEvidence>, layouts: seq<Layout>, n: nat, text: string): real
    requires cfg.Valid() && n <= |evidence|
  {
    if n == 0 then 1.0
    else Doubt(cfg, evidence, layouts, n - 1, text) * (1.0 - Voice(cfg, evidence, layouts, n - 1, text))
  }

  predicate Mentioned(cfg: FusionConfig, evidence: seq<RecognitionEvidence>, n: nat, text: string)
    requires n <= |evidence|
  {
    exists i :: 0 <= i < n && Usable(cfg, evidence[i]) && MentionedIn(cfg, evidence[i].candidates, |evidence[i].candidates|, text)
  }

  predicate MentionedValid(cfg: FusionConfig, evidence: seq<RecognitionEvidence>, n: nat, text: string)
    requires n <= |evidence|
  {
    exists i :: 0 <= i < n && Usable(cfg, evidence[i]) && ValidIn(cfg, evidence[i].candidates, |evidence[i].candidates|, text)
  }

  lemma {:induction false} DoubtRange(cfg: FusionConfig, evidence: seq<RecognitionEvidence>, layouts: seq<Layout>, n: nat, text: string)
    requires cfg.Valid() && n <= |evidence|
    ensures 0.0 <= Doubt(cfg, evidence, layouts, n, text) <= 1.0
  {
    hide Voice;
    if n > 0 {
      DoubtRange(cfg, evidence, layouts, n - 1, text);
      DoubtStep(cfg, evidence, layouts, n, text);
    }
  }

  /** Another piece of evidence never raises the doubt, and leaves no more than its own. */
  lemma DoubtStep(cfg: FusionConfig, evidence: seq<RecognitionEvidence>, layouts: seq<Layout>, n: nat, text: string)
    requires cfg.Valid() && 0 < n <= |evidence| && 0.0 <= Doubt(cfg, evidence, layouts, n - 1, text) <= 1.0
    ensures 0.0 <= Doubt(cfg, evidence, layouts, n, text) <= Doubt(cfg, evidence, layouts, n - 1, text)
    ensures Doubt(cfg, evidence, layouts, n, text) <= 1.0 - Voice(cfg, evidence, layouts, n - 1, text)
  {
    hide Voice;
    var a, b := Doubt(cfg, evidence, layouts, n - 1, text), Voice(cfg, evidence, layouts, n - 1, text);
    NonNegativeProduct(a, 1.0 - b);
    NonNegativeProduct(a, b);
    NonNegativeProduct(1.0 - a, 1.0 - b);
    assert a * (1.0 - b) == a - a * b;
    assert (1.0 - a) * (1.0 - b) == (1.0 - b) - a * (1.0 - b);
  }

  /** A text is at least as well supported as any single piece of evidence supports it. */
  lemma {:induction false} SupportDominates(cfg: FusionConfig, evidence: seq<RecognitionEvidence>, layouts: seq<Layout>,
                                            n: nat, i: nat, text: string)
    requires cfg.Valid() && i < n <= |evidence|
    ensures Voice(cfg, evidence, layouts, i, text) <= 1.0 - Doubt(cfg, evidence, layouts, n, text)
  {
    hide Voice;
    DoubtRange(cfg, evidence, layouts, n - 1, text);
    DoubtStep(cfg, evidence, layouts, n, text);
    if i < n - 1 {
      SupportDominates(cfg, evidence, layouts, n - 1, i, text);
    }
  }

  lemma {:induction false} SilentCandidates(cfg: FusionConfig, e: RecognitionEvidence, layout: real, n: nat, text: string)
    requires cfg.Valid() && n <= |e.candidates| && 0.0 <= cfg.SourceWeight(e.source) <= 1.0
    requires !MentionedIn(cfg, e.candidates, n, text)
    ensures BestScore(cfg, e, layout, n, text) == 0.0
  {
    hide Counts, Score, EffectiveConfidence;
    if n > 0 {
      assert !(e.candidates[n - 1].text == text && Counts(cfg, e.candidates[n - 1]));
      SilentCandidates(cfg, e, layout, n - 1, text);
    }
  }

  lemma SilentVoice(cfg: FusionConfig, evidence: seq<RecognitionEvidence>, layouts: seq<Layout>, i: nat, text: string)
    requires cfg.Valid() && i < |evidence|
    requires !Usable(cfg, evidence[i]) || !MentionedIn(cfg, evidence[i].candidates, |evidence[i].candidates|, text)
    ensures Voice(cfg, evidence, layouts, i, text) == 0.0
  {
    hide MentionedIn, BestScore, LayoutQuality;
    WeightRange(cfg, evidence[i].source);
    if Usable(cfg, evidence[i]) {
      SilentCandidates(cfg, evidence[i], LayoutQuality(layouts, i), |evidence[i].candidates|, text);
    }
  }

  lemma {:induction false} NoDoubt(cfg: FusionConfig, evidence: seq<RecognitionEvidence>, layouts: seq<Layout>, n: nat, text: string)
    requires cfg.Valid() && n <= |evidence| && !Mentioned(cfg, evidence, n, text)
    ensures Doubt(cfg, evidence, layouts, n, text) == 1.0
  {
    hide MentionedIn, Usable, Voice;
    if n > 0 {
      NoDoubt(cfg, evidence, layouts, n - 1, text);
      SilentVoice(cfg, evidence, layouts, n - 1, text);
    }
  }

  // ---------------------------------------------------------------- the implementation

  datatype Aggregate = Aggregate(support: real, formatValid: bool)

  /** The running map of one piece of evidence. */
  ghost predicate Local(cfg: FusionConfig, e: RecognitionEvidence, layout: real, n: nat, m: map<string, Aggregate>)
    requires cfg.Valid() && n <= |e.candidates| && 0.0 <= cfg.SourceWeight(e.source) <= 1.0
  {
    && (forall t :: t in m <==> MentionedIn(cfg, e.candidates, n, t))
    && (forall t <- m :: m[t] == Aggregate(BestScore(cfg, e, layout, n, t), ValidIn(cfg, e.candidates, n, t)))
  }

  /** The running map over the evidence. */
  ghost predicate Voted(cfg: FusionConfig, evidence: seq<RecognitionEvidence>, layouts: seq<Layout>, n: nat,
                        m: map<string, Aggregate>)
    requires cfg.Valid() && n <= |evidence|
  {
    && (forall t :: t in m <==> Mentioned(cfg, evidence, n, t))
    && (forall t <- m :: m[t] == Aggregate(1.0 - Doubt(cfg, evidence, layouts, n, t), MentionedValid(cfg, evidence, n, t)))
  }

  lemma MentionedStep(cfg: FusionConfig, candidates: seq<PlateCandidate>, n: nat, text: string)
    requires n < |candidates|
    ensures var counts := candidates[n].text == text && Counts(cfg, candidates[n]);
      && (MentionedIn(cfg, candidates, n + 1, text) <==> MentionedIn(cfg, candidates, n, text) || counts)
      && (ValidIn(cfg, candidates, n + 1, text) <==> ValidIn(cfg, candidates, n, text) || (counts && candidates[n].formatValid))
    ensures ValidIn(cfg, candidates, n, text) ==> MentionedIn(cfg, candidates, n, text)
  {
    hide Counts;
  }

  lemma LocalStep(cfg: FusionConfig, e: RecognitionEvidence, layout: real, n: nat, before: map<string, Aggregate>,
                  after: map<string, Aggregate>)
    requires cfg.Valid() && n < |e.candidates| && 0.0 <= cfg.SourceWeight(e.source) <= 1.0
    requires Local(cfg, e, layout, n, before)
    requires var c := e.candidates[n];
      after == if !Counts(cfg, c) then before
               else before[c.text := Heard(if c.text in before then before[c.text] else Aggregate(0.0, false),
                                           Score(cfg, e, layout, n), c.formatValid)]
    ensures Local(cfg, e, layout, n + 1, after)
  {
    hide Counts, Score, MentionedIn, ValidIn;
    forall t
      ensures t in after <==> MentionedIn(cfg, e.candidates, n + 1, t)
      ensures t in after ==>
        after[t] == Aggregate(BestScore(cfg, e, layout, n + 1, t), ValidIn(cfg, e.candidates, n + 1, t))
    {
      MentionedStep(cfg, e.candidates, n, t);
      if t !in before {
        SilentCandidates(cfg, e, layout, n, t);
      }
    }
  }

  /** One more candidate for a text. */
  function Heard(a: Aggregate, score: real, formatValid: bool): Aggregate {
    Aggregate(if score > a.support then score else a.support, a.formatValid || formatValid)
  }

  method Listen(cfg: FusionConfig, e: RecognitionEvidence, layout: real) returns (m: map<string, Aggregate>)
    requires cfg.Valid() && 0.0 <= cfg.SourceWeight(e.source) <= 1.0
    ensures Local(cfg, e, layout, |e.candidates|, m)
  {
    hide Counts, Score, Blend, MentionedIn, ValidIn, BestScore, Local, FusionConfig.Valid, FusionConfig.SourceWeight;
    m := map[];
    NothingHeard(cfg, e, layout);
    for k := 0 to |e.candidates|
      invariant Local(cfg, e, layout, k, m)
    {
      var c := e.candidates[k];
      ghost var before := m;
      if Counts(cfg, c) {
        var margin := CandidateMargin(e.candidates, k);
        var score := cfg.SourceWeight(e.source)
                     * Blend(cfg, EffectiveConfidence(c), Clamp01(e.cropQuality), margin, layout);
        ScoreIs(cfg, e, layout, k, margin, score);
        m := m[c.text := Heard(if c.text in m then m[c.text] else Aggregate(0.0, false), score, c.formatValid)];
      }
      LocalStep(cfg, e, layout, k, before, m);
    }
  }

  lemma ScoreIs(cfg: FusionConfig, e: RecognitionEvidence, layout: real, k: nat, margin: real, score: real)
    requires cfg.Valid() && k < |e.candidates| && margin == Margin(e.candidates, k)
    requires score == cfg.SourceWeight(e.source)
                      * Blend(cfg, EffectiveConfidence(e.candidates[k]), Clamp01(e.cropQuality), margin, layout)
    ensures score == Score(cfg, e, layout, k)
  {
    hide EffectiveConfidence, Margin, Clamp01, Blend;
  }

  lemma NothingHeard(cfg: FusionConfig, e: RecognitionEvidence, layout: real)
    requires cfg.Valid() && 0.0 <= cfg.SourceWeight(e.source) <= 1.0
    ensures Local(cfg, e, layout, 0, map[])
  {
  }

  /** A text's aggregate after one more piece of evidence. */
  function Combined(target: Aggregate, local: Aggregate): Aggregate {
    Aggregate(Clamp01(1.0 - (1.0 - target.support) * (1.0 - local.support)), target.formatValid || local.formatValid)
  }

  method Combine(aggregate: map<string, Aggregate>, local: map<string, Aggregate>) returns (m: map<string, Aggregate>)
    ensures forall t :: t in m <==> t in aggregate || t in local
    ensures forall t <- m ::
      m[t] == if t !in local then aggregate[t]
              else Combined(if t in aggregate then aggregate[t] else Aggregate(0.0, false), local[t])
  {
    hide Combined, TextBefore;
    var texts := KeysInOrder(local);
    m := aggregate;
    for i := 0 to |texts|
      invariant forall t :: t in m <==> t in aggregate || t in texts[..i]
      invariant forall t <- m ::
        m[t] == if t !in texts[..i] then aggregate[t]
                else Combined(if t in aggregate then aggregate[t] else Aggregate(0.0, false), local[t])
    {
      var text := texts[i];
      assert texts[..i + 1] == texts[..i] + [text];
      assert text !in texts[..i] by {
        forall j | 0 <= j < i ensures texts[j] != text {
          TextBeforeTotal(texts[j], text);
        }
      }
      m := m[text := Combined(if text in m then m[text] else Aggregate(0.0, false), local[text])];
    }
    assert texts[..|texts|] == texts;
  }

  lemma CombinedIs(cfg: FusionConfig, evidence: seq<RecognitionEvidence>, layouts: seq<Layout>, n: nat, t: string,
                   target: Aggregate, local: Aggregate)
    requires cfg.Valid() && n < |evidence|
    requires target.support == 1.0 - Doubt(cfg, evidence, layouts, n, t)
    requires local.support == Voice(cfg, evidence, layouts, n, t)
    ensures Combined(target, local).support == 1.0 - Doubt(cfg, evidence, layouts, n + 1, t)
  {
    hide Voice;
    DoubtRange(cfg, evidence, layouts, n, t);
    DoubtRange(cfg, evidence, layouts, n + 1, t);
    assert (1.0 - target.support) * (1.0 - local.support) == Doubt(cfg, evidence, layouts, n + 1, t);
  }

  lemma MentionedNext(cfg: FusionConfig, evidence: seq<RecognitionEvidence>, n: nat, t: string)
    requires n < |evidence|
    ensures var e := evidence[n];
      && (Mentioned(cfg, evidence, n + 1, t) <==>
            Mentioned(cfg, evidence, n, t) || (Usable(cfg, e) && MentionedIn(cfg, e.candidates, |e.candidates|, t)))
      && (MentionedValid(cfg, evidence, n + 1, t) <==>
            MentionedValid(cfg, evidence, n, t) || (Usable(cfg, e) && ValidIn(cfg, e.candidates, |e.candidates|, t)))
    ensures MentionedValid(cfg, evidence, n, t) ==> Mentioned(cfg, evidence, n, t)
    ensures ValidIn(cfg, evidence[n].candidates, |evidence[n].candidates|, t) ==>
      MentionedIn(cfg, evidence[n].candidates, |evidence[n].candidates|, t)
  {
    hide Usable, Counts;
    assert forall i | 0 <= i < n && ValidIn(cfg, evidence[i].candidates, |evidence[i].candidates|, t) ::
      MentionedIn(cfg, evidence[i].candidates, |evidence[i].candidates|, t);
  }

  lemma SkippedStep(cfg: FusionConfig, evidence: seq<RecognitionEvidence>, layouts: seq<Layout>, n: nat, m: map<string, Aggregate>)
    requires cfg.Valid() && n < |evidence| && Voted(cfg, evidence, layouts, n, m) && !Usable(cfg, evidence[n])
    ensures Voted(cfg, evidence, layouts, n + 1, m)
  {
    hide Usable, Mentioned, MentionedValid, MentionedIn, ValidIn, Voice;
    forall t
      ensures t in m <==> Mentioned(cfg, evidence, n + 1, t)
      ensures t in m ==>
        m[t] == Aggregate(1.0 - Doubt(cfg, evidence, layouts, n + 1, t), MentionedValid(cfg, evidence, n + 1, t))
    {
      MentionedNext(cfg, evidence, n, t);
      SilentVoice(cfg, evidence, layouts, n, t);
    }
  }

  lemma VotedStep(cfg: FusionConfig, evidence: seq<RecognitionEvidence>, layouts: seq<Layout>, n: nat,
                  before: map<string, Aggregate>, local: map<string, Aggregate>, after: map<string, Aggregate>)
    requires cfg.Valid() && n < |evidence| && Voted(cfg, evidence, layouts, n, before) && Usable(cfg, evidence[n])
    requires 0.0 <= cfg.SourceWeight(evidence[n].source) <= 1.0
    requires Local(cfg, evidence[n], LayoutQuality(layouts, n), |evidence[n].candidates|, local)
    requires forall t :: t in after <==> t in before || t in local
    requires forall t <- after ::
      after[t] == if t !in local then before[t]
                  else Combined(if t in before then before[t] else Aggregate(0.0, false), local[t])
    ensures Voted(cfg, evidence, layouts, n + 1, after)
  {
    hide FusionConfig.Valid, FusionConfig.SourceWeight, Usable, Mentioned, MentionedValid, MentionedIn, ValidIn, Clamp01, Doubt,
      BestScore, LayoutQuality;
    forall t
      ensures t in after <==> Mentioned(cfg, evidence, n + 1, t)
      ensures t in after ==>
        after[t] == Aggregate(1.0 - Doubt(cfg, evidence, layouts, n + 1, t), MentionedValid(cfg, evidence, n + 1, t))
    {
      MentionedNext(cfg, evidence, n, t);
      if t in local {
        if t !in before {
          NoDoubt(cfg, evidence, layouts, n, t);
        }
        CombinedIs(cfg, evidence, layouts, n, t, if t in before then before[t] else Aggregate(0.0, false), local[t]);
      } else {
        SilentVoice(cfg, evidence, layouts, n, t);
        DoubtUnchanged(cfg, evidence, layouts, n, t);
      }
    }
  }

  lemma DoubtUnchanged(cfg: FusionConfig, evidence: seq<RecognitionEvidence>, layouts: seq<Layout>, n: nat, t: string)
    requires cfg.Valid() && n < |evidence| && Voice(cfg, evidence, layouts, n, t) == 0.0
    ensures Doubt(cfg, evidence, layouts, n + 1, t) == Doubt(cfg, evidence, layouts, n, t)
  {
    hide Voice;
  }

  predicate CandidateBefore(a: PlateCandidate, b: PlateCandidate) {
    if a.confidence != b.confidence then a.confidence > b.confidence else TextBefore(a.text, b.text)
  }

  lemma CandidateOrder()
    ensures StrictWeakOrder(CandidateBefore)
  {
    hide TextBefore;
    forall a, b | CandidateBefore(a, b) ensures !CandidateBefore(b, a) {
      TextBeforeTotal(a.text, b.text);
    }
    forall a, b, c | CandidateBefore(a, c) ensures CandidateBefore(a, b) || CandidateBefore(b, c) {
      if a.confidence == c.confidence {
        TextBeforeNegativelyTransitive(a.text, b.text, c.text);
      }
    }
  }

  /** One entry per mentioned text, with its support and whether some candidate for it was format-valid, best first. */
  ghost predicate IsPoll(cfg: FusionConfig, evidence: seq<RecognitionEvidence>, layouts: seq<Layout>, poll: seq<PlateCandidate>)
    requires cfg.Valid()
  {
    && (forall c <- poll :: IsPolled(cfg, evidence, layouts, c))
    && (forall t | Mentioned(cfg, evidence, |evidence|, t) :: exists c <- poll :: c.text == t)
    && (forall i, j | 0 <= i < j < |poll| :: poll[i].text != poll[j].text)
    && Sorted(CandidateBefore, poll)
  }

  ghost predicate IsPolled(cfg: FusionConfig, evidence: seq<RecognitionEvidence>, layouts: seq<Layout>, c: PlateCandidate)
    requires cfg.Valid()
  {
    && Mentioned(cfg, evidence, |evidence|, c.text)
    && c.confidence == 1.0 - Doubt(cfg, evidence, layouts, |evidence|, c.text)
    && c.calibratedConfidence == c.confidence
    && c.formatValid == MentionedValid(cfg, evidence, |evidence|, c.text)
  }

  /** The fused list is the head of the poll. */
  method Fuse(cfg: FusionConfig, evidence: seq<RecognitionEvidence>, layouts: seq<Layout>)
    returns (fused: seq<PlateCandidate>, ghost poll: seq<PlateCandidate>)
    requires cfg.Valid()
    ensures IsPoll(cfg, evidence, layouts, poll)
    ensures fused == if |poll| > cfg.maxCandidates then poll[..cfg.maxCandidates] else poll
  {
    hide *;
    var aggregate: map<string, Aggregate> := map[];
    NobodyVoted(cfg, evidence, layouts);
    for i := 0 to |evidence|
      invariant Voted(cfg, evidence, layouts, i, aggregate)
    {
      WeightRange(cfg, evidence[i].source);
      if Usable(cfg, evidence[i]) {
        var local := Listen(cfg, evidence[i], LayoutQuality(layouts, i));
        ghost var before := aggregate;
        aggregate := Combine(aggregate, local);
        VotedStep(cfg, evidence, layouts, i, before, local, aggregate);
      } else {
        SkippedStep(cfg, evidence, layouts, i, aggregate);
      }
    }
    var texts := KeysInOrder(aggregate);
    var list := seq(|texts|, i requires 0 <= i < |texts| && texts[i] in aggregate => Entry(texts[i], aggregate[texts[i]]));
    CandidateOrder();
    StableSortSorted(CandidateBefore, list);
    var sorted := StableSort(CandidateBefore, list);
    PollFrom(cfg, evidence, layouts, aggregate, texts, list, sorted);
    poll := sorted;
    fused := if |sorted| > cfg.maxCandidates then sorted[..cfg.maxCandidates] else sorted;
  }

  function Entry(text: string, a: Aggregate): PlateCandidate {
    PlateCandidate(text, a.support, a.support, a.formatValid)
  }

  lemma NobodyVoted(cfg: FusionConfig, evidence: seq<RecognitionEvidence>, layouts: seq<Layout>)
    requires cfg.Valid()
    ensures Voted(cfg, evidence, layouts, 0, map[])
  {
  }

  lemma PollFrom(cfg: FusionConfig, evidence: seq<RecognitionEvidence>, layouts: seq<Layout>, aggregate: map<string, Aggregate>,
                 texts: seq<string>, list: seq<PlateCandidate>, sorted: seq<PlateCandidate>)
    requires cfg.Valid() && Voted(cfg, evidence, layouts, |evidence|, aggregate)
    requires Ascending(texts) && forall t :: t in texts <==> t in aggregate
    requires |list| == |texts| && forall i | 0 <= i < |list| :: list[i] == Entry(texts[i], aggregate[texts[i]])
    requires multiset(sorted) == multiset(list) && Sorted(CandidateBefore, sorted)
    ensures IsPoll(cfg, evidence, layouts, sorted)
  {
    hide FusionConfig.Valid, Mentioned, MentionedValid, Doubt, TextBefore, CandidateBefore;
    SameElements(list, sorted);
    forall i, j | 0 <= i < j < |list| ensures list[i].text != list[j].text {
      TextBeforeTotal(texts[i], texts[j]);
    }
    forall c | c in sorted ensures IsPolled(cfg, evidence, layouts, c) {
      var i :| 0 <= i < |list| && list[i] == c;
      assert texts[i] in texts;
    }
    forall t | Mentioned(cfg, evidence, |evidence|, t) ensures exists c <- sorted :: c.text == t {
      assert t in texts;
      var i :| 0 <= i < |texts| && texts[i] == t;
      assert list[i] in sorted;
    }
    forall i, j | 0 <= i < j < |sorted| ensures sorted[i].text != sorted[j].text {
      OnceEach(list, sorted, i, j);
      assert sorted[i] in list && sorted[j] in list;
      var k, l :| 0 <= k < |list| && 0 <= l < |list| && list[k] == sorted[i] && list[l] == sorted[j];
      assert k < l || l < k;
    }
  }
}
