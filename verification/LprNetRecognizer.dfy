/** The CTC recognizer: the decoder's candidates as a recognizer's answer, and what that means for accepted plates. */
module LprNetRecognizer {
  import opened Outcomes
  import opened Domain
  import opened Grammar
  import opened Ctc
  import opened CtcBeam
  import opened CtcExactness
  import opened CtcDecode
  import opened RecognitionEnsemble
  import Pipeline = RecognitionPipeline

  function AsPlateCandidates(candidates: seq<Candidate>): (r: seq<PlateCandidate>)
    ensures |r| == |candidates|
    ensures forall k | 0 <= k < |r| :: r[k].text == candidates[k].text && r[k].formatValid == candidates[k].formatValid
  {
    seq(|candidates|, k requires 0 <= k < |candidates| =>
      PlateCandidate(candidates[k].text, candidates[k].confidence, candidates[k].confidence, candidates[k].formatValid))
  }

  /** The candidates the decoder reads from some sequence of rows. */
  ghost predicate IsAnswer(cfg: SearchConfig, answer: seq<PlateCandidate>) {
    exists rows, root, path, decoded ::
      Input(cfg, rows) && Decodes(cfg, rows, root, path, decoded) && answer == AsPlateCandidates(decoded.candidates)
  }

  /** The recognizer's answer about one crop. The decoder has already fallen back to the greedy text, so the adapter's own
      fallback never happens. */
  method Recognize(cfg: SearchConfig, rows: seq<Row>, classes: nat, root: real -> real) returns (response: Response)
    requires cfg.Valid() && (rows != [] ==> IsRoot(root, |rows|))
    requires classes == cfg.ctc.ClassCount() ==> forall row <- rows :: Distribution(cfg.ctc, row)
    ensures response.Failure? <==> |rows| == 0 || |rows| > cfg.ctc.maximumTimesteps || classes != cfg.ctc.ClassCount()
    ensures response.Failure? ==> response.error == InferenceError
    ensures response.Success? ==> IsAnswer(cfg, response.value)
    ensures response.Success? ==> forall c <- response.value ::
      && 0.0 <= c.confidence <= 1.0 && c.calibratedConfidence == c.confidence
      && (c.formatValid ==> Plate(cfg.grammar, c.text))
  {
    hide Plate, Collapse, ScoresOf, IsRoot, ListsBest;
    var outcome, path := Decode(cfg, rows, classes, root);
    if outcome.Failure? {
      return Failure(outcome.error);
    }
    var decoded := outcome.value;
    var answer := AsPlateCandidates(decoded.candidates);
    if answer == [] && decoded.greedy.text != "" {
      EmptyListMeansNoScores(cfg, rows, root, path, decoded);
      assert false;
    }
    forall c | c in answer
      ensures 0.0 <= c.confidence <= 1.0 && c.calibratedConfidence == c.confidence
      ensures c.formatValid ==> Plate(cfg.grammar, c.text)
    {
      var k :| 0 <= k < |answer| && answer[k] == c;
      assert decoded.candidates[k] in decoded.candidates;
    }
    assert Input(cfg, rows);
    response := Success(answer);
  }

  lemma EmptyListMeansNoScores(cfg: SearchConfig, rows: seq<Row>, root: real -> real, path: Path, decoded: DecodeResult)
    requires cfg.Valid() && Decodes(cfg, rows, root, path, decoded) && decoded.candidates == []
    ensures decoded.greedy.text == ""
  {
    hide Collapse, CandidateBefore;
    assert cfg.resultLimit > 0;
    assert |ScoresOf(cfg, rows)| == 0 ==> ScoresOf(cfg, rows) == map[];
  }

  /** A candidate the decoder marks format-valid is a plate. */
  lemma AnswersAreGrammatical(cfg: SearchConfig, answer: seq<PlateCandidate>, c: PlateCandidate)
    requires IsAnswer(cfg, answer) && c in answer && c.formatValid
    ensures Plate(cfg.grammar, c.text)
  {
    hide Plate, Collapse, ScoresOf, CandidateBefore, Input;
    var rows, root, path, decoded :|
      Input(cfg, rows) && Decodes(cfg, rows, root, path, decoded) && answer == AsPlateCandidates(decoded.candidates);
    var k :| 0 <= k < |answer| && answer[k] == c;
    var candidate := decoded.candidates[k];
    assert candidate in decoded.candidates;
    if decoded.fallbackUsed {
      EmptyIsNoPlate(cfg.grammar);
    } else {
      ScoresSound(cfg, rows, candidate.text);
    }
  }

  /** Every recognizer that is asked is a CTC recognizer with this grammar. */
  ghost predicate AllCtc(setup: Pipeline.Setup, scene: Pipeline.Scene, g: PlateGrammar)
    requires Pipeline.Fits(setup, scene)
  {
    scene.crops.Success? ==>
      forall crop, m | crop in scene.crops.value && 0 <= m < |setup.recognizers|
                       && Consulted(setup.recognizers[m]) && crop.responses[m].Success? ::
        exists cfg: SearchConfig :: cfg.grammar == g && IsAnswer(cfg, crop.responses[m].value)
  }

  /** From the search to the decision: with CTC recognizers, a plate the pipeline accepts is one the grammar accepts. */
  lemma AcceptedPlateIsPlate(setup: Pipeline.Setup, scene: Pipeline.Scene, r: Recognition, g: PlateGrammar)
    requires Pipeline.Fits(setup, scene) && r.status == Accepted && Pipeline.Trustworthy(setup, scene, r)
    requires AllCtc(setup, scene, g)
    ensures Plate(g, r.plate)
  {
    hide Plate, IsAnswer, Pipeline.Trustworthy, Consulted;
    Pipeline.TrustworthyHasCrops(setup, scene, r);
    forall crop, m, c | crop in scene.crops.value && 0 <= m < |setup.recognizers|
        && Consulted(setup.recognizers[m]) && crop.responses[m].Success? && c in crop.responses[m].value && c.formatValid
      ensures Plate(g, c.text)
    {
      var cfg: SearchConfig :| cfg.grammar == g && IsAnswer(cfg, crop.responses[m].value);
      AnswersAreGrammatical(cfg, crop.responses[m].value, c);
    }
    Pipeline.AcceptedPlateIsGrammatical(setup, scene, r, g);
  }
}
