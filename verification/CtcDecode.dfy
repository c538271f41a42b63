/** Texts: what the final scores of the beam search mean, and the decoder built on them. */
module CtcDecode {
  import opened Sums
  import opened Outcomes
  import opened Reals
  import opened Sorting
  import opened Grammar
  import opened Ctc
  import opened CtcBeam
  import opened CtcExactness

  // ---------------------------------------------------------------- reading alignments without the grammar

  function LastMoveClass(cfg: SearchConfig, a: Alignment): nat {
    if a == [] then cfg.ctc.blank else a[|a| - 1].cls
  }

  /** The text an alignment spells: the CTC collapse with each emitted character replaced by the chosen
      alternative; None when a variant does not apply. */
  function Reading(cfg: SearchConfig, a: Alignment): Option<string> {
    if a == [] then Some("")
    else
      var front, m := a[..|a| - 1], a[|a| - 1];
      match Reading(cfg, front)
      case None => None
      case Some(text) =>
        if m.cls == cfg.ctc.blank || m.cls == LastMoveClass(cfg, front) then
          if m.variant == 0 then Some(text) else None
        else
          match Emission(cfg, m)
          case None => None
          case Some(character) => Some(text + [character])
  }

  lemma {:induction false} RunReads(cfg: SearchConfig, a: Alignment)
    requires Run(cfg, a).Some?
    ensures Reading(cfg, a) == Some(Run(cfg, a).value.text)
    ensures Run(cfg, a).value.last == LastMoveClass(cfg, a)
  {
    if a != [] {
      RunReads(cfg, a[..|a| - 1]);
    }
  }

  /** The grammar stops no alignment on the way to a plate within the length limit. */
  lemma {:induction false} PlateReadingRuns(cfg: SearchConfig, a: Alignment, text: string, rest: string)
    requires cfg.grammar.Valid()
    requires Reading(cfg, a) == Some(text) && Plate(cfg.grammar, text + rest)
    requires |text| <= cfg.grammar.maximumInputLength
    ensures Run(cfg, a).Some?
  {
    hide Plate, AcceptsPrefix;
    if a != [] {
      var front := a[..|a| - 1];
      var shorter := Reading(cfg, front).value;
      var more := text[|shorter|..];
      assert text == shorter + more;
      assert text + rest == shorter + (more + rest);
      PlateReadingRuns(cfg, front, shorter, more + rest);
      RunReads(cfg, front);
      PlatePrefixesAccepted(cfg.grammar, text, rest);
    }
  }

  function ReadsAs(cfg: SearchConfig, rows: seq<Row>, text: string): Alignment -> real {
    a => if Reading(cfg, a) == Some(text) then AlignmentWeight(cfg, rows, a) else 0.0
  }

  /** The exact weight of a text: the sum over all alignments that spell it, confusions included. */
  ghost function TextMass(cfg: SearchConfig, rows: seq<Row>, text: string): real {
    Sum(Alignments(cfg, |rows|), ReadsAs(cfg, rows, text))
  }

  function OnText(text: string): Key -> real {
    (key: Key) => if key.text == text then 1.0 else 0.0
  }

  lemma RunsAreReadings(cfg: SearchConfig, rows: seq<Row>, text: string)
    requires cfg.Valid() && NonNegativeRows(rows)
    ensures Sum(Alignments(cfg, |rows|), WeightedAtRun(cfg, rows, OnText(text))) <= TextMass(cfg, rows, text)
    ensures Plate(cfg.grammar, text) && |text| <= cfg.grammar.maximumInputLength ==>
      Sum(Alignments(cfg, |rows|), WeightedAtRun(cfg, rows, OnText(text))) == TextMass(cfg, rows, text)
  {
    hide Sum, Run, Reading, AlignmentWeight, Plate, Alignments;
    var run, read := WeightedAtRun(cfg, rows, OnText(text)), ReadsAs(cfg, rows, text);
    var complete := Plate(cfg.grammar, text) && |text| <= cfg.grammar.maximumInputLength;
    forall a | a in Alignments(cfg, |rows|) ensures run(a) <= read(a) && (complete ==> run(a) == read(a)) {
      AlignmentWeightNonNegative(cfg, rows, a);
      if Run(cfg, a).Some? {
        RunReads(cfg, a);
      } else if complete && Reading(cfg, a) == Some(text) {
        assert text + "" == text;
        PlateReadingRuns(cfg, a, text, "");
        assert false;
      }
    }
    SumMonotone(Alignments(cfg, |rows|), run, read);
    if complete {
      SumCongruence(Alignments(cfg, |rows|), run, read);
    }
  }

  // ---------------------------------------------------------------- final scores

  ghost function AddFinal(cfg: SearchConfig, scores: map<string, real>, s: State): map<string, real> {
    if Plate(cfg.grammar, s.key.text)
    then scores[s.key.text := if s.key.text in scores then scores[s.key.text] + s.weight else s.weight]
    else scores
  }

  /** The weights of the beam's plates, the last class forgotten. */
  ghost function FinalScores(cfg: SearchConfig, beam: seq<State>): map<string, real> {
    if beam == [] then map[] else AddFinal(cfg, FinalScores(cfg, beam[..|beam| - 1]), beam[|beam| - 1])
  }

  function WeightOnText(text: string): State -> real {
    (s: State) => if s.key.text == text then s.weight else 0.0
  }

  lemma {:induction false} FinalScoreSum(cfg: SearchConfig, beam: seq<State>, text: string)
    ensures text in FinalScores(cfg, beam) <==> Plate(cfg.grammar, text) && exists s <- beam :: s.key.text == text
    ensures Plate(cfg.grammar, text) ==> Score(FinalScores(cfg, beam), text) == Sum(beam, WeightOnText(text))
  {
    hide Plate;
    if beam != [] {
      var n := |beam| - 1;
      FinalScoreSum(cfg, beam[..n], text);
      assert beam == beam[..n] + [beam[n]];
    }
  }

  ghost function ScoresOf(cfg: SearchConfig, rows: seq<Row>): map<string, real> {
    FinalScores(cfg, BeamAt(cfg, rows, |rows|))
  }

  /** Soundness of the scores: only plates are scored, and never above the exact weight of their text. */
  lemma ScoresSound(cfg: SearchConfig, rows: seq<Row>, text: string)
    requires Input(cfg, rows) && text in ScoresOf(cfg, rows)
    ensures Plate(cfg.grammar, text)
    ensures 0.0 <= ScoresOf(cfg, rows)[text] <= TextMass(cfg, rows, text)
  {
    hide Sum, Plate, StateMass, TextMass, Healthy, Alignments, AlignmentWeight, FinalScores, BeamAt, Run;
    var beam := BeamAt(cfg, rows, |rows|);
    var massed := MassValue(cfg, rows, Alignments(cfg, |rows|), OnText(text));
    BeamSound(cfg, rows, |rows|);
    InputNonNegative(cfg, rows);
    FinalScoreSum(cfg, beam, text);
    forall s | s in beam ensures 0.0 <= WeightOnText(text)(s) <= massed(s) {
      MassOnText(cfg, rows, s, text);
    }
    SumZero(beam, s => 0.0);
    SumMonotone(beam, s => 0.0, WeightOnText(text));
    SumMonotone(beam, WeightOnText(text), massed);
    Regroup(cfg, rows, beam, Alignments(cfg, |rows|), OnText(text));
    RunsAreReadings(cfg, rows, text);
  }

  lemma MassOnText(cfg: SearchConfig, rows: seq<Row>, s: State, text: string)
    ensures MassValue(cfg, rows, Alignments(cfg, |rows|), OnText(text))(s)
         == if s.key.text == text then StateMass(cfg, rows, |rows|, s.key) else 0.0
  {
    hide Sum, Alignments, OnRunTo;
  }

  /** Exactness of the scores: without pruning the score of every plate within the grammar's length limit is
      the exact weight of its text (0 when it is not listed); longer plates are never scored. */
  lemma ScoresExact(cfg: SearchConfig, rows: seq<Row>, text: string)
    requires Input(cfg, rows) && Unpruned(cfg, rows, |rows|) && Plate(cfg.grammar, text)
    ensures |text| <= cfg.grammar.maximumInputLength ==> Score(ScoresOf(cfg, rows), text) == TextMass(cfg, rows, text)
    ensures |text| > cfg.grammar.maximumInputLength ==> text !in ScoresOf(cfg, rows)
  {
    hide Sum, Plate, StateMass, TextMass, Alignments, AlignmentWeight, FinalScores, BeamAt, Run, AcceptsPrefix;
    var beam := BeamAt(cfg, rows, |rows|);
    BeamSound(cfg, rows, |rows|);
    FinalScoreSum(cfg, beam, text);
    if |text| > cfg.grammar.maximumInputLength {
      assert text + "" == text;
      PlatePrefixesAccepted(cfg.grammar, text, "");
    } else {
      var massed := MassValue(cfg, rows, Alignments(cfg, |rows|), OnText(text));
      BeamExact(cfg, rows, |rows|);
      InputNonNegative(cfg, rows);
      forall s | s in beam ensures WeightOnText(text)(s) == massed(s) {
        MassOnText(cfg, rows, s, text);
      }
      SumCongruence(beam, WeightOnText(text), massed);
      Regroup(cfg, rows, beam, Alignments(cfg, |rows|), OnText(text));
      RunsAreReadings(cfg, rows, text);
    }
  }

  // ---------------------------------------------------------------- without confusion pairs

  function Lift(path: Path): Alignment {
    seq(|path|, i requires 0 <= i < |path| => Move(path[i], 0))
  }

  lemma {:induction false} MovesWithoutPairs(cfg: SearchConfig, classes: seq<nat>)
    requires cfg.confusionPairs == []
    ensures MovesOf(cfg, classes) == Lift(classes)
  {
    if classes != [] {
      var n := |classes| - 1;
      MovesWithoutPairs(cfg, classes[..n]);
      assert ClassMoves(cfg, classes[n]) == [Move(classes[n], 0)];
    }
  }

  ghost function Lifted(f: Alignment -> real): Path -> real {
    path => f(Lift(path))
  }

  lemma LiftedOneMore(classes: seq<nat>, f: Alignment -> real, path: Path)
    ensures Lifted(OneMore(Lift(classes), f))(path) == OneMore(classes, Lifted(f))(path)
  {
    hide Sum;
    forall i | 0 <= i < |classes| ensures After(Lift(path), f)(Lift(classes)[i]) == After(path, Lifted(f))(classes[i]) {
      assert Lift(path) + [Lift(classes)[i]] == Lift(path + [classes[i]]);
    }
    SumMap(Lift(classes), classes, After(Lift(path), f), After(path, Lifted(f)));
  }

  lemma EmptyWordLifted(classes: seq<nat>, f: Alignment -> real)
    ensures Sum(Words(Lift(classes), 0), f) == Sum(Words(classes, 0), Lifted(f))
  {
    var none: Path := [];
    assert Lift(none) == [];
    SumLast([], [], f);
    SumLast([], none, Lifted(f));
    assert [] + [[]] == Words(Lift(classes), 0) && [] + [none] == Words(classes, 0);
  }

  lemma {:induction false} SumLifted(classes: seq<nat>, n: nat, f: Alignment -> real)
    ensures Sum(Words(Lift(classes), n), f) == Sum(Words(classes, n), Lifted(f))
    decreases n
  {
    hide *;
    if n == 0 {
      EmptyWordLifted(classes, f);
    } else {
      SumWords(Lift(classes), n - 1, f);
      SumLifted(classes, n - 1, OneMore(Lift(classes), f));
      LiftedStep(classes, n - 1, f);
    }
  }

  lemma LiftedStep(classes: seq<nat>, n: nat, f: Alignment -> real)
    ensures Sum(Words(classes, n), Lifted(OneMore(Lift(classes), f))) == Sum(Words(classes, n + 1), Lifted(f))
  {
    hide *;
    SumWords(classes, n, Lifted(f));
    forall path | path in Words(classes, n)
      ensures Lifted(OneMore(Lift(classes), f))(path) == OneMore(classes, Lifted(f))(path)
    {
      LiftedOneMore(classes, f, path);
    }
    SumCongruence(Words(classes, n), Lifted(OneMore(Lift(classes), f)), OneMore(classes, Lifted(f)));
  }

  lemma NothingCollapsed(cfg: CtcConfig)
    ensures Collapse(cfg, []) == ""
  {
  }

  lemma PlainEmission(cfg: SearchConfig, cls: nat)
    ensures Emission(cfg, Move(cls, 0)) == Some(ClassCharacter(cfg.ctc, cls))
  {
  }

  lemma {:induction false} LiftedReading(cfg: SearchConfig, path: Path)
    ensures Reading(cfg, Lift(path)) == Some(Collapse(cfg.ctc, path))
  {
    hide Collapse, Emission;
    if path == [] {
      NothingCollapsed(cfg.ctc);
    } else {
      var n := |path| - 1;
      var front := path[..n];
      LiftedReading(cfg, front);
      CollapseStep(cfg.ctc, front, path[n]);
      PlainEmission(cfg, path[n]);
      assert Lift(path)[..n] == Lift(front);
      assert path == front + [path[n]];
      assert Collapse(cfg.ctc, front) + [] == Collapse(cfg.ctc, front);
    }
  }

  lemma {:induction false} LiftedWeight(cfg: SearchConfig, rows: seq<Row>, path: Path)
    ensures AlignmentWeight(cfg, rows, Lift(path)) == PathWeight(rows, path)
  {
    if path != [] {
      LiftedWeight(cfg, rows, path[..|path| - 1]);
      assert Lift(path)[..|path| - 1] == Lift(path[..|path| - 1]);
    }
  }

  /** With no confusion pairs the weight of a text is its CTC probability: the sum over all class paths
      that collapse to it. */
  lemma TextMassIsProbability(cfg: SearchConfig, rows: seq<Row>, text: string)
    requires cfg.confusionPairs == []
    ensures TextMass(cfg, rows, text) == TextProbability(cfg.ctc, rows, text)
  {
    var classes := Range(cfg.ctc.ClassCount());
    MovesWithoutPairs(cfg, classes);
    SumLifted(classes, |rows|, ReadsAs(cfg, rows, text));
    forall path: Path ensures ReadsAs(cfg, rows, text)(Lift(path)) == Summand(cfg.ctc, rows, text, path) {
      LiftedReading(cfg, path);
      LiftedWeight(cfg, rows, path);
    }
    hide Sum, Words, Reading, Collapse, Lift, PathWeight, AlignmentWeight;
    SumCongruence(Words(classes, |rows|), Lifted(ReadsAs(cfg, rows, text)), path => Summand(cfg.ctc, rows, text, path));
  }

  /** The central claim: with no confusion pairs, all classes tried and no state dropped, the final score
      of every plate is the sum over all class paths that collapse to it of the path probabilities. */
  lemma SearchComputesCtcProbability(cfg: SearchConfig, rows: seq<Row>, text: string)
    requires Input(cfg, rows) && Unpruned(cfg, rows, |rows|) && cfg.confusionPairs == []
    requires Plate(cfg.grammar, text) && |text| <= cfg.grammar.maximumInputLength
    ensures Score(ScoresOf(cfg, rows), text) == TextProbability(cfg.ctc, rows, text)
  {
    ScoresExact(cfg, rows, text);
    TextMassIsProbability(cfg, rows, text);
  }

  /** ... so a greedy text that is a plate is found, with at least the weight of the greedy path. */
  lemma GreedyPlateIsFound(cfg: SearchConfig, rows: seq<Row>, path: Path)
    requires Input(cfg, rows) && Unpruned(cfg, rows, |rows|) && cfg.confusionPairs == []
    requires IsArgmaxPath(rows, path)
    requires Plate(cfg.grammar, Collapse(cfg.ctc, path)) && |Collapse(cfg.ctc, path)| <= cfg.grammar.maximumInputLength
    ensures Collapse(cfg.ctc, path) in ScoresOf(cfg, rows)
    ensures ScoresOf(cfg, rows)[Collapse(cfg.ctc, path)] >= PathWeight(rows, path) > 0.0
  {
    hide Collapse, Plate, PathWeight, ScoresOf, TextProbability;
    GreedyPathIsSummand(cfg.ctc, rows, path);
    SearchComputesCtcProbability(cfg, rows, Collapse(cfg.ctc, path));
  }

  // ---------------------------------------------------------------- conservation

  ghost function WeightOf(cfg: SearchConfig, rows: seq<Row>): Alignment -> real {
    a => AlignmentWeight(cfg, rows, a)
  }

  ghost function MoveWeightIn(cfg: SearchConfig, row: Row): Move -> real {
    m => MoveWeight(cfg, row, m)
  }

  lemma MoveWeightsTotal(cfg: SearchConfig, row: Row)
    requires cfg.confusionPairs == [] && Distribution(cfg.ctc, row)
    ensures Sum(AllMoves(cfg), MoveWeightIn(cfg, row)) == 1.0
  {
    var classes := Range(cfg.ctc.ClassCount());
    MovesWithoutPairs(cfg, classes);
    hide Sum, MovesOf;
    SumMap(Lift(classes), row, MoveWeightIn(cfg, row), p => p);
  }

  /** Without confusion pairs the weights of all alignments add up to one ... */
  lemma {:induction false} AlignmentWeightsTotal(cfg: SearchConfig, rows: seq<Row>, t: nat)
    requires cfg.confusionPairs == [] && t <= |rows| && forall row <- rows :: Distribution(cfg.ctc, row)
    ensures Sum(Alignments(cfg, t), WeightOf(cfg, rows)) == 1.0
  {
    hide *;
    if t == 0 {
      EmptyAlignmentWeight(cfg, rows);
    } else {
      AlignmentWeightsTotal(cfg, rows, t - 1);
      OneMoreWeights(cfg, rows, t - 1);
    }
  }

  lemma EmptyAlignmentWeight(cfg: SearchConfig, rows: seq<Row>)
    ensures Sum(Alignments(cfg, 0), WeightOf(cfg, rows)) == 1.0
  {
    var none: Alignment := [];
    hide AllMoves;
    SumLast([], none, WeightOf(cfg, rows));
    assert [] + [none] == Alignments(cfg, 0);
  }

  lemma OneMoreWeights(cfg: SearchConfig, rows: seq<Row>, t: nat)
    requires cfg.confusionPairs == [] && t < |rows| && forall row <- rows :: Distribution(cfg.ctc, row)
    ensures Sum(Alignments(cfg, t + 1), WeightOf(cfg, rows)) == Sum(Alignments(cfg, t), WeightOf(cfg, rows))
  {
    hide Sum, Words, AllMoves, Distribution, OneMore, WeightOf;
    var moves, f := AllMoves(cfg), WeightOf(cfg, rows);
    SumWords(moves, t, f);
    assert rows[t] in rows;
    MoveWeightsTotal(cfg, rows[t]);
    forall a | a in Words(moves, t) ensures OneMore(moves, f)(a) == f(a) {
      WordsMembers(moves, t, a);
      OneMoreWeight(cfg, rows, t, a);
    }
    SumCongruence(Words(moves, t), OneMore(moves, f), f);
  }

  lemma OneMoreWeight(cfg: SearchConfig, rows: seq<Row>, t: nat, a: Alignment)
    requires |a| == t < |rows| && Sum(AllMoves(cfg), MoveWeightIn(cfg, rows[t])) == 1.0
    ensures OneMore(AllMoves(cfg), WeightOf(cfg, rows))(a) == WeightOf(cfg, rows)(a)
  {
    hide Sum, AllMoves, MoveWeight;
    var w := AlignmentWeight(cfg, rows, a);
    forall m | m in AllMoves(cfg) ensures After(a, WeightOf(cfg, rows))(m) == w * MoveWeightIn(cfg, rows[t])(m) {
      assert (a + [m])[..t] == a;
    }
    SumScale(AllMoves(cfg), w, MoveWeightIn(cfg, rows[t]), After(a, WeightOf(cfg, rows)));
  }

  function StateWeight(): State -> real {
    (s: State) => s.weight
  }

  /** ... so a beam never holds more than probability one: the grammar filter, the class cut and the
      pruning can lose weight, and merging creates none. */
  lemma BeamWeightAtMostOne(cfg: SearchConfig, rows: seq<Row>, t: nat)
    requires Input(cfg, rows) && t <= |rows| && cfg.confusionPairs == []
    ensures Sum(BeamAt(cfg, rows, t), StateWeight()) <= 1.0
  {
    hide Sum, StateMass, Alignments, AlignmentWeight, Healthy, Run, BeamAt;
    var beam, one := BeamAt(cfg, rows, t), (key: Key) => 1.0;
    BeamSound(cfg, rows, t);
    InputNonNegative(cfg, rows);
    forall s | s in beam ensures StateWeight()(s) <= MassValue(cfg, rows, Alignments(cfg, t), one)(s) {
      MassOfOne(cfg, rows, t, s, one);
    }
    SumMonotone(beam, StateWeight(), MassValue(cfg, rows, Alignments(cfg, t), one));
    Regroup(cfg, rows, beam, Alignments(cfg, t), one);
    forall a | a in Alignments(cfg, t) ensures WeightedAtRun(cfg, rows, one)(a) <= WeightOf(cfg, rows)(a) {
      AlignmentWeightNonNegative(cfg, rows, a);
    }
    SumMonotone(Alignments(cfg, t), WeightedAtRun(cfg, rows, one), WeightOf(cfg, rows));
    AlignmentWeightsTotal(cfg, rows, t);
  }

  lemma MassOfOne(cfg: SearchConfig, rows: seq<Row>, t: nat, s: State, one: Key -> real)
    requires one(s.key) == 1.0
    ensures MassValue(cfg, rows, Alignments(cfg, t), one)(s) == StateMass(cfg, rows, t, s.key)
  {
    hide Sum, Alignments, OnRunTo;
  }

  // ---------------------------------------------------------------- the search

  lemma ExpandConcat(cfg: SearchConfig, row: Row, s: State, moves: seq<Move>, m: Move)
    ensures Expand(cfg, row, s, moves + [m]) == Expand(cfg, row, s, moves) + Contribution(cfg, row, s, m)
  {
    assert (moves + [m])[..|moves|] == moves;
  }

  lemma {:induction false} ExpandMore(cfg: SearchConfig, row: Row, s: State, moves: seq<Move>, more: seq<Move>)
    ensures Expand(cfg, row, s, moves + more) == Expand(cfg, row, s, moves) + Expand(cfg, row, s, more)
  {
    hide Contribution;
    if more == [] {
      assert moves + more == moves;
    } else {
      var n := |more| - 1;
      assert moves + more == (moves + more[..n]) + [more[n]];
      ExpandMore(cfg, row, s, moves, more[..n]);
      ExpandConcat(cfg, row, s, moves + more[..n], more[n]);
    }
  }

  /** Blank and repeat steps have exactly one successor: no confusion variant applies to them. */
  lemma {:induction false} ExpandUnemitted(cfg: SearchConfig, row: Row, s: State, c: nat, n: nat)
    requires c == cfg.ctc.blank || c == s.key.last
    requires 1 <= n <= |cfg.confusionPairs| + 1
    ensures Expand(cfg, row, s, ClassMoves(cfg, c)[..n]) == [State(Key(s.key.text, c), s.weight * At(row, c))]
  {
    var moves := ClassMoves(cfg, c);
    assert moves[..n] == moves[..n - 1] + [moves[n - 1]];
    ExpandConcat(cfg, row, s, moves[..n - 1], moves[n - 1]);
    if n > 1 {
      ExpandUnemitted(cfg, row, s, c, n - 1);
    } else {
      assert moves[..0] == [] && moves[0] == Move(c, 0);
      assert MoveWeight(cfg, row, moves[0]) == At(row, c);
      ContributionOf(cfg, row, s, moves[0], Key(s.key.text, c));
      assert s.weight * MoveWeight(cfg, row, moves[0]) == s.weight * At(row, c);
      assert Expand(cfg, row, s, moves[..n - 1]) == [];
      assert Expand(cfg, row, s, moves[..n])[0].weight == s.weight * At(row, c);
    }
  }

  lemma MergeOne(list: seq<State>, s: State)
    ensures MergeAll(list + [s]) == Merge(MergeAll(list), s)
  {
    assert (list + [s])[..|list|] == list;
  }

  /** Merges everything one state yields on one class: the move itself, then each confusion alternative. */
  method ExpandClass(cfg: SearchConfig, row: Row, s: State, c: nat, start: map<Key, real>, ghost list: seq<State>)
    returns (merged: map<Key, real>)
    requires cfg.Valid() && start == MergeAll(list)
    ensures merged == MergeAll(list + Expand(cfg, row, s, ClassMoves(cfg, c)))
  {
    hide MergeAll, Expand, Contribution, Apply;
    ghost var moves := ClassMoves(cfg, c);
    merged := start;
    if c == cfg.ctc.blank || c == s.key.last {
      var next := State(Key(s.key.text, c), s.weight * At(row, c));
      ExpandUnemitted(cfg, row, s, c, |moves|);
      assert moves[..|moves|] == moves;
      MergeOne(list, next);
      return Merge(merged, next);
    }
    var emitted := ClassCharacter(cfg.ctc, c);
    merged := AppendIfValid(cfg, row, s, Move(c, 0), emitted, merged, list);
    ExpandNone(cfg, row, s);
    ExpandConcat(cfg, row, s, [], Move(c, 0));
    assert [] + [Move(c, 0)] == moves[..1];
    assert [] + Contribution(cfg, row, s, Move(c, 0)) == Contribution(cfg, row, s, Move(c, 0));
    for v := 0 to |cfg.confusionPairs|
      invariant merged == MergeAll(list + Expand(cfg, row, s, moves[..v + 1]))
    {
      ghost var so := list + Expand(cfg, row, s, moves[..v + 1]);
      ExpandConcat(cfg, row, s, moves[..v + 1], Move(c, v + 1));
      assert moves[..v + 2] == moves[..v + 1] + [Move(c, v + 1)];
      assert list + Expand(cfg, row, s, moves[..v + 2]) == so + Contribution(cfg, row, s, Move(c, v + 1));
      var alternative := Alternative(cfg, cfg.confusionPairs[v], emitted);
      if alternative.Some? {
        merged := AppendIfValid(cfg, row, s, Move(c, v + 1), alternative.value, merged, so);
      } else {
        NoContribution(cfg, row, s, Move(c, v + 1));
        assert so + [] == so;
      }
    }
    assert moves[..|cfg.confusionPairs| + 1] == moves;
  }

  lemma ExpandNone(cfg: SearchConfig, row: Row, s: State)
    ensures Expand(cfg, row, s, []) == []
  {
  }

  lemma NoContribution(cfg: SearchConfig, row: Row, s: State, m: Move)
    requires m.cls != cfg.ctc.blank && m.cls != s.key.last && Emission(cfg, m).None?
    ensures Contribution(cfg, row, s, m) == []
  {
  }

  method AppendIfValid(cfg: SearchConfig, row: Row, s: State, m: Move, character: char,
                       start: map<Key, real>, ghost list: seq<State>)
    returns (merged: map<Key, real>)
    requires cfg.Valid() && start == MergeAll(list)
    requires m.cls != cfg.ctc.blank && m.cls != s.key.last && Emission(cfg, m) == Some(character)
    ensures merged == MergeAll(list + Contribution(cfg, row, s, m))
  {
    hide AcceptsPrefix, MergeAll, Emission;
    merged := start;
    var prefix := s.key.text + [character];
    var successor := State(Key(prefix, m.cls), s.weight * MoveWeight(cfg, row, m));
    var valid := IsValidPrefix(cfg.grammar, prefix);
    if valid {
      assert Apply(cfg, s.key, m) == Some(successor.key);
      ContributionOf(cfg, row, s, m, successor.key);
      MergeOne(list, successor);
      merged := Merge(merged, successor);
    } else {
      assert Contribution(cfg, row, s, m) == [];
      assert list + [] == list;
    }
  }

  // ---------------------------------------------------------------- ranking and pruning

  /** Flattens the merged map and sorts it; the order in which the map is walked does not matter. */
  method RankStates(merged: map<Key, real>) returns (ranked: seq<State>)
    ensures ranked == Ranked(merged)
  {
    var list: seq<State>, keys := [], merged.Keys;
    ghost var done: set<State> := {};
    assert merged - merged.Keys == map[];
    while keys != {}
      invariant keys <= merged.Keys
      invariant done == Entries(merged - keys)
      invariant multiset(list) == multiset(done)
      decreases keys
    {
      var key :| key in keys;
      assert (merged - (keys - {key})).Keys == (merged - keys).Keys + {key};
      assert State(key, merged[key]) !in done;
      keys := keys - {key};
      list := list + [State(key, merged[key])];
      done := done + {State(key, merged[key])};
    }
    assert merged - {} == merged;
    ranked := StableSort(RanksBefore, list);
    RanksBeforeTotal();
    StableSortSorted(RanksBefore, list);
    ArrangementUnique(merged, ranked, Ranked(merged));
  }

  lemma ExpandBeamMore(cfg: SearchConfig, row: Row, beam: seq<State>, s: State, moves: seq<Move>)
    ensures ExpandBeam(cfg, row, beam + [s], moves) == ExpandBeam(cfg, row, beam, moves) + Expand(cfg, row, s, moves)
  {
    assert (beam + [s])[..|beam|] == beam;
  }

  lemma MovesOfMore(cfg: SearchConfig, classes: seq<nat>, c: nat)
    ensures MovesOf(cfg, classes + [c]) == MovesOf(cfg, classes) + ClassMoves(cfg, c)
  {
    assert (classes + [c])[..|classes|] == classes;
  }

  method ExpandState(cfg: SearchConfig, row: Row, s: State, selected: seq<nat>, start: map<Key, real>, ghost list: seq<State>)
    returns (merged: map<Key, real>)
    requires cfg.Valid() && start == MergeAll(list)
    ensures merged == MergeAll(list + Expand(cfg, row, s, MovesOf(cfg, selected)))
  {
    hide MergeAll, Expand, MovesOf, ClassMoves;
    merged := start;
    ExpandNone(cfg, row, s);
    NoClassesNoMoves(cfg);
    assert list + [] == list && selected[..0] == [];
    for j := 0 to |selected|
      invariant merged == MergeAll(list + Expand(cfg, row, s, MovesOf(cfg, selected[..j])))
    {
      ghost var moves := MovesOf(cfg, selected[..j]);
      ghost var so := list + Expand(cfg, row, s, moves);
      merged := ExpandClass(cfg, row, s, selected[j], merged, so);
      ExpandMore(cfg, row, s, moves, ClassMoves(cfg, selected[j]));
      MovesOfMore(cfg, selected[..j], selected[j]);
      assert selected[..j + 1] == selected[..j] + [selected[j]];
      assert so + Expand(cfg, row, s, ClassMoves(cfg, selected[j]))
          == list + Expand(cfg, row, s, MovesOf(cfg, selected[..j + 1]));
    }
    assert selected[..|selected|] == selected;
  }

  lemma NoClassesNoMoves(cfg: SearchConfig)
    ensures MovesOf(cfg, []) == []
  {
  }

  /** One timestep before pruning. */
  method Step(cfg: SearchConfig, row: Row, beam: seq<State>) returns (merged: map<Key, real>)
    requires cfg.Valid() && Distribution(cfg.ctc, row)
    ensures merged == Merged(cfg, row, beam)
  {
    hide MergeAll, Expand, MovesOf, ClassMoves, SelectedClasses, ExpandBeam, Sum;
    var count := if cfg.classesPerStep < |row| then cfg.classesPerStep else |row|;
    var selected := SelectedClasses(row, count, cfg.ctc.blank);
    ghost var moves := MovesOf(cfg, selected);
    merged := map[];
    ExpandNothing(cfg, row, moves);
    assert beam[..0] == [];
    for i := 0 to |beam|
      invariant merged == MergeAll(ExpandBeam(cfg, row, beam[..i], moves))
    {
      merged := ExpandState(cfg, row, beam[i], selected, merged, ExpandBeam(cfg, row, beam[..i], moves));
      ExpandBeamMore(cfg, row, beam[..i], beam[i], moves);
      assert beam[..i + 1] == beam[..i] + [beam[i]];
    }
    assert beam[..|beam|] == beam;
  }

  lemma ExpandNothing(cfg: SearchConfig, row: Row, moves: seq<Move>)
    ensures ExpandBeam(cfg, row, [], moves) == [] && MergeAll([]) == map[]
  {
  }

  /** The search loop. The source also breaks out when the beam is empty; `BeamSound` shows it never is. */
  method Search(cfg: SearchConfig, rows: seq<Row>) returns (beam: seq<State>)
    requires Input(cfg, rows)
    ensures beam == BeamAt(cfg, rows, |rows|) && beam != []
  {
    hide Merged, Ranked, Distribution;
    beam := [State(Key("", cfg.ctc.blank), 1.0)];
    for t := 0 to |rows|
      invariant beam == BeamAt(cfg, rows, t)
    {
      assert rows[t] in rows;
      var merged := Step(cfg, rows[t], beam);
      var ranked := RankStates(merged);
      beam := Cut(ranked, cfg.beamWidth);
    }
    BeamSound(cfg, rows, |rows|);
  }

  method CollectScores(cfg: SearchConfig, beam: seq<State>) returns (scores: map<string, real>)
    requires cfg.Valid()
    ensures scores == FinalScores(cfg, beam)
  {
    scores := map[];
    for i := 0 to |beam|
      invariant scores == FinalScores(cfg, beam[..i])
    {
      assert beam[..i + 1][..i] == beam[..i];
      var valid := IsValidNormalized(cfg.grammar, beam[i].key.text);
      if valid {
        var text := beam[i].key.text;
        scores := scores[text := if text in scores then scores[text] + beam[i].weight else beam[i].weight];
      }
    }
    assert beam[..|beam|] == beam;
  }

  // ---------------------------------------------------------------- candidates

  datatype Candidate = Candidate(text: string, confidence: real, formatValid: bool)

  datatype DecodeResult = DecodeResult(
    candidates: seq<Candidate>,
    greedy: GreedyResult,
    topMargin: real,
    fallbackUsed: bool)

  function Power(x: real, n: nat): real {
    if n == 0 then 1.0 else Power(x, n - 1) * x
  }

  /** x to the power 1/T, which turns the weight of a path of T steps into a per-step confidence: real powers have no
      other definition here. */
  ghost predicate IsRoot(root: real -> real, n: nat) {
    forall x | 0.0 <= x :: root(x) >= 0.0 && Power(root(x), n) == x
  }

  lemma {:induction false} PowerMonotone(x: real, y: real, n: nat)
    requires 0.0 <= x < y
    ensures 0.0 <= Power(x, n) <= Power(y, n) && (n > 0 ==> Power(x, n) < Power(y, n))
  {
    if n > 0 {
      PowerMonotone(x, y, n - 1);
      PowerPositive(y, n - 1);
      StrictProduct(Power(x, n - 1), x, Power(y, n - 1), y);
    }
  }

  lemma StrictProduct(a: real, x: real, b: real, y: real)
    requires 0.0 <= a <= b && 0.0 <= x < y && b > 0.0
    ensures 0.0 <= a * x < b * y
  {
    ProductBound(a, x, b, x);
    var gap := b * (y - x);
    assert gap > 0.0;
    assert gap == b * y - b * x;
  }

  lemma {:induction false} PowerPositive(x: real, n: nat)
    requires x > 0.0
    ensures Power(x, n) > 0.0
  {
    if n > 0 {
      PowerPositive(x, n - 1);
    }
  }

  lemma {:induction false} PowerOfBounds(n: nat)
    ensures Power(1.0, n) == 1.0 && (n > 0 ==> Power(0.0, n) == 0.0)
  {
    if n > 0 {
      PowerOfBounds(n - 1);
    }
  }

  /** The root rises strictly, from 0 at 0 to 1 at 1. */
  lemma RootRises(root: real -> real, n: nat, x: real, y: real)
    requires IsRoot(root, n) && n > 0 && 0.0 <= x && 0.0 <= y
    ensures root(x) < root(y) <==> x < y
    ensures (root(x) <= 1.0 <==> x <= 1.0) && (root(x) < 1.0 <==> x < 1.0)
  {
    hide Power;
    PowerOfBounds(n);
    if root(x) < root(y) {
      PowerMonotone(root(x), root(y), n);
    } else if root(y) < root(x) {
      PowerMonotone(root(y), root(x), n);
    }
    if root(x) < 1.0 {
      PowerMonotone(root(x), 1.0, n);
    } else if root(x) > 1.0 {
      PowerMonotone(1.0, root(x), n);
    }
  }

  function Confidence(root: real -> real, weight: real): real {
    Clamp01(root(weight))
  }

  /** The confidence ranks as the weight does up to one, and its T-th power gives that back. */
  lemma ConfidenceRanksLikeWeight(root: real -> real, n: nat, x: real, y: real)
    requires IsRoot(root, n) && n > 0 && 0.0 <= x && 0.0 <= y
    ensures Confidence(root, x) > Confidence(root, y) <==> Min(x, 1.0) > Min(y, 1.0)
    ensures Power(Confidence(root, x), n) == Min(x, 1.0)
  {
    hide Power;
    PowerOfBounds(n);
    RootRises(root, n, x, y);
    RootRises(root, n, y, x);
  }

  predicate CandidateBefore(a: Candidate, b: Candidate) {
    if a.confidence != b.confidence then a.confidence > b.confidence else TextBefore(a.text, b.text)
  }

  lemma CandidateOrder()
    ensures StrictWeakOrder(CandidateBefore)
  {
    forall a, b | CandidateBefore(a, b) ensures !CandidateBefore(b, a) {
      TextBeforeTotal(a.text, b.text);
    }
    forall a, b, c | CandidateBefore(a, c) ensures CandidateBefore(a, b) || CandidateBefore(b, c) {
      if a.confidence == b.confidence == c.confidence {
        TextBeforeNegativelyTransitive(a.text, b.text, c.text);
      }
    }
  }

  function CandidateFor(scores: map<string, real>, root: real -> real, text: string): Candidate
    requires text in scores
  {
    Candidate(text, Confidence(root, scores[text]), true)
  }

  ghost predicate DistinctTexts(candidates: seq<Candidate>) {
    forall i, j | 0 <= i < j < |candidates| :: candidates[i].text != candidates[j].text
  }

  /** The `limit` best scored texts, best first, each once, with every unlisted text behind all of them. */
  ghost predicate ListsBest(scores: map<string, real>, root: real -> real, limit: nat, candidates: seq<Candidate>) {
    && |candidates| == (if |scores| < limit then |scores| else limit)
    && Sorted(CandidateBefore, candidates)
    && DistinctTexts(candidates)
    && (forall c <- candidates :: c.text in scores && c == CandidateFor(scores, root, c.text))
    && forall c, text | c in candidates && text in scores && CandidateFor(scores, root, text) !in candidates ::
         CandidateBefore(c, CandidateFor(scores, root, text))
  }

  method ListCandidates(scores: map<string, real>, root: real -> real, limit: nat) returns (candidates: seq<Candidate>)
    ensures ListsBest(scores, root, limit, candidates)
  {
    var list: seq<Candidate>, texts := [], scores.Keys;
    while texts != {}
      invariant texts <= scores.Keys
      invariant |list| + |texts| == |scores.Keys|
      invariant DistinctTexts(list)
      invariant forall c <- list :: c.text in scores && c.text !in texts && c == CandidateFor(scores, root, c.text)
      invariant forall text | text in scores && text !in texts :: CandidateFor(scores, root, text) in list
      decreases texts
    {
      var text :| text in texts;
      texts := texts - {text};
      list := list + [CandidateFor(scores, root, text)];
    }
    var ranked := StableSort(CandidateBefore, list);
    CandidateOrder();
    StableSortSorted(CandidateBefore, list);
    RankedListsBest(scores, root, limit, list, ranked);
    candidates := Cut(ranked, limit);
  }

  lemma PermutedDistinctTexts(list: seq<Candidate>, ranked: seq<Candidate>)
    requires multiset(ranked) == multiset(list) && DistinctTexts(list)
    requires forall c, d | c in list && d in list :: c.text == d.text ==> c == d
    ensures DistinctTexts(ranked)
  {
    SameElements(list, ranked);
    assert Distinct(list);
    DistinctFromMultiset(list, ranked);
    forall i, j | 0 <= i < j < |ranked| ensures ranked[i].text != ranked[j].text {
      assert ranked[i] in list && ranked[j] in list;
    }
  }

  lemma RankedListsBest(scores: map<string, real>, root: real -> real, limit: nat, list: seq<Candidate>, ranked: seq<Candidate>)
    requires |list| == |scores| && DistinctTexts(list)
    requires forall c <- list :: c.text in scores && c == CandidateFor(scores, root, c.text)
    requires forall text | text in scores :: CandidateFor(scores, root, text) in list
    requires multiset(ranked) == multiset(list) && Sorted(CandidateBefore, ranked)
    ensures ListsBest(scores, root, limit, Cut(ranked, limit))
  {
    hide *;
    SameElements(list, ranked);
    PermutedDistinctTexts(list, ranked);
    CutMembers(ranked, limit);
    ListsBestByParts(scores, root, limit, ranked);
  }

  lemma CutMembers<T>(s: seq<T>, limit: nat)
    ensures forall x <- Cut(s, limit) :: x in s
  {
  }

  lemma ListsBestByParts(scores: map<string, real>, root: real -> real, limit: nat, ranked: seq<Candidate>)
    requires |ranked| == |scores| && DistinctTexts(ranked) && Sorted(CandidateBefore, ranked)
    requires forall c <- ranked :: c.text in scores && c == CandidateFor(scores, root, c.text)
    requires forall text | text in scores :: CandidateFor(scores, root, text) in ranked
    ensures ListsBest(scores, root, limit, Cut(ranked, limit))
  {
    hide Confidence, TextBefore, CandidateFor, CandidateBefore;
    var kept := Cut(ranked, limit);
    assert forall c <- kept :: c in ranked;
    forall c, text | c in kept && text in scores && CandidateFor(scores, root, text) !in kept
      ensures CandidateBefore(c, CandidateFor(scores, root, text))
    {
      CutKeepsBest(limit, ranked, c, CandidateFor(scores, root, text));
    }
  }

  lemma CutKeepsBest(limit: nat, ranked: seq<Candidate>, kept: Candidate, dropped: Candidate)
    requires Sorted(CandidateBefore, ranked) && DistinctTexts(ranked)
    requires kept in Cut(ranked, limit) && dropped in ranked && dropped !in Cut(ranked, limit)
    ensures CandidateBefore(kept, dropped)
  {
    hide TextBefore;
    var i :| 0 <= i < |Cut(ranked, limit)| && ranked[i] == kept;
    var j :| 0 <= j < |ranked| && ranked[j] == dropped;
    assert forall k | 0 <= k < |Cut(ranked, limit)| :: Cut(ranked, limit)[k] == ranked[k] != dropped;
    assert !CandidateBefore(ranked[j], ranked[i]) && ranked[i].text != ranked[j].text;
    TextBeforeTotal(kept.text, dropped.text);
  }

  // ---------------------------------------------------------------- the decoder

  /** The candidate made of the greedy text when no plate survived. */
  ghost predicate IsFallback(cfg: SearchConfig, greedy: GreedyResult, c: Candidate) {
    var normalized := Normalized(cfg.grammar, greedy.text);
    && c.text == (if normalized == "" then greedy.text else normalized)
    && c.confidence == greedy.confidence
    && (c.formatValid <==> Plate(cfg.grammar, normalized))
  }

  ghost predicate Decodes(cfg: SearchConfig, rows: seq<Row>, root: real -> real, path: Path, r: DecodeResult) {
    && IsArgmaxPath(rows, path) && r.greedy.text == Collapse(cfg.ctc, path)
    && (r.fallbackUsed <==> ScoresOf(cfg, rows) == map[] && r.greedy.text != "")
    && (!r.fallbackUsed ==> ListsBest(ScoresOf(cfg, rows), root, cfg.resultLimit, r.candidates))
    && (r.fallbackUsed ==> |r.candidates| == 1 && IsFallback(cfg, r.greedy, r.candidates[0]))
    && r.topMargin == match |r.candidates|
                      case 0 => 0.0
                      case 1 => r.candidates[0].confidence
                      case _ => Clamp01(r.candidates[0].confidence - r.candidates[1].confidence)
  }

  method Decode(cfg: SearchConfig, rows: seq<Row>, classes: nat, root: real -> real)
    returns (outcome: Result<DecodeResult>, ghost path: Path)
    requires cfg.Valid() && (rows != [] ==> IsRoot(root, |rows|))
    requires classes == cfg.ctc.ClassCount() ==> forall row <- rows :: Distribution(cfg.ctc, row)
    ensures outcome.Failure? ==> outcome.error == InferenceError
    ensures outcome.Failure? <==>
      |rows| == 0 || |rows| > cfg.ctc.maximumTimesteps || classes != cfg.ctc.ClassCount()
    ensures outcome.Success? ==> Decodes(cfg, rows, root, path, outcome.value)
    ensures outcome.Success? ==> forall c <- outcome.value.candidates :: c.formatValid ==> Plate(cfg.grammar, c.text)
    ensures outcome.Success? ==> forall c <- outcome.value.candidates :: 0.0 <= c.confidence <= 1.0
  {
    hide Plate, Collapse, Sum, BeamAt;
    path := [];
    if |rows| > cfg.ctc.maximumTimesteps || classes > cfg.ctc.maximumClasses
       || classes != cfg.ctc.ClassCount() || |rows| == 0 {
      return Failure(InferenceError), path;
    }
    var greedy;
    greedy, path := GreedyDecode(cfg.ctc, rows);
    var beam := Search(cfg, rows);
    var scores := CollectScores(cfg, beam);
    var candidates := ListCandidates(scores, root, cfg.resultLimit);
    var fallbackUsed := false;
    forall c | c in candidates ensures Plate(cfg.grammar, c.text) {
      ScoresSound(cfg, rows, c.text);
    }
    assert candidates == [] <==> scores == map[];
    if candidates == [] && greedy.text != "" {
      var normalized := Normalize(cfg.grammar, greedy.text);
      var valid := IsValidNormalized(cfg.grammar, normalized);
      EmptyIsNoPlate(cfg.grammar);
      candidates := [Candidate(if normalized == "" then greedy.text else normalized, greedy.confidence,
                               normalized != "" && valid)];
      fallbackUsed := true;
    }
    var topMargin := 0.0;
    if |candidates| >= 2 {
      topMargin := Clamp01(candidates[0].confidence - candidates[1].confidence);
    } else if |candidates| == 1 {
      topMargin := candidates[0].confidence;
    }
    outcome := Success(DecodeResult(candidates, greedy, topMargin, fallbackUsed));
  }

  lemma EmptyIsNoPlate(g: PlateGrammar)
    ensures !Plate(g, "")
  {
  }

  // ---------------------------------------------------------------- one spelling per path

  predicate SamePair(p: (char, char), q: (char, char)) {
    p == q || p == (q.1, q.0)
  }

  /** No two entries of the confusion table confuse the same two characters. */
  ghost predicate DistinctPairs(cfg: SearchConfig) {
    forall i, j | 0 <= i < j < |cfg.confusionPairs| :: !SamePair(cfg.confusionPairs[i], cfg.confusionPairs[j])
  }

  /** The classes an alignment reads. */
  function Classes(a: Alignment): Path {
    seq(|a|, i requires 0 <= i < |a| => a[i].cls)
  }

  lemma EmissionUnique(cfg: SearchConfig, cls: nat, v: nat, w: nat)
    requires cfg.Valid() && DistinctPairs(cfg)
    requires Emission(cfg, Move(cls, v)).Some? && Emission(cfg, Move(cls, v)) == Emission(cfg, Move(cls, w))
    ensures v == w
  {
    hide ClassCharacter, PlateGrammar.Valid, CtcConfig.Valid;
    if v > 0 {
      assert cfg.confusionPairs[v - 1] in cfg.confusionPairs;
    }
    if w > 0 {
      assert cfg.confusionPairs[w - 1] in cfg.confusionPairs;
    }
    assert v > 0 && w > 0 ==> SamePair(cfg.confusionPairs[v - 1], cfg.confusionPairs[w - 1]);
  }

  /** With distinct pairs a class path spells a text in at most one way. */
  lemma {:induction false} SpellingUnique(cfg: SearchConfig, a: Alignment, b: Alignment)
    requires cfg.Valid() && DistinctPairs(cfg) && Classes(a) == Classes(b)
    requires Reading(cfg, a).Some? && Reading(cfg, a) == Reading(cfg, b)
    ensures a == b
  {
    hide Emission, DistinctPairs, SearchConfig.Valid;
    assert |Classes(a)| == |Classes(b)|;
    if a != [] {
      var n := |a| - 1;
      var m, m' := a[n], b[n];
      assert Classes(a)[n] == Classes(b)[n];
      assert Classes(a[..n]) == Classes(a)[..n] && Classes(b[..n]) == Classes(b)[..n];
      assert n > 0 ==> Classes(a)[n - 1] == Classes(b)[n - 1];
      assert LastMoveClass(cfg, a[..n]) == LastMoveClass(cfg, b[..n]);
      var text, text' := Reading(cfg, a[..n]).value, Reading(cfg, b[..n]).value;
      if !(m.cls == cfg.ctc.blank || m.cls == LastMoveClass(cfg, a[..n])) {
        var c, c' := Emission(cfg, m).value, Emission(cfg, m').value;
        assert text == (text + [c])[..|text + [c]| - 1] && text' == (text' + [c'])[..|text' + [c']| - 1];
        assert c == (text + [c])[|text|] && c' == (text' + [c'])[|text'|];
        EmissionUnique(cfg, m.cls, m.variant, m'.variant);
      }
      SpellingUnique(cfg, a[..n], b[..n]);
      assert a == a[..n] + [m] && b == b[..n] + [m'];
    }
  }

  function WeightOfPath(rows: seq<Row>): Path -> real {
    path => PathWeight(rows, path)
  }

  /** The probabilities of all class paths add up to one. */
  lemma PathWeightsTotal(cfg: SearchConfig, rows: seq<Row>)
    requires Input(cfg, rows)
    ensures Sum(Words(Range(cfg.ctc.ClassCount()), |rows|), WeightOfPath(rows)) == 1.0
  {
    hide Sum, Words, AlignmentWeight, PathWeight, MovesOf, Lift;
    var plain := cfg.(confusionPairs := []);
    var classes := Range(cfg.ctc.ClassCount());
    AlignmentWeightsTotal(plain, rows, |rows|);
    MovesWithoutPairs(plain, classes);
    SumLifted(classes, |rows|, WeightOf(plain, rows));
    forall path: Path ensures Lifted(WeightOf(plain, rows))(path) == WeightOfPath(rows)(path) {
      LiftedWeight(plain, rows, path);
    }
    SumCongruence(Words(classes, |rows|), Lifted(WeightOf(plain, rows)), WeightOfPath(rows));
  }

  /** Confusion choices only cost weight. */
  lemma {:induction false} SpellingCosts(cfg: SearchConfig, rows: seq<Row>, a: Alignment)
    requires 0.0 < cfg.confusionWeight <= 1.0 && NonNegativeRows(rows)
    ensures 0.0 <= AlignmentWeight(cfg, rows, a) <= PathWeight(rows, Classes(a))
  {
    hide MoveWeight, At;
    if a != [] {
      var n := |a| - 1;
      var path := Classes(a);
      assert path[..n] == Classes(a[..n]) && path[n] == a[n].cls;
      SpellingCosts(cfg, rows, a[..n]);
      if n < |rows| {
        MoveCosts(cfg, rows, n, a[n]);
        ProductBound(AlignmentWeight(cfg, rows, a[..n]), MoveWeight(cfg, rows[n], a[n]),
                     PathWeight(rows, path[..n]), At(rows[n], path[n]));
      }
    }
  }

  lemma MoveCosts(cfg: SearchConfig, rows: seq<Row>, t: nat, m: Move)
    requires 0.0 < cfg.confusionWeight <= 1.0 && NonNegativeRows(rows) && t < |rows|
    ensures 0.0 <= MoveWeight(cfg, rows[t], m) <= At(rows[t], m.cls)
  {
    var p, factor := At(rows[t], m.cls), if m.variant == 0 then 1.0 else cfg.confusionWeight;
    assert p >= 0.0 by {
      assert rows[t] in rows;
    }
    ProductBound(p, factor, p, 1.0);
    assert MoveWeight(cfg, rows[t], m) == p * factor;
  }

  /** So no text weighs more than all class paths together: with distinct pairs a mass is at most one. */
  lemma MassAtMostOne(cfg: SearchConfig, rows: seq<Row>, text: string)
    requires Input(cfg, rows) && DistinctPairs(cfg)
    ensures TextMass(cfg, rows, text) <= 1.0
  {
    hide Sum, Words, Range, Reading, AlignmentWeight, PathWeight, Classes, DistinctPairs, Alignments;
    var all, paths := Alignments(cfg, |rows|), Words(Range(cfg.ctc.ClassCount()), |rows|);
    var spells, read := (a: Alignment) => Reading(cfg, a) == Some(text), ReadsAs(cfg, rows, text);
    InputNonNegative(cfg, rows);
    AlignmentsSummedOnce(cfg, |rows|);
    PathsSummedOnce(cfg.ctc, |rows|);
    PathWeightsTotal(cfg, rows);
    forall path | path in paths ensures WeightOfPath(rows)(path) >= 0.0 {
      PathWeightNonNegative(rows, path);
    }
    forall a | a in all
      ensures if spells(a) then Classes(a) in paths && read(a) <= WeightOfPath(rows)(Classes(a)) else read(a) <= 0.0
    {
      SpellingCosts(cfg, rows, a);
      ClassesOf(a, cfg.ctc.ClassCount());
    }
    forall a, b | a in all && b in all && spells(a) && spells(b) && Classes(a) == Classes(b) ensures a == b {
      SpellingUnique(cfg, a, b);
    }
    SumInjected(all, read, paths, WeightOfPath(rows), spells, Classes);
  }

  lemma ClassesOf(a: Alignment, n: nat)
    requires forall m <- a :: m.cls < n
    ensures |Classes(a)| == |a| && forall c <- Classes(a) :: c < n
  {
    forall i | 0 <= i < |a| ensures Classes(a)[i] < n {
      assert a[i] in a;
    }
  }

  lemma {:induction false} PathWeightNonNegative(rows: seq<Row>, path: Path)
    requires NonNegativeRows(rows)
    ensures PathWeight(rows, path) >= 0.0
  {
    if path != [] {
      var n := |path| - 1;
      PathWeightNonNegative(rows, path[..n]);
      if n < |rows| {
        assert rows[n] in rows;
        NonNegativeProduct(PathWeight(rows, path[..n]), At(rows[n], path[n]));
      }
    }
  }

  // ---------------------------------------------------------------- the best plates

  /** A plate the grammar's length limit lets the search reach. */
  ghost predicate Reachable(cfg: SearchConfig, text: string) {
    Plate(cfg.grammar, text) && |text| <= cfg.grammar.maximumInputLength
  }

  ghost function Mass(cfg: SearchConfig, rows: seq<Row>): string -> real {
    text => TextMass(cfg, rows, text)
  }

  ghost function CappedMass(cfg: SearchConfig, rows: seq<Row>): string -> real {
    text => Min(TextMass(cfg, rows, text), 1.0)
  }

  ghost function Probability(cfg: SearchConfig, rows: seq<Row>): string -> real {
    text => TextProbability(cfg.ctc, rows, text)
  }

  /** Exact scores, in both directions: a scored text is a reachable plate with its mass, and a reachable plate without a
      score has none. */
  lemma ScoresAreMasses(cfg: SearchConfig, rows: seq<Row>, text: string)
    requires Input(cfg, rows) && Unpruned(cfg, rows, |rows|)
    ensures text in ScoresOf(cfg, rows) ==> Reachable(cfg, text) && ScoresOf(cfg, rows)[text] == TextMass(cfg, rows, text) >= 0.0
    ensures Reachable(cfg, text) && text !in ScoresOf(cfg, rows) ==> TextMass(cfg, rows, text) == 0.0
  {
    hide Plate, ScoresOf, TextMass, Input, Unpruned;
    if text in ScoresOf(cfg, rows) {
      ScoresSound(cfg, rows, text);
      ScoresExact(cfg, rows, text);
    }
    if Reachable(cfg, text) {
      ScoresExact(cfg, rows, text);
    }
  }

  /** The list holds the reachable plates of greatest value, in order, and its confidences are the values' roots: whatever
      is not listed is worth no more than anything listed, and a list below the limit leaves out only what is worth nothing. */
  ghost predicate ListsGreatest(cfg: SearchConfig, steps: nat, value: string -> real, candidates: seq<Candidate>) {
    && DistinctTexts(candidates)
    && (forall c <- candidates :: Reachable(cfg, c.text) && Power(c.confidence, steps) == value(c.text))
    && (forall i, j | 0 <= i < j < |candidates| :: value(candidates[j].text) <= value(candidates[i].text))
    && (forall c, text | c in candidates && Reachable(cfg, text) && !Listed(candidates, text) :: value(text) <= value(c.text))
    && (|candidates| < cfg.resultLimit ==>
          forall text | Reachable(cfg, text) && !Listed(candidates, text) :: value(text) == 0.0)
  }

  ghost predicate Listed(candidates: seq<Candidate>, text: string) {
    exists c <- candidates :: c.text == text
  }

  /** What decoding delivers, when nothing is pruned. */
  ghost predicate DecodesGreatest(cfg: SearchConfig, steps: nat, value: string -> real, r: DecodeResult) {
    if r.fallbackUsed then forall text | Reachable(cfg, text) :: value(text) == 0.0
    else ListsGreatest(cfg, steps, value, r.candidates)
  }

  /** Unpruned, for any confusion table: the candidates are the plates of greatest mass, capped at one, greatest first; the
      greedy fallback is used only when every reachable plate is impossible. */
  lemma DecodesHeaviest(cfg: SearchConfig, rows: seq<Row>, root: real -> real, path: Path, r: DecodeResult)
    requires Input(cfg, rows) && Unpruned(cfg, rows, |rows|)
    requires rows != [] && IsRoot(root, |rows|) && Decodes(cfg, rows, root, path, r)
    ensures DecodesGreatest(cfg, |rows|, CappedMass(cfg, rows), r)
  {
    hide Input, Unpruned, IsRoot, Power, Plate, TextMass, ScoresOf, Confidence, Reachable, CandidateBefore, Collapse,
      IsArgmaxPath, ListsGreatest, ListsBest;
    forall text
      ensures text in ScoresOf(cfg, rows) ==>
        Reachable(cfg, text) && ScoresOf(cfg, rows)[text] == TextMass(cfg, rows, text) >= 0.0
      ensures Reachable(cfg, text) && text !in ScoresOf(cfg, rows) ==> TextMass(cfg, rows, text) == 0.0
    {
      ScoresAreMasses(cfg, rows, text);
    }
    if !r.fallbackUsed {
      BestAreGreatest(cfg, |rows|, ScoresOf(cfg, rows), root, CappedMass(cfg, rows), r.candidates);
    }
  }

  /** With distinct confusion pairs the cap changes nothing: the candidates come ranked by their exact mass. */
  lemma DecodesExactlyHeaviest(cfg: SearchConfig, rows: seq<Row>, root: real -> real, path: Path, r: DecodeResult)
    requires Input(cfg, rows) && Unpruned(cfg, rows, |rows|) && DistinctPairs(cfg)
    requires rows != [] && IsRoot(root, |rows|) && Decodes(cfg, rows, root, path, r)
    ensures DecodesGreatest(cfg, |rows|, Mass(cfg, rows), r)
  {
    hide Input, Unpruned, IsRoot, Decodes, DistinctPairs, TextMass, Power, Reachable;
    DecodesHeaviest(cfg, rows, root, path, r);
    forall text ensures CappedMass(cfg, rows)(text) == Mass(cfg, rows)(text) {
      MassAtMostOne(cfg, rows, text);
    }
    SameValues(cfg, |rows|, CappedMass(cfg, rows), Mass(cfg, rows), r);
  }

  /** What decoding is for: without confusion pairs, the candidates are the most probable plates under CTC, most probable
      first. */
  lemma DecodesMostProbable(cfg: SearchConfig, rows: seq<Row>, root: real -> real, path: Path, r: DecodeResult)
    requires Input(cfg, rows) && Unpruned(cfg, rows, |rows|) && cfg.confusionPairs == []
    requires rows != [] && IsRoot(root, |rows|) && Decodes(cfg, rows, root, path, r)
    ensures DecodesGreatest(cfg, |rows|, Probability(cfg, rows), r)
  {
    hide Input, Unpruned, IsRoot, Decodes, TextMass, TextProbability, Power, Reachable;
    DecodesExactlyHeaviest(cfg, rows, root, path, r);
    forall text ensures Mass(cfg, rows)(text) == Probability(cfg, rows)(text) {
      TextMassIsProbability(cfg, rows, text);
    }
    SameValues(cfg, |rows|, Mass(cfg, rows), Probability(cfg, rows), r);
  }

  lemma SameValues(cfg: SearchConfig, steps: nat, value: string -> real, value': string -> real, r: DecodeResult)
    requires DecodesGreatest(cfg, steps, value, r) && forall text :: value(text) == value'(text)
    ensures DecodesGreatest(cfg, steps, value', r)
  {
    hide Reachable, Power;
  }

  lemma BestAreGreatest(cfg: SearchConfig, steps: nat, scores: map<string, real>, root: real -> real, value: string -> real,
                        candidates: seq<Candidate>)
    requires steps > 0 && IsRoot(root, steps) && ListsBest(scores, root, cfg.resultLimit, candidates)
    requires forall text :: text in scores ==> Reachable(cfg, text) && scores[text] >= 0.0 && value(text) == Min(scores[text], 1.0)
    requires forall text :: Reachable(cfg, text) && text !in scores ==> value(text) == 0.0
    ensures ListsGreatest(cfg, steps, value, candidates)
  {
    hide Power, IsRoot, Confidence, Reachable, TextBefore;
    forall c | c in candidates ensures Power(c.confidence, steps) == value(c.text) >= 0.0 {
      ConfidenceRanksLikeWeight(root, steps, scores[c.text], scores[c.text]);
    }
    forall i, j | 0 <= i < j < |candidates| ensures value(candidates[j].text) <= value(candidates[i].text) {
      assert candidates[i] in candidates && candidates[j] in candidates;
      assert !CandidateBefore(candidates[j], candidates[i]);
      ConfidenceRanksLikeWeight(root, steps, scores[candidates[j].text], scores[candidates[i].text]);
    }
    forall c, text | c in candidates && Reachable(cfg, text) && !Listed(candidates, text) ensures value(text) <= value(c.text) {
      if text in scores {
        assert CandidateFor(scores, root, text) !in candidates;
        assert CandidateBefore(c, CandidateFor(scores, root, text));
        ConfidenceRanksLikeWeight(root, steps, scores[text], scores[c.text]);
      }
    }
    if |candidates| < cfg.resultLimit {
      forall text | text in scores ensures Listed(candidates, text) {
        AllListed(scores, candidates, text);
      }
    }
  }

  /** As many distinct scored texts as there are scores are all of them. */
  lemma AllListed(scores: map<string, real>, candidates: seq<Candidate>, text: string)
    requires |candidates| == |scores| && DistinctTexts(candidates) && (forall c <- candidates :: c.text in scores)
    requires text in scores
    ensures Listed(candidates, text)
  {
    var texts := set c <- candidates :: c.text;
    TextsCounted(candidates);
    assert texts <= scores.Keys;
    if text !in texts {
      assert texts < scores.Keys;
      SmallerSet(texts, scores.Keys);
    }
  }

  lemma SmallerSet(a: set<string>, b: set<string>)
    requires a < b
    ensures |a| < |b|
  {
    assert b == a + (b - a);
    assert b - a != {};
  }

  lemma {:induction false} TextsCounted(candidates: seq<Candidate>)
    requires DistinctTexts(candidates)
    ensures |set c <- candidates :: c.text| == |candidates|
  {
    if candidates != [] {
      var n := |candidates| - 1;
      TextsCounted(candidates[..n]);
      assert (set c <- candidates :: c.text) == (set c <- candidates[..n] :: c.text) + {candidates[n].text} by {
        assert candidates == candidates[..n] + [candidates[n]];
      }
    }
  }
}
