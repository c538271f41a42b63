/** What the beam search computes: sums over alignments. An alignment is a sequence of moves, one per
    timestep. Pruning only ever loses weight; without pruning nothing is lost. */
module CtcExactness {
  import opened Sums
  import opened Outcomes
  import opened Sorting
  import opened Grammar
  import opened Ctc
  import opened CtcBeam

  type Alignment = seq<Move>

  // ---------------------------------------------------------------- the beam as a function of the input

  /** The ranking of beam states: heavier first, then by text, then by class. */
  predicate RanksBefore(a: State, b: State) {
    if a.weight != b.weight then a.weight > b.weight
    else if a.key.text != b.key.text then TextBefore(a.key.text, b.key.text)
    else a.key.last < b.key.last
  }

  lemma RanksBeforeTotal()
    ensures StrictTotalOrder(RanksBefore)
  {
    forall a, b
      ensures RanksBefore(a, b) ==> !RanksBefore(b, a)
      ensures RanksBefore(a, b) || RanksBefore(b, a) || a == b
    {
      TextBeforeTotal(a.key.text, b.key.text);
    }
    forall a, b, c | RanksBefore(a, c) ensures RanksBefore(a, b) || RanksBefore(b, c) {
      RanksNegativelyTransitive(a, b, c);
    }
  }

  lemma RanksNegativelyTransitive(a: State, b: State, c: State)
    requires RanksBefore(a, c)
    ensures RanksBefore(a, b) || RanksBefore(b, c)
  {
    if a.weight == b.weight == c.weight {
      TextBeforeTotal(a.key.text, b.key.text);
      TextBeforeTotal(b.key.text, c.key.text);
      TextBeforeTotal(a.key.text, c.key.text);
      if a.key.text != c.key.text {
        TextBeforeNegativelyTransitive(a.key.text, b.key.text, c.key.text);
      }
    }
  }

  /** The merged states, each key once. */
  ghost function Entries(merged: map<Key, real>): set<State> {
    set key | key in merged :: State(key, merged[key])
  }

  ghost predicate Arranges(ranked: seq<State>, merged: map<Key, real>) {
    Sorted(RanksBefore, ranked) && multiset(ranked) == multiset(Entries(merged))
  }

  lemma {:induction false} Listed(states: set<State>) returns (list: seq<State>)
    ensures multiset(list) == multiset(states)
    decreases |states|
  {
    if states == {} {
      list := [];
    } else {
      var s :| s in states;
      var rest := Listed(states - {s});
      list := rest + [s];
      assert states == (states - {s}) + {s};
    }
  }

  lemma ArrangementExists(merged: map<Key, real>)
    ensures exists ranked :: Arranges(ranked, merged)
  {
    var list := Listed(Entries(merged));
    RanksBeforeTotal();
    StableSortSorted(RanksBefore, list);
    assert Arranges(StableSort(RanksBefore, list), merged);
  }

  /** The ranking admits one arrangement only, so the beam does not depend on map iteration order. */
  lemma ArrangementUnique(merged: map<Key, real>, a: seq<State>, b: seq<State>)
    requires Arranges(a, merged) && Arranges(b, merged)
    ensures a == b
  {
    RanksBeforeTotal();
    SortedUnique(RanksBefore, a, b);
  }

  ghost function Ranked(merged: map<Key, real>): (ranked: seq<State>)
    ensures Arranges(ranked, merged)
  {
    ArrangementExists(merged);
    var ranked :| Arranges(ranked, merged);
    ranked
  }

  function Cut<T>(s: seq<T>, limit: nat): seq<T> {
    if |s| > limit then s[..limit] else s
  }

  ghost function StepMoves(cfg: SearchConfig, row: Row): seq<Move> {
    var count := if cfg.classesPerStep < cfg.ctc.ClassCount() then cfg.classesPerStep else cfg.ctc.ClassCount();
    MovesOf(cfg, SelectedClasses(row, count, cfg.ctc.blank))
  }

  /** All states one timestep produces, before pruning. */
  ghost function Merged(cfg: SearchConfig, row: Row, beam: seq<State>): map<Key, real> {
    MergeAll(ExpandBeam(cfg, row, beam, StepMoves(cfg, row)))
  }

  ghost function BeamAt(cfg: SearchConfig, rows: seq<Row>, t: nat): seq<State>
    requires t <= |rows|
  {
    if t == 0 then [State(Key("", cfg.ctc.blank), 1.0)]
    else Cut(Ranked(Merged(cfg, rows[t - 1], BeamAt(cfg, rows, t - 1))), cfg.beamWidth)
  }

  /** No timestep produces more states than the beam holds, and every class is tried. */
  ghost predicate Unpruned(cfg: SearchConfig, rows: seq<Row>, t: nat)
    requires t <= |rows|
  {
    && cfg.classesPerStep >= cfg.ctc.ClassCount()
    && forall i | 0 <= i < t :: |Merged(cfg, rows[i], BeamAt(cfg, rows, i))| <= cfg.beamWidth
  }

  lemma EntriesSize(merged: map<Key, real>)
    ensures |Entries(merged)| == |merged|
  {
    if merged != map[] {
      var key :| key in merged;
      var rest := merged - {key};
      var entry := State(key, merged[key]);
      EntriesSize(rest);
      assert merged.Keys == rest.Keys + {key};
      forall s ensures s in Entries(merged) <==> s in Entries(rest) || s == entry {
        assert s in Entries(merged) <==> s.key in merged && s == State(s.key, merged[s.key]);
        assert s in Entries(rest) <==> s.key in rest && s == State(s.key, rest[s.key]);
      }
      assert Entries(merged) == Entries(rest) + {entry};
      assert |merged.Keys| == |merged| && |rest.Keys| == |rest|;
    }
  }

  ghost predicate DistinctKeys(states: seq<State>) {
    forall i, j | 0 <= i < j < |states| :: states[i].key != states[j].key
  }

  /** The ranked states list each merged key once, with its score. */
  lemma RankedContents(merged: map<Key, real>)
    ensures var ranked := Ranked(merged);
      && |ranked| == |merged|
      && DistinctKeys(ranked)
      && (forall s :: s in ranked <==> s.key in merged && merged[s.key] == s.weight)
  {
    var ranked := Ranked(merged);
    EntriesSize(merged);
    assert |multiset(ranked)| == |ranked|;
    assert |multiset(Entries(merged))| == |Entries(merged)|;
    forall s ensures s in ranked <==> s.key in merged && merged[s.key] == s.weight {
      assert s in ranked <==> s in multiset(ranked);
      assert s in multiset(Entries(merged)) <==> s in Entries(merged);
    }
    forall i, j | 0 <= i < j < |ranked| ensures ranked[i].key != ranked[j].key {
      assert ranked[i] in ranked && ranked[j] in ranked;
      if ranked[i].key == ranked[j].key {
        Twice(ranked, i, j);
        assert false;
      }
    }
  }

  /** Everything pruning leaves out ranks behind everything it keeps. */
  lemma PruningKeepsBest(merged: map<Key, real>, width: nat, kept: State, key: Key)
    requires kept in Cut(Ranked(merged), width)
    requires key in merged && State(key, merged[key]) !in Cut(Ranked(merged), width)
    ensures RanksBefore(kept, State(key, merged[key]))
  {
    var ranked, dropped := Ranked(merged), State(key, merged[key]);
    RankedContents(merged);
    assert dropped in ranked;
    var i :| 0 <= i < |Cut(ranked, width)| && Cut(ranked, width)[i] == kept;
    var j :| 0 <= j < |ranked| && ranked[j] == dropped;
    assert forall k | 0 <= k < |Cut(ranked, width)| :: Cut(ranked, width)[k] == ranked[k] != dropped;
    RanksBeforeTotal();
    assert !RanksBefore(ranked[j], ranked[i]);
  }

  // ---------------------------------------------------------------- alignments

  /** The state an alignment ends in, or None when the grammar or an inapplicable variant stops it. */
  ghost function Run(cfg: SearchConfig, alignment: Alignment): Option<Key> {
    if alignment == [] then Some(Key("", cfg.ctc.blank))
    else
      match Run(cfg, alignment[..|alignment| - 1])
      case None => None
      case Some(key) => Apply(cfg, key, alignment[|alignment| - 1])
  }

  function AlignmentWeight(cfg: SearchConfig, rows: seq<Row>, alignment: Alignment): real {
    if alignment == [] then 1.0
    else
      var n := |alignment| - 1;
      AlignmentWeight(cfg, rows, alignment[..n]) * if n < |rows| then MoveWeight(cfg, rows[n], alignment[n]) else 0.0
  }

  ghost function OnRun(cfg: SearchConfig, rows: seq<Row>, alignment: Alignment, key: Key): real {
    if Run(cfg, alignment) == Some(key) then AlignmentWeight(cfg, rows, alignment) else 0.0
  }

  ghost function OnRunTo(cfg: SearchConfig, rows: seq<Row>, key: Key): Alignment -> real {
    alignment => OnRun(cfg, rows, alignment, key)
  }

  ghost function Alignments(cfg: SearchConfig, t: nat): seq<Alignment> {
    Words(AllMoves(cfg), t)
  }

  /** These are exactly the sequences of t moves, each counted once. */
  lemma AlignmentsSummedOnce(cfg: SearchConfig, t: nat)
    ensures Distinct(Alignments(cfg, t))
    ensures forall a: Alignment :: a in Alignments(cfg, t) <==>
      |a| == t && forall m <- a :: m.cls < cfg.ctc.ClassCount() && m.variant <= |cfg.confusionPairs|
  {
    hide Words, Range, MovesOf;
    var classes := Range(cfg.ctc.ClassCount());
    RangeDistinct(cfg.ctc.ClassCount());
    MovesDistinct(cfg, classes);
    WordsDistinct(AllMoves(cfg), t);
    forall a: Alignment
      ensures a in Alignments(cfg, t)
         <==> |a| == t && forall m <- a :: m.cls < cfg.ctc.ClassCount() && m.variant <= |cfg.confusionPairs|
    {
      WordsMembers(AllMoves(cfg), t, a);
      forall m | m in a ensures m in AllMoves(cfg) <==> m.cls < cfg.ctc.ClassCount() && m.variant <= |cfg.confusionPairs| {
        MovesOfMembers(cfg, classes, m);
      }
    }
  }

  lemma {:induction false} MovesDistinct(cfg: SearchConfig, classes: seq<nat>)
    requires Distinct(classes)
    ensures Distinct(MovesOf(cfg, classes))
  {
    if classes != [] {
      var n := |classes| - 1;
      var front, last := MovesOf(cfg, classes[..n]), ClassMoves(cfg, classes[n]);
      MovesDistinct(cfg, classes[..n]);
      forall i, j | 0 <= i < |front| && 0 <= j < |last| ensures front[i] != last[j] {
        MovesOfMembers(cfg, classes[..n], front[i]);
        assert front[i] in front;
      }
    }
  }

  /** The exact weight of a state after t steps: the sum over all alignments that end in it. */
  ghost function StateMass(cfg: SearchConfig, rows: seq<Row>, t: nat, key: Key): real {
    Sum(Alignments(cfg, t), OnRunTo(cfg, rows, key))
  }

  /** A value per key, read off at the end of an alignment; 0 for alignments that were stopped. */
  ghost function AtRun(cfg: SearchConfig, alignment: Alignment, g: Key -> real): real {
    match Run(cfg, alignment)
    case None => 0.0
    case Some(key) => g(key)
  }

  ghost function WeightedAtRun(cfg: SearchConfig, rows: seq<Row>, g: Key -> real): Alignment -> real {
    alignment => AlignmentWeight(cfg, rows, alignment) * AtRun(cfg, alignment, g)
  }

  ghost predicate NonNegativeRows(rows: seq<Row>) {
    forall row <- rows :: forall c | 0 <= c < |row| :: row[c] >= 0.0
  }

  lemma MoveWeightNonNegative(cfg: SearchConfig, rows: seq<Row>, t: nat, m: Move)
    requires cfg.confusionWeight > 0.0 && NonNegativeRows(rows) && t < |rows|
    ensures MoveWeight(cfg, rows[t], m) >= 0.0
  {
    assert rows[t] in rows;
  }

  lemma {:induction false} AlignmentWeightNonNegative(cfg: SearchConfig, rows: seq<Row>, alignment: Alignment)
    requires cfg.confusionWeight > 0.0 && NonNegativeRows(rows)
    ensures AlignmentWeight(cfg, rows, alignment) >= 0.0
  {
    if alignment != [] {
      var n := |alignment| - 1;
      AlignmentWeightNonNegative(cfg, rows, alignment[..n]);
      if n < |rows| {
        MoveWeightNonNegative(cfg, rows, n, alignment[n]);
      }
    }
  }

  // ---------------------------------------------------------------- regrouping sums by state

  /** g at a state's key, weighted by w, if the state carries the key. */
  function PointValue(s: State, key: Key, w: real, g: Key -> real): real {
    if s.key == key then g(s.key) * w else 0.0
  }

  /** Among states with distinct keys at most one carries a given key. */
  lemma {:induction false} SumPoint(beam: seq<State>, key: Key, w: real, g: Key -> real)
    requires DistinctKeys(beam)
    ensures Sum(beam, s => PointValue(s, key, w, g)) == if exists s <- beam :: s.key == key then g(key) * w else 0.0
  {
    if beam != [] {
      var n := |beam| - 1;
      SumPoint(beam[..n], key, w, g);
      assert beam == beam[..n] + [beam[n]];
      if beam[n].key == key {
        assert forall s <- beam[..n] :: s.key != key;
      }
    }
  }

  /** The value a state stands for when it is worth the mass of all listed alignments that end in it. */
  ghost function MassValue(cfg: SearchConfig, rows: seq<Row>, list: seq<Alignment>, g: Key -> real): State -> real {
    (s: State) => g(s.key) * Sum(list, OnRunTo(cfg, rows, s.key))
  }

  ghost function RunValue(cfg: SearchConfig, rows: seq<Row>, a: Alignment, g: Key -> real): State -> real {
    (s: State) => g(s.key) * OnRun(cfg, rows, a, s.key)
  }

  ghost predicate Carried(beam: seq<State>, key: Key) {
    exists s <- beam :: s.key == key
  }

  ghost predicate Covers(cfg: SearchConfig, beam: seq<State>, list: seq<Alignment>) {
    forall a <- list :: Run(cfg, a).Some? ==> Carried(beam, Run(cfg, a).value)
  }

  /** One alignment is worth something to at most one state of the beam. */
  lemma RunValueSum(cfg: SearchConfig, rows: seq<Row>, beam: seq<State>, a: Alignment, g: Key -> real)
    requires DistinctKeys(beam) && (forall key :: g(key) >= 0.0) && AlignmentWeight(cfg, rows, a) >= 0.0
    ensures Sum(beam, RunValue(cfg, rows, a, g)) <= WeightedAtRun(cfg, rows, g)(a)
    ensures Run(cfg, a).None? || Carried(beam, Run(cfg, a).value)
        ==> Sum(beam, RunValue(cfg, rows, a, g)) == WeightedAtRun(cfg, rows, g)(a)
  {
    hide Sum, AlignmentWeight;
    match Run(cfg, a)
    case None =>
      forall s | s in beam ensures RunValue(cfg, rows, a, g)(s) == 0.0 {
        assert OnRun(cfg, rows, a, s.key) == 0.0;
      }
      SumZero(beam, RunValue(cfg, rows, a, g));
    case Some(key) =>
      var w := AlignmentWeight(cfg, rows, a);
      SumPoint(beam, key, w, g);
      SumCongruence(beam, RunValue(cfg, rows, a, g), s => PointValue(s, key, w, g));
      assert g(key) * w >= 0.0;
  }

  /** Summing a value over the states of a beam, each worth its mass, is summing over the alignments
      that end in the beam. */
  lemma {:induction false} Regroup(cfg: SearchConfig, rows: seq<Row>, beam: seq<State>, list: seq<Alignment>, g: Key -> real)
    requires DistinctKeys(beam) && (forall key :: g(key) >= 0.0)
    requires cfg.confusionWeight > 0.0 && NonNegativeRows(rows)
    ensures Sum(beam, MassValue(cfg, rows, list, g)) <= Sum(list, WeightedAtRun(cfg, rows, g))
    ensures Covers(cfg, beam, list) ==> Sum(beam, MassValue(cfg, rows, list, g)) == Sum(list, WeightedAtRun(cfg, rows, g))
  {
    if list == [] {
      forall s | s in beam ensures MassValue(cfg, rows, list, g)(s) == 0.0 {
        assert Sum(list, OnRunTo(cfg, rows, s.key)) == 0.0;
      }
      SumZero(beam, MassValue(cfg, rows, list, g));
    } else {
      var n := |list| - 1;
      Regroup(cfg, rows, beam, list[..n], g);
      AlignmentWeightNonNegative(cfg, rows, list[n]);
      RunValueSum(cfg, rows, beam, list[n], g);
      MassValueLast(cfg, rows, beam, list, g);
      hide Run, AlignmentWeight, OnRun;
      assert Covers(cfg, beam, list) ==> Covers(cfg, beam, list[..n]);
    }
  }

  lemma MassValueLast(cfg: SearchConfig, rows: seq<Row>, beam: seq<State>, list: seq<Alignment>, g: Key -> real)
    requires list != []
    ensures var n := |list| - 1;
      Sum(beam, MassValue(cfg, rows, list, g))
      == Sum(beam, MassValue(cfg, rows, list[..n], g)) + Sum(beam, RunValue(cfg, rows, list[n], g))
  {
    var n := |list| - 1;
    forall s | s in beam
      ensures MassValue(cfg, rows, list, g)(s) == MassValue(cfg, rows, list[..n], g)(s) + RunValue(cfg, rows, list[n], g)(s)
    {
      hide Run, AlignmentWeight;
      assert Sum(list, OnRunTo(cfg, rows, s.key)) == Sum(list[..n], OnRunTo(cfg, rows, s.key)) + OnRun(cfg, rows, list[n], s.key);
    }
    SumAdd(beam, MassValue(cfg, rows, list[..n], g), RunValue(cfg, rows, list[n], g), MassValue(cfg, rows, list, g));
  }

  // ---------------------------------------------------------------- one timestep on alignments

  ghost function InflowTo(cfg: SearchConfig, row: Row, moves: seq<Move>, target: Key): Key -> real {
    key => Inflow(cfg, row, key, moves, target)
  }

  ghost function AfterMove(cfg: SearchConfig, rows: seq<Row>, a: Alignment, target: Key): Move -> real {
    m => OnRun(cfg, rows, a + [m], target)
  }

  /** The mass of a state after one more step, regrouped by the alignment up to that step. */
  lemma MassStep(cfg: SearchConfig, rows: seq<Row>, t: nat, target: Key)
    requires t < |rows|
    ensures StateMass(cfg, rows, t + 1, target)
         == Sum(Alignments(cfg, t), WeightedAtRun(cfg, rows, InflowTo(cfg, rows[t], AllMoves(cfg), target)))
  {
    hide Sum, OnRun, Run, AlignmentWeight, Inflow, AllMoves;
    var moves := AllMoves(cfg);
    var f := OnRunTo(cfg, rows, target);
    var g := WeightedAtRun(cfg, rows, InflowTo(cfg, rows[t], moves, target));
    SumWords(moves, t, f);
    forall a | a in Words(moves, t) ensures OneMore(moves, f)(a) == g(a) {
      WordsMembers(moves, t, a);
      SumCongruence(moves, After(a, f), AfterMove(cfg, rows, a, target));
      LastMove(cfg, rows, t, a, moves, target);
    }
    SumCongruence(Words(moves, t), OneMore(moves, f), g);
  }

  lemma LastMove(cfg: SearchConfig, rows: seq<Row>, t: nat, a: Alignment, moves: seq<Move>, target: Key)
    requires |a| == t < |rows|
    ensures Sum(moves, AfterMove(cfg, rows, a, target))
         == WeightedAtRun(cfg, rows, InflowTo(cfg, rows[t], moves, target))(a)
  {
    hide Sum, Run, AlignmentWeight, Apply, OnRun, Flow;
    var w := AlignmentWeight(cfg, rows, a);
    forall m | m in moves
      ensures AfterMove(cfg, rows, a, target)(m)
           == match Run(cfg, a) case None => 0.0 case Some(key) => w * Flow(cfg, rows[t], key, m, target)
    {
      OneMoreMove(cfg, rows, t, a, m, target);
    }
    match Run(cfg, a)
    case None =>
      SumZero(moves, AfterMove(cfg, rows, a, target));
    case Some(key) =>
      SumScale(moves, w, FlowFrom(cfg, rows[t], key, target), AfterMove(cfg, rows, a, target));
  }

  lemma OneMoreMove(cfg: SearchConfig, rows: seq<Row>, t: nat, a: Alignment, m: Move, target: Key)
    requires |a| == t < |rows|
    ensures OnRun(cfg, rows, a + [m], target)
         == match Run(cfg, a)
            case None => 0.0
            case Some(key) => AlignmentWeight(cfg, rows, a) * Flow(cfg, rows[t], key, m, target)
  {
    hide AcceptsPrefix, Apply, MoveWeight;
    assert (a + [m])[..t] == a;
    match Run(cfg, a)
    case None =>
    case Some(key) =>
      var w := AlignmentWeight(cfg, rows, a);
      assert Run(cfg, a + [m]) == Apply(cfg, key, m);
      assert AlignmentWeight(cfg, rows, a + [m]) == w * MoveWeight(cfg, rows[t], m);
      if Apply(cfg, key, m) == Some(target) {
        assert Flow(cfg, rows[t], key, m, target) == MoveWeight(cfg, rows[t], m);
        assert w * Flow(cfg, rows[t], key, m, target) == w * MoveWeight(cfg, rows[t], m);
      } else {
        assert Flow(cfg, rows[t], key, m, target) == 0.0;
        assert w * Flow(cfg, rows[t], key, m, target) == 0.0;
      }
  }

  // ---------------------------------------------------------------- soundness and exactness of the states

  ghost predicate Input(cfg: SearchConfig, rows: seq<Row>) {
    cfg.Valid() && forall row <- rows :: Distribution(cfg.ctc, row)
  }

  lemma InputNonNegative(cfg: SearchConfig, rows: seq<Row>)
    requires Input(cfg, rows)
    ensures NonNegativeRows(rows)
  {
  }

  lemma FlowNonNegative(cfg: SearchConfig, row: Row, key: Key, m: Move, target: Key)
    requires cfg.Valid() && Distribution(cfg.ctc, row)
    ensures Flow(cfg, row, key, m, target) >= 0.0
  {
    hide Apply, Sum;
  }

  lemma InflowNonNegative(cfg: SearchConfig, row: Row, key: Key, moves: seq<Move>, target: Key)
    requires cfg.Valid() && Distribution(cfg.ctc, row)
    ensures Inflow(cfg, row, key, moves, target) >= 0.0
  {
    hide Sum, Flow;
    forall m | m in moves ensures FlowFrom(cfg, row, key, target)(m) >= 0.0 {
      FlowNonNegative(cfg, row, key, m, target);
    }
    SumZero(moves, m => 0.0);
    SumMonotone(moves, m => 0.0, FlowFrom(cfg, row, key, target));
  }

  ghost function ClassInflow(cfg: SearchConfig, row: Row, key: Key, target: Key): nat -> real {
    (c: nat) => Inflow(cfg, row, key, ClassMoves(cfg, c), target)
  }

  lemma InflowByClass(cfg: SearchConfig, row: Row, key: Key, classes: seq<nat>, target: Key)
    ensures Inflow(cfg, row, key, MovesOf(cfg, classes), target) == Sum(classes, ClassInflow(cfg, row, key, target))
  {
    hide Sum, Flow, ClassMoves, MovesOf;
    var f := FlowFrom(cfg, row, key, target);
    SumMovesOf(cfg, classes, f);
    SumCongruence(classes, c => Sum(ClassMoves(cfg, c), f), ClassInflow(cfg, row, key, target));
  }

  /** Trying fewer classes can only carry less weight; trying all carries the same. */
  lemma SelectedInflow(cfg: SearchConfig, row: Row, key: Key, target: Key)
    requires cfg.Valid() && Distribution(cfg.ctc, row)
    ensures 0.0 <= Inflow(cfg, row, key, StepMoves(cfg, row), target) <= Inflow(cfg, row, key, AllMoves(cfg), target)
    ensures cfg.classesPerStep >= cfg.ctc.ClassCount() ==>
      Inflow(cfg, row, key, StepMoves(cfg, row), target) == Inflow(cfg, row, key, AllMoves(cfg), target)
  {
    hide Sum, Flow, ClassMoves, MovesOf, SelectedClasses, Inflow;
    var count := if cfg.classesPerStep < cfg.ctc.ClassCount() then cfg.classesPerStep else cfg.ctc.ClassCount();
    var selected := SelectedClasses(row, count, cfg.ctc.blank);
    var all := Range(cfg.ctc.ClassCount());
    SelectionSound(row, count, cfg.ctc.blank);
    RangeDistinct(cfg.ctc.ClassCount());
    InflowNonNegative(cfg, row, key, StepMoves(cfg, row), target);
    InflowByClass(cfg, row, key, selected, target);
    InflowByClass(cfg, row, key, all, target);
    forall c | c in all ensures ClassInflow(cfg, row, key, target)(c) >= 0.0 {
      InflowNonNegative(cfg, row, key, ClassMoves(cfg, c), target);
    }
    SumPart(selected, all, ClassInflow(cfg, row, key, target));
  }

  lemma ScoreIsInflow(cfg: SearchConfig, row: Row, beam: seq<State>, target: Key)
    ensures Score(Merged(cfg, row, beam), target) == BeamInflow(cfg, row, beam, StepMoves(cfg, row), target)
    ensures target in Merged(cfg, row, beam)
       <==> exists s, m | s in beam && m in StepMoves(cfg, row) :: Apply(cfg, s.key, m) == Some(target)
  {
    hide Sum, MergeAll, ExpandBeam, StepMoves, Apply, BeamInflow;
    var moves := StepMoves(cfg, row);
    MergeAllScore(ExpandBeam(cfg, row, beam, moves), target);
    ExpandBeamMass(cfg, row, beam, moves, target);
    ExpandBeamKeys(cfg, row, beam, moves, target);
  }

  ghost predicate Bounded(cfg: SearchConfig, rows: seq<Row>, t: nat, beam: seq<State>) {
    forall s <- beam :: 0.0 <= s.weight <= StateMass(cfg, rows, t, s.key)
  }

  ghost predicate Accurate(cfg: SearchConfig, rows: seq<Row>, t: nat, beam: seq<State>) {
    forall s <- beam :: s.weight == StateMass(cfg, rows, t, s.key)
  }

  ghost function PassedAllTo(cfg: SearchConfig, row: Row, moves: seq<Move>, target: Key): State -> real {
    s => PassedAll(cfg, row, s, moves, target)
  }

  /** One timestep keeps scores at or below the exact mass. */
  lemma StepSound(cfg: SearchConfig, rows: seq<Row>, t: nat, beam: seq<State>, target: Key)
    requires Input(cfg, rows) && t < |rows|
    requires DistinctKeys(beam) && Bounded(cfg, rows, t, beam)
    ensures 0.0 <= Score(Merged(cfg, rows[t], beam), target) <= StateMass(cfg, rows, t + 1, target)
    ensures cfg.classesPerStep >= cfg.ctc.ClassCount() && Accurate(cfg, rows, t, beam) && Covers(cfg, beam, Alignments(cfg, t))
      ==> Score(Merged(cfg, rows[t], beam), target) == StateMass(cfg, rows, t + 1, target)
  {
    hide Sum, Flow, MovesOf, SelectedClasses, Inflow, OnRun, Score, Merged, Run, StepMoves, PassedAll, AllMoves, Words, Alignments;
    var row, moves := rows[t], StepMoves(cfg, rows[t]);
    assert row in rows;
    var g := InflowTo(cfg, row, AllMoves(cfg), target);
    forall key ensures g(key) >= 0.0 {
      InflowNonNegative(cfg, row, key, AllMoves(cfg), target);
    }
    var passed := PassedAllTo(cfg, row, moves, target);
    var massed := MassValue(cfg, rows, Alignments(cfg, t), g);
    forall s | s in beam
      ensures 0.0 <= passed(s) <= massed(s)
      ensures cfg.classesPerStep >= cfg.ctc.ClassCount() && Accurate(cfg, rows, t, beam) ==> passed(s) == massed(s)
    {
      PassedAllIsInflow(cfg, row, s, moves, target);
      SelectedInflow(cfg, row, s.key, target);
      ProductMonotone(s.weight, StateMass(cfg, rows, t, s.key), Inflow(cfg, row, s.key, moves, target), g(s.key));
    }
    ScoreIsInflow(cfg, row, beam, target);
    SumCongruence(beam, s => PassedAll(cfg, row, s, moves, target), passed);
    SumZero(beam, s => 0.0);
    SumMonotone(beam, s => 0.0, passed);
    SumMonotone(beam, passed, massed);
    if cfg.classesPerStep >= cfg.ctc.ClassCount() && Accurate(cfg, rows, t, beam) {
      SumCongruence(beam, passed, massed);
    }
    InputNonNegative(cfg, rows);
    Regroup(cfg, rows, beam, Alignments(cfg, t), g);
    MassStep(cfg, rows, t, target);
  }

  /** What every state of every beam satisfies. */
  ghost predicate Healthy(cfg: SearchConfig, t: nat, key: Key) {
    && AcceptsPrefix(cfg.grammar, key.text)
    && |key.text| <= t
    && key.last < cfg.ctc.ClassCount()
  }

  lemma ApplyHealthy(cfg: SearchConfig, t: nat, key: Key, m: Move)
    requires Healthy(cfg, t, key) && m.cls < cfg.ctc.ClassCount() && Apply(cfg, key, m).Some?
    ensures Healthy(cfg, t + 1, Apply(cfg, key, m).value)
  {
  }

  lemma StepMovesInRange(cfg: SearchConfig, row: Row, m: Move)
    requires cfg.Valid() && Distribution(cfg.ctc, row)
    ensures m in StepMoves(cfg, row) ==> m.cls < cfg.ctc.ClassCount()
    ensures m == Move(cfg.ctc.blank, 0) ==> m in StepMoves(cfg, row)
    ensures cfg.classesPerStep >= cfg.ctc.ClassCount() && m in AllMoves(cfg) ==> m in StepMoves(cfg, row)
  {
    var count := if cfg.classesPerStep < cfg.ctc.ClassCount() then cfg.classesPerStep else cfg.ctc.ClassCount();
    SelectionSound(row, count, cfg.ctc.blank);
    MovesOfMembers(cfg, SelectedClasses(row, count, cfg.ctc.blank), m);
    MovesOfMembers(cfg, Range(cfg.ctc.ClassCount()), m);
    RangeDistinct(cfg.ctc.ClassCount());
  }

  lemma StepHealthy(cfg: SearchConfig, rows: seq<Row>, t: nat, beam: seq<State>)
    requires Input(cfg, rows) && t < |rows| && beam != []
    requires forall s <- beam :: Healthy(cfg, t, s.key)
    ensures forall key <- Merged(cfg, rows[t], beam) :: Healthy(cfg, t + 1, key)
    ensures Merged(cfg, rows[t], beam) != map[]
  {
    hide Merged, StepMoves, Apply, Healthy;
    assert rows[t] in rows;
    forall key | key in Merged(cfg, rows[t], beam) ensures Healthy(cfg, t + 1, key) {
      ScoreIsInflow(cfg, rows[t], beam, key);
      var s, m :| s in beam && m in StepMoves(cfg, rows[t]) && Apply(cfg, s.key, m) == Some(key);
      StepMovesInRange(cfg, rows[t], m);
      ApplyHealthy(cfg, t, s.key, m);
    }
    BlankMove(cfg, rows[t], beam);
  }

  lemma BlankMove(cfg: SearchConfig, row: Row, beam: seq<State>)
    requires cfg.Valid() && Distribution(cfg.ctc, row) && beam != []
    ensures Merged(cfg, row, beam) != map[]
  {
    hide Merged, StepMoves;
    var m, target := Move(cfg.ctc.blank, 0), Key(beam[0].key.text, cfg.ctc.blank);
    StepMovesInRange(cfg, row, m);
    ScoreIsInflow(cfg, row, beam, target);
    assert Apply(cfg, beam[0].key, m) == Some(target);
    assert target in Merged(cfg, row, beam);
  }

  lemma CutRanked(merged: map<Key, real>, width: nat)
    ensures DistinctKeys(Cut(Ranked(merged), width))
    ensures forall s <- Cut(Ranked(merged), width) :: s.key in merged && merged[s.key] == s.weight
    ensures |merged| <= width ==> forall key <- merged :: Carried(Cut(Ranked(merged), width), key)
    ensures merged != map[] && width > 0 ==> Cut(Ranked(merged), width) != []
    ensures |Cut(Ranked(merged), width)| <= width
  {
    RankedContents(merged);
    var ranked := Ranked(merged);
    assert forall s <- Cut(ranked, width) :: s in ranked;
    forall key | key in merged && |merged| <= width ensures Carried(Cut(ranked, width), key) {
      assert State(key, merged[key]) in ranked;
    }
  }

  ghost predicate Sound(cfg: SearchConfig, rows: seq<Row>, t: nat, beam: seq<State>) {
    && 1 <= |beam| <= cfg.beamWidth
    && DistinctKeys(beam)
    && (forall s <- beam :: Healthy(cfg, t, s.key))
    && Bounded(cfg, rows, t, beam)
  }

  lemma PrunedSound(cfg: SearchConfig, rows: seq<Row>, t: nat, before: seq<State>)
    requires Input(cfg, rows) && t < |rows| && Sound(cfg, rows, t, before)
    ensures Sound(cfg, rows, t + 1, Cut(Ranked(Merged(cfg, rows[t], before)), cfg.beamWidth))
  {
    hide Merged, StateMass, Healthy, Ranked, Cut;
    var merged := Merged(cfg, rows[t], before);
    StepHealthy(cfg, rows, t, before);
    CutRanked(merged, cfg.beamWidth);
    forall key | key in merged ensures 0.0 <= merged[key] <= StateMass(cfg, rows, t + 1, key) {
      hide *;
      StepSound(cfg, rows, t, before, key);
      ScoreOf(merged, key);
    }
  }

  lemma ScoreOf<K>(merged: map<K, real>, key: K)
    requires key in merged
    ensures Score(merged, key) == merged[key]
  {
  }

  lemma BeamNext(cfg: SearchConfig, rows: seq<Row>, t: nat)
    requires 0 < t <= |rows|
    ensures BeamAt(cfg, rows, t) == Cut(Ranked(Merged(cfg, rows[t - 1], BeamAt(cfg, rows, t - 1))), cfg.beamWidth)
  {
  }

  lemma UnprunedBefore(cfg: SearchConfig, rows: seq<Row>, t: nat)
    requires 0 < t <= |rows| && Unpruned(cfg, rows, t)
    ensures Unpruned(cfg, rows, t - 1) && cfg.classesPerStep >= cfg.ctc.ClassCount()
    ensures |Merged(cfg, rows[t - 1], BeamAt(cfg, rows, t - 1))| <= cfg.beamWidth
  {
  }

  lemma StartSound(cfg: SearchConfig, rows: seq<Row>)
    requires Input(cfg, rows)
    ensures Sound(cfg, rows, 0, BeamAt(cfg, rows, 0))
  {
    hide StateMass;
    StartMass(cfg, rows);
  }

  /** Soundness under any pruning: whatever the beam width, the class cut and the confusion table, the
      beam is never empty, its keys are distinct, its texts pass the prefix test, and no state weighs more
      than all the alignments that end in it. */
  lemma {:induction false} BeamSound(cfg: SearchConfig, rows: seq<Row>, t: nat)
    requires Input(cfg, rows) && t <= |rows|
    ensures Sound(cfg, rows, t, BeamAt(cfg, rows, t))
  {
    hide *;
    if t == 0 {
      StartSound(cfg, rows);
    } else {
      BeamNext(cfg, rows, t);
      BeamSound(cfg, rows, t - 1);
      PrunedSound(cfg, rows, t - 1, BeamAt(cfg, rows, t - 1));
    }
  }

  lemma StartMass(cfg: SearchConfig, rows: seq<Row>)
    ensures StateMass(cfg, rows, 0, Key("", cfg.ctc.blank)) == 1.0
    ensures Covers(cfg, BeamAt(cfg, rows, 0), Alignments(cfg, 0))
  {
    var start := Key("", cfg.ctc.blank);
    assert Alignments(cfg, 0) == [[]];
    SumLast([], [], OnRunTo(cfg, rows, start));
    assert [] + [[]] == Alignments(cfg, 0);
    assert BeamAt(cfg, rows, 0)[0].key == start;
  }

  lemma StartExact(cfg: SearchConfig, rows: seq<Row>)
    ensures Exact(cfg, rows, 0, BeamAt(cfg, rows, 0))
  {
    StartMass(cfg, rows);
  }

  ghost predicate Exact(cfg: SearchConfig, rows: seq<Row>, t: nat, beam: seq<State>) {
    Accurate(cfg, rows, t, beam) && Covers(cfg, beam, Alignments(cfg, t))
  }

  lemma UnprunedExact(cfg: SearchConfig, rows: seq<Row>, t: nat, before: seq<State>)
    requires Input(cfg, rows) && t < |rows| && cfg.classesPerStep >= cfg.ctc.ClassCount()
    requires Sound(cfg, rows, t, before) && Exact(cfg, rows, t, before)
    requires |Merged(cfg, rows[t], before)| <= cfg.beamWidth
    ensures Exact(cfg, rows, t + 1, Cut(Ranked(Merged(cfg, rows[t], before)), cfg.beamWidth))
  {
    hide Merged, StateMass, Healthy, Ranked, Cut, Run, Alignments;
    var merged := Merged(cfg, rows[t], before);
    CutRanked(merged, cfg.beamWidth);
    forall key | key in merged ensures merged[key] == StateMass(cfg, rows, t + 1, key) {
      StepSound(cfg, rows, t, before, key);
      ScoreOf(merged, key);
    }
    forall a | a in Alignments(cfg, t + 1) && Run(cfg, a).Some? ensures Run(cfg, a).value in merged {
      StepCovers(cfg, rows, t, before, a);
    }
  }

  /** Exactness: while nothing has been pruned every state weighs exactly as much as all the alignments
      that end in it, and no alignment the grammar lets through is missing from the beam. */
  lemma {:induction false} BeamExact(cfg: SearchConfig, rows: seq<Row>, t: nat)
    requires Input(cfg, rows) && t <= |rows| && Unpruned(cfg, rows, t)
    ensures Exact(cfg, rows, t, BeamAt(cfg, rows, t))
  {
    hide *;
    if t == 0 {
      StartExact(cfg, rows);
    } else {
      UnprunedBefore(cfg, rows, t);
      BeamNext(cfg, rows, t);
      BeamExact(cfg, rows, t - 1);
      BeamSound(cfg, rows, t - 1);
      UnprunedExact(cfg, rows, t - 1, BeamAt(cfg, rows, t - 1));
    }
  }

  lemma StepCovers(cfg: SearchConfig, rows: seq<Row>, t: nat, beam: seq<State>, a: Alignment)
    requires Input(cfg, rows) && t < |rows| && cfg.classesPerStep >= cfg.ctc.ClassCount()
    requires Covers(cfg, beam, Alignments(cfg, t))
    requires a in Alignments(cfg, t + 1) && Run(cfg, a).Some?
    ensures Run(cfg, a).value in Merged(cfg, rows[t], beam)
  {
    hide Merged, StepMoves, Apply, AllMoves, Words, Extend;
    assert rows[t] in rows;
    WordsMembers(AllMoves(cfg), t + 1, a);
    var front, m := a[..t], a[t];
    assert forall x <- front :: x in a;
    WordsMembers(AllMoves(cfg), t, front);
    assert Carried(beam, Run(cfg, front).value);
    var s :| s in beam && s.key == Run(cfg, front).value;
    assert m in a;
    StepMovesInRange(cfg, rows[t], m);
    ScoreIsInflow(cfg, rows[t], beam, Run(cfg, a).value);
  }
}
