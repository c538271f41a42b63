/** The constrained CTC beam search: a dynamic program over (text, last class) states that merges
    alignments, filters texts with the plate grammar, adds confusion alternatives and prunes to a beam. */
module CtcBeam {
  import opened Sums
  import opened Outcomes
  import opened Sorting
  import opened Grammar
  import opened Ctc

  datatype SearchConfig = SearchConfig(
    ctc: CtcConfig,
    beamWidth: nat,
    resultLimit: nat,
    classesPerStep: nat,
    confusionWeight: real,
    confusionPairs: seq<(char, char)>,
    grammar: PlateGrammar)
  {
    ghost predicate Valid() {
      && ctc.Valid() && grammar.Valid()
      && 1 <= beamWidth <= 512
      && 1 <= resultLimit <= beamWidth
      && 1 <= classesPerStep <= ctc.maximumClasses
      && 0.0 < confusionWeight <= 1.0
      && forall pair <- confusionPairs :: pair.0 != '\0' && pair.1 != '\0' && pair.0 != pair.1
    }
  }

  datatype Key = Key(text: string, last: nat)
  datatype State = State(key: Key, weight: real)

  /** One step of an alignment: the class read, and which spelling of it is used:
      0 for its own character, v for the alternative that confusion pair v - 1 offers. */
  datatype Move = Move(cls: nat, variant: nat)

  // ---------------------------------------------------------------- one move

  function Alternative(cfg: SearchConfig, pair: (char, char), emitted: char): Option<char> {
    var alternative :=
      if emitted == pair.0 then Some(pair.1) else if emitted == pair.1 then Some(pair.0) else None;
    if alternative.Some? && alternative.value in cfg.ctc.charset then alternative else None
  }

  /** The character a move appends when its class is emitted. */
  function Emission(cfg: SearchConfig, m: Move): Option<char> {
    var emitted := ClassCharacter(cfg.ctc, m.cls);
    if m.variant == 0 then Some(emitted)
    else if m.variant <= |cfg.confusionPairs| then Alternative(cfg, cfg.confusionPairs[m.variant - 1], emitted)
    else None
  }

  ghost function Apply(cfg: SearchConfig, key: Key, m: Move): Option<Key> {
    if m.cls == cfg.ctc.blank || m.cls == key.last then
      if m.variant == 0 then Some(Key(key.text, m.cls)) else None
    else
      match Emission(cfg, m)
      case None => None
      case Some(character) =>
        if AcceptsPrefix(cfg.grammar, key.text + [character]) then Some(Key(key.text + [character], m.cls)) else None
  }

  function MoveWeight(cfg: SearchConfig, row: Row, m: Move): real {
    At(row, m.cls) * if m.variant == 0 then 1.0 else cfg.confusionWeight
  }

  function ClassMoves(cfg: SearchConfig, c: nat): seq<Move> {
    seq(|cfg.confusionPairs| + 1, (v: nat) => Move(c, v))
  }

  function MovesOf(cfg: SearchConfig, classes: seq<nat>): seq<Move> {
    if classes == [] then []
    else MovesOf(cfg, classes[..|classes| - 1]) + ClassMoves(cfg, classes[|classes| - 1])
  }

  function AllMoves(cfg: SearchConfig): seq<Move> {
    MovesOf(cfg, Range(cfg.ctc.ClassCount()))
  }

  lemma {:induction false} SumMovesOf(cfg: SearchConfig, classes: seq<nat>, f: Move -> real)
    ensures Sum(MovesOf(cfg, classes), f) == Sum(classes, c => Sum(ClassMoves(cfg, c), f))
  {
    if classes != [] {
      var n := |classes| - 1;
      SumMovesOf(cfg, classes[..n], f);
      SumConcat(MovesOf(cfg, classes[..n]), ClassMoves(cfg, classes[n]), f);
    }
  }

  lemma {:induction false} MovesOfMembers(cfg: SearchConfig, classes: seq<nat>, m: Move)
    ensures m in MovesOf(cfg, classes) <==> m.cls in classes && m.variant <= |cfg.confusionPairs|
  {
    if classes != [] {
      var n := |classes| - 1;
      MovesOfMembers(cfg, classes[..n], m);
      assert m in ClassMoves(cfg, classes[n]) <==> m.cls == classes[n] && m.variant <= |cfg.confusionPairs| by {
        if m.cls == classes[n] && m.variant <= |cfg.confusionPairs| {
          assert ClassMoves(cfg, classes[n])[m.variant] == m;
        }
      }
      assert classes == classes[..n] + [classes[n]];
    }
  }

  // ---------------------------------------------------------------- class selection

  predicate MoreProbable(row: Row, c: nat, d: nat) {
    if At(row, c) != At(row, d) then At(row, c) > At(row, d) else c < d
  }

  /** The `count` most probable classes, ties to the smaller index, and the blank in any case. */
  function SelectedClasses(row: Row, count: nat, blank: nat): seq<nat> {
    var ranked := StableSort((c, d) => MoreProbable(row, c, d), Range(|row|));
    var kept := if |ranked| > count then ranked[..count] else ranked;
    if blank in kept then kept else kept + [blank]
  }

  lemma DistinctFromMultiset<T>(s: seq<T>, r: seq<T>)
    requires Distinct(s) && multiset(s) == multiset(r)
    ensures Distinct(r)
  {
    forall i, j | 0 <= i < j < |r| ensures r[i] != r[j] {
      OnceEach(s, r, i, j);
    }
  }

  /** The selection never repeats a class, never leaves the class range, always holds the blank, and
      takes every class when the count allows it. */
  lemma SelectionSound(row: Row, count: nat, blank: nat)
    requires blank < |row|
    ensures var selected := SelectedClasses(row, count, blank);
      && Distinct(selected) && blank in selected
      && (forall c <- selected :: c < |row|)
      && |selected| <= count + 1
      && (count >= |row| ==> |selected| == |row| && forall c: nat | c < |row| :: c in selected)
  {
    hide StableSort, Range;
    var ranked := StableSort((c, d) => MoreProbable(row, c, d), Range(|row|));
    RangeDistinct(|row|);
    SameElements(Range(|row|), ranked);
    DistinctFromMultiset(Range(|row|), ranked);
    var kept := if |ranked| > count then ranked[..count] else ranked;
    assert forall c <- kept :: c in ranked;
    assert count >= |row| ==> kept == ranked && forall c: nat | c < |row| :: c in kept;
  }

  /** Apart from the blank, a class left out is no more probable than any class chosen by rank. */
  lemma SelectionKeepsMostProbable(row: Row, count: nat, blank: nat, c: nat, d: nat)
    requires c in SelectedClasses(row, count, blank) && c != blank
    requires d < |row| && d !in SelectedClasses(row, count, blank)
    ensures MoreProbable(row, c, d)
  {
    hide StableSort, Range;
    var before := (c, d) => MoreProbable(row, c, d);
    var ranked := StableSort(before, Range(|row|));
    StableSortSorted(before, Range(|row|));
    RangeDistinct(|row|);
    SameElements(Range(|row|), ranked);
    var i :| 0 <= i < |ranked| && i < count && ranked[i] == c;
    assert d in ranked;
    var j :| 0 <= j < |ranked| && ranked[j] == d;
    var kept := if |ranked| > count then ranked[..count] else ranked;
    assert forall k | 0 <= k < |kept| :: kept[k] == ranked[k] && kept[k] != d;
    assert !before(ranked[j], ranked[i]);
  }

  // ---------------------------------------------------------------- expansion and merging

  /** What a move makes of a state: at most one weighted successor. */
  ghost function Contribution(cfg: SearchConfig, row: Row, s: State, m: Move): seq<State> {
    match Apply(cfg, s.key, m)
    case None => []
    case Some(key) => [State(key, s.weight * MoveWeight(cfg, row, m))]
  }

  lemma ContributionOf(cfg: SearchConfig, row: Row, s: State, m: Move, key: Key)
    requires Apply(cfg, s.key, m) == Some(key)
    ensures Contribution(cfg, row, s, m) == [State(key, s.weight * MoveWeight(cfg, row, m))]
  {
    hide Apply, MoveWeight;
    var successors := Contribution(cfg, row, s, m);
    assert |successors| == 1 && successors[0].key == key;
    assert successors[0].weight == s.weight * MoveWeight(cfg, row, m);
  }

  ghost function Expand(cfg: SearchConfig, row: Row, s: State, moves: seq<Move>): seq<State> {
    if moves == [] then []
    else
      Expand(cfg, row, s, moves[..|moves| - 1]) + Contribution(cfg, row, s, moves[|moves| - 1])
  }

  ghost function ExpandBeam(cfg: SearchConfig, row: Row, beam: seq<State>, moves: seq<Move>): seq<State> {
    if beam == [] then []
    else
      ExpandBeam(cfg, row, beam[..|beam| - 1], moves) + Expand(cfg, row, beam[|beam| - 1], moves)
  }

  function Score<K>(merged: map<K, real>, key: K): real {
    if key in merged then merged[key] else 0.0
  }

  function Merge(merged: map<Key, real>, s: State): map<Key, real> {
    merged[s.key := if s.key in merged then merged[s.key] + s.weight else s.weight]
  }

  function MergeAll(states: seq<State>): map<Key, real> {
    if states == [] then map[] else Merge(MergeAll(states[..|states| - 1]), states[|states| - 1])
  }

  function OnKey(s: State, key: Key): real {
    if s.key == key then s.weight else 0.0
  }

  /** The total weight a list of states puts on a key. */
  ghost function KeyMass(states: seq<State>, key: Key): real {
    Sum(states, s => OnKey(s, key))
  }

  lemma KeyMassConcat(states: seq<State>, more: seq<State>, key: Key)
    ensures KeyMass(states + more, key) == KeyMass(states, key) + KeyMass(more, key)
  {
    SumConcat(states, more, s => OnKey(s, key));
  }

  /** Merging adds up the weights that reach a key, and creates only the keys that are reached. */
  lemma {:induction false} MergeAllScore(states: seq<State>, key: Key)
    ensures Score(MergeAll(states), key) == KeyMass(states, key)
    ensures key in MergeAll(states) <==> exists s <- states :: s.key == key
  {
    if states != [] {
      var n := |states| - 1;
      MergeAllScore(states[..n], key);
      assert states == states[..n] + [states[n]];
    }
  }

  /** The weight a move carries from one key to another. */
  ghost function Flow(cfg: SearchConfig, row: Row, key: Key, m: Move, target: Key): real {
    if Apply(cfg, key, m) == Some(target) then MoveWeight(cfg, row, m) else 0.0
  }

  ghost function FlowFrom(cfg: SearchConfig, row: Row, key: Key, target: Key): Move -> real {
    m => Flow(cfg, row, key, m, target)
  }

  ghost function Inflow(cfg: SearchConfig, row: Row, key: Key, moves: seq<Move>, target: Key): real {
    Sum(moves, FlowFrom(cfg, row, key, target))
  }

  /** The weight a state passes on to a key by one move, and by a list of moves. */
  ghost function Passed(cfg: SearchConfig, row: Row, s: State, m: Move, target: Key): real {
    KeyMass(Contribution(cfg, row, s, m), target)
  }

  ghost function PassedFrom(cfg: SearchConfig, row: Row, s: State, target: Key): Move -> real {
    m => Passed(cfg, row, s, m, target)
  }

  ghost function PassedAll(cfg: SearchConfig, row: Row, s: State, moves: seq<Move>, target: Key): real {
    Sum(moves, PassedFrom(cfg, row, s, target))
  }

  lemma PassedIsFlow(cfg: SearchConfig, row: Row, s: State, m: Move, target: Key)
    ensures Passed(cfg, row, s, m, target) == s.weight * Flow(cfg, row, s.key, m, target)
  {
    hide AcceptsPrefix, Emission, Apply, MoveWeight;
    var more := Contribution(cfg, row, s, m);
    if more != [] {
      SumLast([], more[0], x => OnKey(x, target));
      assert [] + [more[0]] == more;
    }
  }

  lemma PassedAllIsInflow(cfg: SearchConfig, row: Row, s: State, moves: seq<Move>, target: Key)
    ensures PassedAll(cfg, row, s, moves, target) == s.weight * Inflow(cfg, row, s.key, moves, target)
  {
    hide Sum, Apply, AcceptsPrefix;
    var flow, passed := FlowFrom(cfg, row, s.key, target), PassedFrom(cfg, row, s, target);
    forall m | m in moves ensures passed(m) == s.weight * flow(m) {
      PassedIsFlow(cfg, row, s, m, target);
    }
    SumScale(moves, s.weight, flow, passed);
  }

  lemma {:induction false} ExpandMass(cfg: SearchConfig, row: Row, s: State, moves: seq<Move>, target: Key)
    ensures KeyMass(Expand(cfg, row, s, moves), target) == PassedAll(cfg, row, s, moves, target)
  {
    if moves != [] {
      var n := |moves| - 1;
      ExpandMass(cfg, row, s, moves[..n], target);
      KeyMassConcat(Expand(cfg, row, s, moves[..n]), Contribution(cfg, row, s, moves[n]), target);
    }
  }

  /** The weight a whole beam carries to a key. */
  ghost function BeamInflow(cfg: SearchConfig, row: Row, beam: seq<State>, moves: seq<Move>, target: Key): real {
    Sum(beam, s => PassedAll(cfg, row, s, moves, target))
  }

  lemma {:induction false} ExpandBeamMass(cfg: SearchConfig, row: Row, beam: seq<State>, moves: seq<Move>, target: Key)
    ensures KeyMass(ExpandBeam(cfg, row, beam, moves), target) == BeamInflow(cfg, row, beam, moves, target)
  {
    if beam != [] {
      var n := |beam| - 1;
      ExpandBeamMass(cfg, row, beam[..n], moves, target);
      ExpandMass(cfg, row, beam[n], moves, target);
      KeyMassConcat(ExpandBeam(cfg, row, beam[..n], moves), Expand(cfg, row, beam[n], moves), target);
    }
  }

  lemma {:induction false} ExpandKeys(cfg: SearchConfig, row: Row, s: State, moves: seq<Move>, target: Key)
    ensures (exists x <- Expand(cfg, row, s, moves) :: x.key == target)
       <==> (exists m <- moves :: Apply(cfg, s.key, m) == Some(target))
  {
    if moves != [] {
      var n := |moves| - 1;
      ExpandKeys(cfg, row, s, moves[..n], target);
      var front, more := Expand(cfg, row, s, moves[..n]), Contribution(cfg, row, s, moves[n]);
      assert moves == moves[..n] + [moves[n]];
      assert forall x :: x in Expand(cfg, row, s, moves) <==> x in front || x in more;
      if Apply(cfg, s.key, moves[n]) == Some(target) {
        assert more[0].key == target && more[0] in Expand(cfg, row, s, moves);
      }
    }
  }

  lemma {:induction false} ExpandBeamKeys(cfg: SearchConfig, row: Row, beam: seq<State>, moves: seq<Move>, target: Key)
    ensures (exists x <- ExpandBeam(cfg, row, beam, moves) :: x.key == target)
       <==> (exists s, m | s in beam && m in moves :: Apply(cfg, s.key, m) == Some(target))
  {
    hide Expand, Apply;
    if beam != [] {
      var n := |beam| - 1;
      ExpandBeamKeys(cfg, row, beam[..n], moves, target);
      ExpandKeys(cfg, row, beam[n], moves, target);
      var front, more := ExpandBeam(cfg, row, beam[..n], moves), Expand(cfg, row, beam[n], moves);
      assert beam == beam[..n] + [beam[n]];
      assert forall x :: x in ExpandBeam(cfg, row, beam, moves) <==> x in front || x in more;
    }
  }
}
