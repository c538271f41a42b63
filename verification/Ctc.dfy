/** CTC labelling: class paths, the text a path collapses to, its probability, and the greedy decoder. */
module Ctc {
  import opened Sums
  import opened Outcomes

  type Path = seq<nat>
  type Row = seq<real>

  datatype CtcConfig = CtcConfig(
    charset: string,
    blank: nat,
    maximumTimesteps: nat,
    maximumClasses: nat)
  {
    function ClassCount(): nat {
      |charset| + 1
    }

    ghost predicate Valid() {
      && charset != "" && Distinct(charset) && '\0' !in charset
      && blank < ClassCount() <= maximumClasses
      && 0 < maximumTimesteps
    }
  }

  /** One probability per class, as the softmax of a finite row of logits produces. */
  ghost predicate Distribution(cfg: CtcConfig, row: Row) {
    && |row| == cfg.ClassCount()
    && (forall c | 0 <= c < |row| :: row[c] > 0.0)
    && Sum(row, p => p) == 1.0
  }

  /** The character of a class; '\0' (never a charset member) where the source throws. */
  function ClassCharacter(cfg: CtcConfig, c: nat): char {
    var index := if c < cfg.blank then c else c - 1;
    if c == cfg.blank || index >= |cfg.charset| then '\0' else cfg.charset[index]
  }

  /** Every class but the blank has its own charset character; no class falls outside the charset. */
  lemma ClassCharacterInjective(cfg: CtcConfig, c: nat, d: nat)
    requires cfg.Valid() && c < cfg.ClassCount() && d < cfg.ClassCount()
    requires c != cfg.blank && d != cfg.blank
    ensures ClassCharacter(cfg, c) in cfg.charset
    ensures ClassCharacter(cfg, c) == ClassCharacter(cfg, d) ==> c == d
  {
    assert forall i, j | 0 <= i < j < |cfg.charset| :: cfg.charset[i] != cfg.charset[j];
  }

  // ---------------------------------------------------------------- the CTC collapse

  function MergeRepeats(path: Path): Path {
    var n := |path| - 1;
    if n < 1 then path
    else if path[n] == path[n - 1] then MergeRepeats(path[..n])
    else MergeRepeats(path[..n]) + [path[n]]
  }

  function DropBlanks(blank: nat, path: Path): Path {
    if path == [] then []
    else
      var n := |path| - 1;
      DropBlanks(blank, path[..n]) + if path[n] == blank then [] else [path[n]]
  }

  function Spell(cfg: CtcConfig, path: Path): string {
    seq(|path|, i requires 0 <= i < |path| => ClassCharacter(cfg, path[i]))
  }

  /** The text a class path stands for: merge repeats, then drop blanks. */
  function Collapse(cfg: CtcConfig, path: Path): string {
    Spell(cfg, DropBlanks(cfg.blank, MergeRepeats(path)))
  }

  function LastClass(cfg: CtcConfig, path: Path): nat {
    if path == [] then cfg.blank else path[|path| - 1]
  }

  lemma CollapseStep(cfg: CtcConfig, path: Path, c: nat)
    ensures Collapse(cfg, path + [c]) ==
            Collapse(cfg, path) + if c == cfg.blank || c == LastClass(cfg, path) then [] else [ClassCharacter(cfg, c)]
  {
    var longer := path + [c];
    assert longer[..|path|] == path;
    if path == [] {
      assert DropBlanks(cfg.blank, [c]) == if c == cfg.blank then [] else [c];
    } else if c != LastClass(cfg, path) {
      var merged := MergeRepeats(path);
      assert MergeRepeats(longer) == merged + [c];
      assert (merged + [c])[..|merged|] == merged;
    }
  }

  function At(row: Row, c: nat): real {
    if c < |row| then row[c] else 0.0
  }

  /** The product of the per-step probabilities along the path. */
  function PathWeight(rows: seq<Row>, path: Path): real {
    if path == [] then 1.0
    else
      var n := |path| - 1;
      PathWeight(rows, path[..n]) * if n < |rows| then At(rows[n], path[n]) else 0.0
  }

  function Summand(cfg: CtcConfig, rows: seq<Row>, text: string, path: Path): real {
    if Collapse(cfg, path) == text then PathWeight(rows, path) else 0.0
  }

  /** The CTC probability of a text: the sum over all class paths that collapse to it. */
  ghost function TextProbability(cfg: CtcConfig, rows: seq<Row>, text: string): real {
    Sum(Words(Range(cfg.ClassCount()), |rows|), path => Summand(cfg, rows, text, path))
  }

  /** The paths summed are exactly the class paths of that many steps, each counted once. */
  lemma PathsSummedOnce(cfg: CtcConfig, steps: nat)
    ensures var paths := Words(Range(cfg.ClassCount()), steps);
      && Distinct(paths)
      && forall path: Path :: path in paths <==> |path| == steps && forall c <- path :: c < cfg.ClassCount()
  {
    hide Words, Range;
    var classes := Range(cfg.ClassCount());
    RangeDistinct(cfg.ClassCount());
    WordsDistinct(classes, steps);
    forall path: Path
      ensures path in Words(classes, steps) <==> |path| == steps && forall c <- path :: c < cfg.ClassCount()
    {
      WordsMembers(classes, steps, path);
    }
  }

  // ---------------------------------------------------------------- the greedy decoder

  /** The first class of maximal probability. */
  ghost predicate IsArgmax(row: Row, best: nat) {
    && best < |row|
    && (forall c | 0 <= c < |row| :: row[c] <= row[best])
    && (forall c | 0 <= c < best :: row[c] < row[best])
  }

  method Argmax(row: Row) returns (best: nat)
    requires row != []
    ensures IsArgmax(row, best)
  {
    best := 0;
    for c := 0 to |row|
      invariant best < |row| && (best < c || best == c == 0)
      invariant forall d | 0 <= d < c :: row[d] <= row[best]
      invariant forall d | 0 <= d < best :: row[d] < row[best]
    {
      if row[c] > row[best] {
        best := c;
      }
    }
  }

  ghost predicate IsArgmaxPath(rows: seq<Row>, path: Path) {
    |path| == |rows| && forall t | 0 <= t < |rows| :: IsArgmax(rows[t], path[t])
  }

  datatype GreedyResult = GreedyResult(text: string, characterConfidences: seq<real>, confidence: real)

  function Total(s: seq<real>): real {
    if s == [] then 0.0 else Total(s[..|s| - 1]) + s[|s| - 1]
  }

  /** The greedy text is the collapse of the argmax path, with one confidence per character: the
      probability of the class that emitted it. The overall confidence is their mean. */
  method GreedyDecode(cfg: CtcConfig, rows: seq<Row>) returns (result: GreedyResult, ghost path: Path)
    requires cfg.Valid()
    requires forall row <- rows :: Distribution(cfg, row)
    ensures IsArgmaxPath(rows, path)
    ensures result.text == Collapse(cfg, path)
    ensures |result.characterConfidences| == |result.text|
    ensures forall p <- result.characterConfidences :: 0.0 < p <= 1.0
    ensures result.text == "" ==> result.confidence == 0.0
    ensures result.text != "" ==> result.confidence * |result.text| as real == Total(result.characterConfidences)
    ensures 0.0 <= result.confidence <= 1.0
  {
    hide Collapse, Sum;
    EmptyPathCollapse(cfg);
    var text: string, confidences: seq<real>, sum := "", [], 0.0;
    path := [];
    var previous: Option<nat> := None;
    for t := 0 to |rows|
      invariant |path| == t && forall i | 0 <= i < t :: IsArgmax(rows[i], path[i])
      invariant previous == if path == [] then None else Some(path[t - 1])
      invariant text == Collapse(cfg, path) && |confidences| == |text|
      invariant forall p <- confidences :: 0.0 < p <= 1.0
      invariant sum == Total(confidences) && 0.0 <= sum <= |text| as real
    {
      assert rows[t] in rows;
      var best := Argmax(rows[t]);
      CollapseStep(cfg, path, best);
      if best != cfg.blank && previous != Some(best) {
        var probability := rows[t][best];
        ProbabilityAtMostOne(cfg, rows[t], best);
        assert (confidences + [probability])[..|confidences|] == confidences;
        text := text + [ClassCharacter(cfg, best)];
        confidences := confidences + [probability];
        sum := sum + probability;
      }
      path := path + [best];
      previous := Some(best);
    }
    var confidence := 0.0;
    if confidences != [] {
      confidence := sum / |confidences| as real;
      MeanBetween(sum, |confidences|);
    }
    result := GreedyResult(text, confidences, confidence);
  }

  lemma EmptyPathCollapse(cfg: CtcConfig)
    ensures Collapse(cfg, []) == ""
  {
  }

  lemma MeanBetween(sum: real, n: nat)
    requires n > 0 && 0.0 <= sum <= n as real
    ensures 0.0 <= sum / n as real <= 1.0
  {
    var mean := sum / n as real;
    assert mean * n as real == sum;
    assert mean > 1.0 ==> mean * n as real > n as real;
  }

  lemma ProbabilityAtMostOne(cfg: CtcConfig, row: Row, c: nat)
    requires Distribution(cfg, row) && c < |row|
    ensures row[c] <= 1.0
  {
    SumRemove(row, c, p => p);
    var others := row[..c] + row[c + 1..];
    SumZero(others, p => 0.0);
    SumMonotone(others, p => 0.0, p => p);
  }

  lemma {:induction false} PathWeightPositive(cfg: CtcConfig, rows: seq<Row>, path: Path)
    requires forall row <- rows :: Distribution(cfg, row)
    requires |path| <= |rows| && forall c <- path :: c < cfg.ClassCount()
    ensures PathWeight(rows, path) > 0.0
  {
    if path != [] {
      var n := |path| - 1;
      assert path[n] in path && rows[n] in rows;
      assert forall c <- path[..n] :: c in path;
      PathWeightPositive(cfg, rows, path[..n]);
    }
  }

  /** No class path is more probable than the greedy one. */
  lemma {:induction false} ArgmaxPathIsBest(cfg: CtcConfig, rows: seq<Row>, best: Path, path: Path)
    requires forall row <- rows :: Distribution(cfg, row)
    requires |path| == |best| <= |rows|
    requires forall t | 0 <= t < |best| :: IsArgmax(rows[t], best[t])
    requires forall c <- path :: c < cfg.ClassCount()
    ensures PathWeight(rows, path) <= PathWeight(rows, best)
  {
    hide Sum;
    if path != [] {
      var n := |path| - 1;
      assert path[n] in path && rows[n] in rows;
      assert forall c <- path[..n] :: c in path;
      ArgmaxPathIsBest(cfg, rows, best[..n], path[..n]);
      PathWeightPositive(cfg, rows, path[..n]);
      ProductMonotone(PathWeight(rows, path[..n]), PathWeight(rows, best[..n]), rows[n][path[n]], rows[n][best[n]]);
    }
  }

  lemma ProductMonotone(a: real, b: real, x: real, y: real)
    requires 0.0 <= a <= b && 0.0 <= x <= y
    ensures a * x <= b * y
  {
    assert a * x <= b * x;
    assert b * x <= b * y;
  }

  lemma ArgmaxPathIsWord(cfg: CtcConfig, rows: seq<Row>, path: Path)
    requires forall row <- rows :: Distribution(cfg, row)
    requires IsArgmaxPath(rows, path)
    ensures path in Words(Range(cfg.ClassCount()), |rows|)
    ensures forall c <- path :: c < cfg.ClassCount()
  {
    var classes := Range(cfg.ClassCount());
    forall c | c in path ensures c < cfg.ClassCount() && c in classes {
      var t :| 0 <= t < |path| && path[t] == c;
      assert rows[t] in rows && IsArgmax(rows[t], path[t]);
      assert classes[c] == c;
    }
    WordsMembers(classes, |rows|, path);
  }

  /** The greedy path is one summand of the probability of the greedy text. */
  lemma GreedyPathIsSummand(cfg: CtcConfig, rows: seq<Row>, path: Path)
    requires forall row <- rows :: Distribution(cfg, row)
    requires IsArgmaxPath(rows, path)
    ensures path in Words(Range(cfg.ClassCount()), |rows|)
    ensures 0.0 < PathWeight(rows, path) <= TextProbability(cfg, rows, Collapse(cfg, path))
  {
    var words := Words(Range(cfg.ClassCount()), |rows|);
    var text := Collapse(cfg, path);
    ArgmaxPathIsWord(cfg, rows, path);
    PathWeightPositive(cfg, rows, path);
    forall q | q in words ensures Summand(cfg, rows, text, q) >= 0.0 {
      WordsMembers(Range(cfg.ClassCount()), |rows|, q);
      PathWeightPositive(cfg, rows, q);
    }
    SumMember(words, path, q => Summand(cfg, rows, text, q));
  }
}
