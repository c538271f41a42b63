/** Temporal consensus: a sliding window of single-plate recognitions and a weighted vote over it. */
module TemporalConsensus {
  import opened Outcomes
  import opened Reals
  import opened Domain
  import opened Sorting

  datatype Observation = Observation(result: Recognition, time: int)

  datatype ConsensusConfig = ConsensusConfig(
    maxHistory: nat,
    ttl: int,
    minimumFrames: nat,
    minimumConfidence: real,
    stableThreshold: real,
    conflictMargin: real)
  {
    predicate Valid() {
      && 1 <= maxHistory <= 1024 && ttl > 0 && 1 <= minimumFrames <= maxHistory
      && 0.0 <= minimumConfidence <= 1.0 && 0.0 <= stableThreshold <= 1.0 && 0.0 <= conflictMargin <= 1.0
    }
  }

  datatype Consensus = Consensus(stable: Option<Recognition>, historySize: nat, frames: nat, support: real)

  // ---------------------------------------------------------------- the window

  ghost predicate Monotone(log: seq<Observation>) {
    forall i, j | 0 <= i < j < |log| :: log[i].time <= log[j].time
  }

  ghost predicate AllWithin(log: seq<Observation>, now: int, ttl: int) {
    forall o <- log :: now - o.time <= ttl
  }

  ghost predicate Recent(cfg: ConsensusConfig, log: seq<Observation>, n: nat, now: int)
    requires n <= |log|
  {
    n <= cfg.maxHistory && AllWithin(log[|log| - n..], now, cfg.ttl)
  }

  /** The longest suffix of the log with at most maxHistory entries, all within the time to live. */
  ghost predicate IsWindow(cfg: ConsensusConfig, log: seq<Observation>, window: seq<Observation>, now: int) {
    && |window| <= |log| && window == log[|log| - |window|..]
    && Recent(cfg, log, |window|, now)
    && forall n | |window| < n <= |log| :: !Recent(cfg, log, n, now)
  }

  lemma WindowUnique(cfg: ConsensusConfig, log: seq<Observation>, a: seq<Observation>, b: seq<Observation>, now: int)
    requires IsWindow(cfg, log, a, now) && IsWindow(cfg, log, b, now)
    ensures a == b
  {
    hide Recent;
    assert !(|a| < |b|) && !(|b| < |a|);
  }

  /** What is left after expired entries were dropped from the front, up to the first that is not. */
  ghost predicate Expired(ttl: int, window: seq<Observation>, kept: seq<Observation>, now: int) {
    && |kept| <= |window| && kept == window[|window| - |kept|..]
    && (kept != [] ==> now - kept[0].time <= ttl || now < kept[0].time)
    && (|kept| < |window| ==> now - window[|window| - |kept| - 1].time > ttl)
  }

  /** What is left after entries were dropped from the front until at most n remain. */
  ghost predicate Trimmed(n: nat, list: seq<Observation>, kept: seq<Observation>) {
    && |kept| <= |list| && kept == list[|list| - |kept|..]
    && |kept| <= n && (|kept| == |list| || |kept| >= n)
  }

  /** Expiring from the front and capping the length keeps the window. */
  lemma WindowStep(cfg: ConsensusConfig, log: seq<Observation>, window: seq<Observation>, before: int,
                   o: Observation, kept: seq<Observation>)
    requires cfg.Valid() && Monotone(log + [o]) && IsWindow(cfg, log, window, before)
    requires log != [] ==> before == log[|log| - 1].time
    requires log == [] ==> window == []
    requires Expired(cfg.ttl, window, kept, o.time) && AllWithin(kept, o.time, cfg.ttl)
    ensures var next := kept + [o];
      IsWindow(cfg, log + [o], if |next| > cfg.maxHistory then next[1..] else next, o.time)
  {
    hide Monotone, Recent, AllWithin, Expired;
    var all := log + [o];
    var next := kept + [o];
    var final := if |next| > cfg.maxHistory then next[1..] else next;
    WindowSize(cfg, log, window, before);
    SuffixGrows(cfg, log, window, kept, o);
    StillRecent(cfg, all, kept, o);
    forall n | |final| < n <= |all| ensures !Recent(cfg, all, n, o.time) {
      if n <= cfg.maxHistory {
        LongerNotRecent(cfg, log, window, before, o, kept, n);
      } else {
        TooLong(cfg, all, n, o.time);
      }
    }
  }

  lemma SuffixGrows(cfg: ConsensusConfig, log: seq<Observation>, window: seq<Observation>, kept: seq<Observation>, o: Observation)
    requires |window| <= |log| && window == log[|log| - |window|..] && Expired(cfg.ttl, window, kept, o.time)
    ensures |kept| <= |window| && kept + [o] == (log + [o])[|log| - |kept|..]
    ensures (kept + [o])[1..] == (log + [o])[|log| - |kept| + 1..]
  {
    assert kept == log[|log| - |kept|..];
  }

  lemma StillRecent(cfg: ConsensusConfig, all: seq<Observation>, kept: seq<Observation>, o: Observation)
    requires cfg.Valid() && AllWithin(kept, o.time, cfg.ttl)
    requires |kept| < |all| && kept + [o] == all[|all| - |kept| - 1..]
    ensures |kept| + 1 <= cfg.maxHistory ==> Recent(cfg, all, |kept| + 1, o.time)
    ensures |kept| <= cfg.maxHistory ==> Recent(cfg, all, |kept|, o.time)
  {
    forall e | e in kept + [o] ensures o.time - e.time <= cfg.ttl {
    }
    assert all[|all| - |kept|..] == (kept + [o])[1..];
  }

  lemma TooLong(cfg: ConsensusConfig, log: seq<Observation>, n: nat, now: int)
    requires cfg.maxHistory < n <= |log|
    ensures !Recent(cfg, log, n, now)
  {
  }

  lemma LongerNotRecent(cfg: ConsensusConfig, log: seq<Observation>, window: seq<Observation>, before: int,
                        o: Observation, kept: seq<Observation>, n: nat)
    requires log != [] ==> before == log[|log| - 1].time
    requires Monotone(log + [o]) && IsWindow(cfg, log, window, before) && Expired(cfg.ttl, window, kept, o.time)
    requires |kept| + 1 < n <= |log| + 1 && n <= cfg.maxHistory
    ensures !Recent(cfg, log + [o], n, o.time)
  {
    var all := log + [o];
    if |kept| < |window| {
      var i := |log| - |kept| - 1;
      assert log[i] == window[|window| - |kept| - 1];
      assert all[|all| - n..][i - (|all| - n)] == log[i];
    } else {
      assert !Recent(cfg, log, n - 1, before);
      var suffix := log[|log| - (n - 1)..];
      var e :| e in suffix && before - e.time > cfg.ttl;
      assert all[|all| - n..] == suffix + [o];
      assert all[|log| - 1] == log[|log| - 1] && all[|log|] == o;
    }
  }

  // ---------------------------------------------------------------- the vote

  predicate Eligible(cfg: ConsensusConfig, r: Recognition) {
    r.plate != "" && r.status == Accepted && cfg.minimumConfidence <= r.confidence <= 1.0
  }

  predicate VotesFor(cfg: ConsensusConfig, o: Observation, plate: string) {
    Eligible(cfg, o.result) && o.result.plate == plate
  }

  /** The summed confidence of the eligible observations. */
  function Total(cfg: ConsensusConfig, list: seq<Observation>): real {
    if list == [] then 0.0
    else
      var o := list[|list| - 1];
      Total(cfg, list[..|list| - 1]) + if Eligible(cfg, o.result) then o.result.confidence else 0.0
  }

  function Support(cfg: ConsensusConfig, list: seq<Observation>, plate: string): real {
    if list == [] then 0.0
    else
      var o := list[|list| - 1];
      Support(cfg, list[..|list| - 1], plate) + if VotesFor(cfg, o, plate) then o.result.confidence else 0.0
  }

  function Frames(cfg: ConsensusConfig, list: seq<Observation>, plate: string): nat {
    if list == [] then 0
    else
      var o := list[|list| - 1];
      Frames(cfg, list[..|list| - 1], plate) + if VotesFor(cfg, o, plate) then 1 else 0
  }

  /** The earliest of a plate's most confident votes. */
  ghost predicate FirstBest(cfg: ConsensusConfig, list: seq<Observation>, plate: string, i: nat) {
    && i < |list| && VotesFor(cfg, list[i], plate)
    && (forall j | 0 <= j < i && VotesFor(cfg, list[j], plate) :: list[j].result.confidence < list[i].result.confidence)
    && (forall j | i < j < |list| && VotesFor(cfg, list[j], plate) :: list[j].result.confidence <= list[i].result.confidence)
  }

  ghost predicate Voted(cfg: ConsensusConfig, list: seq<Observation>, plate: string) {
    Frames(cfg, list, plate) > 0
  }

  /** The plate of greatest support, among equals the first in text order. */
  ghost predicate IsWinner(cfg: ConsensusConfig, list: seq<Observation>, plate: string) {
    && Voted(cfg, list, plate)
    && forall p | Voted(cfg, list, p) && p != plate ::
         || Support(cfg, list, p) < Support(cfg, list, plate)
         || (Support(cfg, list, p) == Support(cfg, list, plate) && TextBefore(plate, p))
  }

  /** The greatest support among the other plates, 0 if there are none. */
  ghost predicate IsRunnerUp(cfg: ConsensusConfig, list: seq<Observation>, winner: string, support: real) {
    && (forall p | Voted(cfg, list, p) && p != winner :: Support(cfg, list, p) <= support)
    && (support == 0.0 || exists p :: Voted(cfg, list, p) && p != winner && Support(cfg, list, p) == support)
    && support >= 0.0
  }

  /** The result for a window and its winner. */
  ghost predicate Elects(cfg: ConsensusConfig, window: seq<Observation>, winner: string, runnerUp: real, c: Consensus)
    requires Total(cfg, window) > 0.0
  {
    var share := Support(cfg, window, winner) / Total(cfg, window);
    && c.historySize == |window|
    && c.frames == Frames(cfg, window, winner)
    && c.support == share
    && (c.stable.Some? <==>
          && c.frames >= cfg.minimumFrames && share >= cfg.stableThreshold
          && share - runnerUp / Total(cfg, window) >= cfg.conflictMargin)
    && (c.stable.Some? ==> exists i | 0 <= i < |window| ::
          && FirstBest(cfg, window, winner, i)
          && c.stable.value == window[i].result.(confidence := share, reasons := [AcceptedConsensus]))
  }

  /** The whole specification of an observation's result, as a function of the window. */
  ghost predicate Decision(cfg: ConsensusConfig, window: seq<Observation>, c: Consensus) {
    if Total(cfg, window) <= 0.0 then c == Consensus(None, |window|, 0, 0.0)
    else exists winner, runnerUp ::
      IsWinner(cfg, window, winner) && IsRunnerUp(cfg, window, winner, runnerUp) && Elects(cfg, window, winner, runnerUp, c)
  }

  lemma {:induction false} SupportBounds(cfg: ConsensusConfig, list: seq<Observation>, p: string, q: string)
    requires cfg.Valid()
    ensures 0.0 <= Support(cfg, list, p) <= Total(cfg, list)
    ensures p != q ==> Support(cfg, list, p) + Support(cfg, list, q) <= Total(cfg, list)
  {
    if list != [] {
      SupportBounds(cfg, list[..|list| - 1], p, q);
    }
  }

  lemma WinnerUnique(cfg: ConsensusConfig, list: seq<Observation>, p: string, q: string)
    requires IsWinner(cfg, list, p) && IsWinner(cfg, list, q)
    ensures p == q
  {
    hide TextBefore;
    TextBeforeTotal(p, q);
  }

  lemma RunnerUpUnique(cfg: ConsensusConfig, list: seq<Observation>, winner: string, a: real, b: real)
    requires IsRunnerUp(cfg, list, winner, a) && IsRunnerUp(cfg, list, winner, b)
    ensures a == b
  {
    hide Voted, Support;
  }

  /** The specification leaves the implementation no choice. */
  lemma DecisionUnique(cfg: ConsensusConfig, window: seq<Observation>, a: Consensus, b: Consensus)
    requires Decision(cfg, window, a) && Decision(cfg, window, b)
    ensures a == b
  {
    hide IsWinner, IsRunnerUp, Total, Support, Frames, FirstBest;
    if Total(cfg, window) > 0.0 {
      var p, r :| IsWinner(cfg, window, p) && IsRunnerUp(cfg, window, p, r) && Elects(cfg, window, p, r, a);
      var q, s :| IsWinner(cfg, window, q) && IsRunnerUp(cfg, window, q, s) && Elects(cfg, window, q, s, b);
      WinnerUnique(cfg, window, p, q);
      RunnerUpUnique(cfg, window, p, r, s);
      forall i, j | FirstBest(cfg, window, p, i) && FirstBest(cfg, window, p, j) ensures i == j {
        FirstBestUnique(cfg, window, p, i, j);
      }
    }
  }

  lemma FirstBestUnique(cfg: ConsensusConfig, list: seq<Observation>, plate: string, i: nat, j: nat)
    requires FirstBest(cfg, list, plate, i) && FirstBest(cfg, list, plate, j)
    ensures i == j
  {
    assert !(i < j) && !(j < i);
  }

  // ---------------------------------------------------------------- the implementation

  datatype Aggregate = Aggregate(support: real, frames: nat, best: nat)

  ghost predicate Aggregated(cfg: ConsensusConfig, list: seq<Observation>, aggregates: map<string, Aggregate>) {
    && (forall p :: p in aggregates <==> Voted(cfg, list, p))
    && (forall p <- aggregates ::
          && aggregates[p].support == Support(cfg, list, p)
          && aggregates[p].frames == Frames(cfg, list, p)
          && FirstBest(cfg, list, p, aggregates[p].best))
  }

  lemma VoteStep(cfg: ConsensusConfig, list: seq<Observation>, i: nat, p: string)
    requires i < |list|
    ensures var o := list[i];
      && Total(cfg, list[..i + 1]) == Total(cfg, list[..i]) + (if Eligible(cfg, o.result) then o.result.confidence else 0.0)
      && Support(cfg, list[..i + 1], p) == Support(cfg, list[..i], p) + (if VotesFor(cfg, o, p) then o.result.confidence else 0.0)
      && Frames(cfg, list[..i + 1], p) == Frames(cfg, list[..i], p) + (if VotesFor(cfg, o, p) then 1 else 0)
  {
    assert list[..i + 1][..i] == list[..i];
  }

  lemma BestStep(cfg: ConsensusConfig, list: seq<Observation>, i: nat, p: string, best: nat)
    requires i < |list| && FirstBest(cfg, list[..i], p, best)
    ensures best < i
    ensures !VotesFor(cfg, list[i], p) || list[i].result.confidence <= list[best].result.confidence ==>
      FirstBest(cfg, list[..i + 1], p, best)
    ensures VotesFor(cfg, list[i], p) && list[i].result.confidence > list[best].result.confidence ==>
      FirstBest(cfg, list[..i + 1], p, i)
  {
    hide Eligible;
    forall j | 0 <= j < i ensures list[..i + 1][j] == list[..i][j] {
    }
  }

  lemma {:induction false} FirstVote(cfg: ConsensusConfig, list: seq<Observation>, i: nat, p: string)
    requires i < |list| && !Voted(cfg, list[..i], p) && VotesFor(cfg, list[i], p)
    ensures FirstBest(cfg, list[..i + 1], p, i)
  {
    forall j | 0 <= j < i ensures !VotesFor(cfg, list[j], p) {
      NoVote(cfg, list[..i], p, j);
    }
  }

  lemma {:induction false} NoVote(cfg: ConsensusConfig, list: seq<Observation>, p: string, j: nat)
    requires !Voted(cfg, list, p) && j < |list|
    ensures !VotesFor(cfg, list[j], p)
  {
    hide Eligible;
    if j < |list| - 1 {
      NoVote(cfg, list[..|list| - 1], p, j);
    }
  }

  lemma {:induction false} NoSupport(cfg: ConsensusConfig, list: seq<Observation>, p: string)
    requires !Voted(cfg, list, p)
    ensures Support(cfg, list, p) == 0.0 && Frames(cfg, list, p) == 0
  {
    hide Eligible;
    if list != [] {
      NoSupport(cfg, list[..|list| - 1], p);
    }
  }

  lemma AggregateStep(cfg: ConsensusConfig, list: seq<Observation>, i: nat,
                      before: map<string, Aggregate>, after: map<string, Aggregate>)
    requires i < |list| && Aggregated(cfg, list[..i], before)
    requires var r := list[i].result;
      after == if !Eligible(cfg, r) then before else before[r.plate := Counted(before, list, i)]
    ensures Aggregated(cfg, list[..i + 1], after)
  {
    hide Eligible, Support, Frames, FirstBest;
    forall p
      ensures p in after <==> Voted(cfg, list[..i + 1], p)
      ensures p in after ==> after[p].support == Support(cfg, list[..i + 1], p)
      ensures p in after ==> after[p].frames == Frames(cfg, list[..i + 1], p)
      ensures p in after ==> FirstBest(cfg, list[..i + 1], p, after[p].best)
    {
      VoteStep(cfg, list, i, p);
      if p in before {
        BestStep(cfg, list, i, p, before[p].best);
        assert VotesFor(cfg, list[i], p) ==> after[p] == Counted(before, list, i);
        assert !VotesFor(cfg, list[i], p) ==> after[p] == before[p];
      } else if VotesFor(cfg, list[i], p) {
        NoSupport(cfg, list[..i], p);
        FirstVote(cfg, list, i, p);
      }
    }
  }

  /** One more vote for a plate. */
  function Counted(aggregates: map<string, Aggregate>, list: seq<Observation>, i: nat): Aggregate
    requires i < |list|
  {
    var r := list[i].result;
    if r.plate !in aggregates then Aggregate(r.confidence, 1, i)
    else
      var a := aggregates[r.plate];
      Aggregate(a.support + r.confidence, a.frames + 1,
                if a.best < |list| && r.confidence > list[a.best].result.confidence then i else a.best)
  }

  method CountVotes(cfg: ConsensusConfig, list: seq<Observation>) returns (aggregates: map<string, Aggregate>, total: real)
    ensures Aggregated(cfg, list, aggregates) && total == Total(cfg, list)
  {
    hide *;
    aggregates, total := map[], 0.0;
    assert list[..0] == [];
    NothingCounted(cfg);
    for i := 0 to |list|
      invariant Aggregated(cfg, list[..i], aggregates) && total == Total(cfg, list[..i])
    {
      ghost var before := aggregates;
      var r := list[i].result;
      VoteStep(cfg, list, i, r.plate);
      if Eligible(cfg, r) {
        total := total + r.confidence;
        aggregates := aggregates[r.plate := Counted(aggregates, list, i)];
      }
      AggregateStep(cfg, list, i, before, aggregates);
    }
    assert list[..|list|] == list;
  }

  lemma NothingCounted(cfg: ConsensusConfig)
    ensures Aggregated(cfg, [], map[]) && Total(cfg, []) == 0.0
  {
  }

  ghost predicate LeadsSoFar(supports: seq<real>, n: nat, winner: nat, runnerUp: real) {
    && n <= |supports| && winner < |supports| && (winner == 0 || winner < n) && runnerUp >= 0.0
    && (forall j | 0 <= j < n && j != winner :: supports[j] <= runnerUp)
    && (forall j | 0 <= j < n :: supports[j] < supports[winner] || (supports[j] == supports[winner] && winner <= j))
    && (runnerUp == 0.0 || exists j :: 0 <= j < n && j != winner && supports[j] == runnerUp)
  }

  /** The winner and runner-up loop over the plates in text order. */
  method PickWinner(plates: seq<string>, supports: seq<real>) returns (winner: nat, runnerUp: real)
    requires supports != [] && |plates| == |supports| && Ascending(plates)
    ensures LeadsSoFar(supports, |supports|, winner, runnerUp)
  {
    hide TextBefore;
    winner, runnerUp := 0, 0.0;
    for i := 0 to |supports|
      invariant LeadsSoFar(supports, i, winner, runnerUp)
    {
      TextBeforeTotal(plates[i], plates[winner]);
      if supports[i] > supports[winner]
         || (supports[i] == supports[winner] && TextBefore(plates[i], plates[winner])) {
        runnerUp := Max(runnerUp, supports[winner]);
        winner := i;
      } else if i != winner {
        runnerUp := Max(runnerUp, supports[i]);
      }
    }
  }

  lemma LeaderWins(cfg: ConsensusConfig, list: seq<Observation>, plates: seq<string>, supports: seq<real>,
                   winner: nat, runnerUp: real)
    requires |plates| == |supports| && Ascending(plates) && LeadsSoFar(supports, |supports|, winner, runnerUp)
    requires forall p :: p in plates <==> Voted(cfg, list, p)
    requires forall i | 0 <= i < |plates| :: supports[i] == Support(cfg, list, plates[i])
    ensures IsWinner(cfg, list, plates[winner]) && IsRunnerUp(cfg, list, plates[winner], runnerUp)
  {
    hide TextBefore, Voted, Support;
    var w := plates[winner];
    assert w in plates;
    forall p | Voted(cfg, list, p) && p != w
      ensures Support(cfg, list, p) <= runnerUp
      ensures Support(cfg, list, p) < Support(cfg, list, w) || (Support(cfg, list, p) == Support(cfg, list, w) && TextBefore(w, p))
    {
      assert p in plates;
      var j :| 0 <= j < |plates| && plates[j] == p;
      assert supports[j] == Support(cfg, list, p) && supports[winner] == Support(cfg, list, w);
    }
    if runnerUp != 0.0 {
      var j :| 0 <= j < |plates| && j != winner && supports[j] == runnerUp;
      assert plates[j] in plates;
      TextBeforeTotal(plates[j], w);
      assert if j < winner then TextBefore(plates[j], w) else TextBefore(w, plates[j]);
    }
  }

  lemma SomebodyVoted(cfg: ConsensusConfig, list: seq<Observation>)
    requires Total(cfg, list) > 0.0
    ensures exists p :: Voted(cfg, list, p)
  {
    hide Eligible;
    if exists o <- list :: Eligible(cfg, o.result) {
      var i :| 0 <= i < |list| && Eligible(cfg, list[i].result);
      VoteCounts(cfg, list, i);
    } else {
      NobodyEligible(cfg, list);
    }
  }

  lemma {:induction false} VoteCounts(cfg: ConsensusConfig, list: seq<Observation>, i: nat)
    requires i < |list| && Eligible(cfg, list[i].result)
    ensures Voted(cfg, list, list[i].result.plate)
  {
    hide Eligible;
    if i < |list| - 1 {
      VoteCounts(cfg, list[..|list| - 1], i);
    }
  }

  lemma {:induction false} NobodyEligible(cfg: ConsensusConfig, list: seq<Observation>)
    requires forall o <- list :: !Eligible(cfg, o.result)
    ensures Total(cfg, list) == 0.0
  {
    hide Eligible;
    if list != [] {
      assert list[|list| - 1] in list && forall o <- list[..|list| - 1] :: o in list;
      NobodyEligible(cfg, list[..|list| - 1]);
    }
  }

  /** The vote over a window. */
  method Vote(cfg: ConsensusConfig, window: seq<Observation>) returns (c: Consensus)
    requires cfg.Valid()
    ensures Decision(cfg, window, c)
  {
    hide *;
    var aggregates, total := CountVotes(cfg, window);
    c := Consensus(None, |window|, 0, 0.0);
    if aggregates == map[] || total <= 0.0 {
      NoDecision(cfg, window, aggregates);
      return;
    }
    var plates := KeysInOrder(aggregates);
    var supports := seq(|plates|, i requires 0 <= i < |plates| && plates[i] in aggregates => aggregates[plates[i]].support);
    SomePlate(aggregates, plates);
    var winner, runnerUp := PickWinner(plates, supports);
    WinnerFacts(cfg, window, aggregates, plates, supports, winner, runnerUp);
    var w := aggregates[plates[winner]];
    SupportBounds(cfg, window, plates[winner], plates[winner]);
    RunnerUpBounds(cfg, window, plates[winner], runnerUp);
    var share, runnerUpRatio := Clamp01(w.support / total), Clamp01(runnerUp / total);
    ShareIs(w.support, total);
    ShareIs(runnerUp, total);
    c := c.(frames := w.frames, support := share);
    var hasMargin := share - runnerUpRatio >= cfg.conflictMargin;
    if !(w.frames < cfg.minimumFrames || share < cfg.stableThreshold || !hasMargin) {
      var best := window[w.best].result;
      c := c.(stable := Some(best.(plate := plates[winner], confidence := share, status := Accepted, reasons := [AcceptedConsensus])));
    }
    Elected(cfg, window, plates[winner], runnerUp, w, share, runnerUpRatio, c);
  }

  lemma ShareIs(part: real, whole: real)
    requires 0.0 <= part <= whole && whole > 0.0
    ensures Clamp01(part / whole) == part / whole
  {
    var q := part / whole;
    assert q * whole == part;
  }

  lemma NoDecision(cfg: ConsensusConfig, window: seq<Observation>, aggregates: map<string, Aggregate>)
    requires Aggregated(cfg, window, aggregates) && (aggregates == map[] || Total(cfg, window) <= 0.0)
    ensures Decision(cfg, window, Consensus(None, |window|, 0, 0.0))
  {
    hide Voted, Support, Frames, FirstBest, Total;
    if Total(cfg, window) > 0.0 {
      SomebodyVoted(cfg, window);
    }
  }

  lemma SomePlate(aggregates: map<string, Aggregate>, plates: seq<string>)
    requires aggregates != map[] && forall k :: k in plates <==> k in aggregates
    ensures plates != []
  {
    assert aggregates.Keys != {};
    var k :| k in aggregates.Keys;
    assert k in plates;
  }

  lemma WinnerFacts(cfg: ConsensusConfig, window: seq<Observation>, aggregates: map<string, Aggregate>,
                    plates: seq<string>, supports: seq<real>, winner: nat, runnerUp: real)
    requires Aggregated(cfg, window, aggregates) && Ascending(plates)
    requires forall k :: k in plates <==> k in aggregates
    requires |supports| == |plates| && forall i | 0 <= i < |plates| :: supports[i] == aggregates[plates[i]].support
    requires LeadsSoFar(supports, |supports|, winner, runnerUp)
    ensures winner < |plates| && IsWinner(cfg, window, plates[winner]) && IsRunnerUp(cfg, window, plates[winner], runnerUp)
    ensures var a := aggregates[plates[winner]];
      && a.support == Support(cfg, window, plates[winner]) && a.frames == Frames(cfg, window, plates[winner])
      && FirstBest(cfg, window, plates[winner], a.best) && a.best < |window|
  {
    hide Voted, Support, Frames, TextBefore, Eligible;
    LeaderWins(cfg, window, plates, supports, winner, runnerUp);
    assert plates[winner] in plates;
  }

  lemma RunnerUpBounds(cfg: ConsensusConfig, window: seq<Observation>, winner: string, runnerUp: real)
    requires cfg.Valid() && IsRunnerUp(cfg, window, winner, runnerUp) && Total(cfg, window) > 0.0
    ensures 0.0 <= runnerUp <= Total(cfg, window)
  {
    hide Voted, Support, Total;
    if runnerUp != 0.0 {
      var p :| Voted(cfg, window, p) && p != winner && Support(cfg, window, p) == runnerUp;
      SupportBounds(cfg, window, p, winner);
    }
  }

  lemma Elected(cfg: ConsensusConfig, window: seq<Observation>, winner: string, runnerUp: real, w: Aggregate,
                share: real, runnerUpRatio: real, c: Consensus)
    requires Total(cfg, window) > 0.0 && IsWinner(cfg, window, winner) && IsRunnerUp(cfg, window, winner, runnerUp)
    requires share == Support(cfg, window, winner) / Total(cfg, window) && runnerUpRatio == runnerUp / Total(cfg, window)
    requires w.frames == Frames(cfg, window, winner) && FirstBest(cfg, window, winner, w.best)
    requires c.historySize == |window| && c.frames == w.frames && c.support == share
    requires var best := window[w.best].result;
      c.stable == if w.frames < cfg.minimumFrames || share < cfg.stableThreshold || !(share - runnerUpRatio >= cfg.conflictMargin)
                  then None
                  else Some(best.(plate := winner, confidence := share, status := Accepted, reasons := [AcceptedConsensus]))
    ensures Decision(cfg, window, c)
  {
    hide IsWinner, IsRunnerUp, Total, Support, Frames;
    assert Elects(cfg, window, winner, runnerUp, c);
  }

  lemma MonotonePrefix(log: seq<Observation>, o: Observation)
    requires Monotone(log + [o])
    ensures Monotone(log)
  {
    forall i, j | 0 <= i < j < |log| ensures log[i].time <= log[j].time {
      assert (log + [o])[i] == log[i] && (log + [o])[j] == log[j];
    }
  }

  lemma WindowSize(cfg: ConsensusConfig, log: seq<Observation>, window: seq<Observation>, now: int)
    requires IsWindow(cfg, log, window, now)
    ensures |window| <= cfg.maxHistory
  {
  }

  lemma NothingRecent(cfg: ConsensusConfig, now: int)
    ensures IsWindow(cfg, [], [], now)
  {
  }

  lemma KeptRecent(cfg: ConsensusConfig, log: seq<Observation>, window: seq<Observation>, before: int,
                   kept: seq<Observation>, o: Observation)
    requires cfg.Valid() && Monotone(log + [o]) && IsWindow(cfg, log, window, before)
    requires Expired(cfg.ttl, window, kept, o.time)
    ensures AllWithin(kept, o.time, cfg.ttl)
  {
    hide Recent, Monotone;
    SuffixGrows(cfg, log, window, kept, o);
    if kept != [] {
      SuffixInOrder(log + [o], kept + [o]);
      assert forall e <- kept :: e in kept + [o];
      assert (kept + [o])[0] == kept[0];
    }
  }

  /** The first of a suffix is the earliest in it. */
  lemma SuffixInOrder(all: seq<Observation>, suffix: seq<Observation>)
    requires Monotone(all) && 0 < |suffix| <= |all| && suffix == all[|all| - |suffix|..]
    ensures forall e <- suffix :: suffix[0].time <= e.time
  {
    forall i | 0 <= i < |suffix| ensures suffix[0].time <= suffix[i].time {
      assert suffix[i] == all[|all| - |suffix| + i];
    }
  }

  lemma KeptLength(ttl: int, window: seq<Observation>, kept: seq<Observation>, now: int)
    requires Expired(ttl, window, kept, now)
    ensures |kept| <= |window|
  {
  }

  /** Trimming a list that is at most one too long drops at most its first entry. */
  lemma TrimmedByOne(n: nat, list: seq<Observation>, kept: seq<Observation>)
    requires Trimmed(n, list, kept) && n >= 1 && |list| <= n + 1
    ensures kept == if |list| > n then list[1..] else list
  {
  }

  /** What an observation does to the window. */
  lemma WindowKept(cfg: ConsensusConfig, log: seq<Observation>, window: seq<Observation>, o: Observation,
                   kept: seq<Observation>, next: seq<Observation>)
    requires cfg.Valid()
    requires log == [] ==> window == []
    requires log != [] && Monotone(log) ==> IsWindow(cfg, log, window, log[|log| - 1].time)
    requires Expired(cfg.ttl, window, kept, o.time) && Trimmed(cfg.maxHistory, kept + [o], next)
    ensures Monotone(log + [o]) ==> IsWindow(cfg, log + [o], next, o.time)
  {
    hide IsWindow, AllWithin, Recent, Monotone, Expired, Trimmed;
    if Monotone(log + [o]) {
      MonotonePrefix(log, o);
      var before := if log == [] then o.time else log[|log| - 1].time;
      if log == [] {
        NothingRecent(cfg, before);
      }
      KeptRecent(cfg, log, window, before, kept, o);
      WindowStep(cfg, log, window, before, o, kept);
      WindowSize(cfg, log, window, before);
      KeptLength(cfg.ttl, window, kept, o.time);
      TrimmedByOne(cfg.maxHistory, kept + [o], next);
    }
  }

  // ---------------------------------------------------------------- the consensus object

  class TemporalPlateConsensus {
    const cfg: ConsensusConfig
    var history: seq<Observation>
    /** Everything observed since the last reset. */
    ghost var log: seq<Observation>

    ghost predicate Valid()
      reads this
    {
      && cfg.Valid()
      && (log == [] ==> history == [])
      && (log != [] && Monotone(log) ==> IsWindow(cfg, log, history, log[|log| - 1].time))
    }

    constructor (cfg: ConsensusConfig)
      requires cfg.Valid()
      ensures Valid() && this.cfg == cfg && log == []
    {
      this.cfg := cfg;
      history, log := [], [];
    }

    /** Drops expired entries from the front. */
    method Expire(now: int)
      modifies this`history
      ensures Expired(cfg.ttl, old(history), history, now)
    {
      while history != []
        invariant |history| <= |old(history)| && history == old(history)[|old(history)| - |history|..]
        invariant |history| < |old(history)| ==> now - old(history)[|old(history)| - |history| - 1].time > cfg.ttl
        decreases |history|
      {
        var oldest := history[0];
        if now < oldest.time || now - oldest.time <= cfg.ttl {
          break;
        }
        history := history[1..];
      }
    }

    /** Drops entries from the front until the history is short enough. */
    method Trim()
      modifies this`history
      ensures Trimmed(cfg.maxHistory, old(history), history)
    {
      while |history| > cfg.maxHistory
        invariant |history| <= |old(history)| && history == old(history)[|old(history)| - |history|..]
        invariant |history| == |old(history)| || |history| >= cfg.maxHistory
        decreases |history|
      {
        history := history[1..];
      }
    }

    /** For monotone timestamps the history afterwards is the window of the log, and the result is its vote. */
    method Observe(result: Recognition, time: int) returns (c: Consensus)
      requires Valid()
      modifies this
      ensures Valid() && log == old(log) + [Observation(result, time)]
      ensures Decision(cfg, history, c)
    {
      hide Decision, IsWindow, Monotone, ConsensusConfig.Valid, Expired, Trimmed;
      var o := Observation(result, time);
      ghost var window := history;
      Expire(time);
      ghost var kept := history;
      history := history + [o];
      log := log + [o];
      Trim();
      WindowKept(cfg, old(log), window, o, kept, history);
      c := Vote(cfg, history);
    }

    method Reset()
      requires Valid()
      modifies this
      ensures Valid() && log == [] && history == []
    {
      history, log := [], [];
    }
  }
}
