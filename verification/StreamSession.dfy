/** The stream session: single-plate frames feed the consensus, and stable plates pass a duplicate filter. */
module StreamSession {
  import opened Outcomes
  import opened Domain
  import opened TemporalConsensus

  // ---------------------------------------------------------------- the duplicate filter

  /** A stable observation and what the filter did with it. */
  datatype Sighting = Sighting(plate: string, time: int, emitted: bool)

  /** The index of the latest emission, -1 if there is none. */
  function LatestEmission(log: seq<Sighting>): (k: int)
    ensures -1 <= k < |log|
    ensures k >= 0 ==> log[k].emitted
    ensures forall i | k < i < |log| :: !log[i].emitted
  {
    if log == [] then -1
    else if log[|log| - 1].emitted then |log| - 1
    else LatestEmission(log[..|log| - 1])
  }

  /** A sighting repeats the latest emission while the cooldown lasts. */
  predicate Repeats(cooldown: int, log: seq<Sighting>, plate: string, time: int) {
    var k := LatestEmission(log);
    k >= 0 && log[k].plate == plate && 0 <= time - log[k].time < cooldown
  }

  /** Every sighting was suppressed exactly if it repeated the latest emission before it. */
  ghost predicate Lawful(cooldown: int, log: seq<Sighting>) {
    forall i | 0 <= i < |log| :: log[i].emitted <==> !Repeats(cooldown, log[..i], log[i].plate, log[i].time)
  }

  function Emissions(log: seq<Sighting>): nat {
    if log == [] then 0 else Emissions(log[..|log| - 1]) + if log[|log| - 1].emitted then 1 else 0
  }

  ghost predicate InOrder(log: seq<Sighting>) {
    forall i, j | 0 <= i < j < |log| :: log[i].time <= log[j].time
  }

  ghost predicate NothingEmittedBetween(log: seq<Sighting>, i: int, j: int) {
    0 <= i < j < |log| && forall k | i < k < j :: !log[k].emitted
  }

  lemma {:induction false} LatestBefore(log: seq<Sighting>, i: int, j: int)
    requires NothingEmittedBetween(log, i, j) && log[i].emitted
    ensures LatestEmission(log[..j]) == i
  {
    var front := log[..j];
    assert forall k | i <= k < j :: front[k] == log[k];
    assert !(LatestEmission(front) < i);
  }

  /** Successive emissions of one plate are at least the cooldown apart. */
  lemma EmissionsSpaced(cooldown: int, log: seq<Sighting>, i: int, j: int)
    requires Lawful(cooldown, log) && InOrder(log)
    requires NothingEmittedBetween(log, i, j) && log[i].emitted && log[j].emitted
    ensures log[i].plate == log[j].plate ==> log[j].time - log[i].time >= cooldown
  {
    LatestBefore(log, i, j);
    assert log[..j][i] == log[i];
  }

  /** Two emissions of one plate can be closer only with another plate's emission in between. */
  lemma {:induction false} CloseEmissionsAlternate(cooldown: int, log: seq<Sighting>, i: int, j: int)
    requires Lawful(cooldown, log) && InOrder(log) && 0 <= i < j < |log|
    requires log[i].emitted && log[j].emitted && log[i].plate == log[j].plate && log[j].time - log[i].time < cooldown
    ensures exists k | i < k < j :: log[k].emitted && log[k].plate != log[i].plate
    decreases j - i
  {
    if forall k | i < k < j :: !log[k].emitted {
      EmissionsSpaced(cooldown, log, i, j);
    } else {
      var k :| i < k < j && log[k].emitted;
      if log[k].plate == log[i].plate {
        CloseEmissionsAlternate(cooldown, log, i, k);
      }
    }
  }

  /** Two emissions of a plate closer than the cooldown. */
  ghost predicate CloseEmissions(cooldown: int, log: seq<Sighting>, plate: string, i: nat, j: nat) {
    && i < j < |log| && log[i].emitted && log[j].emitted && log[i].plate == log[j].plate == plate
    && log[j].time - log[i].time < cooldown
  }

  /** A plate is emitted, then another one, then the first is sighted again while its own cooldown lasts. */
  ghost predicate ComesBackEarly(cooldown: int, log: seq<Sighting>, plate: string, i: nat, k: nat, j: nat) {
    && i < k < j < |log| && log[i].emitted && log[k].emitted && log[i].plate == log[j].plate == plate != log[k].plate
    && log[j].time - log[i].time < cooldown
  }

  /** Exactly when the cooldown fails to space a plate's emissions. */
  lemma CloseEmissionsExactly(cooldown: int, log: seq<Sighting>, plate: string)
    requires Lawful(cooldown, log) && InOrder(log)
    ensures (exists i: nat, j: nat :: CloseEmissions(cooldown, log, plate, i, j))
       <==> exists i: nat, k: nat, j: nat :: ComesBackEarly(cooldown, log, plate, i, k, j)
  {
    hide Lawful, InOrder;
    if i: nat, j: nat :| CloseEmissions(cooldown, log, plate, i, j) {
      CloseEmissionsAlternate(cooldown, log, i, j);
      var k :| i < k < j && log[k].emitted && log[k].plate != log[i].plate;
      assert ComesBackEarly(cooldown, log, plate, i, k, j);
    }
    if i: nat, k: nat, j: nat :| ComesBackEarly(cooldown, log, plate, i, k, j) {
      var first := FirstReturn(log, plate, k, j);
      ReturnEmitted(cooldown, log, i, k, first);
      OrderedTimes(log, first, j);
      assert CloseEmissions(cooldown, log, plate, i, first);
    }
  }

  lemma OrderedTimes(log: seq<Sighting>, i: nat, j: nat)
    requires InOrder(log) && i <= j < |log|
    ensures log[i].time <= log[j].time
  {
  }

  /** The first sighting of a plate after k. */
  lemma {:induction false} FirstReturn(log: seq<Sighting>, plate: string, k: nat, j: nat) returns (first: nat)
    requires k < j < |log| && log[j].plate == plate
    ensures k < first <= j && log[first].plate == plate && forall l | k < l < first :: log[l].plate != plate
  {
    if l :| k < l < j && log[l].plate == plate {
      first := FirstReturn(log, plate, k, l);
    } else {
      first := j;
    }
  }

  /** The first return after another plate's emission is emitted, whatever the cooldown. */
  lemma ReturnEmitted(cooldown: int, log: seq<Sighting>, i: nat, k: nat, first: nat)
    requires Lawful(cooldown, log) && i < k < first < |log| && log[k].emitted && log[k].plate != log[first].plate
    requires forall l | k < l < first :: log[l].plate != log[first].plate
    ensures log[first].emitted
  {
    var front := log[..first];
    assert front[k] == log[k];
    var latest := LatestEmission(front);
    assert latest >= k && front[latest] == log[latest];
  }

  /** The same for one call: a sighting inside the cooldown of some earlier emission of its plate is emitted iff the
      latest emission was another plate's. */
  lemma EmittedInsideCooldownExactly(cooldown: int, log: seq<Sighting>, i: nat, j: nat)
    requires Lawful(cooldown, log) && InOrder(log) && i < j < |log|
    requires log[i].emitted && log[i].plate == log[j].plate && log[j].time - log[i].time < cooldown
    ensures LatestEmission(log[..j]) >= i
    ensures log[j].emitted <==> log[LatestEmission(log[..j])].plate != log[j].plate
  {
    var front := log[..j];
    assert front[i] == log[i];
    var latest := LatestEmission(front);
    assert latest >= i && front[latest] == log[latest];
    assert log[i].time <= log[latest].time <= log[j].time by {
      OrderedTimes(log, i, latest);
      OrderedTimes(log, latest, j);
    }
  }

  /** A run in which it fails: three sightings of two plates, alternating faster than the cooldown, are all emitted. */
  lemma AlternatingPlatesAreReemitted(cooldown: int)
    requires cooldown > 2
    ensures var log := [Sighting("34A1234", 0, true), Sighting("06B1234", 1, true), Sighting("34A1234", 2, true)];
      Lawful(cooldown, log) && InOrder(log) && log[2].time - log[0].time < cooldown
  {
    var log := [Sighting("34A1234", 0, true), Sighting("06B1234", 1, true), Sighting("34A1234", 2, true)];
    assert log[..0] == [] && log[..1] == [log[0]] && log[..2] == [log[0], log[1]];
    assert log[0].plate[0] != log[1].plate[0];
  }

  /** A sighting is suppressed exactly while the latest emission was of the same plate and its cooldown lasts:
      suppression does not extend the cooldown, and a plate still stable when it ends is emitted again. */
  lemma SuppressedExactlyInCooldown(cooldown: int, log: seq<Sighting>, i: int, j: int)
    requires Lawful(cooldown, log) && InOrder(log)
    requires NothingEmittedBetween(log, i, j) && log[i].emitted
    ensures !log[j].emitted <==> log[j].plate == log[i].plate && log[j].time < log[i].time + cooldown
  {
    LatestBefore(log, i, j);
    assert log[..j][i] == log[i];
  }

  /** Before the first emission nothing is suppressed. */
  lemma FirstSightingEmitted(cooldown: int, log: seq<Sighting>)
    requires Lawful(cooldown, log) && log != []
    ensures log[0].emitted
  {
    assert log[..0] == [];
  }

  lemma LawfulStep(cooldown: int, log: seq<Sighting>, next: Sighting)
    requires Lawful(cooldown, log) && next.emitted == !Repeats(cooldown, log, next.plate, next.time)
    ensures Lawful(cooldown, log + [next])
  {
    var all := log + [next];
    assert all[..|log|] == log;
    forall i | 0 <= i < |all| ensures all[i].emitted <==> !Repeats(cooldown, all[..i], all[i].plate, all[i].time) {
      assert i < |log| ==> all[..i] == log[..i];
    }
  }

  lemma OneMoreSighting(log: seq<Sighting>, next: Sighting)
    ensures LatestEmission(log + [next]) == if next.emitted then |log| else LatestEmission(log)
    ensures Emissions(log + [next]) == Emissions(log) + if next.emitted then 1 else 0
  {
    assert (log + [next])[..|log|] == log;
  }

  datatype Emission = Emission(emitted: Option<Recognition>, suppressed: bool)

  class StablePlateEventFilter {
    const cooldown: int
    var lastEmitted: Option<Recognition>
    var lastEmittedAt: Option<int>
    var emitted: nat
    var suppressed: nat
    /** The stable observations since the last reset. */
    ghost var log: seq<Sighting>

    ghost predicate Valid()
      reads this
    {
      && 0 <= cooldown
      && Lawful(cooldown, log)
      && emitted == Emissions(log) && emitted + suppressed == |log|
      && (var k := LatestEmission(log);
          if k < 0 then lastEmitted.None? && lastEmittedAt.None?
          else lastEmitted.Some? && lastEmitted.value.plate == log[k].plate && lastEmittedAt == Some(log[k].time))
    }

    constructor (cooldown: int)
      requires 0 <= cooldown
      ensures Valid() && this.cooldown == cooldown && log == []
    {
      this.cooldown := cooldown;
      lastEmitted, lastEmittedAt, emitted, suppressed, log := None, None, 0, 0, [];
    }

    /** Without a stable plate nothing happens; otherwise the plate is emitted or suppressed, as the log records. */
    method Observe(consensus: Consensus, time: int) returns (e: Emission)
      requires Valid()
      modifies this
      ensures Valid()
      ensures consensus.stable.None? ==>
        e == Emission(None, false) && log == old(log) && lastEmitted == old(lastEmitted)
        && lastEmittedAt == old(lastEmittedAt) && emitted == old(emitted) && suppressed == old(suppressed)
      ensures consensus.stable.Some? ==>
        var current := consensus.stable.value;
        var repeats := Repeats(cooldown, old(log), current.plate, time);
        && log == old(log) + [Sighting(current.plate, time, !repeats)]
        && e == if repeats then Emission(None, true) else Emission(Some(current), false)
    {
      hide Lawful, LatestEmission, Emissions;
      e := Emission(None, false);
      if consensus.stable.None? {
        return;
      }
      var current := consensus.stable.value;
      var samePlate := lastEmitted.Some? && lastEmitted.value.plate == current.plate;
      var insideCooldown := samePlate && lastEmittedAt.Some? && time >= lastEmittedAt.value
                            && time - lastEmittedAt.value < cooldown;
      ghost var next := Sighting(current.plate, time, !insideCooldown);
      LawfulStep(cooldown, log, next);
      OneMoreSighting(log, next);
      log := log + [next];
      if insideCooldown {
        suppressed := suppressed + 1;
        return Emission(None, true);
      }
      lastEmitted, lastEmittedAt := Some(current), Some(time);
      emitted := emitted + 1;
      e := Emission(Some(current), false);
    }

    method Reset()
      requires Valid()
      modifies this
      ensures Valid() && log == [] && lastEmitted.None? && lastEmittedAt.None? && emitted == 0 && suppressed == 0
    {
      lastEmitted, lastEmittedAt, emitted, suppressed, log := None, None, 0, 0, [];
    }
  }

  // ---------------------------------------------------------------- the session

  datatype Frame = Frame(time: int, recognitions: seq<Recognition>)

  /** The frames with exactly one recognition, as observations. */
  function Singles(frames: seq<Frame>): seq<Observation> {
    if frames == [] then []
    else
      var f := frames[|frames| - 1];
      Singles(frames[..|frames| - 1]) + if |f.recognitions| == 1 then [Observation(f.recognitions[0], f.time)] else []
  }

  ghost predicate FramesInOrder(frames: seq<Frame>) {
    forall i, j | 0 <= i < j < |frames| :: frames[i].time <= frames[j].time
  }

  lemma {:induction false} SinglesInOrder(frames: seq<Frame>)
    requires FramesInOrder(frames)
    ensures Monotone(Singles(frames))
    ensures forall o <- Singles(frames) :: frames != [] && o.time <= frames[|frames| - 1].time
  {
    if frames != [] {
      var n := |frames| - 1;
      SinglesInOrder(frames[..n]);
      forall o | o in Singles(frames[..n]) ensures o.time <= frames[n].time {
        assert frames[n - 1].time <= frames[n].time;
      }
      assert forall i | 0 <= i < |Singles(frames[..n])| :: Singles(frames[..n])[i] in Singles(frames[..n]);
    }
  }

  lemma OneMoreFrame(frames: seq<Frame>, f: Frame)
    requires FramesInOrder(frames) && (frames != [] ==> frames[|frames| - 1].time <= f.time)
    ensures FramesInOrder(frames + [f])
    ensures Singles(frames + [f])
         == Singles(frames) + if |f.recognitions| == 1 then [Observation(f.recognitions[0], f.time)] else []
    ensures Monotone(Singles(frames + [f]))
  {
    hide FramesInOrder, Monotone, Singles;
    FramesExtended(frames, f);
    SinglesExtended(frames, f);
    SinglesInOrder(frames + [f]);
  }

  lemma FramesExtended(frames: seq<Frame>, f: Frame)
    requires FramesInOrder(frames) && (frames != [] ==> frames[|frames| - 1].time <= f.time)
    ensures FramesInOrder(frames + [f])
  {
  }

  lemma SinglesExtended(frames: seq<Frame>, f: Frame)
    ensures Singles(frames + [f])
         == Singles(frames) + if |f.recognitions| == 1 then [Observation(f.recognitions[0], f.time)] else []
  {
    assert (frames + [f])[..|frames|] == frames;
  }

  /** The sightings are in order, none later than the latest frame. */
  ghost predicate SightingsUpTo(log: seq<Sighting>, last: Option<int>) {
    InOrder(log) && match last
                    case None => log == []
                    case Some(time) => forall s <- log :: s.time <= time
  }

  lemma LaterFrame(log: seq<Sighting>, last: Option<int>, time: int)
    requires SightingsUpTo(log, last) && (last.Some? ==> last.value <= time)
    ensures SightingsUpTo(log, Some(time))
    ensures forall s: Sighting | s.time == time :: SightingsUpTo(log + [s], Some(time))
  {
  }

  datatype SessionResult = SessionResult(
    recognitions: seq<Recognition>,
    temporal: Consensus,
    emission: Emission,
    applied: bool,
    ambiguous: bool)

  class RecognitionStreamSession {
    const consensus: TemporalPlateConsensus
    const filter: StablePlateEventFilter
    var lastTimestamp: Option<int>
    var closed: bool
    /** The frames recognized since the last reset. */
    ghost var frames: seq<Frame>

    ghost predicate Valid()
      reads this, consensus, filter
    {
      && consensus.Valid() && filter.Valid()
      && FramesInOrder(frames)
      && consensus.log == Singles(frames)
      && lastTimestamp == (if frames == [] then None else Some(frames[|frames| - 1].time))
      && SightingsUpTo(filter.log, lastTimestamp)
      && (closed ==> frames == [])
    }

    constructor (cfg: ConsensusConfig, cooldown: int)
      requires cfg.Valid() && 0 <= cooldown
      ensures Valid() && frames == [] && !closed && fresh(consensus) && fresh(filter)
      ensures consensus.cfg == cfg && filter.cooldown == cooldown
    {
      consensus := new TemporalPlateConsensus(cfg);
      filter := new StablePlateEventFilter(cooldown);
      lastTimestamp, closed, frames := None, false, [];
    }

    /** One frame. A refused call and a failed pipeline leave the session as it was. */
    method Recognize(frame: Result<seq<Recognition>>, time: int) returns (r: Result<SessionResult>)
      requires Valid()
      modifies this, consensus, filter
      ensures Valid() && closed == old(closed)
      ensures old(closed) || (old(lastTimestamp).Some? && time < old(lastTimestamp).value) ==>
        r == Failure(ConfigurationError)
      ensures !old(closed) && (old(lastTimestamp).Some? ==> time >= old(lastTimestamp).value) ==>
        if frame.Failure? then r == Failure(frame.error) else r.Success?
      ensures r.Failure? ==>
        && frames == old(frames) && lastTimestamp == old(lastTimestamp)
        && unchanged(consensus) && unchanged(filter)
      ensures r.Success? ==>
        && frames == old(frames) + [Frame(time, frame.value)] && lastTimestamp == Some(time)
        && r.value.recognitions == frame.value
        && r.value.applied == (|frame.value| == 1) && r.value.ambiguous == (|frame.value| > 1)
      ensures r.Success? && |frame.value| != 1 ==>
        && unchanged(consensus) && unchanged(filter)
        && r.value.temporal == Consensus(None, |consensus.history|, 0, 0.0) && r.value.emission == Emission(None, false)
      ensures r.Success? && |frame.value| == 1 ==>
        && IsWindow(consensus.cfg, Singles(frames), consensus.history, time)
        && Decision(consensus.cfg, consensus.history, r.value.temporal)
        && match r.value.temporal.stable
           case None => filter.log == old(filter.log) && r.value.emission == Emission(None, false)
           case Some(plate) =>
             var repeats := Repeats(filter.cooldown, old(filter.log), plate.plate, time);
             && filter.log == old(filter.log) + [Sighting(plate.plate, time, !repeats)]
             && r.value.emission == if repeats then Emission(None, true) else Emission(Some(plate), false)
    {
      hide Decision, IsWindow, Repeats, FramesInOrder, Monotone, Singles, SightingsUpTo, LatestEmission, Lawful, Emissions,
        ConsensusConfig.Valid;
      if closed {
        return Failure(ConfigurationError);
      }
      if lastTimestamp.Some? && time < lastTimestamp.value {
        return Failure(ConfigurationError);
      }
      if frame.Failure? {
        return Failure(frame.error);
      }
      var recognitions := frame.value;
      lastTimestamp := Some(time);
      ghost var before := frames;
      frames := before + [Frame(time, recognitions)];
      OneMoreFrame(before, Frame(time, recognitions));
      LaterFrame(filter.log, old(lastTimestamp), time);
      var output := SessionResult(recognitions, Consensus(None, 0, 0, 0.0), Emission(None, false), false, false);
      if |recognitions| == 1 {
        var temporal := consensus.Observe(recognitions[0], time);
        var emission := filter.Observe(temporal, time);
        output := output.(temporal := temporal, applied := true, emission := emission);
      } else if |recognitions| > 1 {
        output := output.(ambiguous := true, temporal := output.temporal.(historySize := |consensus.history|));
      } else {
        output := output.(temporal := output.temporal.(historySize := |consensus.history|));
      }
      r := Success(output);
    }

    method Reset() returns (r: Result<()>)
      requires Valid()
      modifies this, consensus, filter
      ensures Valid() && closed == old(closed)
      ensures if old(closed) then r == Failure(ConfigurationError) && frames == old(frames) else r == Success(()) && frames == []
      ensures !closed ==> consensus.history == [] && filter.log == [] && filter.emitted == 0 && filter.suppressed == 0
    {
      if closed {
        return Failure(ConfigurationError);
      }
      consensus.Reset();
      filter.Reset();
      lastTimestamp, frames := None, [];
      r := Success(());
    }

    /** Closing is idempotent and clears the session. */
    method Close()
      requires Valid()
      modifies this, consensus, filter
      ensures Valid() && closed && frames == []
      ensures old(closed) ==> unchanged(this) && unchanged(consensus) && unchanged(filter)
    {
      if closed {
        return;
      }
      consensus.Reset();
      filter.Reset();
      lastTimestamp, frames := None, [];
      closed := true;
    }
  }
}
