/** The OCR adapter's cache: a recency list and a map, against the history of uses. */
module LruCache {
  import opened Outcomes
  import opened Domain
  import opened Machine
  import Sha256

  // ---------------------------------------------------------------- what the cache should hold

  datatype Operation<V> = Lookup(key: string) | Store(key: string, value: V)

  function Without(keys: seq<string>, key: string): seq<string> {
    if keys == [] then []
    else if keys[0] == key then Without(keys[1..], key)
    else [keys[0]] + Without(keys[1..], key)
  }

  /** The distinct keys used, latest use first. */
  function Recency(uses: seq<string>): seq<string> {
    if uses == [] then []
    else
      var last := uses[|uses| - 1];
      [last] + Without(Recency(uses[..|uses| - 1]), last)
  }

  function Take(keys: seq<string>, n: nat): seq<string> {
    if |keys| <= n then keys else keys[..n]
  }

  /** The uses of a history: every store, and every lookup of a key that is still held. */
  function Uses<V>(history: seq<Operation<V>>, capacity: nat): seq<string> {
    if history == [] then []
    else
      var before := Uses(history[..|history| - 1], capacity);
      var op := history[|history| - 1];
      if op.Store? || op.key in Take(Recency(before), capacity) then before + [op.key] else before
  }

  /** The capacity most recently used keys, latest first. */
  function Held<V>(history: seq<Operation<V>>, capacity: nat): seq<string> {
    Take(Recency(Uses(history, capacity)), capacity)
  }

  ghost predicate EverStored<V>(history: seq<Operation<V>>, key: string) {
    exists op <- history :: op.Store? && op.key == key
  }

  /** The value most recently stored under a key. */
  ghost function LastStored<V>(history: seq<Operation<V>>, key: string): V
    requires EverStored(history, key)
  {
    var op := history[|history| - 1];
    if op.Store? && op.key == key then op.value else LastStored(history[..|history| - 1], key)
  }

  ghost predicate Distinct(keys: seq<string>) {
    forall i, j | 0 <= i < j < |keys| :: keys[i] != keys[j]
  }

  /** The position of a key's last use. */
  function LastUse(uses: seq<string>, key: string): int {
    if uses == [] then -1
    else if uses[|uses| - 1] == key then |uses| - 1
    else LastUse(uses[..|uses| - 1], key)
  }

  // ---------------------------------------------------------------- the recency list

  lemma {:induction false} WithoutMembers(keys: seq<string>, key: string)
    ensures forall k :: k in Without(keys, key) <==> k in keys && k != key
    ensures Distinct(keys) ==> Distinct(Without(keys, key))
    ensures key !in keys ==> Without(keys, key) == keys
  {
    if keys != [] {
      WithoutMembers(keys[1..], key);
      assert keys == [keys[0]] + keys[1..];
      assert Distinct(keys) ==> Distinct(keys[1..]) && keys[0] !in keys[1..];
    }
  }

  /** Dropping one key of a duplicate-free list cuts the list around it. */
  lemma {:induction false} WithoutAt(keys: seq<string>, i: nat)
    requires i < |keys| && Distinct(keys)
    ensures Without(keys, keys[i]) == keys[..i] + keys[i + 1..]
  {
    assert keys == [keys[0]] + keys[1..];
    if i == 0 {
      assert keys[0] !in keys[1..];
      WithoutMembers(keys[1..], keys[0]);
    } else {
      assert keys[1..][i - 1] == keys[i];
      WithoutAt(keys[1..], i - 1);
      assert keys[1..][..i - 1] == keys[1..i] && keys[1..][i..] == keys[i + 1..];
    }
  }

  ghost predicate OrderedByUse(uses: seq<string>, keys: seq<string>) {
    forall i, j | 0 <= i < j < |keys| :: LastUse(uses, keys[i]) > LastUse(uses, keys[j])
  }

  lemma WithoutKeepsOrder(uses: seq<string>, keys: seq<string>, key: string)
    requires Distinct(keys) && OrderedByUse(uses, keys)
    ensures OrderedByUse(uses, Without(keys, key))
  {
    hide LastUse, Without;
    WithoutMembers(keys, key);
    if key in keys {
      var p :| 0 <= p < |keys| && keys[p] == key;
      WithoutAt(keys, p);
    }
  }

  lemma OlderUsesUnchanged(uses: seq<string>, last: string, keys: seq<string>)
    requires OrderedByUse(uses, keys) && last !in keys
    ensures OrderedByUse(uses + [last], [last] + keys)
  {
    assert (uses + [last])[..|uses|] == uses;
    forall k | k in keys ensures LastUse(uses + [last], k) == LastUse(uses, k) < |uses| {
      LastUseBound(uses, k);
    }
  }

  /** The recency list holds each used key once, ordered by last use. */
  lemma {:induction false} RecencyOrder(uses: seq<string>)
    ensures Distinct(Recency(uses))
    ensures forall k :: k in Recency(uses) <==> k in uses
    ensures OrderedByUse(uses, Recency(uses))
  {
    hide LastUse, Without, OrderedByUse;
    if uses == [] {
      NothingUsed();
    } else {
      var front, last := uses[..|uses| - 1], uses[|uses| - 1];
      assert uses == front + [last];
      RecencyOrder(front);
      WithoutMembers(Recency(front), last);
      WithoutKeepsOrder(front, Recency(front), last);
      OlderUsesUnchanged(front, last, Without(Recency(front), last));
    }
  }

  lemma NothingUsed()
    ensures OrderedByUse([], Recency([]))
  {
  }

  lemma {:induction false} LastUseBound(uses: seq<string>, key: string)
    ensures -1 <= LastUse(uses, key) < |uses|
    ensures LastUse(uses, key) >= 0 ==> uses[LastUse(uses, key)] == key
    ensures forall i | LastUse(uses, key) < i < |uses| :: uses[i] != key
  {
    if uses != [] {
      LastUseBound(uses[..|uses| - 1], key);
      forall i | LastUse(uses, key) < i < |uses| ensures uses[i] != key {
        assert i < |uses| - 1 ==> uses[..|uses| - 1][i] == uses[i];
      }
    }
  }

  /** Using a held key moves it to the front of what is held. */
  lemma HeldAfterUseOfHeld(older: seq<string>, key: string, capacity: nat)
    requires Distinct(older) && key in Take(older, capacity)
    ensures Take([key] + Without(older, key), capacity) == [key] + Without(Take(older, capacity), key)
  {
    var held := Take(older, capacity);
    var i :| 0 <= i < |held| && held[i] == key;
    WithoutAt(older, i);
    WithoutAt(held, i);
    if |older| > capacity {
      assert ([key] + (older[..i] + older[i + 1..]))[..capacity] == [key] + (held[..i] + held[i + 1..]);
    }
  }

  lemma EarlyIsTaken(keys: seq<string>, i: nat, n: nat)
    requires i < |keys|
    ensures i < n ==> keys[i] in Take(keys, n)
  {
    assert i < n < |keys| ==> keys[..n][i] == keys[i];
  }

  /** Using another key puts it in front and pushes out the least recently used one beyond the capacity. */
  lemma HeldAfterUseOfOther(older: seq<string>, key: string, capacity: nat)
    requires Distinct(older) && key !in Take(older, capacity)
    ensures Take([key] + Without(older, key), capacity) == Take([key] + Take(older, capacity), capacity)
  {
    if key in older {
      var i :| 0 <= i < |older| && older[i] == key;
      EarlyIsTaken(older, i, capacity);
      WithoutAt(older, i);
    } else {
      WithoutMembers(older, key);
    }
  }

  lemma {:induction false} HeldIsStored<V>(history: seq<Operation<V>>, capacity: nat, key: string)
    requires key in Uses(history, capacity)
    ensures EverStored(history, key)
  {
    var n := |history| - 1;
    var front, op := history[..n], history[n];
    assert history == front + [op];
    if !(op.Store? && op.key == key) {
      RecencyOrder(Uses(front, capacity));
      HeldIsStored(front, capacity, key);
      var o :| o in front && o.Store? && o.key == key;
      assert o in history;
    }
  }

  lemma HeldKeys<V>(history: seq<Operation<V>>, capacity: nat)
    ensures Distinct(Held(history, capacity)) && |Held(history, capacity)| <= capacity
    ensures forall k <- Held(history, capacity) :: EverStored(history, k)
  {
    hide EverStored, Uses;
    RecencyOrder(Uses(history, capacity));
    forall k | k in Held(history, capacity) ensures EverStored(history, k) {
      HeldIsStored(history, capacity, k);
    }
  }

  /** What one more operation does to what is held. */
  lemma HeldStep<V>(history: seq<Operation<V>>, op: Operation<V>, capacity: nat)
    ensures var held, next := Held(history, capacity), Held(history + [op], capacity);
      next == if op.key in held then [op.key] + Without(held, op.key)
              else if op.Store? then Take([op.key] + held, capacity)
              else held
  {
    hide Recency;
    var uses := Uses(history, capacity);
    assert (history + [op])[..|history|] == history;
    RecencyOrder(uses);
    if op.key in Held(history, capacity) {
      RecencyStep(uses, op.key);
      HeldAfterUseOfHeld(Recency(uses), op.key, capacity);
    } else if op.Store? {
      RecencyStep(uses, op.key);
      HeldAfterUseOfOther(Recency(uses), op.key, capacity);
    }
  }

  lemma RecencyStep(uses: seq<string>, key: string)
    ensures Recency(uses + [key]) == [key] + Without(Recency(uses), key)
  {
    assert (uses + [key])[..|uses|] == uses;
  }

  lemma LastStoredStep<V>(history: seq<Operation<V>>, op: Operation<V>, key: string)
    ensures EverStored(history + [op], key) <==> EverStored(history, key) || (op.Store? && op.key == key)
    ensures EverStored(history, key) && !(op.Store? && op.key == key) ==>
      LastStored(history + [op], key) == LastStored(history, key)
    ensures op.Store? && op.key == key ==> LastStored(history + [op], key) == op.value
  {
    assert (history + [op])[..|history|] == history;
    if EverStored(history, key) {
      var o :| o in history && o.Store? && o.key == key;
      assert o in history + [op];
    }
    if op.Store? && op.key == key {
      assert op in history + [op];
    }
  }

  // ---------------------------------------------------------------- the adapter

  datatype Evidence = Evidence(source: string, candidates: seq<PlateCandidate>)

  datatype Config = Config(providerName: string, maximumPayloadBytes: nat, cacheCapacity: nat, maximumCandidates: nat)

  predicate CandidateOk(c: PlateCandidate) {
    c.text != "" && 0.0 <= c.confidence <= 1.0 && 0.0 <= c.calibratedConfidence <= 1.0
  }

  predicate ResponseOk(cfg: Config, candidates: seq<PlateCandidate>) {
    |candidates| <= cfg.maximumCandidates && forall c <- candidates :: CandidateOk(c)
  }

  predicate EvidenceOk(cfg: Config, e: Evidence) {
    e.source == cfg.providerName && ResponseOk(cfg, e.candidates)
  }

  datatype Context = Running | CancellationRequested | DeadlineExceeded

  /** What the collaborators do in one call: the context at each of the four checks, the encoder and the worker. */
  datatype Call = Call(
    atStart: Context,
    workerAvailable: bool,
    encoded: Result<(seq<Byte>, string)>,
    afterEncoding: Context,
    beforeWorker: Context,
    response: Result<seq<PlateCandidate>>,
    afterWorker: Context)

  ghost predicate MapsToLastStored<V(!new)>(history: seq<Operation<V>>, cache: map<string, V>) {
    forall k <- cache :: EverStored(history, k) && cache[k] == LastStored(history, k)
  }

  lemma MapKeeps<V(!new)>(history: seq<Operation<V>>, op: Operation<V>, cache: map<string, V>)
    requires MapsToLastStored(history, cache)
    ensures MapsToLastStored(history + [op], if op.Store? then cache[op.key := op.value] else cache)
  {
    hide EverStored, LastStored;
    var next := if op.Store? then cache[op.key := op.value] else cache;
    forall k | k in next ensures EverStored(history + [op], k) && next[k] == LastStored(history + [op], k) {
      LastStoredStep(history, op, k);
    }
  }

  /** The list is what should be held, and the map gives each held key its most recently stored evidence. */
  ghost predicate Consistent(cfg: Config, lru: seq<string>, cache: map<string, Evidence>, history: seq<Operation<Evidence>>) {
    && lru == Held(history, cfg.cacheCapacity)
    && (forall k :: k in cache <==> k in lru)
    && MapsToLastStored(history, cache)
    && (forall k <- cache :: EvidenceOk(cfg, cache[k]))
  }

  lemma NothingHeld(cfg: Config)
    ensures Consistent(cfg, [], map[], [])
  {
  }

  lemma HeldOnce(cfg: Config, lru: seq<string>, cache: map<string, Evidence>, history: seq<Operation<Evidence>>)
    requires Consistent(cfg, lru, cache, history)
    ensures DistinctKeys(cache, lru) && |lru| <= cfg.cacheCapacity && forall k :: k in cache <==> k in lru
  {
    hide Held, MapsToLastStored, EvidenceOk;
    HeldKeys(history, cfg.cacheCapacity);
  }

  lemma LookupMisses(cfg: Config, lru: seq<string>, cache: map<string, Evidence>, history: seq<Operation<Evidence>>, key: string)
    requires Consistent(cfg, lru, cache, history) && key !in cache
    ensures Consistent(cfg, lru, cache, history + [Lookup(key)])
  {
    hide Held, MapsToLastStored, EvidenceOk;
    HeldStep(history, Lookup(key), cfg.cacheCapacity);
    MapKeeps(history, Lookup(key), cache);
  }

  lemma LookupHits(cfg: Config, lru: seq<string>, cache: map<string, Evidence>, history: seq<Operation<Evidence>>, key: string)
    requires Consistent(cfg, lru, cache, history) && key in cache
    ensures Consistent(cfg, [key] + Without(lru, key), cache, history + [Lookup(key)])
    ensures EverStored(history, key) && cache[key] == LastStored(history, key) && EvidenceOk(cfg, cache[key])
  {
    hide Held, EverStored, LastStored, EvidenceOk;
    HeldStep(history, Lookup(key), cfg.cacheCapacity);
    MapKeeps(history, Lookup(key), cache);
    WithoutMembers(lru, key);
  }

  lemma StoreDisabled(cfg: Config, lru: seq<string>, cache: map<string, Evidence>, history: seq<Operation<Evidence>>,
                      key: string, evidence: Evidence)
    requires Consistent(cfg, lru, cache, history) && cfg.cacheCapacity == 0
    ensures Consistent(cfg, lru, cache, history + [Store(key, evidence)])
  {
    hide Held, EverStored, LastStored, EvidenceOk;
    HeldKeys(history, 0);
    HeldKeys(history + [Store(key, evidence)], 0);
  }

  lemma StoreHeld(cfg: Config, lru: seq<string>, cache: map<string, Evidence>, history: seq<Operation<Evidence>>,
                  key: string, evidence: Evidence)
    requires Consistent(cfg, lru, cache, history) && key in cache && EvidenceOk(cfg, evidence)
    ensures Consistent(cfg, [key] + Without(lru, key), cache[key := evidence], history + [Store(key, evidence)])
  {
    hide Held, MapsToLastStored, EvidenceOk;
    HeldStep(history, Store(key, evidence), cfg.cacheCapacity);
    MapKeeps(history, Store(key, evidence), cache);
    WithoutMembers(lru, key);
  }

  /** After a new key is put in front and the list is cut to the capacity. */
  lemma StoreNew(cfg: Config, lru: seq<string>, cache: map<string, Evidence>, history: seq<Operation<Evidence>>,
                 key: string, evidence: Evidence, kept: seq<string>, entries: map<string, Evidence>)
    requires Consistent(cfg, lru, cache, history) && key !in cache && EvidenceOk(cfg, evidence)
    requires kept == Take([key] + lru, cfg.cacheCapacity)
    requires forall k :: k in entries <==> k in kept
    requires forall k <- entries :: k in cache[key := evidence] && entries[k] == cache[key := evidence][k]
    ensures Consistent(cfg, kept, entries, history + [Store(key, evidence)])
  {
    hide Held, EverStored, LastStored, EvidenceOk;
    HeldStep(history, Store(key, evidence), cfg.cacheCapacity);
    MapKeeps(history, Store(key, evidence), cache);
  }

  /** The payload of a call that gets as far as the cache, or why it does not. */
  function Admit(cfg: Config, call: Call): Result<seq<Byte>> {
    if call.atStart != Running then Failure(Interruption(call.atStart))
    else if !call.workerAvailable then Failure(ProviderError)
    else if call.encoded.Failure? then Failure(call.encoded.error)
    else if call.afterEncoding != Running then Failure(Interruption(call.afterEncoding))
    else if call.encoded.value.0 == [] || call.encoded.value.1 == "" then Failure(ProviderError)
    else if |call.encoded.value.0| > cfg.maximumPayloadBytes then Failure(ResourceExhausted)
    else Success(call.encoded.value.0)
  }

  function Interruption(context: Context): Error
    requires context != Running
  {
    if context.CancellationRequested? then Cancelled else TimedOut
  }

  /** The evidence a call gets from the worker. */
  function Ask(cfg: Config, call: Call): (r: Result<Evidence>)
    ensures r.Success? ==> EvidenceOk(cfg, r.value)
  {
    if call.beforeWorker != Running then Failure(Interruption(call.beforeWorker))
    else if call.response.Failure? then Failure(call.response.error)
    else if call.afterWorker != Running then Failure(Interruption(call.afterWorker))
    else if !ResponseOk(cfg, call.response.value) then Failure(ProviderError)
    else Success(Evidence(cfg.providerName, call.response.value))
  }

  function KeyOf(payload: seq<Byte>): string {
    Sha256.Hex(Sha256.Digest(payload))
  }

  /** A payload the worker was asked about, and the evidence it led to. */
  datatype Answer = Answer(payload: seq<Byte>, evidence: Evidence)

  /** Every stored value is the worker's answer for a payload with that key. */
  ghost predicate Explained(history: seq<Operation<Evidence>>, answers: seq<Answer>) {
    forall op <- history :: op.Store? ==> exists a <- answers :: KeyOf(a.payload) == op.key && a.evidence == op.value
  }

  lemma {:induction false} LastStoredExplained(history: seq<Operation<Evidence>>, answers: seq<Answer>, key: string)
    requires Explained(history, answers) && EverStored(history, key)
    ensures exists a <- answers :: KeyOf(a.payload) == key && a.evidence == LastStored(history, key)
  {
    hide KeyOf;
    var n := |history| - 1;
    var op := history[n];
    assert op in history && forall o <- history[..n] :: o in history;
    assert history == history[..n] + [op];
    if !(op.Store? && op.key == key) {
      LastStoredExplained(history[..n], answers, key);
    }
  }

  lemma SameKeySameDigest(a: seq<Byte>, b: seq<Byte>)
    ensures KeyOf(a) == KeyOf(b) <==> Sha256.Digest(a) == Sha256.Digest(b)
  {
    hide Sha256.Digest, Sha256.Hex;
    Sha256.HexInjective(Sha256.Digest(a), Sha256.Digest(b));
  }

  class PaddleOcrAdapter {
    const cfg: Config
    var lru: seq<string>
    var cache: map<string, Evidence>
    ghost var history: seq<Operation<Evidence>>
    ghost var answers: seq<Answer>

    ghost predicate Valid()
      reads this
    {
      Consistent(cfg, lru, cache, history)
    }

    constructor (cfg: Config)
      ensures Valid() && this.cfg == cfg && history == [] && answers == []
    {
      this.cfg := cfg;
      lru, cache, history, answers := [], map[], [], [];
      NothingHeld(cfg);
    }

    /** A hit exactly on the held keys; it returns the evidence stored last and moves the key to the front. */
    method TryGetCached(key: string) returns (cached: Option<Evidence>)
      requires Valid()
      modifies this
      ensures Valid() && history == old(history) + [Lookup(key)] && answers == old(answers)
      ensures cached.Some? <==> key in old(lru)
      ensures cached.Some? ==> EverStored(old(history), key) && cached.value == LastStored(old(history), key)
      ensures cached.Some? ==> EvidenceOk(cfg, cached.value)
    {
      hide Consistent, Held, Take, Without, Recency, Uses, EverStored, LastStored, EvidenceOk, DistinctKeys, Distinct;
      HeldOnce(cfg, lru, cache, history);
      ghost var before := history;
      history := before + [Lookup(key)];
      if cfg.cacheCapacity == 0 || key !in cache {
        LookupMisses(cfg, lru, cache, before, key);
        return None;
      }
      LookupHits(cfg, lru, cache, before, key);
      lru := [key] + Without(lru, key);
      cached := Some(cache[key]);
    }

    method StoreCached(key: string, evidence: Evidence)
      requires Valid() && EvidenceOk(cfg, evidence)
      modifies this
      ensures Valid() && history == old(history) + [Store(key, evidence)] && answers == old(answers)
    {
      hide Consistent, Held, Take, Without, Recency, Uses, EverStored, LastStored, EvidenceOk, DistinctKeys, Distinct;
      ghost var lru0, cache0, before := lru, cache, history;
      HeldOnce(cfg, lru, cache, history);
      history := before + [Store(key, evidence)];
      if cfg.cacheCapacity == 0 {
        StoreDisabled(cfg, lru, cache, before, key, evidence);
        return;
      }
      if key in cache {
        StoreHeld(cfg, lru, cache, before, key, evidence);
        cache := cache[key := evidence];
        lru := [key] + Without(lru, key);
        return;
      }
      lru := [key] + lru;
      cache := cache[key := evidence];
      FrontOnce(cache0, lru0, key, evidence);
      ghost var full, entries := lru, cache;
      while |cache| > cfg.cacheCapacity
        invariant history == before + [Store(key, evidence)] && answers == old(answers)
        invariant |lru| <= |full| && lru == full[..|lru|] && (lru == full || |lru| >= cfg.cacheCapacity)
        invariant DistinctKeys(cache, lru)
        invariant forall k <- cache :: k in entries && cache[k] == entries[k]
        decreases |lru|
      {
        KeyCount(cache, lru);
        DropLastKey(cache, lru);
        var expired := lru[|lru| - 1];
        cache := cache - {expired};
        lru := lru[..|lru| - 1];
      }
      KeyCount(cache, lru);
      assert full[..|full|] == full;
      Trimmed(full, lru, cfg.cacheCapacity);
      DistinctMembers(cache, lru);
      StoreNew(cfg, lru0, cache0, before, key, evidence, lru, cache);
    }

    /**
     * One recognition. Only calls that pass the checks reach the cache; a hit answers with what was stored last, without
     * the worker; a miss stores what the worker answers, unless that fails.
     */
    method Recognize(call: Call) returns (r: Result<Evidence>)
      requires Valid() && Explained(history, answers)
      modifies this
      ensures Valid() && Explained(history, answers)
      ensures var payload := Admit(cfg, call);
        if payload.Failure? then
          r == Failure(payload.error) && history == old(history) && answers == old(answers)
        else
          var key := KeyOf(payload.value);
          if key in old(lru) then
            && EverStored(old(history), key) && r == Success(LastStored(old(history), key))
            && history == old(history) + [Lookup(key)] && answers == old(answers)
          else
            && r == Ask(cfg, call)
            && history == old(history) + [Lookup(key)] + (if r.Success? then [Store(key, r.value)] else [])
            && answers == old(answers) + (if r.Success? then [Answer(payload.value, r.value)] else [])
      ensures r.Success? ==> EvidenceOk(cfg, r.value)
      ensures r.Success? ==>
        exists a <- answers :: a.evidence == r.value && Sha256.Digest(a.payload) == Sha256.Digest(Admit(cfg, call).value)
    {
      hide Consistent, Held, Without, EverStored, LastStored, EvidenceOk, ResponseOk, Sha256.Digest, Sha256.Hex, KeyOf;
      if call.atStart != Running {
        return Failure(Interruption(call.atStart));
      }
      if !call.workerAvailable {
        return Failure(ProviderError);
      }
      if call.encoded.Failure? {
        return Failure(call.encoded.error);
      }
      var bytes, mimeType := call.encoded.value.0, call.encoded.value.1;
      if call.afterEncoding != Running {
        return Failure(Interruption(call.afterEncoding));
      }
      if bytes == [] || mimeType == "" {
        return Failure(ProviderError);
      }
      if |bytes| > cfg.maximumPayloadBytes {
        return Failure(ResourceExhausted);
      }
      var key := Sha256.HashHex(bytes);
      KeyIs(bytes, key);
      ghost var history0 := history;
      var cached := TryGetCached(key);
      if cached.Some? {
        AnsweredBefore(history0, answers, bytes, key);
        return Success(cached.value);
      }
      if call.beforeWorker != Running {
        return Failure(Interruption(call.beforeWorker));
      }
      if call.response.Failure? {
        return Failure(call.response.error);
      }
      if call.afterWorker != Running {
        return Failure(Interruption(call.afterWorker));
      }
      if !ResponseOk(cfg, call.response.value) {
        return Failure(ProviderError);
      }
      var evidence := Evidence(cfg.providerName, call.response.value);
      assert Ask(cfg, call) == Success(evidence);
      StoreCached(key, evidence);
      answers := answers + [Answer(bytes, evidence)];
      NewAnswer(history0, answers, key, bytes, evidence);
      r := Success(evidence);
    }
  }

  lemma KeyIs(payload: seq<Byte>, key: string)
    requires key == Sha256.Hex(Sha256.Digest(payload))
    ensures key == KeyOf(payload)
  {
    hide Sha256.Hex, Sha256.Digest;
  }

  lemma AnsweredBefore(history: seq<Operation<Evidence>>, answers: seq<Answer>, payload: seq<Byte>, key: string)
    requires Explained(history, answers) && EverStored(history, key) && key == KeyOf(payload)
    ensures Explained(history + [Lookup(key)], answers)
    ensures exists a <- answers ::
      a.evidence == LastStored(history, key) && Sha256.Digest(a.payload) == Sha256.Digest(payload)
  {
    hide KeyOf, Sha256.Digest, EverStored, LastStored;
    LastStoredExplained(history, answers, key);
    var a :| a in answers && KeyOf(a.payload) == key && a.evidence == LastStored(history, key);
    SameKeySameDigest(a.payload, payload);
  }

  lemma NewAnswer(history: seq<Operation<Evidence>>, answers: seq<Answer>, key: string, payload: seq<Byte>, evidence: Evidence)
    requires answers != [] && Explained(history, answers[..|answers| - 1]) && key == KeyOf(payload)
    requires answers[|answers| - 1] == Answer(payload, evidence)
    ensures Explained(history + [Lookup(key)] + [Store(key, evidence)], answers)
    ensures exists a <- answers :: a.evidence == evidence && Sha256.Digest(a.payload) == Sha256.Digest(payload)
  {
    hide KeyOf, Sha256.Digest;
    var n := |answers| - 1;
    assert answers == answers[..n] + [answers[n]];
    assert answers[n] in answers;
  }

  ghost predicate DistinctKeys<V>(cache: map<string, V>, keys: seq<string>) {
    Distinct(keys) && forall k :: k in cache <==> k in keys
  }

  lemma DistinctMembers<V>(cache: map<string, V>, keys: seq<string>)
    requires DistinctKeys(cache, keys)
    ensures forall k :: k in cache <==> k in keys
  {
  }

  lemma FrontOnce<V>(cache: map<string, V>, keys: seq<string>, key: string, value: V)
    requires DistinctKeys(cache, keys) && key !in keys
    ensures DistinctKeys(cache[key := value], [key] + keys)
  {
  }

  lemma Trimmed(full: seq<string>, kept: seq<string>, capacity: nat)
    requires |kept| <= |full| && kept == full[..|kept|] && |kept| <= capacity && (kept == full || |kept| >= capacity)
    ensures kept == Take(full, capacity)
  {
  }

  lemma DropLastKey<V>(cache: map<string, V>, keys: seq<string>)
    requires DistinctKeys(cache, keys) && keys != []
    ensures DistinctKeys(cache - {keys[|keys| - 1]}, keys[..|keys| - 1])
    ensures keys[|keys| - 1] in cache
  {
    assert keys == keys[..|keys| - 1] + [keys[|keys| - 1]];
  }

  lemma {:induction false} KeyCount<V>(cache: map<string, V>, keys: seq<string>)
    requires DistinctKeys(cache, keys)
    ensures |cache| == |keys|
  {
    if keys == [] {
      assert cache == map[];
    } else {
      DropLastKey(cache, keys);
      var last := keys[|keys| - 1];
      KeyCount(cache - {last}, keys[..|keys| - 1]);
      assert cache == (cache - {last})[last := cache[last]];
    }
  }
}
