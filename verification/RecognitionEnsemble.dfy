/** The recognizer ensemble: who is asked, whose answer counts, and whose failure is tolerated. */
module RecognitionEnsemble {
  import opened Outcomes
  import opened Reals
  import opened Domain

  datatype Recognizer = Recognizer(name: string, weight: real, required: bool, enabled: bool)

  datatype ProviderFailure = ProviderFailure(provider: string, code: Error)

  /** What a recognizer does when asked about a crop. */
  type Response = Result<seq<PlateCandidate>>

  datatype EnsembleResult = EnsembleResult(
    evidence: seq<RecognitionEvidence>,
    failures: seq<ProviderFailure>,
    degraded: bool)

  predicate Consulted(r: Recognizer) {
    r.enabled && r.weight > 0.0
  }

  predicate CandidateSound(c: PlateCandidate) {
    c.text != "" && 0.0 <= c.confidence <= 1.0 && 0.0 <= c.calibratedConfidence <= 1.0
  }

  /** A candidate's confidence scaled by its recognizer's weight. */
  function Weighted(c: PlateCandidate, weight: real): PlateCandidate {
    var base := if c.calibratedConfidence > 0.0 then c.calibratedConfidence else c.confidence;
    c.(calibratedConfidence := Clamp01(base * weight))
  }

  function AllWeighted(candidates: seq<PlateCandidate>, weight: real): (r: seq<PlateCandidate>)
    ensures |r| == |candidates|
    ensures forall k | 0 <= k < |r| :: r[k] == Weighted(candidates[k], weight)
  {
    seq(|candidates|, k requires 0 <= k < |candidates| => Weighted(candidates[k], weight))
  }

  /** The evidence an answer amounts to, or the failure it counts as. */
  function Heard(r: Recognizer, response: Response, cropQuality: real): Result<RecognitionEvidence> {
    match response
    case Failure(error) => Failure(error)
    case Success(candidates) =>
      if forall c <- candidates :: CandidateSound(c) then
        Success(RecognitionEvidence(r.name, AllWeighted(candidates, r.weight), Clamp01(cropQuality)))
      else Failure(ProviderError)
  }

  method ValidateEvidence(r: Recognizer, candidates: seq<PlateCandidate>, cropQuality: real) returns (e: Result<RecognitionEvidence>)
    ensures e == Heard(r, Success(candidates), cropQuality)
  {
    hide CandidateSound, Weighted;
    var scaled: seq<PlateCandidate> := [];
    for k := 0 to |candidates|
      invariant |scaled| == k && forall i | 0 <= i < k :: scaled[i] == Weighted(candidates[i], r.weight)
      invariant forall c <- candidates[..k] :: CandidateSound(c)
    {
      assert candidates[k] in candidates;
      if !CandidateSound(candidates[k]) {
        return Failure(ProviderError);
      }
      scaled := scaled + [Weighted(candidates[k], r.weight)];
    }
    assert candidates[..|candidates|] == candidates;
    assert scaled == AllWeighted(candidates, r.weight);
    e := Success(RecognitionEvidence(r.name, scaled, Clamp01(cropQuality)));
  }

  /** The evidence of the first n recognizers, in order. */
  function Evidence(recognizers: seq<Recognizer>, responses: seq<Response>, cropQuality: real, n: nat): seq<RecognitionEvidence>
    requires n <= |recognizers| == |responses|
  {
    if n == 0 then []
    else
      var heard := Heard(recognizers[n - 1], responses[n - 1], cropQuality);
      Evidence(recognizers, responses, cropQuality, n - 1)
      + if Consulted(recognizers[n - 1]) && heard.Success? then [heard.value] else []
  }

  function Failures(recognizers: seq<Recognizer>, responses: seq<Response>, cropQuality: real, n: nat): seq<ProviderFailure>
    requires n <= |recognizers| == |responses|
  {
    if n == 0 then []
    else
      var heard := Heard(recognizers[n - 1], responses[n - 1], cropQuality);
      Failures(recognizers, responses, cropQuality, n - 1)
      + if Consulted(recognizers[n - 1]) && heard.Failure? then [ProviderFailure(recognizers[n - 1].name, heard.error)] else []
  }

  predicate Refuses(recognizers: seq<Recognizer>, responses: seq<Response>, cropQuality: real, m: nat)
    requires m < |recognizers| == |responses|
  {
    Consulted(recognizers[m]) && Heard(recognizers[m], responses[m], cropQuality).Failure?
  }

  predicate RequiredRefuses(recognizers: seq<Recognizer>, responses: seq<Response>, cropQuality: real, n: nat)
    requires n <= |recognizers| == |responses|
  {
    exists m :: 0 <= m < n && recognizers[m].required && Refuses(recognizers, responses, cropQuality, m)
  }

  /** A required recognizer's failure fails the call; any other failure is recorded and degrades the result. */
  method Recognize(recognizers: seq<Recognizer>, responses: seq<Response>, cropQuality: real, interruption: Option<Error>)
    returns (r: Result<EnsembleResult>)
    requires |recognizers| == |responses|
    ensures match interruption
            case Some(error) => r == Failure(error)
            case None =>
              if RequiredRefuses(recognizers, responses, cropQuality, |recognizers|) then r == Failure(ProviderError)
              else
                var failures := Failures(recognizers, responses, cropQuality, |recognizers|);
                r == Success(EnsembleResult(Evidence(recognizers, responses, cropQuality, |recognizers|), failures, failures != []))
  {
    hide Heard, Consulted, Refuses, RequiredRefuses, Evidence, Failures;
    if interruption.Some? {
      return Failure(interruption.value);
    }
    var result := EnsembleResult([], [], false);
    NobodyAsked(recognizers, responses, cropQuality);
    for m := 0 to |recognizers|
      invariant result.evidence == Evidence(recognizers, responses, cropQuality, m)
      invariant result.failures == Failures(recognizers, responses, cropQuality, m)
      invariant result.degraded == (result.failures != [])
      invariant !RequiredRefuses(recognizers, responses, cropQuality, m)
    {
      var recognizer := recognizers[m];
      OneMoreAsked(recognizers, responses, cropQuality, m);
      if Consulted(recognizer) {
        var heard := Ask(recognizer, responses[m], cropQuality);
        if heard.Success? {
          result := result.(evidence := result.evidence + [heard.value]);
        } else if recognizer.required {
          RequiredRefusal(recognizers, responses, cropQuality, m);
          return Failure(ProviderError);
        } else {
          result := result.(degraded := true, failures := result.failures + [ProviderFailure(recognizer.name, heard.error)]);
        }
      }
    }
    if result.evidence == [] && result.failures != [] {
      result := result.(degraded := true);
    }
    r := Success(result);
  }

  lemma NobodyAsked(recognizers: seq<Recognizer>, responses: seq<Response>, cropQuality: real)
    requires |recognizers| == |responses|
    ensures Evidence(recognizers, responses, cropQuality, 0) == [] && Failures(recognizers, responses, cropQuality, 0) == []
    ensures !RequiredRefuses(recognizers, responses, cropQuality, 0)
  {
  }

  lemma OneMoreAsked(recognizers: seq<Recognizer>, responses: seq<Response>, cropQuality: real, m: nat)
    requires m < |recognizers| == |responses|
    ensures var heard, asked := Heard(recognizers[m], responses[m], cropQuality), Consulted(recognizers[m]);
      && Evidence(recognizers, responses, cropQuality, m + 1)
         == Evidence(recognizers, responses, cropQuality, m) + (if asked && heard.Success? then [heard.value] else [])
      && Failures(recognizers, responses, cropQuality, m + 1)
         == Failures(recognizers, responses, cropQuality, m)
            + (if asked && heard.Failure? then [ProviderFailure(recognizers[m].name, heard.error)] else [])
      && (RequiredRefuses(recognizers, responses, cropQuality, m + 1) <==>
            || RequiredRefuses(recognizers, responses, cropQuality, m)
            || (recognizers[m].required && asked && heard.Failure?))
  {
    hide Heard, Consulted;
    assert Refuses(recognizers, responses, cropQuality, m)
      <==> Consulted(recognizers[m]) && Heard(recognizers[m], responses[m], cropQuality).Failure?;
  }

  lemma RequiredRefusal(recognizers: seq<Recognizer>, responses: seq<Response>, cropQuality: real, m: nat)
    requires m < |recognizers| == |responses|
    requires recognizers[m].required && Consulted(recognizers[m]) && Heard(recognizers[m], responses[m], cropQuality).Failure?
    ensures RequiredRefuses(recognizers, responses, cropQuality, |recognizers|)
  {
    hide Heard, Consulted;
    assert Refuses(recognizers, responses, cropQuality, m);
  }

  method Ask(r: Recognizer, response: Response, cropQuality: real) returns (heard: Result<RecognitionEvidence>)
    ensures heard == Heard(r, response, cropQuality)
  {
    match response {
      case Failure(error) => heard := Failure(error);
      case Success(candidates) => heard := ValidateEvidence(r, candidates, cropQuality);
    }
  }

  // ---------------------------------------------------------------- what the result stands for

  lemma LastRefusal(recognizers: seq<Recognizer>, responses: seq<Response>, cropQuality: real, m: nat)
    requires m < |recognizers| == |responses|
    ensures Refuses(recognizers, responses, cropQuality, m)
       <==> Consulted(recognizers[m]) && Heard(recognizers[m], responses[m], cropQuality).Failure?
  {
  }

  /** No failures are recorded exactly if every consulted recognizer gave a usable answer. */
  lemma {:induction false} NoFailuresMeansAllHeard(recognizers: seq<Recognizer>, responses: seq<Response>, cropQuality: real, n: nat)
    requires n <= |recognizers| == |responses|
    ensures Failures(recognizers, responses, cropQuality, n) == []
       <==> forall m | 0 <= m < n :: !Refuses(recognizers, responses, cropQuality, m)
  {
    hide Heard, Consulted, Refuses, RequiredRefuses, Failures, Evidence;
    NobodyAsked(recognizers, responses, cropQuality);
    if n > 0 {
      NoFailuresMeansAllHeard(recognizers, responses, cropQuality, n - 1);
      OneMoreAsked(recognizers, responses, cropQuality, n - 1);
      LastRefusal(recognizers, responses, cropQuality, n - 1);
    }
  }

  /** Some recognizer that was asked offered this text with this format verdict. */
  predicate Offered(recognizers: seq<Recognizer>, responses: seq<Response>, text: string, formatValid: bool)
    requires |recognizers| == |responses|
  {
    exists m, k ::
      && 0 <= m < |recognizers| && Consulted(recognizers[m]) && responses[m].Success?
      && 0 <= k < |responses[m].value|
      && responses[m].value[k].text == text && responses[m].value[k].formatValid == formatValid
  }

  predicate AllOffered(recognizers: seq<Recognizer>, responses: seq<Response>, e: RecognitionEvidence)
    requires |recognizers| == |responses|
  {
    forall c <- e.candidates :: Offered(recognizers, responses, c.text, c.formatValid)
  }

  /** Every candidate in the evidence is a recognizer's, text and format verdict unchanged. */
  lemma {:induction false} EvidenceIsOffered(recognizers: seq<Recognizer>, responses: seq<Response>, cropQuality: real, n: nat)
    requires n <= |recognizers| == |responses|
    ensures forall e <- Evidence(recognizers, responses, cropQuality, n) ::
      AllOffered(recognizers, responses, e) && e.cropQuality == Clamp01(cropQuality)
  {
    hide Consulted, CandidateSound, Clamp01;
    if n > 0 {
      EvidenceIsOffered(recognizers, responses, cropQuality, n - 1);
      var heard := Heard(recognizers[n - 1], responses[n - 1], cropQuality);
      if Consulted(recognizers[n - 1]) && heard.Success? {
        forall c | c in heard.value.candidates ensures Offered(recognizers, responses, c.text, c.formatValid) {
          var k :| 0 <= k < |heard.value.candidates| && heard.value.candidates[k] == c;
          assert c == Weighted(responses[n - 1].value[k], recognizers[n - 1].weight);
        }
      }
    }
  }
}
