/** What the recognition pipeline passes around. */
module Domain {
  import opened Geometry

  datatype Status = Accepted | Review | Rejected

  datatype Reason =
    | AcceptedConsensus | FatalProviderFailure | DegradedProviderSet | DetectorConfidenceBelowMinimum
    | GeometryBelowMinimum | CropQualityBelowMinimum | NoValidCandidate | CandidateConfidenceBelowReview
    | CandidateConfidenceBelowAccept | ConflictingStrongCandidates

  datatype Keypoint = Keypoint(x: real, y: real, confidence: real)

  datatype Detection = Detection(box: BoundingBox, quadrilateral: seq<Keypoint>, confidence: real, geometryScore: real)

  datatype PlateCandidate = PlateCandidate(text: string, confidence: real, calibratedConfidence: real, formatValid: bool)

  datatype RecognitionEvidence = RecognitionEvidence(source: string, candidates: seq<PlateCandidate>, cropQuality: real)

  datatype Recognition = Recognition(
    status: Status,
    plate: string,
    confidence: real,
    detection: Detection,
    cropQuality: real,
    evidence: seq<RecognitionEvidence>,
    alternatives: seq<PlateCandidate>,
    reasons: seq<Reason>,
    degraded: bool)
}
