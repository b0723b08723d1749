/**
 The release-promotion journal (src/apx_release_promotion.py): ten ordered steps, an import approval
 fixed at creation and a separate admission approval bound between the eighth and ninth step.
 */
module ReleasePromotion {
  import opened Common

  const SCHEMA_VERSION := 1
  const IMPORT_STEP_COUNT := 4
  const VERIFICATION_STEP_COUNT := 8

  datatype PromotionStep =
    | ReserveQuarantineIdentity | CopyBoundedCandidateBytes | VerifyCopiedCandidateIdentity
    | PublishQuarantineObject | VerifyCandidateSchemaAndArchive | VerifyProvenanceAndSignatures
    | VerifyPackagesRootAndSanitization | PublishVerificationEvidence
    | ReserveCatalogueReleaseIdentity | PublishImmutableCatalogueRelease
    | OtherStep(name: string)

  const PROMOTION_STEPS: seq<PromotionStep> := [
    ReserveQuarantineIdentity, CopyBoundedCandidateBytes, VerifyCopiedCandidateIdentity,
    PublishQuarantineObject, VerifyCandidateSchemaAndArchive, VerifyProvenanceAndSignatures,
    VerifyPackagesRootAndSanitization, PublishVerificationEvidence,
    ReserveCatalogueReleaseIdentity, PublishImmutableCatalogueRelease
  ]

  datatype Status =
    | Reserved | EffectPrepared | Importing | Quarantined | Verifying
    | VerifiedAwaitingAdmission | Admitting | Admitted | Incomplete
    | OtherStatus(name: string)

  /** SHA-256 is free over what the module hashes: a record, a list of digests, a release draft. */
  datatype Digest =
    | Text(text: string)
    | OfRecord(payload: Payload)
    | OfList(digests: seq<Digest>)
    | OfRelease(draft: CatalogueRelease)

  /** Every field of a record except its own digest. */
  datatype Payload = Payload(
    schemaVersion: int,
    operationId: string,
    candidateId: string,
    candidateDigest: Digest,
    importPlanDigest: Digest,
    artifactSha256: Digest,
    importApproval: Digest,
    admissionApproval: Option<Digest>,
    steps: seq<PromotionStep>,
    completed: seq<PromotionStep>,
    evidence: seq<Digest>,
    prepared: Option<PromotionStep>,
    status: Status,
    failureReason: Option<seq<Glyph>>,
    sequence: int,
    previous: Option<Digest>)

  datatype Record = Record(body: Payload, digest: Digest)

  /** The text `release-` followed by a candidate digest, or any other text. */
  datatype ReleaseId = ReleaseOf(candidateDigest: Digest) | OtherRelease(text: string)

  datatype CatalogueRelease = CatalogueRelease(
    schemaVersion: int,
    releaseId: ReleaseId,
    candidateId: string,
    candidateDigest: Digest,
    verificationEvidence: Digest,
    promotionOperationId: string,
    promotionRecordDigest: Digest,
    catalogueDigest: Digest)

  /** What promotion reads of an import plan. */
  datatype ImportPlan = ImportPlan(
    candidateId: string, candidateDigest: Digest, planDigest: Digest, artifactSha256: Digest)

  predicate WellFormed(d: Digest) {
    !d.Text? || IsHexDigest(d.text)
  }

  predicate OptionalWellFormed(d: Option<Digest>) {
    d.Some? ==> WellFormed(d.value)
  }

  function StatusFor(completed: nat, prepared: bool): Status {
    if prepared then EffectPrepared
    else if completed == 0 then Reserved
    else if completed < IMPORT_STEP_COUNT then Importing
    else if completed == IMPORT_STEP_COUNT then Quarantined
    else if completed < VERIFICATION_STEP_COUNT then Verifying
    else if completed == VERIFICATION_STEP_COUNT then VerifiedAwaitingAdmission
    else if completed < |PROMOTION_STEPS| then Admitting
    else Admitted
  }

  predicate ValidPayload(body: Payload) {
    && body.schemaVersion == SCHEMA_VERSION
    && IsTaggedHex("promotion-", body.operationId)
    && body.steps == PROMOTION_STEPS
    && body.completed <= body.steps
    && |body.evidence| == |body.completed|
    && WellFormed(body.candidateDigest) && WellFormed(body.importPlanDigest)
    && WellFormed(body.artifactSha256) && WellFormed(body.importApproval)
    && (forall i | 0 <= i < |body.evidence| :: WellFormed(body.evidence[i]))
    && OptionalWellFormed(body.admissionApproval)
    && OptionalWellFormed(body.previous)
    && body.sequence >= 0
    && body.status == (if body.failureReason.Some? then Incomplete
                       else StatusFor(|body.completed|, body.prepared.Some?))
    && (body.prepared.Some? ==>
          |body.completed| < |body.steps| && body.prepared.value == body.steps[|body.completed|])
    && (|body.completed| > VERIFICATION_STEP_COUNT ==> body.admissionApproval.Some?)
    && (body.admissionApproval.Some? ==> |body.completed| >= VERIFICATION_STEP_COUNT)
    && (body.failureReason.Some? ==> 0 < |body.failureReason.value| <= MAX_FAILURE_REASON)
  }

  /** `validate_promotion_record` does not raise. */
  predicate Valid(r: Record) {
    ValidPayload(r.body) && WellFormed(r.digest) && r.digest == OfRecord(r.body)
  }

  function WithDigest(body: Payload): Record {
    Record(body, OfRecord(body))
  }

  function Create(plan: ImportPlan, operationId: string, importApproval: Digest): Result<Record> {
    if !IsTaggedHex("promotion-", operationId) || !WellFormed(importApproval) then Failure
    else
      var record := WithDigest(Payload(
        SCHEMA_VERSION, operationId, plan.candidateId, plan.candidateDigest, plan.planDigest,
        plan.artifactSha256, importApproval, None, PROMOTION_STEPS, [], [], None, Reserved, None, 0, None));
      if Valid(record) then Success(record) else Failure
  }

  function Next(r: Record, changed: Payload): Result<Record> {
    var updated := WithDigest(changed.(sequence := r.body.sequence + 1, previous := Some(r.digest)));
    if Valid(updated) then Success(updated) else Failure
  }

  function PrepareNextStep(r: Record): Result<Record> {
    if !Valid(r) then Failure
    else if r.body.status in {Admitted, Incomplete} || r.body.prepared.Some? then Failure
    else
      var index := |r.body.completed|;
      if index >= |r.body.steps| then Failure
      else if index >= VERIFICATION_STEP_COUNT && r.body.admissionApproval.None? then Failure
      else Next(r, r.body.(prepared := Some(r.body.steps[index]), status := EffectPrepared))
  }

  function RecordStepSuccess(r: Record, evidence: Digest): Result<Record> {
    if !Valid(r) then Failure
    else if r.body.status != EffectPrepared || r.body.prepared.None? then Failure
    else if !WellFormed(evidence) then Failure
    else
      var completed := r.body.completed + [r.body.prepared.value];
      Next(r, r.body.(completed := completed, evidence := r.body.evidence + [evidence],
                      prepared := None, status := StatusFor(|completed|, false)))
  }

  function BindAdmissionApproval(r: Record, approval: Digest): Result<Record> {
    if !Valid(r) then Failure
    else if r.body.status != VerifiedAwaitingAdmission || r.body.prepared.Some? then Failure
    else if r.body.admissionApproval.Some? || !WellFormed(approval) then Failure
    else Next(r, r.body.(admissionApproval := Some(approval)))
  }

  function MarkIncomplete(r: Record, reason: seq<Glyph>): Result<Record> {
    if !Valid(r) then Failure
    else if r.body.status in {Admitted, Incomplete} then Failure
    else if !AcceptableReason(reason) then Failure
    else Next(r, r.body.(status := Incomplete, failureReason := Some(reason)))
  }

  datatype RecoveryClass =
    | RecoveryComplete | PreserveEffectOutcomeUncertain | NoEffect
    | PreservePartialImport | PreserveQuarantineReview | VerifiedAwaitingNewAdmissionApproval

  datatype Recovery = Recovery(
    classification: RecoveryClass, continuationAllowed: bool, automaticDeletionAllowed: bool)

  function AssessRecovery(r: Record): Result<Recovery> {
    if !Valid(r) then Failure
    else if r.body.status == Admitted then Success(Recovery(RecoveryComplete, false, false))
    else if r.body.prepared.Some? then Success(Recovery(PreserveEffectOutcomeUncertain, false, false))
    else if |r.body.completed| == 0 then Success(Recovery(NoEffect, false, false))
    else if |r.body.completed| < IMPORT_STEP_COUNT then Success(Recovery(PreservePartialImport, false, false))
    else if |r.body.completed| < VERIFICATION_STEP_COUNT then
      Success(Recovery(PreserveQuarantineReview, true, false))
    else Success(Recovery(VerifiedAwaitingNewAdmissionApproval, false, false))
  }

  function BuildCatalogueRelease(r: Record): Result<CatalogueRelease> {
    if !Valid(r) then Failure
    else if r.body.status != Admitted || |r.body.evidence| != |r.body.steps| then Failure
    else
      var verification := OfList(r.body.evidence[IMPORT_STEP_COUNT..VERIFICATION_STEP_COUNT]);
      var draft := CatalogueRelease(
        SCHEMA_VERSION, ReleaseOf(r.body.candidateDigest), r.body.candidateId, r.body.candidateDigest,
        verification, r.body.operationId, r.digest, Text(""));
      Success(draft.(catalogueDigest := OfRelease(draft)))
  }

  datatype Action =
    | Prepare
    | Succeed(evidence: Digest)
    | Admit(approval: Digest)
    | Fail(reason: seq<Glyph>)

  function Apply(r: Record, action: Action): Result<Record> {
    match action
    case Prepare => PrepareNextStep(r)
    case Succeed(evidence) => RecordStepSuccess(r, evidence)
    case Admit(approval) => BindAdmissionApproval(r, approval)
    case Fail(reason) => MarkIncomplete(r, reason)
  }

  function Run(r: Record, actions: seq<Action>): Result<Record>
    decreases |actions|
  {
    if actions == [] then Success(r)
    else
      var next :- Apply(r, actions[0]);
      Run(next, actions[1..])
  }

  ghost predicate LegalStep(current: Record, candidate: Record) {
    exists action: Action :: Apply(current, action) == Success(candidate)
  }
}
