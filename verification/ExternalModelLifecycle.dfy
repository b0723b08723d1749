/**
 The two-phase journal of an external model store (src/apx_external_model_lifecycle.py): six attach
 steps, an optional activation, a detach approval and six detach steps.
 */
module ExternalModelLifecycle {
  import opened Common

  const SCHEMA_VERSION := 1
  const PROFILE := "development-external-model-store-v1"

  datatype LifecycleStep =
    | ReverifyExactDeviceAndStoppedDevelopment | UnlockExactReviewedLuks2Volume
    | MountExactFilesystemAtPrivateHostPath | BindOnlyModelStoreIntoDevelopment
    | VerifyHubAndOtherEnvironmentDenial | PublishGenerationBoundAttachmentState
    | StopModelClientAndService | VerifyNoOpenModelStoreHandle | VerifyDevelopmentRuntimeStopped
    | RemoveExactDevelopmentBind | UnmountPrivateFilesystemAndCloseLuks2
    | VerifyAttachmentAbsenceAndPublishDetachedState
    | OtherStep(name: string)

  const ATTACH_STEPS: seq<LifecycleStep> := [
    ReverifyExactDeviceAndStoppedDevelopment, UnlockExactReviewedLuks2Volume,
    MountExactFilesystemAtPrivateHostPath, BindOnlyModelStoreIntoDevelopment,
    VerifyHubAndOtherEnvironmentDenial, PublishGenerationBoundAttachmentState
  ]

  const DETACH_STEPS: seq<LifecycleStep> := [
    StopModelClientAndService, VerifyNoOpenModelStoreHandle, VerifyDevelopmentRuntimeStopped,
    RemoveExactDevelopmentBind, UnmountPrivateFilesystemAndCloseLuks2,
    VerifyAttachmentAbsenceAndPublishDetachedState
  ]

  datatype Status =
    | AttachPlanned | Attaching | EffectPrepared | AttachedStopped | Active
    | DetachPlanned | Detaching | Detached | PreservedUncertain
    | OtherStatus(name: string)

  datatype Digest = Text(text: string) | OfRecord(payload: Payload)

  datatype Payload = Payload(
    schemaVersion: int,
    profile: string,
    operationId: string,
    attachmentId: string,
    generation: string,
    previewDigest: Digest,
    attachSteps: seq<LifecycleStep>,
    completedAttach: seq<LifecycleStep>,
    attachEvidence: seq<Digest>,
    activationEvidence: Option<Digest>,
    detachApproval: Option<Digest>,
    detachSteps: seq<LifecycleStep>,
    completedDetach: seq<LifecycleStep>,
    detachEvidence: seq<Digest>,
    prepared: Option<LifecycleStep>,
    status: Status,
    failureReason: Option<seq<Glyph>>,
    sequence: int,
    previous: Option<Digest>)

  datatype Record = Record(body: Payload, digest: Digest)

  /** What the lifecycle reads of an attachment preview. */
  datatype AttachmentPreview = AttachmentPreview(
    schemaVersion: int, profile: string, previewOnly: bool, operationId: string, attachmentId: string,
    generation: string, effects: seq<LifecycleStep>, previewDigest: Digest, separateApprovalRequired: bool)

  predicate WellFormed(d: Digest) {
    d.OfRecord? || IsHexDigest(d.text)
  }

  predicate OptionalWellFormed(d: Option<Digest>) {
    d.Some? ==> WellFormed(d.value)
  }

  /** A version 1 to 5 UUID in lower-case text. */
  predicate IsGeneration(s: string) {
    && |s| == 36
    && (forall i | 0 <= i < 36 ::
          if i in {8, 13, 18, 23} then s[i] == '-' else '0' <= s[i] <= '9' || 'a' <= s[i] <= 'f')
    && '1' <= s[14] <= '5'
    && s[19] in {'8', '9', 'a', 'b'}
  }

  // The status and prepared step the validator expects outside the uncertain state.
  predicate AttachPhaseConsistent(body: Payload) {
    && body.completedDetach == [] && body.detachEvidence == []
    && if body.prepared.Some? then
         && |body.completedAttach| < |ATTACH_STEPS|
         && body.prepared.value == ATTACH_STEPS[|body.completedAttach|]
         && body.status == EffectPrepared
       else if body.activationEvidence.Some? then
         body.status == Active && body.completedAttach == ATTACH_STEPS
       else if body.completedAttach == ATTACH_STEPS then body.status == AttachedStopped
       else if body.completedAttach != [] then body.status == Attaching
       else body.status == AttachPlanned
  }

  predicate DetachPhaseConsistent(body: Payload) {
    && body.completedAttach == ATTACH_STEPS
    && if body.prepared.Some? then
         && |body.completedDetach| < |DETACH_STEPS|
         && body.prepared.value == DETACH_STEPS[|body.completedDetach|]
         && body.status == EffectPrepared
       else if body.completedDetach == DETACH_STEPS then body.status == Detached
       else if body.completedDetach != [] then body.status == Detaching
       else body.status == DetachPlanned
  }

  predicate ValidPayload(body: Payload) {
    && body.schemaVersion == SCHEMA_VERSION
    && body.profile == PROFILE
    && IsTaggedHex("operation-", body.operationId)
    && IsTaggedHex("attachment-", body.attachmentId)
    && IsGeneration(body.generation)
    && body.attachSteps == ATTACH_STEPS && body.detachSteps == DETACH_STEPS
    && body.completedAttach <= ATTACH_STEPS && body.completedDetach <= DETACH_STEPS
    && |body.attachEvidence| == |body.completedAttach|
    && |body.detachEvidence| == |body.completedDetach|
    && WellFormed(body.previewDigest)
    && (forall i | 0 <= i < |body.attachEvidence| :: WellFormed(body.attachEvidence[i]))
    && (forall i | 0 <= i < |body.detachEvidence| :: WellFormed(body.detachEvidence[i]))
    && OptionalWellFormed(body.activationEvidence)
    && OptionalWellFormed(body.detachApproval)
    && OptionalWellFormed(body.previous)
    && !body.status.OtherStatus?
    && body.sequence >= 0
    && (body.sequence == 0 <==> body.previous.None?)
    && (body.status == Active ==> body.completedAttach == ATTACH_STEPS && body.activationEvidence.Some?)
    && (body.completedDetach != [] ==> body.detachApproval.Some?)
    && (body.status == Detached ==> body.completedDetach == DETACH_STEPS)
    && (body.failureReason.Some? ==> body.status == PreservedUncertain)
    && (body.status != PreservedUncertain ==>
          if body.detachApproval.None? then AttachPhaseConsistent(body) else DetachPhaseConsistent(body))
  }

  /** `validate_lifecycle` does not raise. */
  predicate Valid(r: Record) {
    ValidPayload(r.body) && WellFormed(r.digest) && r.digest == OfRecord(r.body)
  }

  function WithDigest(body: Payload): Record {
    Record(body, OfRecord(body))
  }

  function Create(preview: AttachmentPreview): Result<Record> {
    if preview.schemaVersion != SCHEMA_VERSION || preview.profile != PROFILE || !preview.previewOnly
       || preview.effects != ATTACH_STEPS || !preview.separateApprovalRequired then Failure
    else if !IsTaggedHex("operation-", preview.operationId) || !WellFormed(preview.previewDigest) then Failure
    else
      var record := WithDigest(Payload(
        SCHEMA_VERSION, PROFILE, preview.operationId, preview.attachmentId, preview.generation,
        preview.previewDigest, ATTACH_STEPS, [], [], None, None, DETACH_STEPS, [], [], None,
        AttachPlanned, None, 0, None));
      if Valid(record) then Success(record) else Failure
  }

  function Next(r: Record, changed: Payload): Result<Record> {
    var updated := WithDigest(changed.(sequence := r.body.sequence + 1, previous := Some(r.digest)));
    if Valid(updated) then Success(updated) else Failure
  }

  function PrepareNextStep(r: Record): Result<Record> {
    if !Valid(r) then Failure
    else if r.body.prepared.Some? || r.body.status in {AttachedStopped, Active, Detached, PreservedUncertain}
    then Failure
    else if r.body.status !in {AttachPlanned, Attaching, DetachPlanned, Detaching} then Failure
    else
      var attaching := r.body.status in {AttachPlanned, Attaching};
      var steps := if attaching then r.body.attachSteps else r.body.detachSteps;
      var completed := if attaching then r.body.completedAttach else r.body.completedDetach;
      if |completed| >= |steps| then Failure
      else Next(r, r.body.(prepared := Some(steps[|completed|]), status := EffectPrepared))
  }

  function RecordStepSuccess(r: Record, evidence: Digest): Result<Record> {
    if !Valid(r) then Failure
    else if r.body.status != EffectPrepared || r.body.prepared.None? || !WellFormed(evidence) then Failure
    else
      var step := r.body.prepared.value;
      if step in r.body.attachSteps then
        if r.body.detachApproval.Some? || r.body.completedDetach != [] then Failure
        else
          var completed := r.body.completedAttach + [step];
          Next(r, r.body.(completedAttach := completed, attachEvidence := r.body.attachEvidence + [evidence],
                          prepared := None,
                          status := if completed == r.body.attachSteps then AttachedStopped else Attaching))
      else if step in r.body.detachSteps then
        if r.body.detachApproval.None? then Failure
        else
          var completed := r.body.completedDetach + [step];
          Next(r, r.body.(completedDetach := completed, detachEvidence := r.body.detachEvidence + [evidence],
                          prepared := None,
                          status := if completed == r.body.detachSteps then Detached else Detaching))
      else Failure
  }

  function RecordActivation(r: Record, evidence: Digest): Result<Record> {
    if !Valid(r) then Failure
    else if r.body.status != AttachedStopped || r.body.prepared.Some? || !WellFormed(evidence) then Failure
    else Next(r, r.body.(activationEvidence := Some(evidence), status := Active))
  }

  function BeginDetach(r: Record, approval: Digest): Result<Record> {
    if !Valid(r) then Failure
    else if r.body.status !in {Active, AttachedStopped} || r.body.prepared.Some? || !WellFormed(approval) then Failure
    else Next(r, r.body.(detachApproval := Some(approval), status := DetachPlanned))
  }

  function MarkUncertain(r: Record, reason: seq<Glyph>): Result<Record> {
    if !Valid(r) then Failure
    else if r.body.status in {Detached, PreservedUncertain} || !AcceptableReason(reason) then Failure
    else Next(r, r.body.(status := PreservedUncertain, failureReason := Some(reason)))
  }

  datatype RecoveryClass =
    | CompleteDetached | ActiveRequiresNormalStop | AttachedAndStopped | PreserveEffectOutcomeUncertain
    | PreserveAndInspect | PreservePartialDetach | PreservePartialAttach | NoEffectRecorded

  datatype Recovery = Recovery(
    classification: RecoveryClass, continuationAllowed: bool,
    automaticCleanupAllowed: bool, developmentActivationAllowed: bool)

  function AssessRecovery(r: Record): Result<Recovery> {
    if !Valid(r) then Failure
    else if r.body.status == Detached then Success(Recovery(CompleteDetached, false, false, true))
    else if r.body.status == Active then Success(Recovery(ActiveRequiresNormalStop, true, false, true))
    else if r.body.status == AttachedStopped then Success(Recovery(AttachedAndStopped, true, false, true))
    else if r.body.prepared.Some? then Success(Recovery(PreserveEffectOutcomeUncertain, false, false, false))
    else if r.body.status == PreservedUncertain then Success(Recovery(PreserveAndInspect, false, false, false))
    else if r.body.completedDetach != [] then Success(Recovery(PreservePartialDetach, false, false, false))
    else if r.body.completedAttach != [] then Success(Recovery(PreservePartialAttach, false, false, false))
    else Success(Recovery(NoEffectRecorded, false, false, false))
  }

  datatype Action =
    | Prepare
    | Succeed(evidence: Digest)
    | Activate(evidence: Digest)
    | Detach(approval: Digest)
    | Doubt(reason: seq<Glyph>)

  function Apply(r: Record, action: Action): Result<Record> {
    match action
    case Prepare => PrepareNextStep(r)
    case Succeed(evidence) => RecordStepSuccess(r, evidence)
    case Activate(evidence) => RecordActivation(r, evidence)
    case Detach(approval) => BeginDetach(r, approval)
    case Doubt(reason) => MarkUncertain(r, reason)
  }

  function Run(r: Record, actions: seq<Action>): Result<Record>
    decreases |actions|
  {
    if actions == [] then Success(r)
    else
      var next :- Apply(r, actions[0]);
      Run(next, actions[1..])
  }
}
