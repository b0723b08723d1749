/**
 The ten-stage clean-install journal: its step functions, its validator and its recovery
 assessment (src/apx_clean_install_journal.py). Records are values; SHA-256 over the canonical
 JSON of a record is a free constructor over the record's payload.
 */
module CleanInstallJournal {
  import opened Common

  const SCHEMA_VERSION := 1

  datatype Stage =
    | Observe | Dossier | ApproveDisk | Storage | Arch
    | Boot | ApxBootstrap | Hub | Development | Separation
    | OtherStage(name: string)

  datatype ApprovalClass = StrongConfirmation | ExplicitConfirmation | OtherClass(name: string)

  datatype Action =
    | CaptureTargetIdentityAndTopology | PublishReadOnlyTargetEvidence
    | ValidateTargetAndSupplyEvidence | PublishImmutableInstallDossier
    | AuthenticateFreshStrongApproval | BindApprovalToTargetAndPlan
    | RevalidateTargetUnusedAndUnchanged | CreateGptAndEfiSystemPartition | CreateLuks2Container
    | CreateBtrfsAndFlatSubvolumes | EnableAndVerifyQgroups | VerifyCompleteStorageIdentity
    | InstallClosedDatedPackageManifest | ApplyFixedHostConfiguration | VerifyPackagesAndHostBoundary
    | InstallSystemdBootAndEntry | BuildAndVerifyInitramfs | RebootAndVerifyLockedRecoverySurface
    | VerifyApxPackageSignatureAndIdentity | InstallReviewedApxHostPackage
    | InitializeEmptyTrustedState | VerifyExecutorBrokerAndRecoveryBoundary
    | ImportAndVerifyFirstHubCandidate | AdmitFirstHubRelease
    | CreateAndTestHeadlessHub | VerifyHubRecreationAndRecovery
    | AdmitDevelopmentRoleRelease | CreateHeadlessDevelopmentEnvironment
    | VerifyToolsOnlyInDevelopment | VerifyDevelopmentStopAndZeroResidue
    | CreateSecondDisposableEnvironment | InstallPackageIndependentlyInTwoEnvironments
    | RunHostileLocalRootDenialTests | VerifyIndependentDeleteRebootAndRecovery | PublishC0C6Result
    | OtherAction(name: string)

  /** The text `stage:action`, split at its colon. */
  datatype Effect = Effect(stage: Stage, action: Action)

  const EFFECT_COUNT := 35

  /** The stage whose effects include the one at position `i` of the flat order. */
  function StageAt(i: nat): Stage
    requires i < EFFECT_COUNT
  {
    if i < 2 then Observe
    else if i < 4 then Dossier
    else if i < 6 then ApproveDisk
    else if i < 12 then Storage
    else if i < 15 then Arch
    else if i < 18 then Boot
    else if i < 22 then ApxBootstrap
    else if i < 26 then Hub
    else if i < 30 then Development
    else Separation
  }

  function ActionAt(i: nat): Action
    requires i < EFFECT_COUNT
  {
    match i
    case 0 => CaptureTargetIdentityAndTopology
    case 1 => PublishReadOnlyTargetEvidence
    case 2 => ValidateTargetAndSupplyEvidence
    case 3 => PublishImmutableInstallDossier
    case 4 => AuthenticateFreshStrongApproval
    case 5 => BindApprovalToTargetAndPlan
    case 6 => RevalidateTargetUnusedAndUnchanged
    case 7 => CreateGptAndEfiSystemPartition
    case 8 => CreateLuks2Container
    case 9 => CreateBtrfsAndFlatSubvolumes
    case 10 => EnableAndVerifyQgroups
    case 11 => VerifyCompleteStorageIdentity
    case 12 => InstallClosedDatedPackageManifest
    case 13 => ApplyFixedHostConfiguration
    case 14 => VerifyPackagesAndHostBoundary
    case 15 => InstallSystemdBootAndEntry
    case 16 => BuildAndVerifyInitramfs
    case 17 => RebootAndVerifyLockedRecoverySurface
    case 18 => VerifyApxPackageSignatureAndIdentity
    case 19 => InstallReviewedApxHostPackage
    case 20 => InitializeEmptyTrustedState
    case 21 => VerifyExecutorBrokerAndRecoveryBoundary
    case 22 => ImportAndVerifyFirstHubCandidate
    case 23 => AdmitFirstHubRelease
    case 24 => CreateAndTestHeadlessHub
    case 25 => VerifyHubRecreationAndRecovery
    case 26 => AdmitDevelopmentRoleRelease
    case 27 => CreateHeadlessDevelopmentEnvironment
    case 28 => VerifyToolsOnlyInDevelopment
    case 29 => VerifyDevelopmentStopAndZeroResidue
    case 30 => CreateSecondDisposableEnvironment
    case 31 => InstallPackageIndependentlyInTwoEnvironments
    case 32 => RunHostileLocalRootDenialTests
    case 33 => VerifyIndependentDeleteRebootAndRecovery
    case _ => PublishC0C6Result
  }

  function EffectAt(i: nat): Effect
    requires i < EFFECT_COUNT
  {
    Effect(StageAt(i), ActionAt(i))
  }

  function EffectsFrom(i: nat): (effects: seq<Effect>)
    requires i <= EFFECT_COUNT
    ensures |effects| == EFFECT_COUNT - i
    ensures forall k | 0 <= k < |effects| :: effects[k].stage == StageAt(i + k)
    decreases EFFECT_COUNT - i
  {
    if i == EFFECT_COUNT then [] else [EffectAt(i)] + EffectsFrom(i + 1)
  }

  /** All thirty-five effects in execution order. */
  const FLAT_EFFECTS: seq<Effect> := EffectsFrom(0)

  /** Position in the fixed stage order; an unknown stage has none. */
  function StageIndex(stage: Stage): Option<nat> {
    match stage
    case Observe => Some(0)
    case Dossier => Some(1)
    case ApproveDisk => Some(2)
    case Storage => Some(3)
    case Arch => Some(4)
    case Boot => Some(5)
    case ApxBootstrap => Some(6)
    case Hub => Some(7)
    case Development => Some(8)
    case Separation => Some(9)
    case OtherStage(_) => None
  }

  function RequiredApproval(stage: Stage): Option<ApprovalClass> {
    match stage
    case ApproveDisk => Some(StrongConfirmation)
    case Storage => Some(StrongConfirmation)
    case Arch => Some(ExplicitConfirmation)
    case Boot => Some(ExplicitConfirmation)
    case ApxBootstrap => Some(ExplicitConfirmation)
    case Hub => Some(ExplicitConfirmation)
    case Development => Some(ExplicitConfirmation)
    case Separation => Some(ExplicitConfirmation)
    case _ => None
  }

  datatype Status =
    | Reserved | Executing | EffectPrepared | VerifyingFinal | Complete | Incomplete
    | OtherStatus(name: string)

  datatype Digest = Text(text: string) | Sha256(payload: Payload)

  datatype StageApproval = StageApproval(stage: Stage, approvalClass: ApprovalClass, digest: Digest)

  /** Every field of a record except its own digest. */
  datatype Payload = Payload(
    schemaVersion: int,
    operationId: string,
    targetId: string,
    planDigest: Digest,
    effects: seq<Effect>,
    completed: seq<Effect>,
    evidence: seq<Digest>,
    prepared: Option<Effect>,
    approvals: seq<StageApproval>,
    status: Status,
    failureReason: Option<seq<Glyph>>,
    finalEvidence: Option<Digest>,
    sequence: int,
    previous: Option<Digest>)

  datatype Record = Record(body: Payload, digest: Digest)

  /** What the journal reads of a clean-install dossier. */
  datatype InstallDossier = InstallDossier(
    targetId: string, planDigest: Digest, ready: bool, separateStrongApprovalRequired: bool)

  predicate WellFormed(d: Digest) {
    d.Sha256? || IsHexDigest(d.text)
  }

  predicate OptionalWellFormed(d: Option<Digest>) {
    d.Some? ==> WellFormed(d.value)
  }

  function WithDigest(body: Payload): Record {
    Record(body, Sha256(body))
  }

  // ---------------------------------------------------------------- validation

  /** No stage twice, and stages in the fixed order. */
  predicate ApprovalsInOrder(approvals: seq<StageApproval>) {
    && (forall i | 0 <= i < |approvals| :: StageIndex(approvals[i].stage).Some?)
    && (forall i, j | 0 <= i < j < |approvals| ::
          && approvals[i].stage != approvals[j].stage
          && StageIndex(approvals[i].stage).value <= StageIndex(approvals[j].stage).value)
  }

  function CompletedStages(completed: seq<Effect>): set<Stage> {
    set e | e in completed :: e.stage
  }

  function AllowedApprovalStages(body: Payload): set<Stage> {
    CompletedStages(body.completed)
    + if |body.completed| < |body.effects| then {body.effects[|body.completed|].stage} else {}
  }

  function ExpectedStatus(body: Payload): Status {
    if body.failureReason.Some? then Incomplete
    else if body.finalEvidence.Some? then Complete
    else if body.prepared.Some? then EffectPrepared
    else if |body.completed| == |body.effects| then VerifyingFinal
    else if body.completed == [] then Reserved
    else Executing
  }

  predicate ValidPayload(body: Payload) {
    && body.schemaVersion == SCHEMA_VERSION
    && IsTaggedHex("install-", body.operationId)
    && IsTaggedHex("target-", body.targetId)
    && WellFormed(body.planDigest)
    && body.effects == FLAT_EFFECTS
    && body.completed <= body.effects
    && |body.evidence| == |body.completed|
    && (forall i | 0 <= i < |body.evidence| :: WellFormed(body.evidence[i]))
    && OptionalWellFormed(body.previous)
    && OptionalWellFormed(body.finalEvidence)
    && body.sequence >= 0
    && ApprovalsInOrder(body.approvals)
    && (forall i | 0 <= i < |body.approvals| ::
          && RequiredApproval(body.approvals[i].stage) == Some(body.approvals[i].approvalClass)
          && WellFormed(body.approvals[i].digest)
          && body.approvals[i].stage in AllowedApprovalStages(body))
    && (body.prepared.Some? ==>
          |body.completed| < |body.effects| && body.prepared.value == body.effects[|body.completed|])
    && body.status == ExpectedStatus(body)
    && (body.status == Complete ==> body.completed == body.effects)
    && (body.failureReason.Some? ==> 0 < |body.failureReason.value| <= MAX_FAILURE_REASON)
  }

  /** `validate_install_record` does not raise. */
  predicate Valid(r: Record) {
    ValidPayload(r.body) && WellFormed(r.digest) && r.digest == Sha256(r.body)
  }

  // ---------------------------------------------------------------- steps

  function Create(dossier: InstallDossier, operationId: string): Result<Record> {
    if !dossier.ready || !dossier.separateStrongApprovalRequired then Failure
    else if !WellFormed(dossier.planDigest) || !IsTaggedHex("install-", operationId) then Failure
    else
      var record := WithDigest(Payload(
        SCHEMA_VERSION, operationId, dossier.targetId, dossier.planDigest, FLAT_EFFECTS,
        [], [], None, [], Reserved, None, None, 0, None));
      if Valid(record) then Success(record) else Failure
  }

  /** The successor of `r` whose other fields are those of `changed`. */
  function Next(r: Record, changed: Payload): Result<Record> {
    var updated := WithDigest(changed.(sequence := r.body.sequence + 1, previous := Some(r.digest)));
    if Valid(updated) then Success(updated) else Failure
  }

  function CurrentStage(r: Record): Option<Stage>
    requires Valid(r)
  {
    var index := |r.body.completed|;
    if index >= |r.body.effects| then None else Some(r.body.effects[index].stage)
  }

  predicate ApprovalBound(r: Record, stage: Stage) {
    exists i | 0 <= i < |r.body.approvals| :: r.body.approvals[i].stage == stage
  }

  function BindStageApproval(r: Record, stage: Stage, approvalClass: ApprovalClass, digest: Digest): Result<Record> {
    if !Valid(r) then Failure
    else if r.body.prepared.Some? || r.body.status in {Complete, Incomplete} then Failure
    else if CurrentStage(r) != Some(stage) then Failure
    else if RequiredApproval(stage) != Some(approvalClass) then Failure
    else if !WellFormed(digest) || ApprovalBound(r, stage) then Failure
    else Next(r, r.body.(approvals := r.body.approvals + [StageApproval(stage, approvalClass, digest)]))
  }

  function PrepareNextEffect(r: Record): Result<Record> {
    if !Valid(r) then Failure
    else if r.body.status in {Complete, Incomplete, VerifyingFinal} || r.body.prepared.Some? then Failure
    else
      var index := |r.body.completed|;
      if index >= |r.body.effects| then Failure
      else
        var stage := CurrentStage(r).value;
        if RequiredApproval(stage).Some?
           && !exists i | 0 <= i < |r.body.approvals| ::
                 && r.body.approvals[i].stage == stage
                 && r.body.approvals[i].approvalClass == RequiredApproval(stage).value
        then Failure
        else Next(r, r.body.(prepared := Some(r.body.effects[index]), status := EffectPrepared))
  }

  function RecordEffectSuccess(r: Record, evidence: Digest): Result<Record> {
    if !Valid(r) then Failure
    else if r.body.status != EffectPrepared || r.body.prepared.None? then Failure
    else if !WellFormed(evidence) then Failure
    else
      var completed := r.body.completed + [r.body.prepared.value];
      var status := if |completed| == |r.body.effects| then VerifyingFinal else Executing;
      Next(r, r.body.(completed := completed, evidence := r.body.evidence + [evidence],
                      prepared := None, status := status))
  }

  function CompleteInstall(r: Record, finalEvidence: Digest): Result<Record> {
    if !Valid(r) then Failure
    else if r.body.status != VerifyingFinal || r.body.completed != r.body.effects then Failure
    else if !WellFormed(finalEvidence) then Failure
    else Next(r, r.body.(status := Complete, finalEvidence := Some(finalEvidence)))
  }

  function MarkIncomplete(r: Record, reason: seq<Glyph>): Result<Record> {
    if !Valid(r) then Failure
    else if r.body.status in {Complete, Incomplete} then Failure
    else if !AcceptableReason(reason) then Failure
    else Next(r, r.body.(status := Incomplete, failureReason := Some(reason)))
  }

  // ---------------------------------------------------------------- recovery

  datatype RecoveryClass =
    | RecoveryComplete | PreserveEffectOutcomeUncertain | NoEffect
    | RestartReadOnlyFoundation | DestructiveRecoveryRequired

  datatype Recovery = Recovery(
    classification: RecoveryClass, automaticDeletionAllowed: bool, continuationAllowed: bool)

  function AssessRecovery(r: Record): Result<Recovery> {
    if !Valid(r) then Failure
    else if r.body.status == Complete then Success(Recovery(RecoveryComplete, false, false))
    else if r.body.prepared.Some? then Success(Recovery(PreserveEffectOutcomeUncertain, false, false))
    else if r.body.completed == [] then Success(Recovery(NoEffect, false, false))
    else if forall e | e in r.body.completed :: e.stage != Storage then
      Success(Recovery(RestartReadOnlyFoundation, false, true))
    else Success(Recovery(DestructiveRecoveryRequired, false, false))
  }

  // ---------------------------------------------------------------- steps as actions

  datatype Step =
    | Bind(stage: Stage, approvalClass: ApprovalClass, approvalDigest: Digest)
    | Prepare
    | Succeed(evidence: Digest)
    | Finish(finalEvidence: Digest)
    | Fail(reason: seq<Glyph>)

  function Apply(r: Record, step: Step): Result<Record> {
    match step
    case Bind(stage, approvalClass, digest) => BindStageApproval(r, stage, approvalClass, digest)
    case Prepare => PrepareNextEffect(r)
    case Succeed(evidence) => RecordEffectSuccess(r, evidence)
    case Finish(finalEvidence) => CompleteInstall(r, finalEvidence)
    case Fail(reason) => MarkIncomplete(r, reason)
  }

  /** Apply the steps in turn; the first refusal ends the run. */
  function Run(r: Record, steps: seq<Step>): Result<Record>
    decreases |steps|
  {
    if steps == [] then Success(r)
    else
      var next :- Apply(r, steps[0]);
      Run(next, steps[1..])
  }

  ghost predicate LegalStep(current: Record, candidate: Record) {
    exists step: Step :: Apply(current, step) == Success(candidate)
  }
}
