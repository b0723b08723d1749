/**
 What every run of the promotion steps keeps. The validator admits a prepared admission step with no
 admission approval; runs never reach one.
 */
module ReleasePromotionRuns {
  import opened Common
  import opened ReleasePromotion

  predicate UnapprovedAdmissionPrepared(r: Record) {
    && r.body.prepared.Some? && |r.body.completed| == VERIFICATION_STEP_COUNT && r.body.admissionApproval.None?
  }

  /** Steps taken, read off the record. */
  function StepsTaken(body: Payload): nat {
    2 * |body.completed|
    + (if body.prepared.Some? then 1 else 0)
    + (if body.admissionApproval.Some? then 1 else 0)
    + (if body.failureReason.Some? then 1 else 0)
  }

  ghost predicate Reached(r: Record) {
    && Valid(r)
    && !UnapprovedAdmissionPrepared(r)
    && r.body.sequence == StepsTaken(r.body)
    && (r.body.failureReason.Some? ==> |r.body.completed| < |PROMOTION_STEPS|)
  }

  lemma CreateIsReached(plan: ImportPlan, operationId: string, importApproval: Digest)
    requires Create(plan, operationId, importApproval).Success?
    ensures Reached(Create(plan, operationId, importApproval).value)
  {
  }

  /** What each action writes; every field not named keeps its value. */
  lemma SuccessorShape(r: Record, action: Action)
    requires Apply(r, action).Success?
    ensures Valid(r) && Valid(Apply(r, action).value)
    ensures r.body.failureReason.None? && r.body.status !in {Admitted, Incomplete}
    ensures var next := Apply(r, action).value.body;
            var chained := r.body.(sequence := r.body.sequence + 1, previous := Some(r.digest));
            match action
            case Prepare =>
              && r.body.prepared.None?
              && (|r.body.completed| >= VERIFICATION_STEP_COUNT ==> r.body.admissionApproval.Some?)
              && next == chained.(prepared := Some(PROMOTION_STEPS[|r.body.completed|]), status := EffectPrepared)
            case Succeed(evidence) =>
              && r.body.prepared.Some? && WellFormed(evidence)
              && next == chained.(completed := PROMOTION_STEPS[..|r.body.completed| + 1],
                                  evidence := r.body.evidence + [evidence], prepared := None, status := next.status)
            case Admit(approval) =>
              && r.body.admissionApproval.None? && r.body.status == VerifiedAwaitingAdmission
              && r.body.prepared.None? && |r.body.completed| == VERIFICATION_STEP_COUNT
              && next == chained.(admissionApproval := Some(approval))
            case Fail(reason) =>
              && AcceptableReason(reason)
              && next == chained.(status := Incomplete, failureReason := Some(reason))
  {
  }

  lemma StepKeepsReached(r: Record, action: Action)
    requires Reached(r) && Apply(r, action).Success?
    ensures Reached(Apply(r, action).value)
    ensures Apply(r, action).value.body.sequence == r.body.sequence + 1
    ensures Apply(r, action).value.body.importApproval == r.body.importApproval
  {
    hide Apply;
    SuccessorShape(r, action);
  }

  lemma {:induction false} RunKeepsReached(r: Record, actions: seq<Action>)
    requires Reached(r) && Run(r, actions).Success?
    ensures Reached(Run(r, actions).value)
    ensures Run(r, actions).value.body.sequence == r.body.sequence + |actions|
    ensures Run(r, actions).value.body.importApproval == r.body.importApproval
    decreases |actions|
  {
    hide Apply;
    if actions == [] {
    } else {
      StepKeepsReached(r, actions[0]);
      RunKeepsReached(Apply(r, actions[0]).value, actions[1..]);
    }
  }

  ghost predicate AdmissionStepBegun(r: Record) {
    || r.body.prepared == Some(ReserveCatalogueReleaseIdentity)
    || ReserveCatalogueReleaseIdentity in r.body.completed
  }

  lemma ReachedRecordIsSafe(r: Record)
    requires Reached(r)
    ensures AdmissionStepBegun(r) ==> r.body.admissionApproval.Some?
    ensures r.body.admissionApproval.Some? ==> PublishVerificationEvidence in r.body.completed
    ensures r.body.sequence == StepsTaken(r.body) <= 21
    ensures r.body.status == Admitted
            ==> r.body.completed == PROMOTION_STEPS && |r.body.evidence| == 10
                && r.body.admissionApproval.Some? && r.body.sequence == 21
  {
    if |r.body.completed| > 7 {
      assert r.body.completed[7] == PublishVerificationEvidence;
    }
  }

  /**
   In every run: no admission step is prepared or completed without the admission approval, that
   approval is bound only after verification was published, and a run has at most 21 steps, which is
   what an admitted record took.
   */
  lemma AdmissionNeedsItsOwnApproval(
      plan: ImportPlan, operationId: string, importApproval: Digest, actions: seq<Action>, r: Record)
    requires Create(plan, operationId, importApproval).Success?
    requires Run(Create(plan, operationId, importApproval).value, actions) == Success(r)
    ensures AdmissionStepBegun(r) ==> r.body.admissionApproval.Some?
    ensures r.body.admissionApproval.Some? ==> PublishVerificationEvidence in r.body.completed
    ensures r.body.importApproval == importApproval
    ensures |actions| == r.body.sequence == StepsTaken(r.body) <= 21
    ensures r.body.status == Admitted
            ==> r.body.completed == PROMOTION_STEPS && |r.body.evidence| == 10
                && r.body.admissionApproval.Some? && |actions| == 21
  {
    hide Apply, Valid;
    CreateIsReached(plan, operationId, importApproval);
    RunKeepsReached(Create(plan, operationId, importApproval).value, actions);
    ReachedRecordIsSafe(r);
  }

  /** A reached record can advance without failing exactly when it is neither admitted nor incomplete. */
  lemma LiveRecordsCanAdvance(r: Record)
    requires Reached(r)
    ensures r.body.status !in {Admitted, Incomplete}
            <==> exists action: Action :: !action.Fail? && Apply(r, action).Success?
    ensures r.body.status !in {Admitted, Incomplete}
            <==> exists action: Action :: Apply(r, action).Success?
  {
    if r.body.status !in {Admitted, Incomplete} {
      var action := if r.body.prepared.Some? then Succeed(r.digest)
                    else if |r.body.completed| == VERIFICATION_STEP_COUNT && r.body.admissionApproval.None?
                    then Admit(r.digest)
                    else Prepare;
      assert !action.Fail? && Apply(r, action).Success?;
    } else {
      forall action: Action ensures Apply(r, action).Failure? {
      }
    }
  }

  /** Recovery permits continuation exactly for a quarantined, not yet verified candidate between steps. */
  lemma ContinuationAllowedExactlyInQuarantine(r: Record)
    requires Reached(r)
    ensures AssessRecovery(r).Success? && !AssessRecovery(r).value.automaticDeletionAllowed
    ensures AssessRecovery(r).value.continuationAllowed
            <==> r.body.prepared.None?
                 && PublishQuarantineObject in r.body.completed && PublishVerificationEvidence !in r.body.completed
  {
    var n := |r.body.completed|;
    assert n > 3 ==> r.body.completed[3] == PublishQuarantineObject;
    assert n > 7 ==> r.body.completed[7] == PublishVerificationEvidence;
  }

  /** Each class of recovery, by the last step completed. */
  lemma RecoveryClassExactly(r: Record)
    requires Reached(r)
    ensures AssessRecovery(r).Success?
    ensures var kind, completed := AssessRecovery(r).value.classification, r.body.completed;
            && (kind == RecoveryComplete <==> r.body.status == Admitted)
            && (kind == PreserveEffectOutcomeUncertain <==> r.body.prepared.Some?)
            && (kind == NoEffect <==> r.body.prepared.None? && completed == [])
            && (kind == PreservePartialImport
                <==> r.body.prepared.None? && completed != [] && PublishQuarantineObject !in completed)
            && (kind == PreserveQuarantineReview
                <==> && r.body.prepared.None? && PublishQuarantineObject in completed
                     && PublishVerificationEvidence !in completed)
            && (kind == VerifiedAwaitingNewAdmissionApproval
                <==> && r.body.prepared.None? && PublishVerificationEvidence in completed
                     && r.body.status != Admitted)
  {
    var completed := r.body.completed;
    assert completed == PROMOTION_STEPS[..|completed|];
    if |completed| > 3 {
      assert completed[3] == PublishQuarantineObject;
    }
    if |completed| > 7 {
      assert completed[7] == PublishVerificationEvidence;
    }
  }

  // ---------------------------------------------------------------- the evidence and the release

  /** The digest given when this step succeeded. */
  function GivenFor(r: Record, actions: seq<Action>, step: PromotionStep): Option<Digest>
    decreases |actions|
  {
    if actions == [] || Apply(r, actions[0]).Failure? then None
    else if actions[0].Succeed? && r.body.prepared == Some(step) then Some(actions[0].evidence)
    else GivenFor(Apply(r, actions[0]).value, actions[1..], step)
  }

  lemma StepsDiffer(i: nat, j: nat)
    requires i < j < |PROMOTION_STEPS|
    ensures PROMOTION_STEPS[i] != PROMOTION_STEPS[j]
  {
  }

  lemma StepKeepsEvidence(r: Record, action: Action)
    requires Apply(r, action).Success?
    ensures var next := Apply(r, action).value.body;
            && r.body.evidence <= next.evidence && |next.evidence| == |next.completed|
            && |r.body.completed| <= |next.completed| <= |PROMOTION_STEPS|
            && next.candidateId == r.body.candidateId && next.candidateDigest == r.body.candidateDigest
            && next.operationId == r.body.operationId && next.artifactSha256 == r.body.artifactSha256
            && next.importPlanDigest == r.body.importPlanDigest
    ensures var next := Apply(r, action).value.body;
            if action.Succeed? then
              && |r.body.completed| < |PROMOTION_STEPS|
              && r.body.prepared == Some(PROMOTION_STEPS[|r.body.completed|])
              && next.evidence == r.body.evidence + [action.evidence]
            else next.evidence == r.body.evidence && |next.completed| == |r.body.completed|
  {
    SuccessorShape(r, action);
  }

  lemma {:induction false} RunKeepsEvidence(r: Record, actions: seq<Action>)
    requires Run(r, actions).Success? && Valid(r)
    ensures var last := Run(r, actions).value.body;
            && r.body.evidence <= last.evidence && |last.evidence| == |last.completed| <= |PROMOTION_STEPS|
            && last.candidateId == r.body.candidateId && last.candidateDigest == r.body.candidateDigest
            && last.operationId == r.body.operationId
    decreases |actions|
  {
    hide Apply;
    if actions == [] {
    } else {
      StepKeepsEvidence(r, actions[0]);
      SuccessorShape(r, actions[0]);
      RunKeepsEvidence(Apply(r, actions[0]).value, actions[1..]);
    }
  }

  /** Position by position, the evidence is what was given for that step. */
  lemma {:induction false} EvidenceIsWhatWasGiven(r: Record, actions: seq<Action>, i: nat)
    requires Run(r, actions).Success? && Valid(r)
    requires |r.body.completed| <= i < |Run(r, actions).value.body.evidence| <= |PROMOTION_STEPS|
    ensures GivenFor(r, actions, PROMOTION_STEPS[i]) == Some(Run(r, actions).value.body.evidence[i])
    decreases |actions|
  {
    hide Apply;
    if actions == [] {
    } else {
      var next := Apply(r, actions[0]).value;
      StepKeepsEvidence(r, actions[0]);
      SuccessorShape(r, actions[0]);
      RunKeepsEvidence(next, actions[1..]);
      if actions[0].Succeed? && i == |r.body.completed| {
        assert next.body.evidence[i] == actions[0].evidence;
      } else {
        if actions[0].Succeed? {
          StepsDiffer(|r.body.completed|, i);
        }
        EvidenceIsWhatWasGiven(next, actions[1..], i);
      }
    }
  }

  /**
   The release an admitted run publishes: its identities are those of the plan, the operation and the
   record, and its verification evidence is what was given for the four verification steps.
   */
  lemma ReleaseOfAnAdmittedRun(
      plan: ImportPlan, operationId: string, importApproval: Digest, actions: seq<Action>, r: Record)
    requires Create(plan, operationId, importApproval).Success?
    requires Run(Create(plan, operationId, importApproval).value, actions) == Success(r)
    ensures BuildCatalogueRelease(r).Success? <==> r.body.status == Admitted
    ensures r.body.status == Admitted ==>
              var release, start := BuildCatalogueRelease(r).value, Create(plan, operationId, importApproval).value;
              var schema := GivenFor(start, actions, VerifyCandidateSchemaAndArchive);
              var provenance := GivenFor(start, actions, VerifyProvenanceAndSignatures);
              var packages := GivenFor(start, actions, VerifyPackagesRootAndSanitization);
              var published := GivenFor(start, actions, PublishVerificationEvidence);
              && schema.Some? && provenance.Some? && packages.Some? && published.Some?
              && release.verificationEvidence
                 == OfList([schema.value, provenance.value, packages.value, published.value])
              && release.releaseId == ReleaseOf(plan.candidateDigest)
              && release.candidateId == plan.candidateId && release.candidateDigest == plan.candidateDigest
              && release.promotionOperationId == operationId && release.promotionRecordDigest == r.digest
  {
    var start := Create(plan, operationId, importApproval).value;
    CreatedNamesThePlan(plan, operationId, importApproval);
    CreateIsReached(plan, operationId, importApproval);
    hide Apply, Run, Valid, Create, BuildCatalogueRelease, GivenFor, StepsTaken;
    RunKeepsReached(start, actions);
    RunKeepsEvidence(start, actions);
    AdmittedBuilds(r);
    if r.body.status == Admitted {
      EvidenceIsWhatWasGiven(start, actions, 4);
      EvidenceIsWhatWasGiven(start, actions, 5);
      EvidenceIsWhatWasGiven(start, actions, 6);
      EvidenceIsWhatWasGiven(start, actions, 7);
    }
  }

  lemma CreatedNamesThePlan(plan: ImportPlan, operationId: string, importApproval: Digest)
    requires Create(plan, operationId, importApproval).Success?
    ensures var body := Create(plan, operationId, importApproval).value.body;
            && body.completed == [] && body.operationId == operationId
            && body.candidateId == plan.candidateId && body.candidateDigest == plan.candidateDigest
  {
  }

  lemma AdmittedBuilds(r: Record)
    requires Reached(r)
    ensures BuildCatalogueRelease(r).Success? <==> r.body.status == Admitted
    ensures r.body.status == Admitted ==> |r.body.evidence| == 10 && ReleaseNames(r, BuildCatalogueRelease(r).value)
  {
    ReachedRecordIsSafe(r);
    if r.body.status == Admitted {
      BuiltReleaseNames(r);
    }
  }

  /** Any valid record that builds a release builds one with its own identities and verification evidence. */
  lemma BuiltReleaseNames(r: Record)
    requires BuildCatalogueRelease(r).Success?
    ensures r.body.status == Admitted && ReleaseNames(r, BuildCatalogueRelease(r).value)
  {
    var evidence := r.body.evidence;
    assert evidence[4..8] == [evidence[4], evidence[5], evidence[6], evidence[7]];
  }

  /** The release carries the record's identities and its four verification digests. */
  predicate ReleaseNames(r: Record, release: CatalogueRelease) {
    && |r.body.evidence| == 10
    && release.verificationEvidence
       == OfList([r.body.evidence[4], r.body.evidence[5], r.body.evidence[6], r.body.evidence[7]])
    && release.releaseId == ReleaseOf(r.body.candidateDigest) && release.schemaVersion == SCHEMA_VERSION
    && release.candidateId == r.body.candidateId && release.candidateDigest == r.body.candidateDigest
    && release.promotionOperationId == r.body.operationId && release.promotionRecordDigest == r.digest
  }

  /** A release's catalogue digest determines the release, and with it the promotion's whole record. */
  lemma CatalogueDigestDeterminesTheRelease(a: Record, b: Record)
    requires BuildCatalogueRelease(a).Success? && BuildCatalogueRelease(b).Success?
    requires BuildCatalogueRelease(a).value.catalogueDigest == BuildCatalogueRelease(b).value.catalogueDigest
    ensures BuildCatalogueRelease(a) == BuildCatalogueRelease(b) && a == b
  {
  }

  /** A created record is bound to its plan and import approval, and to nothing else yet. */
  lemma CreatedBindsItsPlan(plan: ImportPlan, operationId: string, importApproval: Digest)
    requires Create(plan, operationId, importApproval).Success?
    ensures var body := Create(plan, operationId, importApproval).value.body;
            && body.operationId == operationId && body.importApproval == importApproval
            && body.candidateId == plan.candidateId && body.candidateDigest == plan.candidateDigest
            && body.importPlanDigest == plan.planDigest && body.artifactSha256 == plan.artifactSha256
            && body.steps == PROMOTION_STEPS && body.completed == [] && body.evidence == []
            && body.admissionApproval.None? && body.prepared.None? && body.failureReason.None?
            && body.status == Reserved && body.sequence == 0 && body.previous.None?
  {
  }

  /** The status of a live record says how far it has come. */
  lemma StatusSaysProgress(r: Record)
    requires Reached(r) && r.body.failureReason.None?
    ensures var status, completed := r.body.status, r.body.completed;
            var between := r.body.prepared.None?;
            && (status == EffectPrepared <==> !between)
            && (status == Reserved <==> between && completed == [])
            && (status == Importing <==> between && completed != [] && PublishQuarantineObject !in completed)
            && (status == Quarantined
                <==> between && completed != [] && completed[|completed| - 1] == PublishQuarantineObject)
            && (status == VerifiedAwaitingAdmission
                <==> between && completed != [] && completed[|completed| - 1] == PublishVerificationEvidence)
            && (status == Admitting
                <==> between && completed != [] && completed[|completed| - 1] == ReserveCatalogueReleaseIdentity)
            && (status == Admitted
                <==> between && completed != [] && completed[|completed| - 1] == PublishImmutableCatalogueRelease)
  {
    var completed := r.body.completed;
    assert completed == PROMOTION_STEPS[..|completed|];
    if |completed| > 3 {
      assert completed[3] == PublishQuarantineObject;
    }
  }

  /** Which actions a reached record admits, and with what, exactly. */
  lemma ActionsPossibleExactly(r: Record, action: Action)
    requires Reached(r)
    ensures var n, live := |r.body.completed|, r.body.failureReason.None?;
            Apply(r, action).Success? <==>
            match action
            case Prepare =>
              live && r.body.prepared.None? && n < 10 && (n >= 8 ==> r.body.admissionApproval.Some?)
            case Succeed(evidence) => live && r.body.prepared.Some? && WellFormed(evidence)
            case Admit(approval) =>
              live && r.body.prepared.None? && n == 8 && r.body.admissionApproval.None? && WellFormed(approval)
            case Fail(reason) => live && n < 10 && AcceptableReason(reason)
  {
    hide PrepareNextStep, RecordStepSuccess, BindAdmissionApproval, MarkIncomplete, Reached, AcceptableReason;
    match action
    case Prepare => PreparePossibleExactly(r);
    case Succeed(evidence) => SucceedPossibleExactly(r, evidence);
    case Admit(approval) => AdmitPossibleExactly(r, approval);
    case Fail(reason) => FailPossibleExactly(r, reason);
  }

  lemma PreparePossibleExactly(r: Record)
    requires Reached(r)
    ensures PrepareNextStep(r).Success?
            <==> && r.body.failureReason.None? && r.body.prepared.None? && |r.body.completed| < 10
                 && (|r.body.completed| >= 8 ==> r.body.admissionApproval.Some?)
  {
  }

  lemma SucceedPossibleExactly(r: Record, evidence: Digest)
    requires Reached(r)
    ensures RecordStepSuccess(r, evidence).Success?
            <==> r.body.failureReason.None? && r.body.prepared.Some? && WellFormed(evidence)
  {
    if r.body.failureReason.None? && r.body.prepared.Some? {
      assert r.body.completed + [r.body.prepared.value] == PROMOTION_STEPS[..|r.body.completed| + 1];
    }
  }

  lemma AdmitPossibleExactly(r: Record, approval: Digest)
    requires Reached(r)
    ensures BindAdmissionApproval(r, approval).Success?
            <==> && r.body.failureReason.None? && r.body.prepared.None? && |r.body.completed| == 8
                 && r.body.admissionApproval.None? && WellFormed(approval)
  {
  }

  lemma FailPossibleExactly(r: Record, reason: seq<Glyph>)
    requires Reached(r)
    ensures MarkIncomplete(r, reason).Success?
            <==> r.body.failureReason.None? && |r.body.completed| < 10 && AcceptableReason(reason)
  {
  }
}
