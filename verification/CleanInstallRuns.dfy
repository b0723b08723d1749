/**
 What every run of the install steps keeps. The validator accepts records no run reaches (it never
 asks that completed effects had approvals), so safety rests on the stronger invariant `Reached`.
 */
module CleanInstallRuns {
  import opened Common
  import opened CleanInstallJournal

  /** How many effects have been prepared, whether or not they completed. */
  function Begun(body: Payload): nat {
    |body.completed| + if body.prepared.Some? then 1 else 0
  }

  /** How many approval-requiring stages the first `k` effects enter. */
  function Due(k: nat): nat
    requires k <= EFFECT_COUNT
  {
    if k == 0 then 0
    else
      var index := StageIndex(StageAt(k - 1)).value;
      if index < 2 then 0 else index - 1
  }

  /** Steps taken, read off the record: two per completed effect and one for every other mark. */
  function StepsTaken(body: Payload): nat {
    2 * |body.completed|
    + (if body.prepared.Some? then 1 else 0)
    + |body.approvals|
    + (if body.finalEvidence.Some? then 1 else 0)
    + (if body.failureReason.Some? then 1 else 0)
  }

  /** The inductive invariant of runs. */
  ghost predicate Reached(r: Record) {
    && Valid(r)
    && (forall i | 0 <= i < |r.body.approvals| :: StageIndex(r.body.approvals[i].stage) == Some(i + 2))
    && Due(Begun(r.body)) <= |r.body.approvals|
    && |r.body.approvals| <= Due(if |r.body.completed| < EFFECT_COUNT then |r.body.completed| + 1 else EFFECT_COUNT)
    && (r.body.finalEvidence.Some? ==> r.body.completed == FLAT_EFFECTS && r.body.failureReason.None?)
    && r.body.sequence == StepsTaken(r.body)
  }

  lemma CreateIsReached(dossier: InstallDossier, operationId: string)
    requires Create(dossier, operationId).Success?
    ensures Reached(Create(dossier, operationId).value)
  {
  }

  /** Entering one more effect enters at most one more approval-requiring stage. */
  lemma DueGrowsByAtMostOne(n: nat)
    requires n < EFFECT_COUNT
    ensures Due(n) <= Due(n + 1) <= Due(n) + 1
    ensures RequiredApproval(StageAt(n)).Some? ==> StageIndex(StageAt(n)).value == Due(n + 1) + 1
  {
  }

  lemma StageIndexIsInjective(a: Stage, b: Stage)
    requires StageIndex(a).Some? && StageIndex(a) == StageIndex(b)
    ensures a == b
  {
  }

  /** An unbound stage is the first one without an approval. */
  lemma BindingIsNextInOrder(approvals: seq<StageApproval>, n: nat)
    requires n < EFFECT_COUNT && Due(n) <= |approvals| <= Due(n + 1)
    requires forall i | 0 <= i < |approvals| :: StageIndex(approvals[i].stage) == Some(i + 2)
    requires RequiredApproval(StageAt(n)).Some?
    requires forall i | 0 <= i < |approvals| :: approvals[i].stage != StageAt(n)
    ensures StageIndex(StageAt(n)) == Some(|approvals| + 2)
  {
    DueGrowsByAtMostOne(n);
    if |approvals| == Due(n + 1) {
      StageIndexIsInjective(approvals[|approvals| - 1].stage, StageAt(n));
    }
  }

  lemma BindKeepsReached(r: Record, stage: Stage, approvalClass: ApprovalClass, digest: Digest)
    requires Reached(r) && BindStageApproval(r, stage, approvalClass, digest).Success?
    ensures Reached(BindStageApproval(r, stage, approvalClass, digest).value)
    ensures BindStageApproval(r, stage, approvalClass, digest).value.body
            == r.body.(approvals := r.body.approvals + [StageApproval(stage, approvalClass, digest)],
                       sequence := r.body.sequence + 1, previous := Some(r.digest))
  {
    hide EffectsFrom;
    BindingIsNextInOrder(r.body.approvals, |r.body.completed|);
  }

  lemma PrepareKeepsReached(r: Record)
    requires Reached(r) && PrepareNextEffect(r).Success?
    ensures Reached(PrepareNextEffect(r).value)
    ensures |r.body.completed| < EFFECT_COUNT
    ensures PrepareNextEffect(r).value.body
            == r.body.(prepared := Some(FLAT_EFFECTS[|r.body.completed|]), status := EffectPrepared,
                       sequence := r.body.sequence + 1, previous := Some(r.digest))
  {
    hide EffectsFrom;
  }

  lemma SucceedKeepsReached(r: Record, evidence: Digest)
    requires Reached(r) && RecordEffectSuccess(r, evidence).Success?
    ensures Reached(RecordEffectSuccess(r, evidence).value)
    ensures r.body.prepared.Some?
    ensures var next := RecordEffectSuccess(r, evidence).value.body;
            && next.completed == r.body.completed + [r.body.prepared.value]
            && next.evidence == r.body.evidence + [evidence]
            && next.prepared.None? && next.approvals == r.body.approvals
            && next.finalEvidence == r.body.finalEvidence && next.failureReason == r.body.failureReason
  {
    hide EffectsFrom, ApprovalsInOrder, RequiredApproval;
  }

  lemma StepKeepsReached(r: Record, step: Step)
    requires Reached(r) && Apply(r, step).Success?
    ensures Reached(Apply(r, step).value)
  {
    match step
    case Bind(stage, approvalClass, digest) => BindKeepsReached(r, stage, approvalClass, digest);
    case Prepare => PrepareKeepsReached(r);
    case Succeed(evidence) => SucceedKeepsReached(r, evidence);
    case Finish(_) =>
    case Fail(_) =>
  }

  lemma {:induction false} RunKeepsReached(r: Record, steps: seq<Step>)
    requires Reached(r) && Run(r, steps).Success?
    ensures Reached(Run(r, steps).value)
    decreases |steps|
  {
    if steps == [] {
    } else {
      StepKeepsReached(r, steps[0]);
      RunKeepsReached(Apply(r, steps[0]).value, steps[1..]);
    }
  }

  // ---------------------------------------------------------------- approvals

  /** Some effect of the stage has been prepared. */
  ghost predicate Entered(r: Record, stage: Stage) {
    || (exists i | 0 <= i < |r.body.completed| :: r.body.completed[i].stage == stage)
    || (r.body.prepared.Some? && r.body.prepared.value.stage == stage)
  }

  ghost predicate Awaiting(r: Record, stage: Stage)
    requires Valid(r)
  {
    r.body.prepared.None? && CurrentStage(r) == Some(stage)
  }

  lemma DueIsMonotone(i: nat, j: nat)
    requires i <= j <= EFFECT_COUNT
    ensures Due(i) <= Due(j)
  {
  }

  lemma StagesAreMonotone(i: nat, j: nat)
    requires i <= j < EFFECT_COUNT
    ensures StageIndex(StageAt(i)).value <= StageIndex(StageAt(j)).value
  {
  }

  /** An approval-requiring stage whose `i`th effect was prepared has its approval, at its own place. */
  lemma EnteredStageIsBound(r: Record, i: nat)
    requires Reached(r) && i < Begun(r.body) && RequiredApproval(StageAt(i)).Some?
    ensures StageIndex(StageAt(i)).value - 2 < |r.body.approvals|
    ensures r.body.approvals[StageIndex(StageAt(i)).value - 2].stage == StageAt(i)
  {
    DueIsMonotone(i + 1, Begun(r.body));
    StageIndexIsInjective(r.body.approvals[StageIndex(StageAt(i)).value - 2].stage, StageAt(i));
  }

  lemma EnteredIsBound(r: Record, stage: Stage)
    requires Reached(r) && RequiredApproval(stage).Some? && Entered(r, stage)
    ensures ApprovalBound(r, stage)
  {
    if i :| 0 <= i < |r.body.completed| && r.body.completed[i].stage == stage {
      EnteredStageIsBound(r, i);
    } else {
      EnteredStageIsBound(r, |r.body.completed|);
    }
  }

  lemma BoundIsEnteredOrAwaiting(r: Record, stage: Stage)
    requires Reached(r) && ApprovalBound(r, stage)
    ensures Entered(r, stage) || Awaiting(r, stage)
  {
    var i :| 0 <= i < |r.body.approvals| && r.body.approvals[i].stage == stage;
    assert stage in AllowedApprovalStages(r.body);
    if stage in CompletedStages(r.body.completed) {
      var e :| e in r.body.completed && e.stage == stage;
    }
  }

  /**
   In every run, the bound approvals are exactly those of the approval-requiring stages already
   entered, plus possibly that of the stage about to be entered; each is bound once, in stage order.
   */
  lemma RunBindsExactlyEnteredStages(
      dossier: InstallDossier, operationId: string, steps: seq<Step>, r: Record)
    requires Create(dossier, operationId).Success?
    requires Run(Create(dossier, operationId).value, steps) == Success(r)
    ensures Valid(r)
    ensures forall stage | RequiredApproval(stage).Some? && Entered(r, stage) :: ApprovalBound(r, stage)
    ensures forall stage | ApprovalBound(r, stage) :: Entered(r, stage) || Awaiting(r, stage)
    ensures forall i, j | 0 <= i < j < |r.body.approvals| ::
              StageIndex(r.body.approvals[i].stage).value < StageIndex(r.body.approvals[j].stage).value
  {
    CreateIsReached(dossier, operationId);
    RunKeepsReached(Create(dossier, operationId).value, steps);
    forall stage | RequiredApproval(stage).Some? && Entered(r, stage) ensures ApprovalBound(r, stage) {
      EnteredIsBound(r, stage);
    }
    forall stage | ApprovalBound(r, stage) ensures Entered(r, stage) || Awaiting(r, stage) {
      BoundIsEnteredOrAwaiting(r, stage);
    }
  }

  lemma CompleteRecordHasEverything(r: Record)
    requires Reached(r) && r.body.status == Complete
    ensures r.body.completed == FLAT_EFFECTS && |r.body.evidence| == 35
    ensures |r.body.approvals| == 8
    ensures r.body.sequence == 79
  {
    hide EffectsFrom;
  }

  /** A complete install has all thirty-five effects with evidence, all eight approvals, and took 79 steps. */
  lemma CompleteHasEverything(dossier: InstallDossier, operationId: string, steps: seq<Step>, r: Record)
    requires Create(dossier, operationId).Success?
    requires Run(Create(dossier, operationId).value, steps) == Success(r)
    requires r.body.status == Complete
    ensures r.body.completed == FLAT_EFFECTS && |r.body.evidence| == 35
    ensures |r.body.approvals| == 8
    ensures forall stage | RequiredApproval(stage).Some? :: ApprovalBound(r, stage)
    ensures r.body.sequence == 79
  {
    hide EffectsFrom, Valid, Apply;
    CreateIsReached(dossier, operationId);
    RunKeepsReached(Create(dossier, operationId).value, steps);
    CompleteRecordHasEverything(r);
    forall stage | RequiredApproval(stage).Some? ensures ApprovalBound(r, stage) {
      var i := StageIndex(stage).value - 2;
      StageIndexIsInjective(r.body.approvals[i].stage, stage);
    }
  }

  // ---------------------------------------------------------------- recovery

  ghost predicate StorageBegun(r: Record) {
    Entered(r, Storage)
  }

  /** Recovery permits continuation exactly between the first completed effect and the storage stage. */
  lemma ContinuationAllowedExactlyBeforeStorage(r: Record)
    requires Reached(r)
    ensures AssessRecovery(r).Success? && !AssessRecovery(r).value.automaticDeletionAllowed
    ensures AssessRecovery(r).value.continuationAllowed
            <==> r.body.prepared.None? && r.body.completed != [] && !StorageBegun(r)
  {
    if |r.body.completed| > 6 {
      assert r.body.completed[6].stage == Storage;
    }
  }

  /** Each class of recovery, by how far the record has come. */
  lemma RecoveryClassExactly(r: Record)
    requires Reached(r)
    ensures AssessRecovery(r).Success?
    ensures var kind := AssessRecovery(r).value.classification;
            && (kind == RecoveryComplete <==> r.body.finalEvidence.Some?)
            && (kind == PreserveEffectOutcomeUncertain <==> r.body.prepared.Some?)
            && (kind == NoEffect <==> Begun(r.body) == 0)
            && (kind == RestartReadOnlyFoundation
                <==> r.body.prepared.None? && r.body.completed != [] && !StorageBegun(r))
            && (kind == DestructiveRecoveryRequired
                <==> r.body.prepared.None? && StorageBegun(r) && r.body.finalEvidence.None?)
  {
    if |r.body.completed| > 6 {
      assert r.body.completed[6].stage == Storage;
    }
  }

  lemma StorageBegunIsAPosition(r: Record)
    requires Reached(r)
    ensures StorageBegun(r) <==> Begun(r.body) > 6
  {
    if Begun(r.body) > 6 {
      assert |r.body.completed| > 6 ==> r.body.completed[6].stage == Storage;
    }
  }

  lemma StepNeverForgetsEffects(r: Record, step: Step)
    requires Apply(r, step).Success?
    ensures Begun(Apply(r, step).value.body) >= Begun(r.body)
    ensures r.body.completed <= Apply(r, step).value.body.completed
    ensures r.body.approvals <= Apply(r, step).value.body.approvals
    ensures r.body.evidence <= Apply(r, step).value.body.evidence
  {
  }

  /** Once a storage effect was prepared, no later record of the run allows continuation. */
  lemma {:induction false} StorageIsThePointOfNoReturn(r: Record, steps: seq<Step>)
    requires Reached(r) && StorageBegun(r) && Run(r, steps).Success?
    ensures StorageBegun(Run(r, steps).value)
    ensures AssessRecovery(Run(r, steps).value).Success?
    ensures !AssessRecovery(Run(r, steps).value).value.continuationAllowed
    decreases |steps|
  {
    if steps == [] {
      ContinuationAllowedExactlyBeforeStorage(r);
    } else {
      var next := Apply(r, steps[0]).value;
      StepKeepsReached(r, steps[0]);
      StepNeverForgetsEffects(r, steps[0]);
      StorageBegunIsAPosition(r);
      StorageBegunIsAPosition(next);
      StorageIsThePointOfNoReturn(next, steps[1..]);
    }
  }

  // ---------------------------------------------------------------- length of runs

  lemma StepAdvancesSequence(r: Record, step: Step)
    requires Apply(r, step).Success?
    ensures Apply(r, step).value.body.sequence == r.body.sequence + 1
    ensures Apply(r, step).value.body.previous == Some(r.digest)
  {
  }

  /** The sequence number counts the steps, and no run has more than 79. */
  lemma {:induction false} RunsAreBounded(r: Record, steps: seq<Step>)
    requires Reached(r) && Run(r, steps).Success?
    ensures Run(r, steps).value.body.sequence == r.body.sequence + |steps|
    ensures r.body.sequence + |steps| <= 79
    decreases |steps|
  {
    hide EffectsFrom, Apply;
    if steps == [] {
    } else {
      StepKeepsReached(r, steps[0]);
      StepAdvancesSequence(r, steps[0]);
      RunsAreBounded(Apply(r, steps[0]).value, steps[1..]);
    }
  }

  /** A record has no successor exactly when it is complete or incomplete. */
  lemma TerminalExactlyWithoutSuccessor(r: Record)
    requires Reached(r)
    ensures r.body.status in {Complete, Incomplete} <==> forall step :: Apply(r, step).Failure?
  {
    hide EffectsFrom, RequiredApproval;
    var stop := Fail([Glyph(0x78, true)]);
    if r.body.status !in {Complete, Incomplete} {
      assert Apply(r, stop).Success?;
    }
  }

  // ---------------------------------------------------------------- the step functions can finish

  /** Between effects, with the approvals of the entered stages and no other. */
  ghost predicate BetweenEffects(r: Record, n: nat) {
    && Reached(r)
    && n == |r.body.completed| <= EFFECT_COUNT
    && r.body.prepared.None? && r.body.finalEvidence.None? && r.body.failureReason.None?
    && |r.body.approvals| == Due(n)
  }

  /** Bind the stage's approval if it is new, then prepare and complete the next effect. */
  function StepsForEffect(n: nat, evidence: Digest): seq<Step>
    requires n < EFFECT_COUNT
  {
    (if Due(n + 1) == Due(n) then []
     else [Bind(StageAt(n), RequiredApproval(StageAt(n)).value, evidence)])
    + [Prepare, Succeed(evidence)]
  }

  function StepsFrom(n: nat, evidence: Digest): seq<Step>
    requires n <= EFFECT_COUNT
    decreases EFFECT_COUNT - n
  {
    if n == EFFECT_COUNT then [Finish(evidence)] else StepsForEffect(n, evidence) + StepsFrom(n + 1, evidence)
  }

  lemma {:induction false} RunAppends(r: Record, first: seq<Step>, second: seq<Step>)
    requires Run(r, first).Success?
    ensures Run(r, first + second) == Run(Run(r, first).value, second)
    decreases |first|
  {
    if first == [] {
      assert first + second == second;
    } else {
      assert (first + second)[1..] == first[1..] + second;
      RunAppends(Apply(r, first[0]).value, first[1..], second);
    }
  }

  lemma DueNeedsApproval(n: nat)
    requires n < EFFECT_COUNT && Due(n + 1) != Due(n)
    ensures RequiredApproval(StageAt(n)).Some?
    ensures StageIndex(StageAt(n)) == Some(Due(n) + 2)
  {
  }

  lemma BindingIsAccepted(r: Record, n: nat, evidence: Digest)
    requires BetweenEffects(r, n) && n < EFFECT_COUNT && Due(n + 1) != Due(n) && WellFormed(evidence)
    ensures RequiredApproval(StageAt(n)).Some?
    ensures BindStageApproval(r, StageAt(n), RequiredApproval(StageAt(n)).value, evidence).Success?
  {
    hide EffectsFrom;
    DueNeedsApproval(n);
    assert CurrentStage(r) == Some(StageAt(n));
    assert !ApprovalBound(r, StageAt(n));
    var body := r.body.(approvals := r.body.approvals
      + [StageApproval(StageAt(n), RequiredApproval(StageAt(n)).value, evidence)]);
    assert ApprovalsInOrder(body.approvals);
  }

  /** When every due approval is bound, the last one is the entered stage's. */
  lemma LastApprovalIsForStage(approvals: seq<StageApproval>, n: nat)
    requires n < EFFECT_COUNT && |approvals| == Due(n + 1)
    requires forall i | 0 <= i < |approvals| :: StageIndex(approvals[i].stage) == Some(i + 2)
    requires RequiredApproval(StageAt(n)).Some?
    ensures approvals != [] && approvals[|approvals| - 1].stage == StageAt(n)
  {
    DueGrowsByAtMostOne(n);
    StageIndexIsInjective(approvals[|approvals| - 1].stage, StageAt(n));
  }

  lemma PreparingIsAccepted(r: Record)
    requires Reached(r) && r.body.prepared.None? && r.body.finalEvidence.None? && r.body.failureReason.None?
    requires |r.body.completed| < EFFECT_COUNT && |r.body.approvals| == Due(|r.body.completed| + 1)
    ensures PrepareNextEffect(r).Success?
  {
    hide EffectsFrom;
    if RequiredApproval(StageAt(|r.body.completed|)).Some? {
      LastApprovalIsForStage(r.body.approvals, |r.body.completed|);
    }
  }

  lemma SuccessIsAccepted(r: Record, evidence: Digest)
    requires Valid(r) && r.body.status == EffectPrepared && WellFormed(evidence)
    ensures RecordEffectSuccess(r, evidence).Success?
  {
    hide EffectsFrom, ApprovalsInOrder, RequiredApproval, StageAt;
    var completed := r.body.completed + [r.body.prepared.value];
    assert forall i | 0 <= i < |r.body.completed| :: completed[i] == r.body.completed[i];
    assert CompletedStages(r.body.completed) <= CompletedStages(completed);
    assert completed[|r.body.completed|] == r.body.prepared.value;
  }

  lemma RunOne(r: Record, step: Step)
    ensures Run(r, [step]) == Apply(r, step)
  {
    if Apply(r, step).Success? {
      assert Run(Apply(r, step).value, [step][1..]) == Apply(r, step);
    }
  }

  lemma PrepareAndSucceedRun(r: Record, n: nat, evidence: Digest)
    requires Reached(r) && n == |r.body.completed| < EFFECT_COUNT && WellFormed(evidence)
    requires r.body.prepared.None? && r.body.finalEvidence.None? && r.body.failureReason.None?
    requires |r.body.approvals| == Due(n + 1)
    ensures Run(r, [Prepare, Succeed(evidence)]).Success?
    ensures BetweenEffects(Run(r, [Prepare, Succeed(evidence)]).value, n + 1)
  {
    hide EffectsFrom, StageAt, Valid, Run;
    PreparingIsAccepted(r);
    PrepareKeepsReached(r);
    var prepared := PrepareNextEffect(r).value;
    SuccessIsAccepted(prepared, evidence);
    SucceedKeepsReached(prepared, evidence);
    RunOne(r, Prepare);
    RunOne(prepared, Succeed(evidence));
    RunAppends(r, [Prepare], [Succeed(evidence)]);
    assert [Prepare] + [Succeed(evidence)] == [Prepare, Succeed(evidence)];
  }

  lemma OneEffectRuns(r: Record, n: nat, evidence: Digest)
    requires BetweenEffects(r, n) && n < EFFECT_COUNT && WellFormed(evidence)
    ensures Run(r, StepsForEffect(n, evidence)).Success?
    ensures BetweenEffects(Run(r, StepsForEffect(n, evidence)).value, n + 1)
  {
    hide Valid, Next, EffectsFrom, StageAt, PrepareNextEffect, RecordEffectSuccess;
    if Due(n + 1) == Due(n) {
      PrepareAndSucceedRun(r, n, evidence);
      assert [] + [Prepare, Succeed(evidence)] == [Prepare, Succeed(evidence)];
    } else {
      BindingIsAccepted(r, n, evidence);
      var bind := Bind(StageAt(n), RequiredApproval(StageAt(n)).value, evidence);
      BindKeepsReached(r, bind.stage, bind.approvalClass, evidence);
      RunOne(r, bind);
      DueGrowsByAtMostOne(n);
      PrepareAndSucceedRun(Apply(r, bind).value, n, evidence);
      RunAppends(r, [bind], [Prepare, Succeed(evidence)]);
    }
  }

  lemma {:induction false} RemainingStepsRun(r: Record, n: nat, evidence: Digest)
    requires BetweenEffects(r, n) && WellFormed(evidence)
    ensures Run(r, StepsFrom(n, evidence)).Success?
    ensures Run(r, StepsFrom(n, evidence)).value.body.status == Complete
    decreases EFFECT_COUNT - n
  {
    if n == EFFECT_COUNT {
      assert Apply(r, Finish(evidence)).Success?;
      assert [Finish(evidence)][1..] == [];
    } else {
      OneEffectRuns(r, n, evidence);
      RunAppends(r, StepsForEffect(n, evidence), StepsFrom(n + 1, evidence));
      RemainingStepsRun(Run(r, StepsForEffect(n, evidence)).value, n + 1, evidence);
    }
  }

  /** The step functions alone take every created record to completion. */
  lemma StepsAloneCanFinish(dossier: InstallDossier, operationId: string, evidence: Digest)
    requires Create(dossier, operationId).Success? && WellFormed(evidence)
    ensures exists steps :: Run(Create(dossier, operationId).value, steps).Success?
                            && Run(Create(dossier, operationId).value, steps).value.body.status == Complete
  {
    CreateIsReached(dossier, operationId);
    RemainingStepsRun(Create(dossier, operationId).value, 0, evidence);
  }

  /** The validator alone promises none of this: it accepts a complete record with no approval at all. */
  lemma ValidatorAcceptsUnapprovedCompletion(dossier: InstallDossier, operationId: string, evidence: Digest)
    requires Create(dossier, operationId).Success? && WellFormed(evidence)
    ensures exists r: Record :: Valid(r) && r.body.status == Complete && r.body.approvals == [] && !Reached(r)
  {
    var body := Create(dossier, operationId).value.body.(
      completed := FLAT_EFFECTS, evidence := seq(EFFECT_COUNT, _ => evidence), finalEvidence := Some(evidence),
      status := Complete);
    var r := WithDigest(body);
    assert Valid(r) by {
      hide EffectsFrom;
    }
    assert !Reached(r);
  }

  // ---------------------------------------------------------------- what is written

  /** A created record is bound to its dossier, its operation and the fixed effects, and to nothing else yet. */
  lemma CreatedBindsItsDossier(dossier: InstallDossier, operationId: string)
    requires Create(dossier, operationId).Success?
    ensures dossier.ready && dossier.separateStrongApprovalRequired
    ensures var body := Create(dossier, operationId).value.body;
            && body.operationId == operationId
            && body.targetId == dossier.targetId && body.planDigest == dossier.planDigest
            && body.effects == FLAT_EFFECTS && body.completed == [] && body.evidence == [] && body.approvals == []
            && body.prepared.None? && body.finalEvidence.None? && body.failureReason.None?
            && body.status == Reserved && body.sequence == 0 && body.previous.None?
  {
  }

  /** What each step writes, from what it is given; every field not named keeps its value. */
  lemma StepWritesExactly(r: Record, step: Step)
    requires Apply(r, step).Success?
    ensures var next := Apply(r, step).value.body;
            var chained := r.body.(sequence := r.body.sequence + 1, previous := Some(r.digest), status := next.status);
            var n := |r.body.completed|;
            match step
            case Bind(stage, approvalClass, digest) =>
              && next == chained.(approvals := r.body.approvals + [StageApproval(stage, approvalClass, digest)])
              && next.status == r.body.status && WellFormed(digest)
            case Prepare =>
              && n < EFFECT_COUNT && next.status == EffectPrepared
              && next == chained.(prepared := Some(FLAT_EFFECTS[n]))
            case Succeed(evidence) =>
              && n < EFFECT_COUNT && WellFormed(evidence)
              && next == chained.(completed := FLAT_EFFECTS[..n + 1], evidence := r.body.evidence + [evidence],
                                  prepared := None)
              && next.status == if n + 1 == EFFECT_COUNT then VerifyingFinal else Executing
            case Finish(evidence) =>
              && next == chained.(finalEvidence := Some(evidence)) && next.status == Complete && WellFormed(evidence)
            case Fail(reason) =>
              && next == chained.(failureReason := Some(reason)) && next.status == Incomplete
              && 0 < |reason| <= 160 && forall i | 0 <= i < |reason| :: reason[i].printable
  {
    hide EffectsFrom, RequiredApproval, StageAt, ApprovalsInOrder;
  }

  // ---------------------------------------------------------------- which steps are possible

  /** Neither finished nor given up. */
  predicate Live(r: Record) {
    r.body.finalEvidence.None? && r.body.failureReason.None?
  }

  lemma UnboundMeansDue(r: Record)
    requires Reached(r) && r.body.prepared.None? && |r.body.completed| < EFFECT_COUNT
    ensures var n := |r.body.completed|;
            var stage := StageAt(n);
            RequiredApproval(stage).Some? ==>
              if ApprovalBound(r, stage) then |r.body.approvals| == Due(n + 1)
              else |r.body.approvals| == Due(n) != Due(n + 1)
    ensures RequiredApproval(StageAt(|r.body.completed|)).None? ==>
              |r.body.approvals| == Due(|r.body.completed|) == Due(|r.body.completed| + 1)
  {
    hide EffectsFrom, ValidPayload;
    var n := |r.body.completed|;
    DueGrowsByAtMostOne(n);
    if Due(n + 1) != Due(n) {
      DueNeedsApproval(n);
    }
    if RequiredApproval(StageAt(n)).Some? && |r.body.approvals| == Due(n + 1) {
      LastApprovalIsForStage(r.body.approvals, n);
    }
  }

  /** Which of the five steps a reached record can take, and with what, exactly. */
  lemma StepsPossibleExactly(r: Record, step: Step)
    requires Reached(r)
    ensures var n, between := |r.body.completed|, Live(r) && r.body.prepared.None?;
            Apply(r, step).Success? <==>
            match step
            case Bind(stage, approvalClass, digest) =>
              && between && n < EFFECT_COUNT && stage == StageAt(n) && WellFormed(digest)
              && RequiredApproval(stage) == Some(approvalClass) && !ApprovalBound(r, stage)
            case Prepare =>
              && between && n < EFFECT_COUNT
              && (RequiredApproval(StageAt(n)).Some? ==> ApprovalBound(r, StageAt(n)))
            case Succeed(evidence) => Live(r) && r.body.prepared.Some? && WellFormed(evidence)
            case Finish(evidence) => between && n == EFFECT_COUNT && WellFormed(evidence)
            case Fail(reason) => Live(r) && AcceptableReason(reason)
  {
    hide BindStageApproval, PrepareNextEffect, RecordEffectSuccess, CompleteInstall, MarkIncomplete, Reached,
         ApprovalBound, RequiredApproval, StageAt, AcceptableReason;
    match step
    case Bind(stage, approvalClass, digest) => BindPossibleExactly(r, stage, approvalClass, digest);
    case Prepare => PreparePossibleExactly(r);
    case Succeed(evidence) => SucceedPossibleExactly(r, evidence);
    case Finish(evidence) => FinishPossibleExactly(r, evidence);
    case Fail(reason) => FailPossibleExactly(r, reason);
  }

  lemma StatusSaysLive(r: Record)
    requires Reached(r)
    ensures Live(r) <==> r.body.status !in {Complete, Incomplete}
    ensures Live(r) ==> (r.body.status == EffectPrepared <==> r.body.prepared.Some?)
    ensures Live(r) && r.body.prepared.None? ==>
              (r.body.status == VerifyingFinal <==> |r.body.completed| == EFFECT_COUNT)
    ensures |r.body.completed| <= EFFECT_COUNT
    ensures |r.body.completed| == EFFECT_COUNT ==> r.body.completed == FLAT_EFFECTS
    ensures |r.body.completed| == EFFECT_COUNT ==> r.body.prepared.None?
  {
  }

  lemma SucceedPossibleExactly(r: Record, evidence: Digest)
    requires Reached(r)
    ensures RecordEffectSuccess(r, evidence).Success? <==> Live(r) && r.body.prepared.Some? && WellFormed(evidence)
  {
    StatusSaysLive(r);
    if Live(r) && r.body.prepared.Some? && WellFormed(evidence) {
      SuccessIsAccepted(r, evidence);
    }
    hide ValidPayload;
  }

  lemma FinishPossibleExactly(r: Record, evidence: Digest)
    requires Reached(r)
    ensures CompleteInstall(r, evidence).Success?
            <==> Live(r) && r.body.prepared.None? && |r.body.completed| == EFFECT_COUNT && WellFormed(evidence)
  {
    hide EffectsFrom, RequiredApproval, StageAt, ApprovalsInOrder;
    StatusSaysLive(r);
  }

  lemma FailPossibleExactly(r: Record, reason: seq<Glyph>)
    requires Reached(r)
    ensures MarkIncomplete(r, reason).Success? <==> Live(r) && AcceptableReason(reason)
  {
    hide EffectsFrom, RequiredApproval, StageAt, ApprovalsInOrder;
    StatusSaysLive(r);
  }

  lemma CurrentStageIsNext(r: Record)
    requires Reached(r)
    ensures CurrentStage(r)
            == if |r.body.completed| < EFFECT_COUNT then Some(StageAt(|r.body.completed|)) else None
  {
  }

  lemma BoundWithItsClass(r: Record)
    requires Reached(r)
    ensures forall i | 0 <= i < |r.body.approvals| ::
              RequiredApproval(r.body.approvals[i].stage) == Some(r.body.approvals[i].approvalClass)
  {
  }

  lemma BindPossibleExactly(r: Record, stage: Stage, approvalClass: ApprovalClass, digest: Digest)
    requires Reached(r)
    ensures BindStageApproval(r, stage, approvalClass, digest).Success?
            <==> && Live(r) && r.body.prepared.None? && |r.body.completed| < EFFECT_COUNT
                 && stage == StageAt(|r.body.completed|) && WellFormed(digest)
                 && RequiredApproval(stage) == Some(approvalClass) && !ApprovalBound(r, stage)
  {
    var n := |r.body.completed|;
    StatusSaysLive(r);
    CurrentStageIsNext(r);
    hide CurrentStage, ApprovalBound, EffectsFrom;
    if Live(r) && r.body.prepared.None? && n < EFFECT_COUNT {
      UnboundMeansDue(r);
      if RequiredApproval(StageAt(n)).Some? && !ApprovalBound(r, StageAt(n)) && WellFormed(digest) {
        BindingIsAccepted(r, n, digest);
      }
    }
    hide Next, ValidPayload, EffectsFrom, RequiredApproval, StageAt;
  }

  lemma PreparePossibleExactly(r: Record)
    requires Reached(r)
    ensures var n := |r.body.completed|;
            PrepareNextEffect(r).Success?
            <==> && Live(r) && r.body.prepared.None? && n < EFFECT_COUNT
                 && (RequiredApproval(StageAt(n)).Some? ==> ApprovalBound(r, StageAt(n)))
  {
    var n := |r.body.completed|;
    StatusSaysLive(r);
    CurrentStageIsNext(r);
    BoundWithItsClass(r);
    hide CurrentStage, EffectsFrom;
    if Live(r) && r.body.prepared.None? && n < EFFECT_COUNT {
      UnboundMeansDue(r);
      if RequiredApproval(StageAt(n)).Some? ==> ApprovalBound(r, StageAt(n)) {
        PreparingIsAccepted(r);
      }
    }
    hide Next, ValidPayload, EffectsFrom, RequiredApproval, StageAt;
  }

  predicate BoundWith(r: Record, stage: Stage, approvalClass: ApprovalClass) {
    exists i | 0 <= i < |r.body.approvals| ::
      r.body.approvals[i].stage == stage && r.body.approvals[i].approvalClass == approvalClass
  }

  /** No storage effect is even prepared before two strong confirmations, and no later one without an explicit one. */
  lemma ConfirmationsPrecedeEffects(r: Record, stage: Stage)
    requires Reached(r) && Entered(r, stage)
    ensures stage in {ApproveDisk, Storage} ==> BoundWith(r, stage, StrongConfirmation)
    ensures stage in {Arch, Boot, ApxBootstrap, Hub, Development, Separation} ==>
              BoundWith(r, stage, ExplicitConfirmation)
    ensures stage == Storage ==> BoundWith(r, ApproveDisk, StrongConfirmation)
  {
    hide EffectsFrom, ValidPayload, Due;
    BoundWithItsClass(r);
    if RequiredApproval(stage).Some? {
      EnteredIsBound(r, stage);
    }
    if stage == Storage {
      DiskIsEnteredBeforeStorage(r);
      EnteredIsBound(r, ApproveDisk);
    }
  }

  lemma DiskIsEnteredBeforeStorage(r: Record)
    requires Reached(r) && Entered(r, Storage)
    ensures Entered(r, ApproveDisk)
  {
    if |r.body.completed| > 4 {
      assert r.body.completed[4].stage == ApproveDisk;
    }
  }
}
