/** Runs of the executor's journal: what no step loses, and what recovery then says. */
module ExecutorRuns {
  import opened Common
  import opened Ordering
  import opened ExecutorJournal

  /** Steps known to have been taken, read off the journal. */
  function StepsTaken(body: Payload): nat {
    2 * |body.completed| + (if body.prepared.Some? then 1 else 0)
    + (if body.status == VerifyingFinal then 1 else if body.status == Complete then 2 else 0)
  }

  /** What every run of the steps from `Create` keeps, and the validator does not demand. */
  ghost predicate Reached(j: Journal) {
    && Valid(j)
    && (j.body.status != Incomplete ==> j.body.recoveryClass == NoRecovery && j.body.sequence == StepsTaken(j.body))
    && (j.body.status == Incomplete ==>
          && StepsTaken(j.body) < j.body.sequence <= StepsTaken(j.body) + 2
          && (j.body.sequence == StepsTaken(j.body) + 2 ==> j.body.completed == j.body.effects))
    && (j.body.status == VerifyingFinal ==> j.body.completed == j.body.effects)
    && (j.body.status == Reserved <==> j.body.sequence == 0)
    && (j.body.completed == [] ==> j.body.resources == [])
    && ClassIsAssessed(j)
  }

  /** An incomplete journal stores the class any later assessment gives. */
  predicate ClassIsAssessed(j: Journal) {
    j.body.status == Incomplete ==>
      forall approval, gates :: AssessesTo(j, approval, gates, j.body.recoveryClass)
  }

  predicate AssessesTo(j: Journal, approval: bool, gates: bool, expected: RecoveryClass) {
    AssessRecovery(j, approval, gates).Success? && AssessRecovery(j, approval, gates).value.classification == expected
  }

  lemma CreateIsReached(plan: OperationPlan, operationId: string, request: Digest, approvalId: string, nonce: Digest)
    requires Create(plan, operationId, request, approvalId, nonce).Success?
    ensures Reached(Create(plan, operationId, request, approvalId, nonce).value)
  {
  }

  /** The assessment reads only the resources, the completed effects and what the status allows. */
  lemma AbandonedAssessment(j: Journal, reason: seq<Glyph>, approval: bool, gates: bool)
    requires MarkIncomplete(j, reason).Success?
    ensures var next := MarkIncomplete(j, reason).value; AssessesTo(next, approval, gates, next.body.recoveryClass)
  {
    hide ValidPayload, AcceptableReason;
    PreparedCannotBeAbandoned(j, reason);
  }

  /** Marking a prepared effect incomplete fails validation: its status would no longer name the effect. */
  lemma PreparedCannotBeAbandoned(j: Journal, reason: seq<Glyph>)
    ensures j.body.status == EffectPrepared ==> MarkIncomplete(j, reason).Failure?
    ensures MarkIncomplete(j, reason).Success? ==> j.body.prepared.None?
  {
    hide AcceptableReason;
    if Valid(j) && j.body.prepared.Some? && j.body.status != EffectPrepared {
      assert false;
    }
  }

  lemma AbandonKeepsReached(j: Journal, reason: seq<Glyph>)
    requires Reached(j) && MarkIncomplete(j, reason).Success?
    ensures Reached(MarkIncomplete(j, reason).value)
  {
    hide ValidPayload, AcceptableReason, AssessesTo, AssessRecovery;
    forall approval, gates {
      AbandonedAssessment(j, reason, approval, gates);
    }
    PreparedCannotBeAbandoned(j, reason);
    ReservedHasNothing(j);
  }

  lemma ReservedHasNothing(j: Journal)
    requires Reached(j)
    ensures j.body.status == Reserved ==> j.body.completed == []
  {
    hide ValidPayload, ClassIsAssessed;
  }

  lemma StepKeepsReached(j: Journal, action: Action)
    requires Reached(j) && Apply(j, action).Success?
    ensures Reached(Apply(j, action).value)
  {
    hide AcceptableReason, AssessesTo, AssessRecovery, Canonical, Merge;
    match action
    case Abandon(reason) => AbandonKeepsReached(j, reason);
    case _ =>
  }

  lemma {:induction false} RunKeepsReached(j: Journal, actions: seq<Action>)
    requires Reached(j) && Run(j, actions).Success?
    ensures Reached(Run(j, actions).value)
    decreases |actions|
  {
    hide Reached, Apply;
    if actions == [] {
    } else {
      StepKeepsReached(j, actions[0]);
      RunKeepsReached(Apply(j, actions[0]).value, actions[1..]);
    }
  }

  /** Whatever the flags, a later assessment of an incomplete journal gives the class it stored. */
  lemma IncompleteStoresItsAssessment(
      plan: OperationPlan, operationId: string, request: Digest, approvalId: string, nonce: Digest,
      actions: seq<Action>,
      approval: bool, gates: bool)
    requires Create(plan, operationId, request, approvalId, nonce).Success?
    requires Run(Create(plan, operationId, request, approvalId, nonce).value, actions).Success?
    ensures var j := Run(Create(plan, operationId, request, approvalId, nonce).value, actions).value;
            j.body.status == Incomplete ==> AssessesTo(j, approval, gates, j.body.recoveryClass)
  {
    hide Run, Create, AssessRecovery, Valid;
    CreateIsReached(plan, operationId, request, approvalId, nonce);
    var j := Create(plan, operationId, request, approvalId, nonce).value;
    RunKeepsReached(j, actions);
    var last := Run(j, actions).value;
    if last.body.status == Incomplete {
      assert ClassIsAssessed(last) && AssessesTo(last, approval, gates, last.body.recoveryClass);
    }
  }

  // ---------------------------------------------------------------- conservation and leaving a state

  lemma StepCounts(j: Journal, action: Action)
    requires Apply(j, action).Success?
    ensures Apply(j, action).value.body.sequence == j.body.sequence + 1
    ensures Apply(j, action).value.body.previous == Some(j.digest)
    ensures Apply(j, action).value.body.effects == j.body.effects
  {
    hide ValidPayload, Merge, AssessRecovery, AcceptableReason;
  }

  lemma {:induction false} RunCounts(j: Journal, actions: seq<Action>)
    requires Run(j, actions).Success?
    ensures Run(j, actions).value.body.sequence == j.body.sequence + |actions|
    ensures Run(j, actions).value.body.effects == j.body.effects
    decreases |actions|
  {
    hide Apply;
    if actions == [] {
    } else {
      StepCounts(j, actions[0]);
      RunCounts(Apply(j, actions[0]).value, actions[1..]);
    }
  }

  /** Steps that are neither preparing nor recording an effect. */
  function Marks(actions: seq<Action>): nat
    decreases |actions|
  {
    if actions == [] then 0
    else Marks(actions[1..]) + if actions[0].Prepare? || actions[0].Succeed? then 0 else 1
  }

  function EffectSteps(body: Payload): nat {
    2 * |body.completed| + if body.prepared.Some? then 1 else 0
  }

  lemma StepConserves(j: Journal, action: Action)
    requires Apply(j, action).Success?
    ensures EffectSteps(Apply(j, action).value.body)
            == EffectSteps(j.body) + if action.Prepare? || action.Succeed? then 1 else 0
  {
    hide ValidResource, Canonical, Merge, AssessRecovery, AcceptableReason;
    if action.Abandon? {
      PreparedCannotBeAbandoned(j, action.reason);
    }
  }

  /**
   The sequence is two per completed effect, one for a prepared one, and one for each verification,
   completion or failure the run took.
   */
  lemma {:induction false} RunConserves(j: Journal, actions: seq<Action>)
    requires Run(j, actions).Success?
    ensures Run(j, actions).value.body.sequence - j.body.sequence == |actions|
    ensures |actions| == EffectSteps(Run(j, actions).value.body) - EffectSteps(j.body) + Marks(actions)
    decreases |actions|
  {
    hide Apply, EffectSteps;
    if actions == [] {
    } else {
      StepCounts(j, actions[0]);
      StepConserves(j, actions[0]);
      RunConserves(Apply(j, actions[0]).value, actions[1..]);
    }
  }

  lemma SequenceIsBounded(j: Journal)
    requires Reached(j)
    ensures j.body.sequence <= 2 * |j.body.effects| + 2 <= 66
  {
    hide ClassIsAssessed;
  }

  /** No run takes more than two steps an effect, verification and completion: 66 at most. */
  lemma RunsAreBounded(
      plan: OperationPlan, operationId: string, request: Digest, approvalId: string, nonce: Digest,
      actions: seq<Action>)
    requires Create(plan, operationId, request, approvalId, nonce).Success?
    requires Run(Create(plan, operationId, request, approvalId, nonce).value, actions).Success?
    ensures |actions| <= 2 * |plan.effects| + 2 <= 66
  {
    hide Run, Reached;
    CreateIsReached(plan, operationId, request, approvalId, nonce);
    var j := Create(plan, operationId, request, approvalId, nonce).value;
    RunKeepsReached(j, actions);
    RunCounts(j, actions);
    SequenceIsBounded(Run(j, actions).value);
    assert j.body.sequence == 0 && j.body.effects == plan.effects;
  }

  /** A prepared effect can only be recorded as a success; terminal journals have no successor. */
  lemma WhatMayFollow(j: Journal, action: Action)
    requires Apply(j, action).Success?
    ensures j.body.status == EffectPrepared ==> action.Succeed?
    ensures j.body.status !in {Complete, Incomplete}
    ensures j.body.status == VerifyingFinal ==> action.Finish? || action.Abandon?
  {
    hide ValidPayload, Merge, AssessRecovery, AcceptableReason;
    if action.Abandon? {
      PreparedCannotBeAbandoned(j, action.reason);
    }
  }

  // ---------------------------------------------------------------- resources

  /** Each identifier ends with the last observation of it, or with what was recorded before. */
  function LastObserved(resources: seq<Resource>, observed: seq<Resource>, id: string): Option<Resource> {
    if Find(observed, id).Some? then Find(observed, id) else Find(resources, id)
  }

  lemma {:induction false} MergeKeepsTheLastObservation(resources: seq<Resource>, observed: seq<Resource>, id: string)
    requires Canonical(resources) && PutAll(resources, observed).Success?
    ensures Find(PutAll(resources, observed).value, id) == LastObserved(resources, observed, id)
    ensures Find(resources, id).Some? ==>
              && Find(PutAll(resources, observed).value, id).Some?
              && Find(PutAll(resources, observed).value, id).value.identity == Find(resources, id).value.identity
    decreases |observed|
  {
    hide Canonical, ValidResource;
    if observed == [] {
    } else {
      var front := observed[..|observed| - 1];
      MergeKeepsTheLastObservation(resources, front, id);
      PutAllStaysCanonical(resources, front);
      PutRecords(PutAll(resources, front).value, observed[|observed| - 1], id);
    }
  }

  /** No step drops a resource or changes its identity. */
  lemma StepKeepsResources(j: Journal, action: Action, id: string)
    requires Apply(j, action).Success? && Find(j.body.resources, id).Some?
    ensures var after := Apply(j, action).value.body.resources;
            && Find(after, id).Some?
            && Find(after, id).value.identity == Find(j.body.resources, id).value.identity
  {
    hide AcceptableReason, AssessRecovery, Canonical, Find, PutAll;
    if action.Succeed? {
      MergeKeepsTheLastObservation(j.body.resources, action.observed, id);
    }
  }

  lemma {:induction false} RunKeepsResources(j: Journal, actions: seq<Action>, id: string)
    requires Run(j, actions).Success? && Find(j.body.resources, id).Some?
    ensures var after := Run(j, actions).value.body.resources;
            && Find(after, id).Some?
            && Find(after, id).value.identity == Find(j.body.resources, id).value.identity
    decreases |actions|
  {
    hide Apply, Find;
    if actions == [] {
    } else {
      StepKeepsResources(j, actions[0], id);
      RunKeepsResources(Apply(j, actions[0]).value, actions[1..], id);
    }
  }

  // ---------------------------------------------------------------- what recovery allows

  predicate AllUntouched(resources: seq<Resource>) {
    forall i | 0 <= i < |resources| ::
      var r := resources[i];
      r.state == OwnedEmpty && !r.published && !r.used && !r.modified
  }

  predicate SomeDoubtful(resources: seq<Resource>) {
    exists i | 0 <= i < |resources| ::
      resources[i].state == ForeignOrConflicting || resources[i].state == IdentityUncertain
  }

  predicate SomeInUse(resources: seq<Resource>) {
    exists i | 0 <= i < |resources| :: resources[i].published || resources[i].used || resources[i].modified
  }

  predicate AllEmpty(resources: seq<Resource>) {
    forall i | 0 <= i < |resources| :: resources[i].state == OwnedEmpty
  }

  /** Nothing was completed, prepared or seen. */
  predicate Untried(j: Journal) {
    j.body.completed == [] && j.body.prepared.None? && j.body.resources == []
  }

  /** Between effects, with something to recover. */
  predicate Settled(j: Journal) {
    j.body.status != Complete && j.body.prepared.None? && !Untried(j)
  }

  /**
   Recovery allows automatic deletion exactly when every resource was seen untouched, and continuation
   exactly with both flags between effects, when nothing doubtful, used or deletable is recorded.
   */
  lemma RecoveryAllowsExactly(j: Journal, approval: bool, gates: bool)
    requires Valid(j)
    ensures AssessRecovery(j, approval, gates).Success?
    ensures var recovery := AssessRecovery(j, approval, gates).value;
            var resources := j.body.resources;
            && (recovery.automaticDeletionAllowed
                <==> Settled(j) && resources != [] && AllUntouched(resources))
            && (recovery.continuationAllowed
                <==> && Settled(j) && approval && gates && j.body.status != Incomplete
                     && !SomeDoubtful(resources) && !SomeInUse(resources) && (resources == [] || !AllEmpty(resources)))
            && !(recovery.automaticDeletionAllowed && recovery.continuationAllowed)
  {
    hide SafeId, Canonical;
  }

  /** And the class says which of these it is. */
  lemma RecoveryClassExactly(j: Journal, approval: bool, gates: bool)
    requires Valid(j)
    ensures AssessRecovery(j, approval, gates).Success?
    ensures var recovery := AssessRecovery(j, approval, gates).value;
            var kind, resources := recovery.classification, j.body.resources;
            && (kind == NoRecovery <==> j.body.status == Complete)
            && (kind == PreserveEffectOutcomeUncertain <==> j.body.status == EffectPrepared)
            && (kind == NoEffect <==> j.body.status != Complete && Untried(j))
            && (kind == PreserveIdentityUncertain <==> Settled(j) && SomeDoubtful(resources))
            && (kind == AutomaticRollbackEligible <==> recovery.automaticDeletionAllowed)
            && (kind == ContinuationEligible <==> recovery.continuationAllowed)
            && (kind == PreserveRecoveryRequired
                <==> && Settled(j) && !SomeDoubtful(resources)
                     && !recovery.automaticDeletionAllowed && !recovery.continuationAllowed)
  {
    hide SafeId, Canonical;
    RecoveryAllowsExactly(j, approval, gates);
  }

  // ---------------------------------------------------------------- what merging forgets

  /** The same resource, observed as owned, empty and never used. */
  function Forgotten(r: Resource): Resource {
    r.(state := OwnedEmpty, published := false, used := false, modified := false)
  }

  /** The first `n` resources forgotten. */
  function ForgottenUpTo(resources: seq<Resource>, n: nat): seq<Resource> {
    seq(|resources|, i requires 0 <= i < |resources| => if i < n then Forgotten(resources[i]) else resources[i])
  }

  lemma {:induction false} ForgettingMerges(resources: seq<Resource>, n: nat)
    requires Canonical(resources) && n <= |resources| && forall i | 0 <= i < |resources| :: ValidResource(resources[i])
    ensures PutAll(resources, ForgottenUpTo(resources, |resources|)[..n]) == Success(ForgottenUpTo(resources, n))
  {
    hide Canonical, Put, Find, SafeId;
    if n == 0 {
      assert ForgottenUpTo(resources, 0) == resources;
    } else {
      ForgettingMerges(resources, n - 1);
      var lowered := ForgottenUpTo(resources, |resources|);
      assert lowered[..n][..n - 1] == lowered[..n - 1];
      var before := ForgottenUpTo(resources, n - 1);
      ForgottenIsCanonical(resources, n - 1);
      PutReplaces(before, n - 1, lowered[n - 1]);
      assert before[..n - 1] + [lowered[n - 1]] + before[n..] == ForgottenUpTo(resources, n);
    }
  }

  lemma ForgottenIsCanonical(resources: seq<Resource>, n: nat)
    requires Canonical(resources)
    ensures Canonical(ForgottenUpTo(resources, n))
  {
    assert forall i | 0 <= i < |resources| :: ForgottenUpTo(resources, n)[i].id == resources[i].id;
  }

  lemma {:induction false} PutReplaces(resources: seq<Resource>, n: nat, r: Resource)
    requires n < |resources| && resources[n].id == r.id && Canonical(resources)
    ensures Put(resources, r) == resources[..n] + [r] + resources[n + 1..]
    ensures Find(resources, r.id) == Some(resources[n])
  {
    var last := resources[|resources| - 1];
    if n == |resources| - 1 {
    } else {
      if TextLeq(last.id, r.id) {
        TextLeqIsAntisymmetric(last.id, r.id);
      }
      PutReplaces(resources[..|resources| - 1], n, r);
    }
  }

  /**
   A resource's lifecycle may move backwards. Whatever a journal with a prepared effect has recorded,
   published resources included, one accepted success can list everything as owned, empty and unused;
   recovery then allows automatic deletion.
   */
  lemma RecordedUseCanBeForgotten(j: Journal, approval: bool, gates: bool)
    requires Valid(j) && j.body.status == EffectPrepared && j.body.resources != []
    ensures var next := RecordEffectSuccess(j, ForgottenUpTo(j.body.resources, |j.body.resources|));
            && next.Success?
            && next.value.body.resources == ForgottenUpTo(j.body.resources, |j.body.resources|)
            && AssessRecovery(next.value, approval, gates) == Success(Recovery(AutomaticRollbackEligible, true, false))
  {
    hide Canonical, SafeId, PutAll;
    var resources := j.body.resources;
    var lowered := ForgottenUpTo(resources, |resources|);
    ForgettingMerges(resources, |resources|);
    assert lowered[..|resources|] == lowered;
    ForgottenIsCanonical(resources, |resources|);
  }

  // ---------------------------------------------------------------- what is written

  /** A created journal is bound to its plan, request, approval and nonce, and to nothing else yet. */
  lemma CreatedBindsItsRequest(plan: OperationPlan, operationId: string, request: Digest, approvalId: string,
                               nonce: Digest)
    requires Create(plan, operationId, request, approvalId, nonce).Success?
    ensures var body := Create(plan, operationId, request, approvalId, nonce).value.body;
            && body.operationId == operationId && body.operationKind == plan.operationKind
            && body.logicalName == plan.logicalName && body.expectedGeneration == plan.expectedGeneration
            && body.planDigest == plan.planDigest && body.requestDigest == request && body.approvalId == approvalId
            && body.nonceDigest == nonce && body.policyVersion == plan.policyVersion && body.effects == plan.effects
            && body.completed == [] && body.prepared.None? && body.resources == [] && body.status == Reserved
            && body.recoveryClass == NoRecovery && body.finalEvidence.None? && body.failureReason.None?
            && body.sequence == 0 && body.previous.None?
  {
  }

  /** What each step writes, from what it is given; every field not named keeps its value. */
  lemma StepWritesExactly(j: Journal, action: Action)
    requires Apply(j, action).Success?
    ensures var next := Apply(j, action).value.body;
            var chained := j.body.(sequence := j.body.sequence + 1, previous := Some(j.digest), status := next.status);
            var n := |j.body.completed|;
            match action
            case Prepare =>
              && n < |j.body.effects| && next.status == EffectPrepared
              && next == chained.(prepared := Some(j.body.effects[n]))
            case Succeed(observed) =>
              && n < |j.body.effects| && next.status == Executing
              && next == chained.(prepared := None, completed := j.body.effects[..n + 1], resources := next.resources)
              && Merge(j.body.resources, observed) == Success(next.resources)
            case Verify => next == chained && next.status == VerifyingFinal
            case Finish(evidence) =>
              && next == chained.(finalEvidence := Some(evidence), recoveryClass := NoRecovery)
              && next.status == Complete && WellFormed(evidence)
            case Abandon(reason) =>
              && next == chained.(failureReason := Some(reason), recoveryClass := next.recoveryClass)
              && next.status == Incomplete
              && AssessesTo(j, false, false, next.recoveryClass)
              && 0 < |reason| <= 160 && forall i | 0 <= i < |reason| :: reason[i].printable
  {
    hide Canonical, ValidResource, PutAll;
  }

  /** Which actions a reached journal admits, and with what, exactly. */
  lemma ActionsPossibleExactly(j: Journal, action: Action)
    requires Reached(j)
    ensures var n, status := |j.body.completed|, j.body.status;
            Apply(j, action).Success? <==>
            match action
            case Prepare => status in {Reserved, Executing} && n < |j.body.effects|
            case Succeed(observed) => status == EffectPrepared && Merge(j.body.resources, observed).Success?
            case Verify => status == Executing && n == |j.body.effects|
            case Finish(evidence) => status == VerifyingFinal && WellFormed(evidence)
            case Abandon(reason) => status in {Reserved, Executing, VerifyingFinal} && AcceptableReason(reason)
  {
    match action
    case Succeed(observed) =>
      if j.body.status == EffectPrepared && Merge(j.body.resources, observed).Success? {
        MergedIsSound(j.body.resources, observed);
        assert j.body.completed + [j.body.prepared.value] == j.body.effects[..|j.body.completed| + 1];
      }
    case Abandon(reason) => PreparedCannotBeAbandoned(j, reason);
    case _ =>
  }

  /** A merged list is canonical, not too long, and made of valid resources. */
  lemma MergedIsSound(resources: seq<Resource>, observed: seq<Resource>)
    requires Canonical(resources) && (forall i | 0 <= i < |resources| :: ValidResource(resources[i]))
    requires Merge(resources, observed).Success?
    ensures var merged := Merge(resources, observed).value;
            && Canonical(merged) && |merged| <= 64 && (forall i | 0 <= i < |merged| :: ValidResource(merged[i]))
  {
    hide Canonical, ValidResource;
    PutAllStaysCanonical(resources, observed);
    PutAllStaysValid(resources, observed);
  }

  lemma {:induction false} PutAllStaysValid(resources: seq<Resource>, observed: seq<Resource>)
    requires Canonical(resources) && (forall r | r in resources :: ValidResource(r))
    requires PutAll(resources, observed).Success?
    ensures forall r | r in PutAll(resources, observed).value :: ValidResource(r)
    decreases |observed|
  {
    hide Canonical, ValidResource, Put;
    if observed == [] {
    } else {
      var front, last := observed[..|observed| - 1], observed[|observed| - 1];
      PutAllStaysCanonical(resources, front);
      PutAllStaysValid(resources, front);
      PutRecords(PutAll(resources, front).value, last, last.id);
    }
  }

  /** No effect is recorded twice, and none is both completed and prepared. */
  lemma EffectsHappenOnce(j: Journal)
    requires Valid(j)
    ensures NoDuplicates(j.body.completed)
    ensures j.body.prepared.Some? ==> j.body.prepared.value !in j.body.completed
  {
    hide Canonical, ValidResource;
  }

  /** The approval, the plan and the request a valid journal names are of the forms the caller must give. */
  lemma ValidJournalsNameCanonically(j: Journal)
    requires Valid(j)
    ensures IsTaggedHex("op-", j.body.operationId) && IsTaggedHex("approval-", j.body.approvalId)
    ensures forall d | d in [j.body.planDigest, j.body.requestDigest, j.body.nonceDigest] :: WellFormed(d)
  {
    hide Canonical;
  }

  /** A recorded resource's flags agree with its state. */
  lemma ResourceFlagsAgree(j: Journal, r: Resource)
    requires Valid(j) && r in j.body.resources
    ensures r.state == Published <==> r.published
    ensures r.state == NotCreated ==> !r.published && !r.used && !r.modified
    ensures r.kind in {"account", "archive", "home", "metadata", "network", "registration", "root", "runtime",
                       "snapshot"}
    ensures 1 <= |r.id| <= 128 && '/' !in r.id && r.id[0] != '.' && r.id[0] != '-'
  {
    hide Canonical;
    assert ValidResource(r);
    forall i | 0 <= i < |r.id| ensures r.id[i] != '/' {
    }
  }
}
