/**
 The in-memory compare-and-swap store of install records. `IsExactTransition` rebuilds the successors
 a candidate could be; because it binds the candidate's last approval outside any inner handler, a
 record whose current stage already has its approval accepts nothing more.
 */
module CleanInstallStore {
  import opened Common
  import opened CleanInstallJournal
  import opened CleanInstallRuns

  predicate CurrentApprovalBound(r: Record) {
    && |r.body.completed| < |r.body.effects|
    && ApprovalBound(r, r.body.effects[|r.body.completed|].stage)
  }

  lemma MarkingIsAccepted(r: Record, reason: seq<Glyph>)
    requires Valid(r) && r.body.status !in {Complete, Incomplete} && AcceptableReason(reason)
    ensures MarkIncomplete(r, reason).Success?
  {
  }

  /** In a valid record the approval of the current stage, when bound, is the last one. */
  lemma BoundCurrentApprovalIsLast(r: Record)
    requires Valid(r) && CurrentApprovalBound(r)
    ensures r.body.approvals != []
    ensures r.body.approvals[|r.body.approvals| - 1].stage == r.body.effects[|r.body.completed|].stage
    ensures RequiredApproval(r.body.effects[|r.body.completed|].stage).Some?
  {
    hide EffectsFrom;
    var n := |r.body.completed|;
    var i :| 0 <= i < |r.body.approvals| && r.body.approvals[i].stage == StageAt(n);
    var last := r.body.approvals[|r.body.approvals| - 1];
    assert last.stage in AllowedApprovalStages(r.body);
    if last.stage != StageAt(n) {
      var e :| e in r.body.completed && e.stage == last.stage;
      var k :| 0 <= k < n && r.body.completed[k] == e;
      StagesAreMonotone(k, n);
      StageIndexIsInjective(last.stage, StageAt(n));
    }
  }

  /** A step other than binding leaves the approvals alone, and binding is refused once bound. */
  lemma StepFromBoundKeepsApprovals(r: Record, step: Step)
    requires CurrentApprovalBound(r) && Apply(r, step).Success?
    ensures Apply(r, step).value.body.approvals == r.body.approvals
  {
  }

  /** What each step writes, and that it starts from a valid record without outcome. */
  lemma SuccessorShape(r: Record, step: Step)
    requires Apply(r, step).Success?
    ensures Valid(r) && r.body.failureReason.None? && r.body.finalEvidence.None?
    ensures r.body.prepared.Some? <==> r.body.status == EffectPrepared
    ensures r.body.status !in {Complete, Incomplete}
    ensures var next := Apply(r, step).value.body;
            match step
            case Bind(stage, approvalClass, digest) =>
              && r.body.prepared.None? && CurrentStage(r) == Some(stage)
              && RequiredApproval(stage) == Some(approvalClass)
              && next == r.body.(approvals := r.body.approvals + [StageApproval(stage, approvalClass, digest)],
                                 sequence := r.body.sequence + 1, previous := Some(r.digest))
            case Prepare =>
              && r.body.prepared.None? && r.body.status != VerifyingFinal
              && next.approvals == r.body.approvals && next.failureReason.None? && next.finalEvidence.None?
            case Succeed(evidence) =>
              && r.body.prepared.Some? && next.evidence == r.body.evidence + [evidence]
              && next.approvals == r.body.approvals && next.failureReason.None? && next.finalEvidence.None?
            case Finish(evidence) =>
              && r.body.status == VerifyingFinal && next.finalEvidence == Some(evidence)
              && next.approvals == r.body.approvals && next.failureReason.None?
            case Fail(reason) =>
              && next.failureReason == Some(reason) && AcceptableReason(reason)
              && next.approvals == r.body.approvals && next.finalEvidence.None?
  {
  }

  lemma SuccessorIsChained(r: Record, step: Step)
    requires Apply(r, step).Success?
    ensures var next := Apply(r, step).value;
            && Valid(next) && next.body.previous == Some(r.digest)
            && next.body.sequence == r.body.sequence + 1 && next.body.operationId == r.body.operationId
  {
  }

  lemma StepIsChained(current: Record, candidate: Record)
    requires LegalStep(current, candidate)
    ensures Valid(candidate) && candidate.body.previous == Some(current.digest)
    ensures candidate.body.sequence == current.body.sequence + 1
    ensures candidate.body.operationId == current.body.operationId
  {
    hide Apply, Valid;
    var step :| Apply(current, step) == Success(candidate);
    SuccessorIsChained(current, step);
  }

  /** A successor whose last approval is for the current, unbound stage is a binding of that approval. */
  lemma SuccessorOntoStageIsABinding(current: Record, candidate: Record)
    requires LegalStep(current, candidate) && Valid(current) && !CurrentApprovalBound(current)
    requires CurrentStage(current).Some? && candidate.body.approvals != []
    requires candidate.body.approvals[|candidate.body.approvals| - 1].stage == CurrentStage(current).value
    ensures var last := candidate.body.approvals[|candidate.body.approvals| - 1];
            BindStageApproval(current, last.stage, last.approvalClass, last.digest) == Success(candidate)
  {
    hide EffectsFrom;
    var step :| Apply(current, step) == Success(candidate);
    hide Valid;
  }

  lemma BindingIsRefusedOnceBound(r: Record)
    requires CurrentApprovalBound(r)
    ensures forall stage, approvalClass, digest :: BindStageApproval(r, stage, approvalClass, digest).Failure?
  {
    hide Valid;
  }

  /** If any step leads from a prepared record to the candidate, its last evidence is accepted. */
  lemma LiveRecordTakesEvidence(current: Record, candidate: Record)
    requires LegalStep(current, candidate)
    requires current.body.prepared.Some? && candidate.body.evidence != []
    ensures RecordEffectSuccess(current, candidate.body.evidence[|candidate.body.evidence| - 1]).Success?
  {
    var step :| Apply(current, step) == Success(candidate);
    SuccessorShape(current, step);
    SuccessIsAccepted(current, candidate.body.evidence[|candidate.body.evidence| - 1]);
  }

  lemma {:induction false} BoundRecordMatchesNoCandidate(current: Record, candidate: Record)
    requires CurrentApprovalBound(current) && LegalStep(current, candidate)
    ensures candidate.body.approvals != []
    ensures candidate.body.approvals[|candidate.body.approvals| - 1].stage
            == current.body.effects[|current.body.completed|].stage
    ensures RequiredApproval(current.body.effects[|current.body.completed|].stage).Some?
  {
    hide EffectsFrom, Valid, Next, BindStageApproval, PrepareNextEffect, RecordEffectSuccess, CompleteInstall,
         MarkIncomplete;
    var step :| Apply(current, step) == Success(candidate);
    StepFromBoundKeepsApprovals(current, step);
    SuccessorShape(current, step);
    BoundCurrentApprovalIsLast(current);
  }

  /** `_is_exact_transition`. */
  method IsExactTransition(current: Record, candidate: Record) returns (exact: bool)
    ensures exact <==> LegalStep(current, candidate) && !CurrentApprovalBound(current)
  {
    hide Valid, Next, BindStageApproval, PrepareNextEffect, RecordEffectSuccess, CompleteInstall, MarkIncomplete;
    if step :| Apply(current, step) == Success(candidate) {
      SuccessorShape(current, step);
    }
    if !Valid(current) {
      return false;
    }
    var possibilities: seq<Record> := [];
    var stage := CurrentStage(current);
    if stage.Some? && RequiredApproval(stage.value).Some? && candidate.body.approvals != [] {
      var last := candidate.body.approvals[|candidate.body.approvals| - 1];
      if last.stage == stage.value {
        var bound := BindStageApproval(current, last.stage, last.approvalClass, last.digest);
        if bound.Failure? {
          if LegalStep(current, candidate) && !CurrentApprovalBound(current) {
            SuccessorOntoStageIsABinding(current, candidate);
          }
          return false;
        }
        assert Apply(current, Bind(last.stage, last.approvalClass, last.digest)) == bound;
        possibilities := possibilities + [bound.value];
      }
    }
    if current.body.prepared.None? && current.body.status !in {Complete, Incomplete, VerifyingFinal} {
      var prepared := PrepareNextEffect(current);
      if prepared.Success? {
        assert Apply(current, Prepare) == prepared;
        possibilities := possibilities + [prepared.value];
      }
    }
    if current.body.prepared.Some? && candidate.body.evidence != [] {
      var evidence := candidate.body.evidence[|candidate.body.evidence| - 1];
      var succeeded := RecordEffectSuccess(current, evidence);
      if succeeded.Failure? {
        if LegalStep(current, candidate) {
          LiveRecordTakesEvidence(current, candidate);
        }
        return false;
      }
      assert Apply(current, Succeed(evidence)) == succeeded;
      possibilities := possibilities + [succeeded.value];
    }
    if current.body.status == VerifyingFinal && candidate.body.finalEvidence.Some? {
      var completed := CompleteInstall(current, candidate.body.finalEvidence.value);
      if completed.Failure? {
        return false;
      }
      assert Apply(current, Finish(candidate.body.finalEvidence.value)) == completed;
      possibilities := possibilities + [completed.value];
    }
    if candidate.body.failureReason.Some? {
      var incomplete := MarkIncomplete(current, candidate.body.failureReason.value);
      if incomplete.Failure? {
        return false;
      }
      assert Apply(current, Fail(candidate.body.failureReason.value)) == incomplete;
      possibilities := possibilities + [incomplete.value];
    }
    exact := candidate in possibilities;
    assert exact ==> LegalStep(current, candidate);
    if LegalStep(current, candidate) {
      if CurrentApprovalBound(current) {
        BoundRecordMatchesNoCandidate(current, candidate);
        BindingIsRefusedOnceBound(current);
      } else {
        var step :| Apply(current, step) == Success(candidate);
        SuccessorShape(current, step);
        assert exact;
      }
    }
  }

  // ---------------------------------------------------------------- the store

  type Records = map<string, Record>

  /** What one store serves: the target and plan of its single ready dossier. */
  datatype Scope = Scope(targetId: string, planDigest: Digest)

  datatype Request = PublishNew(record: Record) | CompareAndSwap(record: Record, expected: Digest)

  ghost predicate Accepts(scope: Scope, records: Records, request: Request) {
    var operation := request.record.body.operationId;
    match request
    case PublishNew(record) =>
      && operation !in records
      && Create(InstallDossier(scope.targetId, scope.planDigest, true, true), operation) == Success(record)
    case CompareAndSwap(record, expected) =>
      && operation in records
      && records[operation].digest == expected
      && LegalStep(records[operation], record)
      && !CurrentApprovalBound(records[operation])
  }

  ghost function Handle(scope: Scope, records: Records, request: Request): Records {
    if Accepts(scope, records, request) then records[request.record.body.operationId := request.record] else records
  }

  ghost function HandleAll(scope: Scope, records: Records, requests: seq<Request>): Records
    decreases |requests|
  {
    if requests == [] then records
    else HandleAll(scope, Handle(scope, records, requests[0]), requests[1..])
  }

  /** The published initial state is exactly what `create_install_record` returns. */
  lemma InitialRecordIsTheCreatedOne(scope: Scope, record: Record)
    ensures (&& Valid(record)
             && record.body.status == Reserved && record.body.sequence == 0
             && record.body.previous.None? && record.body.approvals == []
             && record.body.targetId == scope.targetId && record.body.planDigest == scope.planDigest)
            <==> Create(InstallDossier(scope.targetId, scope.planDigest, true, true), record.body.operationId)
                 == Success(record)
  {
  }

  class FixtureInstallStore {
    const scope: Scope
    var records: Records

    /** The source raises unless it is given a ready dossier. */
    constructor (dossier: InstallDossier)
      requires dossier.ready
      ensures scope == Scope(dossier.targetId, dossier.planDigest) && records == map[]
    {
      scope := Scope(dossier.targetId, dossier.planDigest);
      records := map[];
    }

    method PublishNew(record: Record) returns (accepted: bool)
      modifies this
      ensures accepted == Accepts(scope, old(records), Request.PublishNew(record))
      ensures records == Handle(scope, old(records), Request.PublishNew(record))
    {
      InitialRecordIsTheCreatedOne(scope, record);
      var body := record.body;
      if !Valid(record) || body.status != Reserved || body.sequence != 0
         || body.previous.Some? || body.approvals != []
      {
        return false;
      }
      if body.targetId != scope.targetId || body.planDigest != scope.planDigest {
        return false;
      }
      if body.operationId in records {
        return false;
      }
      records := records[body.operationId := record];
      accepted := true;
    }

    method CompareAndSwap(record: Record, expected: Digest) returns (accepted: bool)
      modifies this
      ensures accepted == Accepts(scope, old(records), Request.CompareAndSwap(record, expected))
      ensures records == Handle(scope, old(records), Request.CompareAndSwap(record, expected))
    {
      var body := record.body;
      if body.operationId in records && LegalStep(records[body.operationId], record) {
        StepIsChained(records[body.operationId], record);
      }
      if !Valid(record) || body.operationId !in records || records[body.operationId].digest != expected {
        return false;
      }
      var current := records[body.operationId];
      if body.previous != Some(expected) || body.sequence != current.body.sequence + 1 {
        return false;
      }
      var exact := IsExactTransition(current, record);
      if !exact {
        return false;
      }
      records := records[body.operationId := record];
      accepted := true;
    }

    method Read(operationId: string) returns (found: Option<Record>)
      ensures found == if operationId in records && Valid(records[operationId])
                       then Some(records[operationId]) else None
    {
      if operationId !in records || !Valid(records[operationId]) {
        return None;
      }
      found := Some(records[operationId]);
    }
  }

  // ---------------------------------------------------------------- what every run of the store keeps

  /** Records the store can hold: reached by steps, and stopped before the first approved effect. */
  ghost predicate Stored(operation: string, r: Record) {
    && Reached(r)
    && r.body.operationId == operation
    && |r.body.completed| <= 4
    && (|r.body.completed| == 4 ==> r.body.prepared.None?)
    && (r.body.approvals != [] ==> r.body.failureReason.None?)
  }

  lemma StoredApprovalIsCurrent(operation: string, r: Record)
    requires Stored(operation, r)
    ensures |r.body.approvals| <= 1
    ensures r.body.approvals != [] ==> |r.body.completed| == 4 && CurrentApprovalBound(r)
  {
    if r.body.approvals != [] {
      StageIndexIsInjective(r.body.approvals[0].stage, ApproveDisk);
      assert r.body.effects[4].stage == ApproveDisk;
    }
  }

  lemma AtMostNineSteps(operation: string, r: Record)
    requires Stored(operation, r)
    ensures r.body.sequence <= 9 && r.body.status != Complete
  {
    StoredApprovalIsCurrent(operation, r);
  }

  ghost predicate AllStored(records: Records) {
    forall operation | operation in records :: Stored(operation, records[operation])
  }

  lemma StepKeepsStored(current: Record, candidate: Record)
    requires Stored(current.body.operationId, current)
    requires LegalStep(current, candidate) && !CurrentApprovalBound(current)
    ensures Stored(current.body.operationId, candidate)
  {
    var step :| Apply(current, step) == Success(candidate);
    StepKeepsReached(current, step);
    StepIsChained(current, candidate);
    StoredApprovalIsCurrent(current.body.operationId, current);
    SuccessorShape(current, step);
    if step.Prepare? && |current.body.completed| == 4 {
      assert current.body.effects[4].stage == ApproveDisk;
    }
  }

  lemma HandleKeepsStored(scope: Scope, records: Records, request: Request)
    requires AllStored(records)
    ensures AllStored(Handle(scope, records, request))
  {
    if Accepts(scope, records, request) {
      match request
      case PublishNew(record) =>
        CreateIsReached(InstallDossier(scope.targetId, scope.planDigest, true, true), record.body.operationId);
      case CompareAndSwap(record, _) =>
        StepKeepsStored(records[record.body.operationId], record);
    }
  }

  /** No run of the store gets beyond four completed effects or sequence nine. */
  lemma {:induction false} StoreStopsBeforeApprovedEffects(scope: Scope, records: Records, requests: seq<Request>)
    requires AllStored(records)
    ensures AllStored(HandleAll(scope, records, requests))
    ensures forall operation | operation in HandleAll(scope, records, requests) ::
              var r := HandleAll(scope, records, requests)[operation];
              Valid(r) && |r.body.completed| <= 4 && r.body.sequence <= 9 && r.body.status != Complete
    decreases |requests|
  {
    if requests == [] {
      forall operation | operation in records
        ensures records[operation].body.sequence <= 9 && records[operation].body.status != Complete
      {
        AtMostNineSteps(operation, records[operation]);
      }
    } else {
      HandleKeepsStored(scope, records, requests[0]);
      StoreStopsBeforeApprovedEffects(scope, Handle(scope, records, requests[0]), requests[1..]);
    }
  }

  // ---------------------------------------------------------------- the sink, exactly

  /**
   The store is complete (every legal step of the stored record is accepted) exactly when the current
   stage's approval is unbound or the record is incomplete.
   */
  lemma AcceptanceIsCompleteExactlyWhenUnbound(scope: Scope, records: Records, operation: string)
    requires operation in records && Valid(records[operation])
    requires records[operation].body.operationId == operation
    ensures (forall candidate | LegalStep(records[operation], candidate) ::
               Accepts(scope, records, Request.CompareAndSwap(candidate, records[operation].digest)))
            <==> !CurrentApprovalBound(records[operation]) || records[operation].body.status == Incomplete
  {
    hide EffectsFrom, Next;
    var current := records[operation];
    forall candidate | LegalStep(current, candidate)
      ensures candidate.body.operationId == operation && current.body.status != Incomplete
    {
      StepIsChained(current, candidate);
      var step :| Apply(current, step) == Success(candidate);
      SuccessorShape(current, step);
    }
    if CurrentApprovalBound(current) && current.body.status != Incomplete {
      var reason := [Glyph(0x78, true)];
      MarkingIsAccepted(current, reason);
      var stopped := Apply(current, Fail(reason)).value;
      assert LegalStep(current, stopped);
      assert !Accepts(scope, records, Request.CompareAndSwap(stopped, current.digest));
    }
  }

  /** A stored record whose current-stage approval is bound is never replaced. */
  lemma {:induction false} BoundRecordIsASink(
      scope: Scope, records: Records, requests: seq<Request>, operation: string)
    requires operation in records && CurrentApprovalBound(records[operation])
    ensures operation in HandleAll(scope, records, requests)
    ensures HandleAll(scope, records, requests)[operation] == records[operation]
    decreases |requests|
  {
    if requests == [] {
    } else {
      BoundRecordIsASink(scope, Handle(scope, records, requests[0]), requests[1..], operation);
    }
  }

  // ---------------------------------------------------------------- competing writers

  /** A stored operation stays stored; it is unchanged or has advanced. */
  lemma {:induction false} SequenceNeverFalls(
      scope: Scope, records: Records, requests: seq<Request>, operation: string)
    requires operation in records
    ensures operation in HandleAll(scope, records, requests)
    ensures var later := HandleAll(scope, records, requests)[operation];
            later == records[operation] || later.body.sequence > records[operation].body.sequence
    decreases |requests|
  {
    if requests == [] {
    } else {
      var next := Handle(scope, records, requests[0]);
      if next[operation] != records[operation] {
        StepIsChained(records[operation], next[operation]);
      }
      SequenceNeverFalls(scope, next, requests[1..], operation);
    }
  }

  /** Once a swap won, no later writer that still expects the replaced digest is accepted. */
  lemma StaleWriterNeverWins(
      scope: Scope, records: Records, winner: Record, between: seq<Request>, loser: Record, expected: Digest)
    requires AllStored(records)
    requires Accepts(scope, records, Request.CompareAndSwap(winner, expected))
    requires loser.body.operationId == winner.body.operationId
    ensures var later := HandleAll(scope, Handle(scope, records, Request.CompareAndSwap(winner, expected)), between);
            !Accepts(scope, later, Request.CompareAndSwap(loser, expected))
  {
    var operation := winner.body.operationId;
    var next := Handle(scope, records, Request.CompareAndSwap(winner, expected));
    StepIsChained(records[operation], winner);
    SequenceNeverFalls(scope, next, between, operation);
    HandleKeepsStored(scope, records, Request.CompareAndSwap(winner, expected));
    StoreStopsBeforeApprovedEffects(scope, next, between);
  }
}
