/**
 The in-memory promotion store and its catalogue. Its exact-transition test is sound for every stored
 record and complete for every record a run of the store can hold.
 */
module ReleasePromotionStore {
  import opened Common
  import opened ReleasePromotion
  import opened ReleasePromotionRuns

  lemma SuccessIsAccepted(r: Record, evidence: Digest)
    requires Valid(r) && r.body.status == EffectPrepared && WellFormed(evidence)
    requires !UnapprovedAdmissionPrepared(r)
    ensures RecordStepSuccess(r, evidence).Success?
  {
  }

  /** The test tries to complete the prepared step for every successor, and that always raises. */
  lemma UnapprovedAdmissionCannotSucceed(current: Record, candidate: Record)
    requires UnapprovedAdmissionPrepared(current) && LegalStep(current, candidate)
    ensures candidate.body.evidence != []
    ensures RecordStepSuccess(current, candidate.body.evidence[|candidate.body.evidence| - 1]).Failure?
  {
    var action :| Apply(current, action) == Success(candidate);
    SuccessorShape(current, action);
  }

  /** `_is_exact_next_transition`. */
  method IsExactNextTransition(current: Record, candidate: Record) returns (exact: bool)
    ensures exact <==> LegalStep(current, candidate) && !UnapprovedAdmissionPrepared(current)
  {
    hide Valid, Next, PrepareNextStep, RecordStepSuccess, BindAdmissionApproval, MarkIncomplete;
    if action :| Apply(current, action) == Success(candidate) {
      SuccessorShape(current, action);
    }
    var possibilities: seq<Record> := [];
    if current.body.prepared.None? && current.body.status !in {Admitted, Incomplete} {
      if |current.body.completed| < VERIFICATION_STEP_COUNT || current.body.admissionApproval.Some? {
        var prepared := PrepareNextStep(current);
        if prepared.Failure? {
          PreparingFailsOnlyWhenInvalid(current);
          return false;
        }
        assert Apply(current, Prepare) == prepared;
        possibilities := possibilities + [prepared.value];
      }
    }
    if current.body.prepared.Some? && candidate.body.evidence != [] {
      var evidence := candidate.body.evidence[|candidate.body.evidence| - 1];
      var succeeded := RecordStepSuccess(current, evidence);
      if succeeded.Failure? {
        if LegalStep(current, candidate) && !UnapprovedAdmissionPrepared(current) {
          LivePreparedRecordTakesEvidence(current, candidate);
        }
        return false;
      }
      assert Apply(current, Succeed(evidence)) == succeeded;
      possibilities := possibilities + [succeeded.value];
    }
    if current.body.status == VerifiedAwaitingAdmission && current.body.admissionApproval.None?
       && candidate.body.admissionApproval.Some?
    {
      var admitted := BindAdmissionApproval(current, candidate.body.admissionApproval.value);
      if admitted.Failure? {
        return false;
      }
      assert Apply(current, Admit(candidate.body.admissionApproval.value)) == admitted;
      possibilities := possibilities + [admitted.value];
    }
    if candidate.body.failureReason.Some? {
      var incomplete := MarkIncomplete(current, candidate.body.failureReason.value);
      if incomplete.Failure? {
        return false;
      }
      assert Apply(current, Fail(candidate.body.failureReason.value)) == incomplete;
      possibilities := possibilities + [incomplete.value];
    }
    exact := candidate in possibilities;
    assert exact ==> LegalStep(current, candidate);
    if action :| Apply(current, action) == Success(candidate) {
      SuccessorShape(current, action);
      if UnapprovedAdmissionPrepared(current) {
        UnapprovedAdmissionCannotSucceed(current, candidate);
      }
    }
  }

  lemma PreparingFailsOnlyWhenInvalid(r: Record)
    requires r.body.prepared.None? && r.body.status !in {Admitted, Incomplete}
    requires |r.body.completed| < VERIFICATION_STEP_COUNT || r.body.admissionApproval.Some?
    requires PrepareNextStep(r).Failure?
    ensures !Valid(r)
  {
  }

  lemma LivePreparedRecordTakesEvidence(current: Record, candidate: Record)
    requires LegalStep(current, candidate) && !UnapprovedAdmissionPrepared(current)
    requires current.body.prepared.Some? && candidate.body.evidence != []
    ensures RecordStepSuccess(current, candidate.body.evidence[|candidate.body.evidence| - 1]).Success?
  {
    hide Apply;
    var action :| Apply(current, action) == Success(candidate);
    SuccessorShape(current, action);
    SuccessIsAccepted(current, candidate.body.evidence[|candidate.body.evidence| - 1]);
  }

  // ---------------------------------------------------------------- the store

  datatype State = State(records: map<string, Record>, catalogue: map<ReleaseId, CatalogueRelease>)

  datatype Request =
    | PublishNew(record: Record)
    | CompareAndSwap(record: Record, expected: Digest)
    | PublishCatalogue(release: CatalogueRelease)

  ghost predicate Accepts(plan: ImportPlan, s: State, request: Request) {
    match request
    case PublishNew(record) =>
      && record.body.operationId !in s.records
      && Create(plan, record.body.operationId, record.body.importApproval) == Success(record)
    case CompareAndSwap(record, expected) =>
      && record.body.operationId in s.records
      && s.records[record.body.operationId].digest == expected
      && LegalStep(s.records[record.body.operationId], record)
      && !UnapprovedAdmissionPrepared(s.records[record.body.operationId])
    case PublishCatalogue(release) =>
      && release.releaseId !in s.catalogue
      && release.promotionOperationId in s.records
      && BuildCatalogueRelease(s.records[release.promotionOperationId]) == Success(release)
  }

  ghost function Handle(plan: ImportPlan, s: State, request: Request): State {
    if !Accepts(plan, s, request) then s
    else match request
      case PublishNew(record) => s.(records := s.records[record.body.operationId := record])
      case CompareAndSwap(record, _) => s.(records := s.records[record.body.operationId := record])
      case PublishCatalogue(release) => s.(catalogue := s.catalogue[release.releaseId := release])
  }

  ghost function HandleAll(plan: ImportPlan, s: State, requests: seq<Request>): State
    decreases |requests|
  {
    if requests == [] then s else HandleAll(plan, Handle(plan, s, requests[0]), requests[1..])
  }

  const EMPTY: State := State(map[], map[])

  lemma InitialRecordIsTheCreatedOne(plan: ImportPlan, record: Record)
    ensures (&& Valid(record)
             && record.body.status == Reserved && record.body.sequence == 0 && record.body.previous.None?
             && record.body.completed == [] && record.body.prepared.None?
             && record.body.admissionApproval.None? && record.body.failureReason.None?
             && record.body.candidateId == plan.candidateId && record.body.candidateDigest == plan.candidateDigest
             && record.body.importPlanDigest == plan.planDigest && record.body.artifactSha256 == plan.artifactSha256)
            <==> Create(plan, record.body.operationId, record.body.importApproval) == Success(record)
  {
  }

  lemma StepIsChained(current: Record, candidate: Record)
    requires LegalStep(current, candidate)
    ensures Valid(candidate) && candidate.body.previous == Some(current.digest)
    ensures candidate.body.sequence == current.body.sequence + 1
    ensures candidate.body.operationId == current.body.operationId
    ensures candidate.body.candidateDigest == current.body.candidateDigest
    ensures current.body.status !in {Admitted, Incomplete}
  {
    hide Apply, Valid;
    var action :| Apply(current, action) == Success(candidate);
    SuccessorShape(current, action);
  }

  class FixturePromotionStore {
    const plan: ImportPlan
    var records: map<string, Record>
    var catalogue: map<ReleaseId, CatalogueRelease>

    ghost function Contents(): State
      reads this
    {
      State(records, catalogue)
    }

    constructor (allowedPlan: ImportPlan)
      ensures plan == allowedPlan && Contents() == EMPTY
    {
      plan := allowedPlan;
      records := map[];
      catalogue := map[];
    }

    method PublishNew(record: Record) returns (accepted: bool)
      modifies this
      ensures accepted == Accepts(plan, old(Contents()), Request.PublishNew(record))
      ensures Contents() == Handle(plan, old(Contents()), Request.PublishNew(record))
    {
      InitialRecordIsTheCreatedOne(plan, record);
      var body := record.body;
      if !Valid(record) || body.status != Reserved || body.sequence != 0 || body.previous.Some?
         || body.completed != [] || body.prepared.Some? || body.admissionApproval.Some? || body.failureReason.Some?
      {
        return false;
      }
      if body.candidateId != plan.candidateId || body.candidateDigest != plan.candidateDigest
         || body.importPlanDigest != plan.planDigest || body.artifactSha256 != plan.artifactSha256
      {
        return false;
      }
      if body.operationId in records {
        return false;
      }
      records := records[body.operationId := record];
      accepted := true;
    }

    method CompareAndSwap(record: Record, expected: Digest) returns (accepted: bool)
      modifies this
      ensures accepted == Accepts(plan, old(Contents()), Request.CompareAndSwap(record, expected))
      ensures Contents() == Handle(plan, old(Contents()), Request.CompareAndSwap(record, expected))
    {
      var body := record.body;
      if body.operationId in records && LegalStep(records[body.operationId], record) {
        StepIsChained(records[body.operationId], record);
      }
      if !Valid(record) || body.operationId !in records || records[body.operationId].digest != expected {
        return false;
      }
      var current := records[body.operationId];
      if body.previous != Some(expected) || body.sequence != current.body.sequence + 1 {
        return false;
      }
      var exact := IsExactNextTransition(current, record);
      if !exact {
        return false;
      }
      records := records[body.operationId := record];
      accepted := true;
    }

    method Read(operationId: string) returns (found: Option<Record>)
      ensures found == if operationId in records && Valid(records[operationId])
                       then Some(records[operationId]) else None
    {
      if operationId !in records || !Valid(records[operationId]) {
        return None;
      }
      found := Some(records[operationId]);
    }

    method PublishCatalogue(release: CatalogueRelease) returns (accepted: bool)
      modifies this
      ensures accepted == Accepts(plan, old(Contents()), Request.PublishCatalogue(release))
      ensures Contents() == Handle(plan, old(Contents()), Request.PublishCatalogue(release))
      ensures accepted ==>
                && release.promotionOperationId in records
                && records[release.promotionOperationId].body.status == Admitted
                && ReleaseNames(records[release.promotionOperationId], release)
    {
      if !WellFormed(release.catalogueDigest) || release.releaseId in catalogue {
        return false;
      }
      var record := Read(release.promotionOperationId);
      if record.None? {
        return false;
      }
      if record.value.body.status != Admitted || record.value.digest != release.promotionRecordDigest {
        return false;
      }
      if BuildCatalogueRelease(record.value) != Success(release) {
        return false;
      }
      BuiltReleaseNames(record.value);
      catalogue := catalogue[release.releaseId := release];
      accepted := true;
    }
  }

  // ---------------------------------------------------------------- what every run of the store keeps

  ghost predicate Stored(plan: ImportPlan, operation: string, r: Record) {
    && Reached(r)
    && r.body.operationId == operation
    && r.body.candidateDigest == plan.candidateDigest && r.body.candidateId == plan.candidateId
  }

  ghost predicate AllStored(plan: ImportPlan, s: State) {
    && (forall operation | operation in s.records :: Stored(plan, operation, s.records[operation]))
    && (forall id | id in s.catalogue :: Catalogued(plan, s, id))
  }

  /** The release is what its still stored, admitted promotion builds. */
  ghost predicate Catalogued(plan: ImportPlan, s: State, id: ReleaseId)
    requires id in s.catalogue
  {
    var operation := s.catalogue[id].promotionOperationId;
    && id == ReleaseOf(plan.candidateDigest)
    && operation in s.records
    && s.records[operation].body.status == Admitted
    && BuildCatalogueRelease(s.records[operation]) == Success(s.catalogue[id])
  }

  /** What a catalogued release names: its promotion's record and evidence, and the store's plan. */
  ghost predicate CataloguedNames(plan: ImportPlan, s: State, id: ReleaseId)
    requires id in s.catalogue
  {
    var release := s.catalogue[id];
    && release.promotionOperationId in s.records
    && ReleaseNames(s.records[release.promotionOperationId], release)
    && release.candidateId == plan.candidateId && release.candidateDigest == plan.candidateDigest
  }

  lemma CataloguedNamesThePlan(plan: ImportPlan, s: State, id: ReleaseId)
    requires AllStored(plan, s) && id in s.catalogue
    ensures CataloguedNames(plan, s, id)
  {
    hide BuildCatalogueRelease, Valid;
    var operation := s.catalogue[id].promotionOperationId;
    assert Catalogued(plan, s, id) && Stored(plan, operation, s.records[operation]);
    AdmittedBuilds(s.records[operation]);
  }

  lemma BuiltReleaseNamesItsPlan(plan: ImportPlan, operation: string, r: Record)
    requires Stored(plan, operation, r) && BuildCatalogueRelease(r).Success?
    ensures BuildCatalogueRelease(r).value.releaseId == ReleaseOf(plan.candidateDigest)
    ensures BuildCatalogueRelease(r).value.promotionOperationId == operation
    ensures r.body.status == Admitted
  {
  }

  lemma StepKeepsStored(plan: ImportPlan, operation: string, current: Record, candidate: Record)
    requires Stored(plan, operation, current) && LegalStep(current, candidate)
    ensures Stored(plan, operation, candidate)
  {
    hide Apply, Valid;
    var action :| Apply(current, action) == Success(candidate);
    StepKeepsReached(current, action);
    StepKeepsEvidence(current, action);
    StepIsChained(current, candidate);
  }

  lemma HandleKeepsStored(plan: ImportPlan, s: State, request: Request)
    requires AllStored(plan, s)
    ensures AllStored(plan, Handle(plan, s, request))
  {
    hide Valid, Create, BuildCatalogueRelease;
    if Accepts(plan, s, request) {
      match request
      case PublishNew(record) => NewRecordIsStored(plan, record);
      case CompareAndSwap(record, _) =>
        StepKeepsStored(plan, record.body.operationId, s.records[record.body.operationId], record);
        StepIsChained(s.records[record.body.operationId], record);
      case PublishCatalogue(release) =>
        BuiltReleaseNamesItsPlan(plan, release.promotionOperationId, s.records[release.promotionOperationId]);
    }
  }

  lemma NewRecordIsStored(plan: ImportPlan, record: Record)
    requires Create(plan, record.body.operationId, record.body.importApproval) == Success(record)
    ensures Stored(plan, record.body.operationId, record)
  {
    CreateIsReached(plan, record.body.operationId, record.body.importApproval);
  }

  lemma {:induction false} RunKeepsStored(plan: ImportPlan, s: State, requests: seq<Request>)
    requires AllStored(plan, s)
    ensures AllStored(plan, HandleAll(plan, s, requests))
    decreases |requests|
  {
    hide AllStored;
    if requests == [] {
    } else {
      HandleKeepsStored(plan, s, requests[0]);
      RunKeepsStored(plan, Handle(plan, s, requests[0]), requests[1..]);
    }
  }

  /**
   In every run of a store, the catalogue holds at most one release, and it is exactly what
   `build_catalogue_release` makes of a promotion that is still stored and still admitted.
   */
  lemma CatalogueHoldsAtMostTheAdmittedRelease(plan: ImportPlan, requests: seq<Request>)
    ensures var s := HandleAll(plan, EMPTY, requests);
            && |s.catalogue| <= 1
            && forall id | id in s.catalogue ::
                 && s.catalogue[id].promotionOperationId in s.records
                 && s.records[s.catalogue[id].promotionOperationId].body.status == Admitted
                 && BuildCatalogueRelease(s.records[s.catalogue[id].promotionOperationId])
                    == Success(s.catalogue[id])
                 && ReleaseNames(s.records[s.catalogue[id].promotionOperationId], s.catalogue[id])
                 && id == ReleaseOf(plan.candidateDigest)
                 && s.catalogue[id].candidateId == plan.candidateId
                 && s.catalogue[id].candidateDigest == plan.candidateDigest
  {
    hide BuildCatalogueRelease, ReleaseNames;
    RunKeepsStored(plan, EMPTY, requests);
    forall id | id in HandleAll(plan, EMPTY, requests).catalogue
      ensures CataloguedNames(plan, HandleAll(plan, EMPTY, requests), id)
    {
      CataloguedNamesThePlan(plan, HandleAll(plan, EMPTY, requests), id);
    }
    var s := HandleAll(plan, EMPTY, requests);
    var only := {ReleaseOf(plan.candidateDigest)};
    assert s.catalogue.Keys <= only;
    assert only - s.catalogue.Keys != {} ==> |s.catalogue.Keys| == 0;
    assert only - s.catalogue.Keys == {} ==> s.catalogue.Keys == only;
  }

  /**
   For every record a run of the store holds, a swap that names its digest is accepted if and only if
   the candidate is the result of prepare, success, bind-admission or mark-incomplete applied to it.
   */
  lemma SwapIsAcceptedExactlyForLegalSteps(
      plan: ImportPlan, requests: seq<Request>, candidate: Record)
    requires candidate.body.operationId in HandleAll(plan, EMPTY, requests).records
    ensures var s := HandleAll(plan, EMPTY, requests);
            var current := s.records[candidate.body.operationId];
            Accepts(plan, s, Request.CompareAndSwap(candidate, current.digest))
            <==> exists action: Action :: Apply(current, action) == Success(candidate)
  {
    hide Apply, Valid;
    RunKeepsStored(plan, EMPTY, requests);
  }

  /** Outside runs the test is still sound, and misses steps exactly for an unapproved prepared admission. */
  lemma UnapprovedAdmissionIsRefusedOutright(plan: ImportPlan, s: State, operation: string)
    requires operation in s.records && Valid(s.records[operation])
    requires s.records[operation].body.operationId == operation
    ensures (forall candidate | LegalStep(s.records[operation], candidate) ::
               Accepts(plan, s, Request.CompareAndSwap(candidate, s.records[operation].digest)))
            <==> !UnapprovedAdmissionPrepared(s.records[operation])
                 || s.records[operation].body.status == Incomplete
  {
    var current := s.records[operation];
    forall candidate | LegalStep(current, candidate)
      ensures candidate.body.operationId == operation && current.body.status != Incomplete
    {
      StepIsChained(current, candidate);
    }
    if UnapprovedAdmissionPrepared(current) && current.body.status != Incomplete {
      var stop := Fail([Glyph(0x78, true)]);
      var stopped := Apply(current, stop).value;
      assert LegalStep(current, stopped);
      assert !Accepts(plan, s, Request.CompareAndSwap(stopped, current.digest));
    }
  }

  // ---------------------------------------------------------------- competing writers

  lemma {:induction false} SequenceNeverFalls(
      plan: ImportPlan, s: State, requests: seq<Request>, operation: string)
    requires operation in s.records
    ensures operation in HandleAll(plan, s, requests).records
    ensures var later := HandleAll(plan, s, requests).records[operation];
            later == s.records[operation] || later.body.sequence > s.records[operation].body.sequence
    decreases |requests|
  {
    hide LegalStep, Create, BuildCatalogueRelease;
    if requests == [] {
    } else {
      var next := Handle(plan, s, requests[0]);
      if next.records[operation] != s.records[operation] {
        StepIsChained(s.records[operation], next.records[operation]);
      }
      SequenceNeverFalls(plan, next, requests[1..], operation);
    }
  }

  /** Once a swap won, no later writer that still expects the replaced digest is accepted. */
  lemma StaleWriterNeverWins(
      plan: ImportPlan, s: State, winner: Record, between: seq<Request>, loser: Record, expected: Digest)
    requires AllStored(plan, s)
    requires Accepts(plan, s, Request.CompareAndSwap(winner, expected))
    requires loser.body.operationId == winner.body.operationId
    ensures var later := HandleAll(plan, Handle(plan, s, Request.CompareAndSwap(winner, expected)), between);
            !Accepts(plan, later, Request.CompareAndSwap(loser, expected))
  {
    hide LegalStep;
    var operation := winner.body.operationId;
    var next := Handle(plan, s, Request.CompareAndSwap(winner, expected));
    StepIsChained(s.records[operation], winner);
    SequenceNeverFalls(plan, next, between, operation);
    HandleKeepsStored(plan, s, Request.CompareAndSwap(winner, expected));
    RunKeepsStored(plan, next, between);
  }
}
