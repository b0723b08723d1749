/** Runs of the attachment lifecycle, and what its store does and does not check. */
module ExternalModelLifecycleRuns {
  import opened Common
  import opened ExternalModelLifecycle

  /** Steps taken, read off the record. */
  function StepsTaken(body: Payload): nat {
    2 * (|body.completedAttach| + |body.completedDetach|)
    + (if body.prepared.Some? then 1 else 0)
    + (if body.activationEvidence.Some? then 1 else 0)
    + (if body.detachApproval.Some? then 1 else 0)
    + (if body.failureReason.Some? then 1 else 0)
  }

  /** A detach step has been prepared or completed. */
  ghost predicate DetachBegun(body: Payload) {
    || body.completedDetach != []
    || (body.prepared.Some? && body.prepared.value in DETACH_STEPS)
  }

  ghost predicate Reached(r: Record) {
    && Valid(r)
    && r.body.sequence == StepsTaken(r.body)
    && (r.body.detachApproval.Some? || r.body.activationEvidence.Some? ==> r.body.completedAttach == ATTACH_STEPS)
    && (DetachBegun(r.body) ==> r.body.detachApproval.Some?)
    && (r.body.prepared.Some? ==>
          if r.body.detachApproval.None?
          then |r.body.completedAttach| < 6 && r.body.prepared.value == ATTACH_STEPS[|r.body.completedAttach|]
          else |r.body.completedDetach| < 6 && r.body.prepared.value == DETACH_STEPS[|r.body.completedDetach|])
    && (r.body.status == PreservedUncertain <==> r.body.failureReason.Some?)
    && (r.body.completedDetach == DETACH_STEPS ==> r.body.status == Detached)
  }

  lemma CreateIsReached(preview: AttachmentPreview)
    requires Create(preview).Success?
    ensures Reached(Create(preview).value)
  {
  }

  lemma SucceedKeepsReached(r: Record, evidence: Digest)
    requires Reached(r) && RecordStepSuccess(r, evidence).Success?
    ensures Reached(RecordStepSuccess(r, evidence).value)
  {
    var next := RecordStepSuccess(r, evidence).value.body;
    if r.body.detachApproval.None? {
      assert next.completedAttach == ATTACH_STEPS[..|r.body.completedAttach| + 1];
    } else {
      assert next.completedDetach == DETACH_STEPS[..|r.body.completedDetach| + 1];
    }
  }

  lemma PrepareKeepsReached(r: Record)
    requires Reached(r) && PrepareNextStep(r).Success?
    ensures Reached(PrepareNextStep(r).value)
  {
  }

  lemma StepKeepsReached(r: Record, action: Action)
    requires Reached(r) && Apply(r, action).Success?
    ensures Reached(Apply(r, action).value)
  {
    match action
    case Prepare => PrepareKeepsReached(r);
    case Succeed(evidence) => SucceedKeepsReached(r, evidence);
    case _ =>
  }

  lemma StepAdvancesSequence(r: Record, action: Action)
    requires Apply(r, action).Success?
    ensures Apply(r, action).value.body.sequence == r.body.sequence + 1
  {
  }

  lemma {:induction false} RunKeepsReached(r: Record, actions: seq<Action>)
    requires Reached(r) && Run(r, actions).Success?
    ensures Reached(Run(r, actions).value)
    ensures Run(r, actions).value.body.sequence == r.body.sequence + |actions|
    decreases |actions|
  {
    hide Apply;
    if actions == [] {
    } else {
      StepKeepsReached(r, actions[0]);
      StepAdvancesSequence(r, actions[0]);
      RunKeepsReached(Apply(r, actions[0]).value, actions[1..]);
    }
  }

  lemma ReachedRecordIsSafe(r: Record)
    requires Reached(r)
    ensures StepsTaken(r.body) <= 26
    ensures DetachBegun(r.body)
            ==> r.body.completedAttach == ATTACH_STEPS && |r.body.attachEvidence| == 6 && r.body.detachApproval.Some?
    ensures r.body.status == Detached
            ==> |r.body.attachEvidence| == 6 && |r.body.detachEvidence| == 6 && r.body.prepared.None?
  {
  }

  /** Recovery allows Development to be active only when fully attached, or fully detached again. */
  lemma ActivationAllowedExactlyOutsideTransitions(r: Record)
    requires Reached(r)
    ensures AssessRecovery(r).Success? && !AssessRecovery(r).value.automaticCleanupAllowed
    ensures AssessRecovery(r).value.developmentActivationAllowed
            <==> r.body.prepared.None? && r.body.failureReason.None?
                 && r.body.completedAttach == ATTACH_STEPS
                 && (r.body.detachApproval.None? || r.body.completedDetach == DETACH_STEPS)
  {
  }

  /** Each class of recovery, by the phase and what was completed in it. */
  lemma RecoveryClassExactly(r: Record)
    requires Reached(r)
    ensures AssessRecovery(r).Success?
    ensures var kind, body := AssessRecovery(r).value.classification, r.body;
            var between := body.prepared.None? && body.failureReason.None?;
            && (kind == CompleteDetached <==> body.completedDetach == DETACH_STEPS)
            && (kind == ActiveRequiresNormalStop
                <==> between && body.activationEvidence.Some? && body.detachApproval.None?)
            && (kind == AttachedAndStopped
                <==> && between && body.completedAttach == ATTACH_STEPS
                     && body.activationEvidence.None? && body.detachApproval.None?)
            && (kind == PreserveEffectOutcomeUncertain <==> body.prepared.Some?)
            && (kind == PreserveAndInspect <==> body.prepared.None? && body.failureReason.Some?)
            && (kind == PreservePartialDetach
                <==> between && body.completedDetach != [] && body.completedDetach != DETACH_STEPS)
            && (kind == NoEffectRecorded <==> between && body.completedAttach == [])
            && (kind == PreservePartialAttach
                <==> && between && body.completedAttach != [] && body.completedDetach == []
                     && (body.completedAttach == ATTACH_STEPS ==> body.detachApproval.Some?))
    ensures AssessRecovery(r).value.continuationAllowed
            <==> && r.body.prepared.None? && r.body.failureReason.None?
                 && r.body.completedAttach == ATTACH_STEPS && r.body.detachApproval.None?
  {
  }

  /**
   In every run: the sequence counts two per completed step and one per other mark, at most 26 steps
   are taken, and no detach step is even prepared before all six attach steps have evidence and the
   detach approval is bound.
   */
  lemma DetachNeverPrecedesAttach(preview: AttachmentPreview, actions: seq<Action>, r: Record)
    requires Create(preview).Success? && Run(Create(preview).value, actions) == Success(r)
    ensures |actions| == r.body.sequence == StepsTaken(r.body) <= 26
    ensures DetachBegun(r.body)
            ==> r.body.completedAttach == ATTACH_STEPS && |r.body.attachEvidence| == 6 && r.body.detachApproval.Some?
    ensures r.body.status == Detached
            ==> |r.body.attachEvidence| == 6 && |r.body.detachEvidence| == 6 && r.body.prepared.None?
  {
    hide Apply, Create, Valid;
    assert Create(preview).value.body.sequence == 0 by {
      FreshSequenceIsZero(preview);
    }
    CreateIsReached(preview);
    RunKeepsReached(Create(preview).value, actions);
    ReachedRecordIsSafe(r);
  }

  lemma FreshSequenceIsZero(preview: AttachmentPreview)
    requires Create(preview).Success?
    ensures Create(preview).value.body.sequence == 0
  {
  }

  /** A reached record has a successor exactly when it is neither detached nor uncertain. */
  lemma TerminalExactlyWithoutSuccessor(r: Record)
    requires Reached(r)
    ensures r.body.status in {Detached, PreservedUncertain} <==> forall action :: Apply(r, action).Failure?
  {
    if r.body.status !in {Detached, PreservedUncertain} {
      assert Apply(r, Doubt([Glyph(0x78, true)])).Success?;
    }
  }

  // ---------------------------------------------------------------- the store

  datatype Request = PublishNew(record: Record) | CompareAndSwap(record: Record, expected: Digest)

  class FixtureAttachmentStore {
    const previewDigest: Digest
    var record: Option<Record>
    /** Everything the store was ever asked. */
    ghost var requests: seq<Request>

    /** Every record held so far, oldest first. */
    ghost function Held(): seq<Record>
      reads this
    {
      History(previewDigest, requests)
    }

    /** The record is the newest of the history. */
    ghost predicate Consistent()
      reads this
    {
      record == if Held() == [] then None else Some(Held()[|Held()| - 1])
    }

    /** The source raises when the allowed preview digest is malformed. */
    constructor (allowed: Digest)
      requires WellFormed(allowed)
      ensures Consistent() && previewDigest == allowed && Held() == []
    {
      previewDigest := allowed;
      record := None;
      requests := [];
    }

    /** Accepted exactly as the first link of a chain. */
    method PublishNew(first: Record) returns (accepted: bool)
      requires Consistent()
      modifies this
      ensures Consistent() && requests == old(requests) + [Request.PublishNew(first)]
      ensures accepted <==> old(Held()) == [] && ChainedAt(previewDigest, [first], 0)
      ensures Held() == old(Held()) + if accepted then [first] else []
    {
      hide ValidPayload;
      OneMoreRequest(previewDigest, requests, Request.PublishNew(first));
      requests := requests + [Request.PublishNew(first)];
      if !Valid(first) || record.Some? || first.body.previewDigest != previewDigest || first.body.sequence != 0 {
        return false;
      }
      FirstRecordHasNoPrevious(first);
      record := Some(first);
      accepted := true;
    }

    /** Accepted exactly as the next link after the newest record, by a writer that names its digest. */
    method CompareAndSwap(next: Record, expected: Digest) returns (accepted: bool)
      requires Consistent()
      modifies this
      ensures Consistent() && requests == old(requests) + [Request.CompareAndSwap(next, expected)]
      ensures accepted <==>
              && old(Held()) != [] && expected == old(Held())[|old(Held())| - 1].digest
              && ChainedAt(previewDigest, old(Held()) + [next], |old(Held())|)
      ensures Held() == old(Held()) + if accepted then [next] else []
      ensures (exists i :: 0 <= i < |old(Held())| - 1 && old(Held())[i].digest == expected) ==> !accepted
    {
      hide ValidPayload, History;
      ghost var before := Held();
      HistoryIsAHashChain(previewDigest, requests);
      assert before != [] ==> ChainedAt(previewDigest, before, |before| - 1);
      forall i | 0 <= i < |before| - 1 ensures before[i].digest != before[|before| - 1].digest {
        NoDigestRecurs(previewDigest, requests, i, |before| - 1);
      }
      OneMoreRequest(previewDigest, requests, Request.CompareAndSwap(next, expected));
      requests := requests + [Request.CompareAndSwap(next, expected)];
      if !Valid(next) || record.None? || record.value.digest != expected {
        return false;
      }
      if next.body.previous != Some(record.value.digest) || next.body.sequence != record.value.body.sequence + 1
         || next.body.previewDigest != previewDigest
      {
        return false;
      }
      record := Some(next);
      accepted := true;
    }
  }

  lemma OneMoreRequest(previewDigest: Digest, requests: seq<Request>, request: Request)
    ensures var before := History(previewDigest, requests);
            var current := if before == [] then None else Some(before[|before| - 1]);
            History(previewDigest, requests + [request])
            == before + if Accepts(previewDigest, current, request) then [request.record] else []
  {
    hide Accepts;
    assert (requests + [request])[..|requests|] == requests;
  }

  predicate Accepts(previewDigest: Digest, current: Option<Record>, request: Request) {
    && Valid(request.record)
    && request.record.body.previewDigest == previewDigest
    && match request
       case PublishNew(record) => current.None? && record.body.sequence == 0
       case CompareAndSwap(record, expected) =>
         && current.Some? && current.value.digest == expected
         && record.body.previous == Some(expected)
         && record.body.sequence == current.value.body.sequence + 1
  }

  /** Every record the store ever held, oldest first. */
  function History(previewDigest: Digest, requests: seq<Request>): (held: seq<Record>)
    decreases |requests|
  {
    if requests == [] then []
    else
      var before := History(previewDigest, requests[..|requests| - 1]);
      var request := requests[|requests| - 1];
      var current := if before == [] then None else Some(before[|before| - 1]);
      if Accepts(previewDigest, current, request) then before + [request.record] else before
  }

  /** The `i`th record held has sequence `i` and names the digest of the one before. */
  predicate ChainedAt(previewDigest: Digest, held: seq<Record>, i: nat)
    requires i < |held|
  {
    && Valid(held[i])
    && held[i].body.sequence == i
    && held[i].body.previewDigest == previewDigest
    && held[i].body.previous == if i == 0 then None else Some(held[i - 1].digest)
  }

  lemma {:induction false} HistoryIsAHashChain(previewDigest: Digest, requests: seq<Request>)
    ensures forall i | 0 <= i < |History(previewDigest, requests)| ::
              ChainedAt(previewDigest, History(previewDigest, requests), i)
    decreases |requests|
  {
    hide ValidPayload;
    if requests == [] {
    } else {
      HistoryIsAHashChain(previewDigest, requests[..|requests| - 1]);
      var before := History(previewDigest, requests[..|requests| - 1]);
      var held := History(previewDigest, requests);
      forall i | 0 <= i < |held| ensures ChainedAt(previewDigest, held, i) {
        if i < |before| {
          assert ChainedAt(previewDigest, before, i);
        } else if before == [] {
          FirstRecordHasNoPrevious(held[0]);
        } else {
          assert ChainedAt(previewDigest, before, i - 1);
        }
      }
    }
  }

  lemma FirstRecordHasNoPrevious(r: Record)
    requires Valid(r) && r.body.sequence == 0
    ensures r.body.previous.None?
  {
  }

  /** No digest is ever held twice, so a writer that read an older record cannot swap. */
  lemma NoDigestRecurs(previewDigest: Digest, requests: seq<Request>, i: nat, j: nat)
    requires i < j < |History(previewDigest, requests)|
    ensures History(previewDigest, requests)[i].digest != History(previewDigest, requests)[j].digest
  {
    hide ValidPayload;
    HistoryIsAHashChain(previewDigest, requests);
    var held := History(previewDigest, requests);
    assert ChainedAt(previewDigest, held, i) && ChainedAt(previewDigest, held, j);
  }

  /**
   The chain is all the store checks. A store for any preview can hold, as its first record, a
   lifecycle that claims to be detached already: a record no run of the step functions returns.
   */
  lemma StoreAcceptsUnearnedRecords(preview: AttachmentPreview, evidence: Digest)
    requires Create(preview).Success? && WellFormed(evidence)
    ensures exists forged: Record ::
              && Accepts(preview.previewDigest, None, Request.PublishNew(forged))
              && forged.body.status == Detached
              && !Reached(forged)
  {
    var all := [evidence, evidence, evidence, evidence, evidence, evidence];
    var body := Create(preview).value.body.(
      completedAttach := ATTACH_STEPS, attachEvidence := all, detachApproval := Some(evidence),
      completedDetach := DETACH_STEPS, detachEvidence := all, status := Detached);
    assert Accepts(preview.previewDigest, None, Request.PublishNew(WithDigest(body)));
  }

  lemma StepChangesStatus(r: Record, action: Action)
    requires Apply(r, action).Success?
    ensures Apply(r, action).value.body.status != r.body.status
  {
    hide ValidPayload, AcceptableReason;
  }

  /** The same record once more, as its own successor. */
  function Again(r: Record): Record {
    WithDigest(r.body.(sequence := r.body.sequence + 1, previous := Some(r.digest)))
  }

  ghost predicate ResultOfNoAction(r: Record, next: Record) {
    forall action: Action :: Apply(r, action) != Success(next)
  }

  lemma AgainIsNoStep(r: Record)
    ensures ResultOfNoAction(r, Again(r))
  {
    hide Apply;
    forall action: Action ensures Apply(r, action) != Success(Again(r)) {
      if Apply(r, action).Success? {
        StepChangesStatus(r, action);
      }
    }
  }

  lemma AgainIsAccepted(previewDigest: Digest, r: Record)
    requires Valid(r) && r.body.previewDigest == previewDigest
    ensures Accepts(previewDigest, Some(r), Request.CompareAndSwap(Again(r), r.digest))
  {
  }

  /** For every record a store holds, some accepted swap is the result of no action: the same record once more. */
  lemma SwapAcceptsMoreThanSteps(previewDigest: Digest, requests: seq<Request>)
    requires History(previewDigest, requests) != []
    ensures var held := History(previewDigest, requests);
            var last := held[|held| - 1];
            exists next: Record ::
              && Accepts(previewDigest, Some(last), Request.CompareAndSwap(next, last.digest))
              && ResultOfNoAction(last, next)
  {
    hide History, Accepts, Valid, ResultOfNoAction;
    HistoryIsAHashChain(previewDigest, requests);
    var held := History(previewDigest, requests);
    var last := held[|held| - 1];
    assert ChainedAt(previewDigest, held, |held| - 1);
    AgainIsAccepted(previewDigest, last);
    AgainIsNoStep(last);
  }

  // ---------------------------------------------------------------- what is written

  /** A created lifecycle is bound to its preview, and to nothing else yet. */
  lemma CreatedBindsItsPreview(preview: AttachmentPreview)
    requires Create(preview).Success?
    ensures preview.previewOnly && preview.separateApprovalRequired && preview.effects == ATTACH_STEPS
    ensures preview.schemaVersion == SCHEMA_VERSION && preview.profile == PROFILE
    ensures var body := Create(preview).value.body;
            && body.operationId == preview.operationId && body.attachmentId == preview.attachmentId
            && body.generation == preview.generation && body.previewDigest == preview.previewDigest
            && body.attachSteps == ATTACH_STEPS && body.detachSteps == DETACH_STEPS
            && body.completedAttach == [] && body.completedDetach == []
            && body.attachEvidence == [] && body.detachEvidence == []
            && body.activationEvidence.None? && body.detachApproval.None? && body.prepared.None?
            && body.failureReason.None? && body.status == AttachPlanned && body.sequence == 0 && body.previous.None?
  {
  }

  /** What each step of a run writes, from what it is given; every field not named keeps its value. */
  lemma StepWritesExactly(r: Record, action: Action)
    requires Reached(r) && Apply(r, action).Success?
    ensures var next := Apply(r, action).value.body;
            var chained := r.body.(sequence := r.body.sequence + 1, previous := Some(r.digest), status := next.status);
            var attached, detached := |r.body.completedAttach|, |r.body.completedDetach|;
            match action
            case Prepare =>
              && next.status == EffectPrepared && next.prepared.Some?
              && next == chained.(prepared := next.prepared)
              && if r.body.detachApproval.None?
                 then attached < 6 && next.prepared.value == ATTACH_STEPS[attached]
                 else detached < 6 && next.prepared.value == DETACH_STEPS[detached]
            case Succeed(evidence) =>
              && WellFormed(evidence)
              && if r.body.detachApproval.None?
                 then && attached < 6
                      && next == chained.(completedAttach := ATTACH_STEPS[..attached + 1],
                                          attachEvidence := r.body.attachEvidence + [evidence], prepared := None)
                 else && detached < 6
                      && next == chained.(completedDetach := DETACH_STEPS[..detached + 1],
                                          detachEvidence := r.body.detachEvidence + [evidence], prepared := None)
            case Activate(evidence) =>
              && next == chained.(activationEvidence := Some(evidence)) && next.status == Active && WellFormed(evidence)
            case Detach(approval) =>
              && next == chained.(detachApproval := Some(approval)) && next.status == DetachPlanned
              && WellFormed(approval)
            case Doubt(reason) =>
              && next == chained.(failureReason := Some(reason)) && next.status == PreservedUncertain
              && 0 < |reason| <= 160 && forall i | 0 <= i < |reason| :: reason[i].printable
  {
    if action.Succeed? {
      SucceedWritesExactly(r, action.evidence);
    }
  }

  lemma SucceedWritesExactly(r: Record, evidence: Digest)
    requires Reached(r) && RecordStepSuccess(r, evidence).Success?
    ensures r.body.prepared.Some?
    ensures if r.body.detachApproval.None?
            then && |r.body.completedAttach| < 6 && r.body.prepared.value in ATTACH_STEPS
                 && r.body.completedAttach + [r.body.prepared.value] == ATTACH_STEPS[..|r.body.completedAttach| + 1]
            else && |r.body.completedDetach| < 6 && r.body.prepared.value in DETACH_STEPS
                 && r.body.prepared.value !in ATTACH_STEPS
                 && r.body.completedDetach + [r.body.prepared.value] == DETACH_STEPS[..|r.body.completedDetach| + 1]
  {
  }

  /** Which actions a reached record admits, and with what, exactly. */
  lemma ActionsPossibleExactly(r: Record, action: Action)
    requires Reached(r)
    ensures var body, live := r.body, r.body.failureReason.None?;
            Apply(r, action).Success? <==>
            match action
            case Prepare =>
              && live && body.prepared.None?
              && if body.detachApproval.None? then |body.completedAttach| < 6 else |body.completedDetach| < 6
            case Succeed(evidence) => live && body.prepared.Some? && WellFormed(evidence)
            case Activate(evidence) =>
              && live && body.prepared.None? && |body.completedAttach| == 6
              && body.activationEvidence.None? && body.detachApproval.None? && WellFormed(evidence)
            case Detach(approval) =>
              && live && body.prepared.None? && |body.completedAttach| == 6 && body.detachApproval.None?
              && WellFormed(approval)
            case Doubt(reason) => live && |body.completedDetach| < 6 && AcceptableReason(reason)
  {
    hide PrepareNextStep, RecordStepSuccess, RecordActivation, BeginDetach, MarkUncertain, Reached, AcceptableReason;
    match action
    case Prepare => PreparePossibleExactly(r);
    case Succeed(evidence) => SucceedPossibleExactly(r, evidence);
    case Activate(evidence) => ActivatePossibleExactly(r, evidence);
    case Detach(approval) => DetachPossibleExactly(r, approval);
    case Doubt(reason) => DoubtPossibleExactly(r, reason);
  }

  lemma PreparePossibleExactly(r: Record)
    requires Reached(r)
    ensures PrepareNextStep(r).Success?
            <==> && r.body.failureReason.None? && r.body.prepared.None?
                 && if r.body.detachApproval.None? then |r.body.completedAttach| < 6 else |r.body.completedDetach| < 6
  {
  }

  lemma SucceedPossibleExactly(r: Record, evidence: Digest)
    requires Reached(r)
    ensures RecordStepSuccess(r, evidence).Success?
            <==> r.body.failureReason.None? && r.body.prepared.Some? && WellFormed(evidence)
  {
    if r.body.failureReason.None? && r.body.prepared.Some? && WellFormed(evidence) {
      SuccessIsPossible(r, evidence);
    }
    hide Next;
  }

  lemma ActivatePossibleExactly(r: Record, evidence: Digest)
    requires Reached(r)
    ensures RecordActivation(r, evidence).Success?
            <==> && r.body.failureReason.None? && r.body.prepared.None? && |r.body.completedAttach| == 6
                 && r.body.activationEvidence.None? && r.body.detachApproval.None? && WellFormed(evidence)
  {
  }

  lemma DetachPossibleExactly(r: Record, approval: Digest)
    requires Reached(r)
    ensures BeginDetach(r, approval).Success?
            <==> && r.body.failureReason.None? && r.body.prepared.None? && |r.body.completedAttach| == 6
                 && r.body.detachApproval.None? && WellFormed(approval)
  {
  }

  lemma DoubtPossibleExactly(r: Record, reason: seq<Glyph>)
    requires Reached(r)
    ensures MarkUncertain(r, reason).Success?
            <==> r.body.failureReason.None? && |r.body.completedDetach| < 6 && AcceptableReason(reason)
  {
  }

  lemma SuccessIsPossible(r: Record, evidence: Digest)
    requires Reached(r) && r.body.failureReason.None? && r.body.prepared.Some? && WellFormed(evidence)
    ensures RecordStepSuccess(r, evidence).Success?
  {
    if r.body.detachApproval.None? {
      AttachIsPossible(r, evidence);
    } else {
      DetachIsPossible(r, evidence);
    }
  }

  /** The payload after an attach step. */
  function Attached(r: Record, evidence: Digest, n: nat): Payload
    requires n < 6
  {
    r.body.(completedAttach := ATTACH_STEPS[..n + 1], attachEvidence := r.body.attachEvidence + [evidence],
            prepared := None, status := if n + 1 == 6 then AttachedStopped else Attaching,
            sequence := r.body.sequence + 1, previous := Some(r.digest))
  }

  function DetachedOne(r: Record, evidence: Digest, n: nat): Payload
    requires n < 6
  {
    r.body.(completedDetach := DETACH_STEPS[..n + 1], detachEvidence := r.body.detachEvidence + [evidence],
            prepared := None, status := if n + 1 == 6 then Detached else Detaching,
            sequence := r.body.sequence + 1, previous := Some(r.digest))
  }

  lemma AttachedIsValid(r: Record, evidence: Digest, n: nat)
    requires Reached(r) && r.body.failureReason.None? && r.body.prepared.Some? && WellFormed(evidence)
    requires r.body.detachApproval.None? && n == |r.body.completedAttach| < 6
    ensures ValidPayload(Attached(r, evidence, n))
  {
    hide IsGeneration, StepsTaken, IsTaggedHex;
    assert n + 1 < 6 ==> ATTACH_STEPS[..n + 1] != ATTACH_STEPS;
  }

  lemma DetachedOneIsValid(r: Record, evidence: Digest, n: nat)
    requires Reached(r) && r.body.failureReason.None? && r.body.prepared.Some? && WellFormed(evidence)
    requires r.body.detachApproval.Some? && n == |r.body.completedDetach| < 6
    ensures ValidPayload(DetachedOne(r, evidence, n))
  {
    hide IsGeneration, StepsTaken, IsTaggedHex;
    assert n + 1 < 6 ==> DETACH_STEPS[..n + 1] != DETACH_STEPS;
  }

  lemma AttachPosition(r: Record)
    requires Reached(r) && r.body.failureReason.None? && r.body.prepared.Some? && r.body.detachApproval.None?
    ensures Valid(r) && r.body.attachSteps == ATTACH_STEPS && r.body.status == EffectPrepared
    ensures var n := |r.body.completedAttach|;
            && n < 6 && r.body.prepared.value == ATTACH_STEPS[n] && r.body.prepared.value in ATTACH_STEPS
            && r.body.completedAttach == ATTACH_STEPS[..n] && r.body.completedDetach == []
  {
  }

  lemma DetachPosition(r: Record)
    requires Reached(r) && r.body.failureReason.None? && r.body.prepared.Some? && r.body.detachApproval.Some?
    ensures Valid(r) && r.body.attachSteps == ATTACH_STEPS && r.body.detachSteps == DETACH_STEPS
    ensures r.body.status == EffectPrepared
    ensures var n := |r.body.completedDetach|;
            && n < 6 && r.body.prepared.value == DETACH_STEPS[n] && r.body.completedDetach == DETACH_STEPS[..n]
  {
  }

  lemma AttachIsPossible(r: Record, evidence: Digest)
    requires Reached(r) && r.body.failureReason.None? && r.body.prepared.Some? && WellFormed(evidence)
    requires r.body.detachApproval.None?
    ensures RecordStepSuccess(r, evidence).Success?
  {
    var n := |r.body.completedAttach|;
    AttachPosition(r);
    AttachedIsValid(r, evidence, n);
    hide ValidPayload, Reached;
    PrefixGrows(ATTACH_STEPS, n);
    assert RecordStepSuccess(r, evidence) == Next(r, Attached(r, evidence, n));
    assert Next(r, Attached(r, evidence, n)) == Success(WithDigest(Attached(r, evidence, n)));
  }

  lemma PrefixGrows(steps: seq<LifecycleStep>, n: nat)
    requires n < |steps|
    ensures steps[..n] + [steps[n]] == steps[..n + 1]
    ensures steps[..n + 1] == steps <==> n + 1 == |steps|
  {
  }

  lemma DetachIsPossible(r: Record, evidence: Digest)
    requires Reached(r) && r.body.failureReason.None? && r.body.prepared.Some? && WellFormed(evidence)
    requires r.body.detachApproval.Some?
    ensures RecordStepSuccess(r, evidence).Success?
  {
    var n := |r.body.completedDetach|;
    DetachPosition(r);
    DetachStepsAreOthers(n);
    DetachedOneIsValid(r, evidence, n);
    hide ValidPayload, Reached;
    PrefixGrows(DETACH_STEPS, n);
    assert RecordStepSuccess(r, evidence) == Next(r, DetachedOne(r, evidence, n));
    assert Next(r, DetachedOne(r, evidence, n)) == Success(WithDigest(DetachedOne(r, evidence, n)));
  }

  lemma DetachStepsAreOthers(i: nat)
    requires i < 6
    ensures DETACH_STEPS[i] in DETACH_STEPS && DETACH_STEPS[i] !in ATTACH_STEPS
  {
  }

  /** What a valid record names is in canonical form. */
  lemma ValidRecordsNameCanonically(r: Record)
    requires Valid(r)
    ensures IsGeneration(r.body.generation)
    ensures IsTaggedHex("operation-", r.body.operationId) && IsTaggedHex("attachment-", r.body.attachmentId)
    ensures forall d | d in r.body.attachEvidence + r.body.detachEvidence + [r.body.previewDigest] :: WellFormed(d)
  {
  }
}
