/**
 The executor's operation journal (src/apx_executor_journal.py): its step functions, the merging of
 observed resources, its validator and its recovery assessment.
 */
module ExecutorJournal {
  import opened Common
  import opened Ordering

  const SCHEMA_VERSION := 1
  const PROTOCOL_VERSION := "apx-executor-v1"
  const MAX_RESOURCES := 64
  const MAX_EFFECTS := 32
  const RESOURCE_TYPES: set<string> :=
    {"account", "archive", "home", "metadata", "network", "registration", "root", "runtime", "snapshot"}

  datatype Status = Reserved | Executing | EffectPrepared | VerifyingFinal | Complete | Incomplete
    | OtherStatus(name: string)

  datatype RecoveryClass =
    | NoRecovery | NoEffect | ContinuationEligible | AutomaticRollbackEligible | PreserveRecoveryRequired
    | PreserveIdentityUncertain | PreserveEffectOutcomeUncertain | OtherClass(name: string)

  datatype ResourceState =
    | NotCreated | OwnedEmpty | OwnedModified | Published | ForeignOrConflicting | IdentityUncertain
    | OtherState(name: string)

  /** SHA-256 of the canonical JSON as a free constructor, or a digest supplied as text. */
  datatype Digest = Text(text: string) | OfJournal(payload: Payload)

  datatype Resource = Resource(
    id: string, kind: string, identity: Option<Digest>, state: ResourceState, published: bool, used: bool,
    modified: bool)

  datatype Payload = Payload(
    schemaVersion: int,
    protocolVersion: string,
    operationId: string,
    operationKind: string,
    logicalName: string,
    expectedGeneration: int,
    planDigest: Digest,
    requestDigest: Digest,
    approvalId: string,
    nonceDigest: Digest,
    policyVersion: string,
    effects: seq<string>,
    completed: seq<string>,
    prepared: Option<string>,
    resources: seq<Resource>,
    status: Status,
    recoveryClass: RecoveryClass,
    finalEvidence: Option<Digest>,
    failureReason: Option<seq<Glyph>>,
    sequence: int,
    previous: Option<Digest>)

  datatype Journal = Journal(body: Payload, digest: Digest)

  /** What the journal reads of an operation plan. */
  datatype OperationPlan = OperationPlan(
    operationKind: string, logicalName: string, expectedGeneration: int, policyVersion: string,
    effects: seq<string>, planDigest: Digest)

  predicate WellFormed(d: Digest) {
    d.OfJournal? || IsHexDigest(d.text)
  }

  predicate OptionalWellFormed(d: Option<Digest>) {
    d.Some? ==> WellFormed(d.value)
  }

  // ---------------------------------------------------------------- resources

  /** `[a-z0-9][a-z0-9.-]{0,127}`. */
  predicate SafeId(id: string) {
    && 1 <= |id| <= 128
    && (forall i | 0 <= i < |id| ::
          'a' <= id[i] <= 'z' || '0' <= id[i] <= '9' || (i > 0 && id[i] in {'.', '-'}))
  }

  predicate ValidResource(r: Resource) {
    && SafeId(r.id)
    && r.kind in RESOURCE_TYPES
    && OptionalWellFormed(r.identity)
    && !r.state.OtherState?
    && (r.state == NotCreated ==> !r.published && !r.used && !r.modified)
    && (r.published <==> r.state == Published)
  }

  /** The one order journals keep resources in: by identifier, each once. */
  predicate Canonical(resources: seq<Resource>) {
    forall i, j | 0 <= i < j < |resources| ::
      TextLeq(resources[i].id, resources[j].id) && resources[i].id != resources[j].id
  }

  function Find(resources: seq<Resource>, id: string): Option<Resource> {
    if resources == [] then None
    else if resources[|resources| - 1].id == id then Some(resources[|resources| - 1])
    else Find(resources[..|resources| - 1], id)
  }

  /** A canonical list with one resource recorded, in place of any under the same identifier. */
  function Put(resources: seq<Resource>, r: Resource): seq<Resource> {
    if resources == [] then [r]
    else
      var front, last := resources[..|resources| - 1], resources[|resources| - 1];
      if last.id == r.id then front + [r]
      else if TextLeq(last.id, r.id) then resources + [r]
      else Put(front, r) + [last]
  }

  /** Recording a list of observations one by one; an invalid one or a changed identity stops it. */
  function PutAll(resources: seq<Resource>, observed: seq<Resource>): Result<seq<Resource>> {
    if observed == [] then Success(resources)
    else
      var before :- PutAll(resources, observed[..|observed| - 1]);
      var r := observed[|observed| - 1];
      if !ValidResource(r) then Failure
      else if Find(before, r.id).Some? && Find(before, r.id).value.identity != r.identity then Failure
      else Success(Put(before, r))
  }

  function Merge(resources: seq<Resource>, observed: seq<Resource>): Result<seq<Resource>> {
    var merged :- PutAll(resources, observed);
    if |merged| > MAX_RESOURCES then Failure else Success(merged)
  }

  // ---------------------------------------------------------------- validation

  predicate ValidPayload(body: Payload) {
    && body.schemaVersion == SCHEMA_VERSION && body.protocolVersion == PROTOCOL_VERSION
    && IsTaggedHex("op-", body.operationId) && IsTaggedHex("approval-", body.approvalId)
    && WellFormed(body.planDigest) && WellFormed(body.requestDigest) && WellFormed(body.nonceDigest)
    && OptionalWellFormed(body.previous) && OptionalWellFormed(body.finalEvidence)
    && !body.status.OtherStatus? && !body.recoveryClass.OtherClass?
    && body.expectedGeneration >= 0 && body.sequence >= 0
    && 0 < |body.effects| <= MAX_EFFECTS
    && (forall i, j | 0 <= i < j < |body.effects| :: body.effects[i] != body.effects[j])
    && body.completed <= body.effects
    && (body.prepared.Some? ==>
          |body.completed| < |body.effects| && body.prepared.value == body.effects[|body.completed|])
    && (body.status == EffectPrepared <==> body.prepared.Some?)
    && (body.status == Complete ==> body.completed == body.effects)
    && (body.status == Complete <==> body.finalEvidence.Some?)
    && (body.status == Incomplete <==> body.failureReason.Some?)
    && |body.resources| <= MAX_RESOURCES
    && Canonical(body.resources)
    && (forall i | 0 <= i < |body.resources| :: ValidResource(body.resources[i]))
  }

  /** `validate_journal` does not raise. */
  predicate Valid(j: Journal) {
    ValidPayload(j.body) && j.digest == OfJournal(j.body)
  }

  function WithDigest(body: Payload): Journal {
    Journal(body, OfJournal(body))
  }

  // ---------------------------------------------------------------- steps

  function Create(plan: OperationPlan, operationId: string, request: Digest, approvalId: string,
                  nonce: Digest): Result<Journal> {
    if !IsTaggedHex("op-", operationId) || !IsTaggedHex("approval-", approvalId)
       || !WellFormed(plan.planDigest) || !WellFormed(request) || !WellFormed(nonce) then Failure
    else
      var journal := WithDigest(Payload(
        SCHEMA_VERSION, PROTOCOL_VERSION, operationId, plan.operationKind, plan.logicalName, plan.expectedGeneration,
        plan.planDigest, request, approvalId, nonce, plan.policyVersion, plan.effects, [], None, [], Reserved,
        NoRecovery,
        None, None, 0, None));
      if Valid(journal) then Success(journal) else Failure
  }

  function Next(j: Journal, changed: Payload): Result<Journal> {
    var candidate := WithDigest(changed.(sequence := j.body.sequence + 1, previous := Some(j.digest)));
    if Valid(candidate) then Success(candidate) else Failure
  }

  function PrepareNextEffect(j: Journal): Result<Journal> {
    if !Valid(j) then Failure
    else if j.body.status !in {Reserved, Executing} || j.body.prepared.Some? then Failure
    else if |j.body.completed| >= |j.body.effects| then Failure
    else Next(j, j.body.(status := EffectPrepared, prepared := Some(j.body.effects[|j.body.completed|])))
  }

  function RecordEffectSuccess(j: Journal, observed: seq<Resource>): Result<Journal> {
    if !Valid(j) || j.body.status != EffectPrepared || j.body.prepared.None? then Failure
    else
      var merged :- Merge(j.body.resources, observed);
      Next(j, j.body.(status := Executing, completed := j.body.completed + [j.body.prepared.value], prepared := None,
                      resources := merged))
  }

  function BeginFinalVerification(j: Journal): Result<Journal> {
    if !Valid(j) || j.body.status != Executing || j.body.prepared.Some? || j.body.completed != j.body.effects
    then Failure
    else Next(j, j.body.(status := VerifyingFinal))
  }

  function CompleteJournal(j: Journal, evidence: Digest): Result<Journal> {
    if !Valid(j) || j.body.status != VerifyingFinal || !WellFormed(evidence) then Failure
    else Next(j, j.body.(status := Complete, recoveryClass := NoRecovery, finalEvidence := Some(evidence)))
  }

  function MarkIncomplete(j: Journal, reason: seq<Glyph>): Result<Journal> {
    if !Valid(j) || j.body.status in {Complete, Incomplete} || !AcceptableReason(reason) then Failure
    else
      var recovery :- AssessRecovery(j, false, false);
      Next(j, j.body.(status := Incomplete, recoveryClass := recovery.classification, failureReason := Some(reason)))
  }

  datatype Recovery = Recovery(classification: RecoveryClass, automaticDeletionAllowed: bool, continuationAllowed: bool)

  function AssessRecovery(j: Journal, approvalStillValid: bool, gatesConfirmed: bool): Result<Recovery> {
    var resources := j.body.resources;
    if !Valid(j) then Failure
    else if j.body.status == Complete then Success(Recovery(NoRecovery, false, false))
    else if j.body.prepared.Some? then Success(Recovery(PreserveEffectOutcomeUncertain, false, false))
    else if j.body.completed == [] && resources == [] then Success(Recovery(NoEffect, false, false))
    else if exists i | 0 <= i < |resources| :: resources[i].state in {ForeignOrConflicting, IdentityUncertain} then
      Success(Recovery(PreserveIdentityUncertain, false, false))
    else if exists i | 0 <= i < |resources| :: resources[i].published || resources[i].used || resources[i].modified then
      Success(Recovery(PreserveRecoveryRequired, false, false))
    else if resources != [] && forall i | 0 <= i < |resources| :: resources[i].state == OwnedEmpty then
      Success(Recovery(AutomaticRollbackEligible, true, false))
    else if approvalStillValid && gatesConfirmed && j.body.status in {Reserved, Executing, VerifyingFinal} then
      Success(Recovery(ContinuationEligible, false, true))
    else Success(Recovery(PreserveRecoveryRequired, false, false))
  }

  datatype Action =
    | Prepare
    | Succeed(observed: seq<Resource>)
    | Verify
    | Finish(evidence: Digest)
    | Abandon(reason: seq<Glyph>)

  function Apply(j: Journal, action: Action): Result<Journal> {
    match action
    case Prepare => PrepareNextEffect(j)
    case Succeed(observed) => RecordEffectSuccess(j, observed)
    case Verify => BeginFinalVerification(j)
    case Finish(evidence) => CompleteJournal(j, evidence)
    case Abandon(reason) => MarkIncomplete(j, reason)
  }

  function Run(j: Journal, actions: seq<Action>): Result<Journal>
    decreases |actions|
  {
    if actions == [] then Success(j)
    else
      var next :- Apply(j, actions[0]);
      Run(next, actions[1..])
  }

  // ---------------------------------------------------------------- merging, as the source does it

  lemma {:induction false} FindIsMember(resources: seq<Resource>, id: string)
    ensures Find(resources, id).Some? ==> Find(resources, id).value in resources && Find(resources, id).value.id == id
    ensures Find(resources, id).None? ==> forall r | r in resources :: r.id != id
  {
    if resources == [] {
    } else {
      FindIsMember(resources[..|resources| - 1], id);
      assert resources == resources[..|resources| - 1] + [resources[|resources| - 1]];
    }
  }

  lemma {:induction false} PutRecords(resources: seq<Resource>, r: Resource, id: string)
    requires Canonical(resources)
    ensures Find(Put(resources, r), id) == if id == r.id then Some(r) else Find(resources, id)
    ensures |resources| <= |Put(resources, r)| <= |resources| + 1
    ensures forall x | x in Put(resources, r) :: x == r || x in resources
  {
    if resources == [] {
    } else {
      var front, last := resources[..|resources| - 1], resources[|resources| - 1];
      assert resources == front + [last];
      if last.id == r.id {
        assert (front + [r])[..|front|] == front;
        FindIsMember(front, id);
      } else if TextLeq(last.id, r.id) {
        assert (resources + [r])[..|resources|] == resources;
        LargerIsAbsent(resources, r.id);
      } else {
        PutRecords(front, r, id);
        assert (Put(front, r) + [last])[..|Put(front, r)|] == Put(front, r);
      }
    }
  }

  lemma LargerIsAbsent(resources: seq<Resource>, id: string)
    requires Canonical(resources) && resources != []
    requires TextLeq(resources[|resources| - 1].id, id) && resources[|resources| - 1].id != id
    ensures forall i | 0 <= i < |resources| :: TextLeq(resources[i].id, id) && resources[i].id != id
  {
    var last := resources[|resources| - 1].id;
    forall i | 0 <= i < |resources| ensures TextLeq(resources[i].id, id) && resources[i].id != id {
      if i < |resources| - 1 {
        TextLeqIsTransitive(resources[i].id, last, id);
        if resources[i].id == id {
          TextLeqIsAntisymmetric(last, id);
        }
      }
    }
  }

  lemma {:induction false} PutStaysCanonical(resources: seq<Resource>, r: Resource)
    requires Canonical(resources)
    ensures Canonical(Put(resources, r))
  {
    if resources == [] {
    } else {
      var front, last := resources[..|resources| - 1], resources[|resources| - 1];
      if last.id == r.id {
      } else if TextLeq(last.id, r.id) {
        LargerIsAbsent(resources, r.id);
      } else {
        TextLeqIsTotal(last.id, r.id);
        PutStaysCanonical(front, r);
        var put := Put(front, r);
        forall i | 0 <= i < |put| ensures TextLeq(put[i].id, last.id) && put[i].id != last.id {
          PutRecords(front, r, put[i].id);
          assert put[i] in put;
          assert put[i] == r || put[i] in front;
        }
      }
    }
  }

  ghost predicate FindTheSame(a: seq<Resource>, b: seq<Resource>) {
    forall id :: Find(a, id) == Find(b, id)
  }

  /** A canonical list is determined by what can be found in it. */
  lemma {:induction false} CanonicalIsUnique(a: seq<Resource>, b: seq<Resource>)
    requires Canonical(a) && Canonical(b) && FindTheSame(a, b)
    ensures a == b
    decreases |a|
  {
    if a == [] {
      if b != [] {
        assert Find(b, b[|b| - 1].id).Some?;
      }
    } else {
      LastsAreTheSame(a, b);
      FrontsFindTheSame(a, b);
      CanonicalIsUnique(a[..|a| - 1], b[..|b| - 1]);
      assert a == a[..|a| - 1] + [a[|a| - 1]] && b == b[..|b| - 1] + [b[|b| - 1]];
    }
  }

  lemma LastsAreTheSame(a: seq<Resource>, b: seq<Resource>)
    requires Canonical(a) && Canonical(b) && a != [] && FindTheSame(a, b)
    ensures b != [] && a[|a| - 1] == b[|b| - 1]
  {
    var x := a[|a| - 1];
    assert Find(b, x.id) == Some(x);
    var y := b[|b| - 1];
    assert Find(a, y.id) == Some(y);
    FindIsMember(b, x.id);
    FindIsMember(a, y.id);
    if x.id != y.id {
      TextLeqIsAntisymmetric(x.id, y.id);
    }
  }

  lemma FrontsFindTheSame(a: seq<Resource>, b: seq<Resource>)
    requires Canonical(a) && Canonical(b) && a != [] && b != [] && a[|a| - 1] == b[|b| - 1]
    requires FindTheSame(a, b)
    ensures FindTheSame(a[..|a| - 1], b[..|b| - 1])
  {
    var front, other := a[..|a| - 1], b[..|b| - 1];
    forall id ensures Find(front, id) == Find(other, id) {
      assert Find(a, id) == Find(b, id);
      if id == a[|a| - 1].id {
        FindIsMember(front, id);
        FindIsMember(other, id);
      }
    }
  }

  lemma {:induction false} PutAllStaysCanonical(resources: seq<Resource>, observed: seq<Resource>)
    requires Canonical(resources) && PutAll(resources, observed).Success?
    ensures Canonical(PutAll(resources, observed).value)
  {
    if observed == [] {
    } else {
      PutAllStaysCanonical(resources, observed[..|observed| - 1]);
      PutStaysCanonical(PutAll(resources, observed[..|observed| - 1]).value, observed[|observed| - 1]);
    }
  }

  /** The dictionary holds exactly the list. */
  ghost predicate Holds(merged: map<string, Resource>, resources: seq<Resource>) {
    forall id :: Find(resources, id) == if id in merged then Some(merged[id]) else None
  }

  /** `sorted(merged.values(), key=...)`: any order of the values gives the one canonical list. */
  method SortedValues(merged: map<string, Resource>, ghost expected: seq<Resource>) returns (result: seq<Resource>)
    requires Canonical(expected) && Holds(merged, expected)
    ensures result == expected
  {
    hide Find, Canonical, Put;
    result := [];
    var left := merged;
    EmptyList();
    while left != map[]
      invariant left.Keys <= merged.Keys && Canonical(result)
      invariant forall id | id in left :: left[id] == merged[id]
      invariant forall id :: Find(result, id) == if id in merged && id !in left then Some(merged[id]) else None
      decreases left.Keys
    {
      var id :| id in left;
      ghost var was := result;
      IdMatches(merged, expected, id);
      result := Put(result, left[id]);
      PutStaysCanonical(was, left[id]);
      forall other ensures Find(result, other) == if other == id then Some(left[id]) else Find(was, other) {
        PutRecords(was, left[id], other);
      }
      left := left - {id};
    }
    CanonicalIsUnique(result, expected);
  }

  lemma EmptyList()
    ensures Canonical([]) && forall id :: Find([], id) == None
  {
  }

  lemma IdMatches(merged: map<string, Resource>, resources: seq<Resource>, id: string)
    requires Holds(merged, resources) && id in merged
    ensures merged[id].id == id
  {
    assert Find(resources, id) == Some(merged[id]);
    FindIsMember(resources, id);
  }

  /** `_merge_resources`: a dictionary filled in a loop, then sorted. */
  method MergeResources(current: seq<Resource>, observed: seq<Resource>) returns (result: Result<seq<Resource>>)
    requires Canonical(current)
    ensures result == Merge(current, observed)
  {
    hide Find, Canonical, Put, ValidResource;
    var merged: map<string, Resource> := FromList(current);
    var i := 0;
    assert observed[..0] == [];
    while i < |observed|
      invariant 0 <= i <= |observed|
      invariant PutAll(current, observed[..i]).Success? && Holds(merged, PutAll(current, observed[..i]).value)
    {
      var r := observed[i];
      ghost var before := PutAll(current, observed[..i]).value;
      assert observed[..i + 1][..i] == observed[..i];
      if !ValidResource(r) || (r.id in merged && merged[r.id].identity != r.identity) {
        assert Find(before, r.id) == if r.id in merged then Some(merged[r.id]) else None;
        assert PutAll(current, observed[..i + 1]).Failure?;
        FailureStays(current, observed, i + 1);
        return Failure;
      }
      assert Find(before, r.id) == if r.id in merged then Some(merged[r.id]) else None;
      PutAllStaysCanonical(current, observed[..i]);
      forall id ensures Find(Put(before, r), id) == if id == r.id then Some(r) else Find(before, id) {
        PutRecords(before, r, id);
      }
      merged := merged[r.id := r];
      i := i + 1;
    }
    assert observed[..i] == observed;
    ghost var expected := PutAll(current, observed).value;
    PutAllStaysCanonical(current, observed);
    var sorted := SortedValues(merged, expected);
    result := if |sorted| > MAX_RESOURCES then Failure else Success(sorted);
  }

  lemma {:induction false} FailureStays(current: seq<Resource>, observed: seq<Resource>, i: nat)
    requires i <= |observed| && PutAll(current, observed[..i]).Failure?
    ensures PutAll(current, observed).Failure?
    decreases |observed| - i
  {
    if i == |observed| {
      assert observed[..i] == observed;
    } else {
      assert observed[..i + 1][..i] == observed[..i];
      FailureStays(current, observed, i + 1);
    }
  }

  /** The dictionary comprehension over the current resources. */
  function FromList(resources: seq<Resource>): (merged: map<string, Resource>)
    ensures Holds(merged, resources)
  {
    if resources == [] then map[]
    else FromList(resources[..|resources| - 1])[resources[|resources| - 1].id := resources[|resources| - 1]]
  }
}
