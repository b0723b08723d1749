/** Runs of the install store that end in the sink: its bounds are attained for every dossier. */
module CleanInstallSink {
  import opened CleanInstallJournal
  import opened CleanInstallRuns
  import opened CleanInstallStore
  import opened Common

  /** One swap for every step of a run. */
  function Swaps(r: Record, steps: seq<Step>): seq<Request>
    requires Run(r, steps).Success?
    decreases |steps|
  {
    if steps == [] then []
    else
      var next := Apply(r, steps[0]).value;
      [Request.CompareAndSwap(next, r.digest)] + Swaps(next, steps[1..])
  }

  lemma UnboundStepIsSwapped(scope: Scope, records: Records, r: Record, step: Step)
    requires Apply(r, step).Success? && r.body.approvals == []
    requires r.body.operationId in records && records[r.body.operationId] == r
    ensures var next := Apply(r, step).value;
            && next.body.operationId == r.body.operationId
            && Handle(scope, records, Request.CompareAndSwap(next, r.digest)) == records[r.body.operationId := next]
    ensures !step.Bind? ==> Apply(r, step).value.body.approvals == []
  {
    hide Valid;
    SuccessorShape(r, step);
    assert LegalStep(r, Apply(r, step).value);
    assert !CurrentApprovalBound(r);
  }

  /** A store that holds a record without approvals accepts a whole run that binds one only at its end. */
  lemma {:induction false} SwapsAreAccepted(scope: Scope, records: Records, r: Record, steps: seq<Step>)
    requires Run(r, steps).Success? && r.body.approvals == []
    requires r.body.operationId in records && records[r.body.operationId] == r
    requires forall i | 0 <= i < |steps| - 1 :: !steps[i].Bind?
    ensures HandleAll(scope, records, Swaps(r, steps)) == records[r.body.operationId := Run(r, steps).value]
    decreases |steps|
  {
    hide Apply, Handle, Accepts;
    if steps == [] {
      assert records[r.body.operationId := r] == records;
    } else {
      var next, rest := Apply(r, steps[0]).value, steps[1..];
      UnboundStepIsSwapped(scope, records, r, steps[0]);
      var after := records[r.body.operationId := next];
      if rest == [] {
        assert Swaps(r, steps)[1..] == [];
      } else {
        SwapsAreAccepted(scope, after, next, rest);
        assert Swaps(r, steps)[1..] == Swaps(next, rest);
        assert after[r.body.operationId := Run(next, rest).value]
               == records[r.body.operationId := Run(next, rest).value];
      }
    }
  }

  /** Prepare and succeed, `n` times. */
  function FirstEffects(n: nat, evidence: Digest): seq<Step> {
    if n == 0 then [] else FirstEffects(n - 1, evidence) + [Prepare, Succeed(evidence)]
  }

  /** The effects before the first approval run without any. */
  lemma {:induction false} FirstEffectsRun(r: Record, n: nat, evidence: Digest)
    requires BetweenEffects(r, 0) && n <= 4 && WellFormed(evidence)
    ensures Run(r, FirstEffects(n, evidence)).Success?
    ensures BetweenEffects(Run(r, FirstEffects(n, evidence)).value, n)
  {
    if n == 0 {
    } else {
      hide BetweenEffects, StepsForEffect, Run;
      FirstEffectsRun(r, n - 1, evidence);
      NoApprovalYet(n - 1, evidence);
      OneEffectRuns(Run(r, FirstEffects(n - 1, evidence)).value, n - 1, evidence);
      RunAppends(r, FirstEffects(n - 1, evidence), [Prepare, Succeed(evidence)]);
    }
  }

  lemma {:induction false} FirstEffectsBindNothing(n: nat, evidence: Digest)
    ensures forall step | step in FirstEffects(n, evidence) :: !step.Bind?
  {
    if n == 0 {
    } else {
      FirstEffectsBindNothing(n - 1, evidence);
    }
  }

  lemma NoApprovalYet(n: nat, evidence: Digest)
    requires n < 4
    ensures StepsForEffect(n, evidence) == [Prepare, Succeed(evidence)]
  {
    assert [] + [Prepare, Succeed(evidence)] == [Prepare, Succeed(evidence)];
  }

  function FirstApproval(evidence: Digest): Step {
    Bind(StageAt(4), RequiredApproval(StageAt(4)).value, evidence)
  }

  /** The run that ends in the sink: four effects, then the approval of the fifth one's stage. */
  lemma FirstApprovalBinds(r: Record, evidence: Digest)
    requires BetweenEffects(r, 4) && WellFormed(evidence)
    ensures Apply(r, FirstApproval(evidence)).Success?
    ensures var sunk := Apply(r, FirstApproval(evidence)).value;
            |sunk.body.completed| == 4 && sunk.body.sequence == 9 && CurrentApprovalBound(sunk)
  {
    hide EffectsFrom, Valid;
    BindingIsAccepted(r, 4, evidence);
    BindKeepsReached(r, StageAt(4), RequiredApproval(StageAt(4)).value, evidence);
    var sunk := Apply(r, FirstApproval(evidence)).value;
    assert sunk.body.approvals[|sunk.body.approvals| - 1].stage == StageAt(4);
    assert FLAT_EFFECTS[4].stage == StageAt(4);
  }

  /**
   The bounds on stored installs are attained: whatever the dossier and the operation, some requests
   take the empty store to a record with four completed effects, sequence nine and its current stage's
   approval bound.
   */
  lemma SinkIsReached(scope: Scope, operation: string)
    requires Create(InstallDossier(scope.targetId, scope.planDigest, true, true), operation).Success?
    ensures exists requests: seq<Request> ::
              && operation in HandleAll(scope, map[], requests)
              && InTheSink(HandleAll(scope, map[], requests)[operation])
  {
    hide Run, BetweenEffects, Apply, Accepts, HandleAll;
    var dossier := InstallDossier(scope.targetId, scope.planDigest, true, true);
    var created := Create(dossier, operation).value;
    CreatedIsBetween(dossier, operation);
    var evidence, first := created.digest, FirstEffects(4, created.digest);
    FirstEffectsRun(created, 4, evidence);
    FirstEffectsBindNothing(4, evidence);
    var fourth := Run(created, first).value;
    FirstApprovalBinds(fourth, evidence);
    RunOne(fourth, FirstApproval(evidence));
    var steps := first + [FirstApproval(evidence)];
    RunAppends(created, first, [FirstApproval(evidence)]);
    var publish := Request.PublishNew(created);
    PublishingStores(scope, operation);
    SwapsAreAccepted(scope, map[operation := created], created, steps);
    var requests := [publish] + Swaps(created, steps);
    HandledFirst(scope, publish, Swaps(created, steps));
    assert InTheSink(HandleAll(scope, map[], requests)[operation]);
  }

  predicate InTheSink(r: Record) {
    |r.body.completed| == 4 && r.body.sequence == 9 && CurrentApprovalBound(r)
  }

  lemma CreatedIsBetween(dossier: InstallDossier, operation: string)
    requires Create(dossier, operation).Success?
    ensures var created := Create(dossier, operation).value;
            && BetweenEffects(created, 0) && WellFormed(created.digest)
            && created.body.approvals == [] && created.body.operationId == operation
  {
    CreateIsReached(dossier, operation);
  }

  lemma PublishingStores(scope: Scope, operation: string)
    requires Create(InstallDossier(scope.targetId, scope.planDigest, true, true), operation).Success?
    ensures var created := Create(InstallDossier(scope.targetId, scope.planDigest, true, true), operation).value;
            Handle(scope, map[], Request.PublishNew(created)) == map[operation := created]
  {
    hide Valid;
    assert map[][operation := Create(InstallDossier(scope.targetId, scope.planDigest, true, true), operation).value]
           == map[operation := Create(InstallDossier(scope.targetId, scope.planDigest, true, true), operation).value];
  }

  lemma HandledFirst(scope: Scope, first: Request, rest: seq<Request>)
    ensures HandleAll(scope, map[], [first] + rest) == HandleAll(scope, Handle(scope, map[], first), rest)
  {
    hide Handle;
    assert ([first] + rest)[1..] == rest;
  }
}
