/** Whole serial runs of the laboratory runtime, and what its recovery can and cannot settle. */
module LabRuns {
  import opened Common
  import opened LabCleaning
  import opened LabJournal
  import opened LabRuntime

  /** One process: what it was asked to do, and what it was given and saw. */
  datatype Command =
    | PlanIt(action: Action, planned: string, role: Option<Role>, generation: string)
    | CreateIt(identity: Identity, approval: string, operation: string, pid: nat)
    | StartIt(name: string, operation: string, pid: nat, running: bool, endpoint: bool, registers: bool, usable: bool)
    | StopIt(name: string, operation: string, pid: nat, residue: bool)
    | DestroyIt(identity: Identity, approval: string, operation: string, stopping: string, pid: nat, residue: bool)
    | RestoreIt(archive: string, name: string, approval: string, restored: string, operation: string, pid: nat)
    | CleanIt(name: string, approval: string, running: bool)

  /** Random identities do not repeat those of recorded operations. */
  predicate FreshFor(command: Command, journal: seq<Event>) {
    (command.CreateIt? || command.DestroyIt? || command.RestoreIt?) ==>
      Statuses(Log(journal), command.operation) == []
  }

  /** An unpublished directory the journal has no attempt for: a restoration was killed before its first entry. */
  ghost predicate Stuck(environments: map<string, Environment>, log: seq<Entry>, name: string) {
    name in environments && environments[name].registration.None? && LatestAttempt(log, name).None?
  }

  /** What a command may do to a directory the journal has no attempt for. */
  ghost predicate StuckStay(before: map<string, Environment>, log: seq<Entry>, after: map<string, Environment>) {
    forall name | Stuck(before, log, name) :: name in after && after[name] == before[name]
  }

  method Perform(runtime: LabRuntime, command: Command) returns (outcome: Outcome)
    requires runtime.Valid() && FreshFor(command, runtime.journal)
    modifies runtime
    ensures runtime.Valid()
    ensures old(runtime.journal) <= runtime.journal
    ensures old(SerialLog(Log(runtime.journal))) ==>
              Follows(old(runtime.environments).Keys, old(Log(runtime.journal)), Log(runtime.journal))
    ensures StuckStay(old(runtime.environments), old(Log(runtime.journal)), runtime.environments)
    ensures old(Witnessed(runtime.environments, Log(runtime.journal))) ==>
              Witnessed(runtime.environments, Log(runtime.journal))
  {
    match command
    case PlanIt(action, planned, role, generation) =>
      var identity;
      outcome, identity := runtime.MakePlan(action, planned, role, generation);
      Unchanged(runtime.environments.Keys, runtime.journal);
    case CreateIt(identity, approval, operation, pid) =>
      outcome := PerformCreate(runtime, identity, approval, operation, pid);
    case StartIt(_, _, _, _, _, _, _) =>
      outcome := PerformSwitch(runtime, command);
    case StopIt(_, _, _, _) =>
      outcome := PerformSwitch(runtime, command);
    case DestroyIt(identity, approval, operation, stopping, pid, residue) =>
      outcome := PerformDestroy(runtime, identity, approval, operation, stopping, pid, residue);
    case RestoreIt(archive, restored, approval, generation, operation, pid) =>
      outcome := PerformRestore(runtime, archive, restored, approval, generation, operation, pid);
    case CleanIt(cleaned, approval, running) =>
      outcome := PerformClean(runtime, cleaned, approval, running);
  }

  lemma Unchanged(names: set<string>, journal: seq<Event>)
    requires Chained(journal)
    ensures SerialLog(Log(journal)) ==> Follows(names, Log(journal), Log(journal))
  {
    hide SerialLog, Log, Chained;
    var log := Log(journal);
    if SerialLog(log) {
      SilenceFollows(names, log, []);
      assert log + [] == log;
    }
  }

  /** A script cut short speaks for the one operation it belongs to. */
  lemma CutIsOneOperation(script: seq<Entry>, uncertain: Entry, cut: Cut, operation: string, name: string,
                          action: Action)
    requires CutOf(cut, script) && OneOperation(script, operation, name, action)
    requires Whole(uncertain) ==>
               uncertain.operation == operation && uncertain.name == name && uncertain.action == action
               && uncertain.status != Started
    ensures OneOperation(Written(script, uncertain, cut), operation, name, action)
  {
    var entries := Written(script, uncertain, cut);
    assert forall i | 0 <= i < cut.n :: entries[i] == script[i];
    assert forall e | e in entries :: e in script || e == uncertain;
  }

  lemma TraceFollows(names: set<string>, before: seq<Event>, after: seq<Event>, script: seq<Entry>, uncertain: Entry,
                     cut: Cut, operation: string, name: string, action: Action)
    requires Chained(before) && Statuses(Log(before), operation) == []
    requires CutOf(cut, script) && OneOperation(script, operation, name, action)
    requires Whole(uncertain) ==>
               uncertain.operation == operation && uncertain.name == name && uncertain.action == action
               && uncertain.status != Started
    requires after == Extend(before, Written(script, uncertain, cut)) && Orderly(Log(after))
    requires cut.n > 0 && action in {Creation, Restoration} ==> name !in names
    ensures before <= after
    ensures SerialLog(Log(before)) ==> Follows(names, Log(before), Log(after))
  {
    var entries := Written(script, uncertain, cut);
    assert cut.n == 0 ==> entries == [];
    hide Chained, Extend, Statuses, Log, SerialLog, Orderly, Follows;
    ExtendKeepsTheChain(before, entries);
    CutIsOneOperation(script, uncertain, cut, operation, name, action);
    hide Written, OneOperation;
    if SerialLog(Log(before)) {
      NewOperationFollows(names, Log(before), entries, operation, name, action);
    }
  }

  lemma CreateIsOneOperation(operation: string, name: string, plan: Identity)
    ensures OneOperation(CreateScript(operation, name, plan), operation, name, Creation)
  {
  }

  lemma RestoreIsOneOperation(operation: string, name: string, archive: string)
    ensures OneOperation(RestoreScript(operation, name, archive), operation, name, Restoration)
  {
  }

  lemma DestroyIsOneOperation(operation: string, stopping: string, name: string, plan: Identity)
    ensures OneOperation(DestroyScript(operation, stopping, name, plan), operation, name, Destruction)
  {
  }

  lemma LogGrows(before: seq<Event>, after: seq<Event>)
    requires before <= after
    ensures Log(before) <= Log(after)
  {
  }

  /** A command that adds nothing to any directory. */
  lemma ShrinkingIsWitnessed(environments: map<string, Environment>, later: map<string, Environment>,
                             before: seq<Event>, after: seq<Event>, name: string)
    requires before <= after
    requires || later == environments || later == environments - {name}
             || (&& name in environments && name in later && later == environments[name := later[name]]
                 && (later[name].root.Some? ==> environments[name].root.Some?)
                 && (later[name].home.Some? ==> environments[name].home.Some?)
                 && (later[name].registration.Some? ==> environments[name].registration.Some?))
    ensures Witnessed(environments, Log(before)) ==> Witnessed(later, Log(after))
  {
    hide Log, WitnessedAt;
    LogGrows(before, after);
    if Witnessed(environments, Log(before)) {
      if name in later {
        WitnessStays(environments[name], later[name], Log(before), Log(after), name);
      }
      OthersStayWitnessed(environments, later, Log(before), Log(after), name);
    }
  }

  lemma CreationIsWitnessed(environments: map<string, Environment>, later: map<string, Environment>,
                            before: seq<Event>, after: seq<Event>, operation: string, name: string, plan: Identity,
                            cut: Cut, releases: map<Role, Subvolume>)
    requires Chained(before) && CutOf(cut, CreateScript(operation, name, plan))
    requires after == Extend(before, Written(CreateScript(operation, name, plan),
                                             Entry(operation, Creation, Operation, Uncertain, name, Nothing), cut))
    requires later == environments
             || (name !in environments && name in later && later == environments[name := later[name]])
    requires cut.n == 0 ==> later == environments
    requires cut.n > 0 ==>
               && name !in environments && plan.PlanDigest? && plan.plan.role.Some?
               && exists image: Option<Subvolume> ::
                    CreationInOrder(Written(CreateScript(operation, name, plan),
                                            Entry(operation, Creation, Operation, Uncertain, name, Nothing), cut),
                                    name, plan.plan.role.value, image, At(later, name))
    ensures Witnessed(environments, Log(before)) ==> Witnessed(later, Log(after))
  {
    var entries := Written(CreateScript(operation, name, plan),
                           Entry(operation, Creation, Operation, Uncertain, name, Nothing), cut);
    EntriesNameIt(operation, name, plan, cut);
    hide Written, CreateScript, Extend, Chained, Log, Logged, WitnessedAt;
    ExtendKeepsTheChain(before, entries);
    if Witnessed(environments, Log(before)) {
      if later != environments {
        NewIsWitnessed(Log(before), entries, name, later[name]);
      }
      OthersStayWitnessed(environments, later, Log(before), Log(after), name);
    }
  }

  lemma NewIsWitnessed(log: seq<Entry>, entries: seq<Entry>, name: string, env: Environment)
    requires forall e | e in entries :: e.name == name
    requires env.root.Some? ==> Logged(entries, RootEffect, Started)
    requires env.home.Some? ==> Logged(entries, HomeEffect, Started)
    requires env.registration.Some? ==> Logged(entries, Publish, Started)
    ensures WitnessedAt(env, log + entries, name)
  {
    hide Logged, LabCleaning.Begun;
    if env.root.Some? {
      LoggedIsBegun(log, entries, name, RootEffect);
    }
    if env.home.Some? {
      LoggedIsBegun(log, entries, name, HomeEffect);
    }
    if env.registration.Some? {
      LoggedIsBegun(log, entries, name, Publish);
    }
  }

  lemma EntriesNameIt(operation: string, name: string, plan: Identity, cut: Cut)
    requires CutOf(cut, CreateScript(operation, name, plan))
    ensures forall e | e in Written(CreateScript(operation, name, plan),
                                    Entry(operation, Creation, Operation, Uncertain, name, Nothing), cut) ::
              e.name == name
  {
    assert forall e | e in CreateScript(operation, name, plan) :: e.name == name;
  }

  lemma RestorationIsWitnessed(environments: map<string, Environment>, later: map<string, Environment>,
                               before: seq<Event>, after: seq<Event>, operation: string, name: string,
                               archive: string, cut: Cut)
    requires Chained(before) && CutOf(cut, RestoreScript(operation, name, archive))
    requires after == Extend(before, Written(RestoreScript(operation, name, archive),
                                             Entry(operation, Restoration, Operation, Uncertain, name,
                                                   OfArchive(archive)), cut))
    requires later == environments
             || (name !in environments && name in later && later == environments[name := later[name]])
    requires later != environments && later[name] != EMPTY ==> cut.n >= 1
    ensures Witnessed(environments, Log(before)) ==> Witnessed(later, Log(after))
  {
    var script := RestoreScript(operation, name, archive);
    var entries := Written(script, Entry(operation, Restoration, Operation, Uncertain, name, OfArchive(archive)), cut);
    assert cut.n >= 1 ==> entries[0] == script[0] && entries[0] in Log(before) + entries;
    hide Written, RestoreScript, Extend, Chained, Log;
    ExtendKeepsTheChain(before, entries);
    if Witnessed(environments, Log(before)) {
      if later != environments {
        assert WitnessedAt(later[name], Log(after), name);
      }
      hide WitnessedAt;
      OthersStayWitnessed(environments, later, Log(before), Log(after), name);
    }
  }

  method PerformCreate(runtime: LabRuntime, identity: Identity, approval: string, operation: string, pid: nat)
      returns (outcome: Outcome)
    requires runtime.Valid() && Statuses(Log(runtime.journal), operation) == []
    modifies runtime
    ensures runtime.Valid()
    ensures old(runtime.journal) <= runtime.journal
    ensures old(SerialLog(Log(runtime.journal))) ==>
              Follows(old(runtime.environments).Keys, old(Log(runtime.journal)), Log(runtime.journal))
    ensures StuckStay(old(runtime.environments), old(Log(runtime.journal)), runtime.environments)
    ensures old(Witnessed(runtime.environments, Log(runtime.journal))) ==>
              Witnessed(runtime.environments, Log(runtime.journal))
  {
    hide Chained, Orderly, Statuses, Log, Sound, Written, Extend, CutOf, SerialLog, Follows, OneOperation;
    ghost var before, environments, names := runtime.journal, runtime.environments, runtime.environments.Keys;
    ghost var name, cut;
    outcome, name, cut := runtime.Create(identity, approval, operation, pid);
    CreateIsOneOperation(operation, name, identity);
    TraceFollows(names, before, runtime.journal, CreateScript(operation, name, identity),
                 Entry(operation, Creation, Operation, Uncertain, name, Nothing), cut, operation, name, Creation);
    CreationIsWitnessed(environments, runtime.environments, before, runtime.journal, operation, name, identity, cut,
                        runtime.releases);
  }

  method PerformRestore(runtime: LabRuntime, archive: string, restored: string, approval: string, generation: string,
                        operation: string, pid: nat)
      returns (outcome: Outcome)
    requires runtime.Valid() && Statuses(Log(runtime.journal), operation) == []
    modifies runtime
    ensures runtime.Valid()
    ensures old(runtime.journal) <= runtime.journal
    ensures old(SerialLog(Log(runtime.journal))) ==>
              Follows(old(runtime.environments).Keys, old(Log(runtime.journal)), Log(runtime.journal))
    ensures StuckStay(old(runtime.environments), old(Log(runtime.journal)), runtime.environments)
    ensures old(Witnessed(runtime.environments, Log(runtime.journal))) ==>
              Witnessed(runtime.environments, Log(runtime.journal))
  {
    hide Chained, Orderly, Statuses, Log, Sound, Written, Extend, CutOf, SerialLog, Follows, OneOperation;
    ghost var before, environments, names := runtime.journal, runtime.environments, runtime.environments.Keys;
    ghost var cut;
    outcome, cut := runtime.Restore(archive, restored, approval, generation, operation, pid);
    RestoreIsOneOperation(operation, restored, archive);
    TraceFollows(names, before, runtime.journal, RestoreScript(operation, restored, archive),
                 Entry(operation, Restoration, Operation, Uncertain, restored, OfArchive(archive)), cut, operation,
                 restored, Restoration);
    RestorationIsWitnessed(environments, runtime.environments, before, runtime.journal, operation, restored, archive,
                           cut);
  }

  method PerformDestroy(runtime: LabRuntime, identity: Identity, approval: string, operation: string, stopping: string,
                        pid: nat, residue: bool)
      returns (outcome: Outcome)
    requires runtime.Valid() && Statuses(Log(runtime.journal), operation) == []
    modifies runtime
    ensures runtime.Valid()
    ensures old(runtime.journal) <= runtime.journal
    ensures old(SerialLog(Log(runtime.journal))) ==>
              Follows(old(runtime.environments).Keys, old(Log(runtime.journal)), Log(runtime.journal))
    ensures StuckStay(old(runtime.environments), old(Log(runtime.journal)), runtime.environments)
    ensures old(Witnessed(runtime.environments, Log(runtime.journal))) ==>
              Witnessed(runtime.environments, Log(runtime.journal))
  {
    hide Chained, Orderly, Statuses, Log, Sound, Written, Extend, CutOf, SerialLog, Follows, OneOperation;
    ghost var before, environments, names := runtime.journal, runtime.environments, runtime.environments.Keys;
    ghost var name, cut;
    outcome, name, cut := runtime.Destroy(identity, approval, operation, stopping, pid, residue);
    DestroyIsOneOperation(operation, stopping, name, identity);
    TraceFollows(names, before, runtime.journal, DestroyScript(operation, stopping, name, identity),
                 Entry(stopping, Stopping, Runtime, Uncertain, name, Nothing), cut, operation, name, Destruction);
    ShrinkingIsWitnessed(environments, runtime.environments, before, runtime.journal, name);
  }

  lemma SwitchFollows(names: set<string>, before: seq<Event>, after: seq<Event>, operation: string, action: Action,
                      name: string, cut: Cut)
    requires Chained(before) && CutOf(cut, RuntimeScript(operation, action, name))
    requires after == Extend(before, Written(RuntimeScript(operation, action, name),
                                             Entry(operation, action, Runtime, Uncertain, name, Nothing), cut))
    ensures before <= after
    ensures SerialLog(Log(before)) ==> Follows(names, Log(before), Log(after))
  {
    var entries := Written(RuntimeScript(operation, action, name),
                           Entry(operation, action, Runtime, Uncertain, name, Nothing), cut);
    assert forall e | e in entries :: !Whole(e);
    hide Chained, Extend, Log, SerialLog, Follows, Written;
    ExtendKeepsTheChain(before, entries);
    if SerialLog(Log(before)) {
      SilenceFollows(names, Log(before), entries);
    }
  }

  /** `start` and `stop`. */
  method PerformSwitch(runtime: LabRuntime, command: Command) returns (outcome: Outcome)
    requires runtime.Valid() && (command.StartIt? || command.StopIt?)
    modifies runtime
    ensures runtime.Valid()
    ensures old(runtime.journal) <= runtime.journal
    ensures old(SerialLog(Log(runtime.journal))) ==>
              Follows(old(runtime.environments).Keys, old(Log(runtime.journal)), Log(runtime.journal))
    ensures StuckStay(old(runtime.environments), old(Log(runtime.journal)), runtime.environments)
    ensures old(Witnessed(runtime.environments, Log(runtime.journal))) ==>
              Witnessed(runtime.environments, Log(runtime.journal))
  {
    hide Chained, Orderly, Log, Sound, Written, Extend, CutOf, SerialLog, Follows;
    ghost var before, environments, names := runtime.journal, runtime.environments, runtime.environments.Keys;
    ghost var cut;
    match command
    case StartIt(name, operation, pid, running, endpoint, registers, usable) =>
      outcome, cut := runtime.Start(name, operation, pid, running, endpoint, registers, usable);
      SwitchFollows(names, before, runtime.journal, operation, Activation, name, cut);
      ShrinkingIsWitnessed(environments, runtime.environments, before, runtime.journal, name);
    case StopIt(name, operation, pid, residue) =>
      outcome, cut := runtime.Stop(name, operation, pid, residue);
      SwitchFollows(names, before, runtime.journal, operation, Stopping, name, cut);
      ShrinkingIsWitnessed(environments, runtime.environments, before, runtime.journal, name);
  }

  method PerformClean(runtime: LabRuntime, cleaned: string, approval: string, running: bool) returns (outcome: Outcome)
    requires runtime.Valid()
    modifies runtime
    ensures runtime.Valid()
    ensures old(runtime.journal) <= runtime.journal
    ensures old(SerialLog(Log(runtime.journal))) ==>
              Follows(old(runtime.environments).Keys, old(Log(runtime.journal)), Log(runtime.journal))
    ensures StuckStay(old(runtime.environments), old(Log(runtime.journal)), runtime.environments)
    ensures old(Witnessed(runtime.environments, Log(runtime.journal))) ==>
              Witnessed(runtime.environments, Log(runtime.journal))
  {
    hide Chained, Orderly, Log, Sound, Extend, SerialLog, Follows, Unsettled, LatestAttempt;
    ghost var before, environments, names := runtime.journal, runtime.environments, runtime.environments.Keys;
    var found;
    outcome, found := runtime.RecoverUnpublished(cleaned, approval, running);
    if runtime.journal == before {
      Unchanged(names, before);
    } else {
      ExtendKeepsTheChain(before, [Cleaned(found.value, cleaned)]);
      if SerialLog(Log(before)) {
        CleaningFollows(names, Log(before), cleaned);
      }
    }
    ShrinkingIsWitnessed(environments, runtime.environments, before, runtime.journal, cleaned);
  }

  /** What later commands leave of unfinished destructions and of stuck names. */
  ghost predicate Outlasts(environments: map<string, Environment>, log: seq<Entry>,
                           later: map<string, Environment>, after: seq<Entry>)
  {
    && SerialLog(after)
    && (forall operation | Destroying(log, operation) && Unsettled(log, operation) ::
          Destroying(after, operation) && Unsettled(after, operation))
    && (forall name | Stuck(environments, log, name) :: Stuck(later, after, name))
  }

  lemma OneMoreOutlasts(environments: map<string, Environment>, log: seq<Entry>,
                        middle: map<string, Environment>, between: seq<Entry>,
                        later: map<string, Environment>, after: seq<Entry>)
    requires Outlasts(environments, log, middle, between)
    requires Follows(middle.Keys, between, after) && StuckStay(middle, between, later)
    ensures Outlasts(environments, log, later, after)
  {
    hide SerialLog, Destroying, Unsettled, LatestAttempt;
  }

  /**
   Any serial run of commands, each failing or crashing anywhere: a published registration always has
   a configured root and home, the journal is always a chain, and `recover` at the end reports exactly
   the started and never completed operations. A destruction that was unfinished stays reported, and a
   directory the journal has no attempt for stays, unpublished. A command whose identity is taken is not
   performed.
   */
  method SerialRun(runtime: LabRuntime, commands: seq<Command>) returns (uncertain: set<string>)
    requires runtime.Valid()
    modifies runtime
    ensures runtime.Valid() && Chained(runtime.journal) && old(runtime.journal) <= runtime.journal
    ensures forall name | name in runtime.environments && runtime.environments[name].registration.Some? ::
              var env := runtime.environments[name];
              && Published(name, env, env.registration.value)
              && env.root.Some? && env.home.Some? && env.registration.value.name == name
              && env.root.value.hostname == "apx-" + name + "\n" && env.root.value.machineId == ""
              && IsLimited(env.root.value, RootLimit(env.registration.value.role))
              && IsLimited(env.home.value, HomeLimit(env.registration.value.role))
    ensures forall operation ::
              operation in uncertain
              <==> && Started in Statuses(Log(runtime.journal), operation)
                   && Complete !in Statuses(Log(runtime.journal), operation)
    ensures old(SerialLog(Log(runtime.journal))) ==>
              Outlasts(old(runtime.environments), old(Log(runtime.journal)), runtime.environments, Log(runtime.journal))
    ensures old(Witnessed(runtime.environments, Log(runtime.journal))) ==>
              Witnessed(runtime.environments, Log(runtime.journal))
  {
    hide Statuses, Log, FreshFor, SerialLog, Outlasts, Follows, StuckStay, Witnessed;
    ghost var environments, log := runtime.environments, Log(runtime.journal);
    AtFirst(environments, log);
    for i := 0 to |commands|
      invariant runtime.Valid() && old(runtime.journal) <= runtime.journal
      invariant SerialLog(log) ==> Outlasts(environments, log, runtime.environments, Log(runtime.journal))
      invariant Witnessed(environments, log) ==> Witnessed(runtime.environments, Log(runtime.journal))
    {
      if FreshFor(commands[i], runtime.journal) {
        ghost var middle, between := runtime.environments, Log(runtime.journal);
        var outcome := Perform(runtime, commands[i]);
        if SerialLog(log) {
          OutlastsIsSerial(environments, log, middle, between);
          OneMoreOutlasts(environments, log, middle, between, runtime.environments, Log(runtime.journal));
        }
      }
    }
    uncertain := runtime.Recover();
  }

  /** Every journal a runtime comes to from its beginning is that of a serial run. */
  method FromTheBeginning(reliable: bool, releases: map<Role, Subvolume>, archives: map<string, Manifest>,
                          commands: seq<Command>)
      returns (runtime: LabRuntime, uncertain: set<string>)
    ensures fresh(runtime) && runtime.Valid() && SerialLog(Log(runtime.journal))
    ensures Witnessed(runtime.environments, Log(runtime.journal))
    ensures forall operation :: operation in uncertain <==> Unsettled(Log(runtime.journal), operation)
  {
    hide SerialLog, Statuses;
    runtime := new LabRuntime(reliable, releases, archives);
    EmptyLogIsSerial();
    assert Log(runtime.journal) == [];
    ghost var environments, log := runtime.environments, Log(runtime.journal);
    uncertain := SerialRun(runtime, commands);
    OutlastsIsSerial(environments, log, runtime.environments, Log(runtime.journal));
  }

  lemma AtFirst(environments: map<string, Environment>, log: seq<Entry>)
    ensures SerialLog(log) ==> Outlasts(environments, log, environments, log)
  {
    hide SerialLog;
  }

  lemma OutlastsIsSerial(environments: map<string, Environment>, log: seq<Entry>,
                         later: map<string, Environment>, after: seq<Entry>)
    requires Outlasts(environments, log, later, after)
    ensures SerialLog(after)
  {
    hide SerialLog;
  }

  // ---------------------------------------------------------------- what cleaning settles

  /**
   After a creation or restoration that began, wherever it ended, cleaning its name finds that operation
   for as long as no other attempt is made on the name; and none is while the directory is there.
   */
  lemma CleaningFindsTheAttempt(before: seq<Event>, script: seq<Entry>, uncertain: Entry, cut: Cut, name: string,
                                later: seq<Entry>)
    requires Chained(before) && CutOf(cut, script) && cut.n > 0
    requires IsAttempt(script[0], name) && (forall i | 1 <= i < |script| :: !IsAttempt(script[i], name))
    requires IsAttempt(uncertain, name) && uncertain.operation == script[0].operation
    requires forall e | e in later :: !IsAttempt(e, name)
    ensures var found := LatestAttempt(Log(Extend(Extend(before, Written(script, uncertain, cut)), later)), name);
            && found.Some? && found.value.operation == script[0].operation
            && found.value.action in {script[0].action, uncertain.action}
  {
    hide Chained, Extend, IsAttempt;
    var entries := Written(script, uncertain, cut);
    ExtendKeepsTheChain(before, entries);
    ExtendKeepsTheChain(Extend(before, entries), later);
    var log := Log(before) + entries;
    NoAttemptAdded(log, later, name);
    var last := if cut.reported then |log| - 1 else |Log(before)|;
    assert forall j | last < j < |log| :: log[j] == script[j - |Log(before)|];
    LatestAttemptIsNewest(log, name, last);
  }

  /** Both kinds of attempt are of that form. */
  lemma AttemptsOfBothKinds(operation: string, name: string, plan: Identity, archive: string)
    ensures var script := CreateScript(operation, name, plan);
            IsAttempt(script[0], name) && forall i | 1 <= i < |script| :: !IsAttempt(script[i], name)
    ensures var script := RestoreScript(operation, name, archive);
            IsAttempt(script[0], name) && forall i | 1 <= i < |script| :: !IsAttempt(script[i], name)
  {
  }

  /**
   A name made by a creation that completed, and then destroyed as far as `cut`. Cleaning the name finds
   the creation, which nobody reports. It is approved for two kinds of directory: one whose destruction
   was stopped after its registration was unlinked, which stays reported, and one that a later
   restoration, killed before its first entry, made after the destruction completed.
   */
  lemma CleaningAfterDestructionFindsTheCreation(
      before: seq<Event>, created: string, destroyed: string, stopping: string, name: string, plan: Identity,
      approved: Identity, cut: Cut)
    requires Chained(before) && Orderly(Log(before)) && created != destroyed
    requires Statuses(Log(before), created) == [] && Statuses(Log(before), destroyed) == []
    requires CutOf(cut, DestroyScript(destroyed, stopping, name, approved)) && 0 < cut.n
    ensures var report := Entry(stopping, Stopping, Runtime, Uncertain, name, Nothing);
            var complete := Extend(before, CreateScript(created, name, plan));
            var after := Extend(complete, Written(DestroyScript(destroyed, stopping, name, approved), report, cut));
            var found := LatestAttempt(Log(after), name);
            && found.Some? && found.value.operation == created && !Unsettled(Log(after), created)
            && (Unsettled(Log(after), destroyed) <==> cut.n < 10)
            && (Unsettled(Log(Extend(after, [Cleaned(found.value, name)])), destroyed) <==> cut.n < 10)
  {
    hide Chained, Orderly, Statuses, Lifecycle, Extend, CreateScript, DestroyScript, Written;
    var script, complete := CreateScript(created, name, plan), Extend(before, CreateScript(created, name, plan));
    CreationRecorded(before, created, destroyed, name, plan);
    var destruction := DestroyScript(destroyed, stopping, name, approved);
    var report := Entry(stopping, Stopping, Runtime, Uncertain, name, Nothing);
    var entries := Written(destruction, report, cut);
    var after := Extend(complete, entries);
    DestructionRecorded(complete, destroyed, stopping, name, approved, cut);
    DestroySpeaks(destroyed, stopping, name, approved, cut);
    OtherOperationUntouched(complete, entries, destroyed, created);
    CreationIsFound(before, created, name, plan, entries);
    JournalAfterCleaning(after, LatestAttempt(Log(after), name).value, name);
  }

  lemma CreationRecorded(before: seq<Event>, created: string, other: string, name: string, plan: Identity)
    requires Chained(before) && Orderly(Log(before)) && created != other
    requires Statuses(Log(before), created) == [] && Statuses(Log(before), other) == []
    ensures var complete := Extend(before, CreateScript(created, name, plan));
            && Chained(complete) && Orderly(Log(complete)) && Complete in Statuses(Log(complete), created)
            && Statuses(Log(complete), other) == []
  {
    hide Chained, Orderly, Statuses, Lifecycle, Extend, Framed;
    var uncertain := Entry(created, Creation, Operation, Uncertain, name, Nothing);
    var script := CreateScript(created, name, plan);
    assert script[..10] == script;
    CreateIsFramed(created, name, plan);
    FramedJournal(before, script, created, uncertain, Cut(10, false), Extend(before, script));
    OtherOperationUntouched(before, script, created, other);
  }

  lemma DestructionRecorded(before: seq<Event>, destroyed: string, stopping: string, name: string, approved: Identity,
                            cut: Cut)
    requires Chained(before) && Orderly(Log(before)) && Statuses(Log(before), destroyed) == []
    requires CutOf(cut, DestroyScript(destroyed, stopping, name, approved)) && 0 < cut.n
    ensures var report := Entry(stopping, Stopping, Runtime, Uncertain, name, Nothing);
            var after := Extend(before, Written(DestroyScript(destroyed, stopping, name, approved), report, cut));
            && Chained(after) && Orderly(Log(after)) && (Unsettled(Log(after), destroyed) <==> cut.n < 10)
  {
    hide Chained, Orderly, Statuses, Lifecycle, Extend, Framed;
    var script := DestroyScript(destroyed, stopping, name, approved);
    var report := Entry(stopping, Stopping, Runtime, Uncertain, name, Nothing);
    DestroyIsFramed(destroyed, stopping, name, approved);
    ExtendTwice(before, script[..cut.n], [report]);
    assert script[..cut.n] + [] == script[..cut.n];
    FramedJournal(before, script, destroyed, report, cut, Extend(before, Written(script, report, cut)));
  }

  lemma CreationIsFound(before: seq<Event>, created: string, name: string, plan: Identity, later: seq<Entry>)
    requires Chained(before) && forall e | e in later :: !IsAttempt(e, name)
    ensures var found := LatestAttempt(Log(Extend(Extend(before, CreateScript(created, name, plan)), later)), name);
            found.Some? && found.value.operation == created
  {
    hide Chained, Extend;
    var uncertain := Entry(created, Creation, Operation, Uncertain, name, Nothing);
    var script := CreateScript(created, name, plan);
    assert Written(script, uncertain, Cut(10, false)) == script;
    AttemptsOfBothKinds(created, name, plan, "");
    CleaningFindsTheAttempt(before, script, uncertain, Cut(10, false), name, later);
  }

  lemma DestroySpeaks(operation: string, stopping: string, name: string, plan: Identity, cut: Cut)
    requires CutOf(cut, DestroyScript(operation, stopping, name, plan))
    ensures var report := Entry(stopping, Stopping, Runtime, Uncertain, name, Nothing);
            var entries := Written(DestroyScript(operation, stopping, name, plan), report, cut);
            SpeaksOnlyFor(entries, operation) && forall e | e in entries :: !IsAttempt(e, name)
  {
    DestroyPrefixSpeaks(operation, stopping, name, plan, cut.n);
  }

  /**
   A restoration killed before its first entry, then a cleaning: the cleaning settles whatever attempt
   the journal had on the name before, and with none it refuses and the directory stays.
   */
  method CleanAfterSilentRestoration(runtime: LabRuntime, archive: string, name: string, generation: string,
                                     operation: string, pid: nat)
      returns (restored: Outcome, cleaned: Outcome, ghost cut: Cut)
    requires runtime.Valid() && Statuses(Log(runtime.journal), operation) == []
    modifies runtime
    ensures restored == Crashed && cut.n == 0 && LatestAttempt(old(Log(runtime.journal)), name).None? ==>
              && cleaned != Done && runtime.journal == old(runtime.journal)
              && (name in runtime.environments && name !in old(runtime.environments) ==>
                    Stuck(runtime.environments, Log(runtime.journal), name))
    ensures restored == Crashed && cut.n == 0 && cleaned == Done ==>
              && LatestAttempt(old(Log(runtime.journal)), name).Some?
              && runtime.journal
                 == Extend(old(runtime.journal), [Cleaned(LatestAttempt(old(Log(runtime.journal)), name).value, name)])
  {
    hide Chained, Orderly, Statuses, Log, Sound, Extend, Unsettled, LatestAttempt;
    ghost var before := runtime.journal;
    cleaned := Raised;
    restored, cut :=
      runtime.Restore(archive, name, "RESTORE " + archive + " AS " + name, generation, operation, pid);
    if restored == Crashed {
      NothingCut(before, operation, name, archive, cut);
      var found;
      cleaned, found := runtime.RecoverUnpublished(name, "CLEAN UNPUBLISHED " + name, false);
    }
  }

  lemma NothingCut(before: seq<Event>, operation: string, name: string, archive: string, cut: Cut)
    requires CutOf(cut, RestoreScript(operation, name, archive))
    ensures cut.n == 0 ==>
              Extend(before,
                     Written(RestoreScript(operation, name, archive),
                             Entry(operation, Restoration, Operation, Uncertain, name, OfArchive(archive)), cut))
              == before
  {
  }

  lemma CreateIsFramed(operation: string, name: string, plan: Identity)
    ensures Framed(CreateScript(operation, name, plan), operation)
    ensures SpeaksOnlyFor(CreateScript(operation, name, plan), operation)
  {
  }

  lemma DestroyPrefixSpeaks(operation: string, stopping: string, name: string, plan: Identity, n: nat)
    requires n <= 10
    ensures var entries := DestroyScript(operation, stopping, name, plan)[..n];
            SpeaksOnlyFor(entries, operation) && forall e | e in entries :: !IsAttempt(e, name)
  {
  }

  lemma OtherOperationUntouched(before: seq<Event>, entries: seq<Entry>, operation: string, other: string)
    requires Chained(before) && SpeaksOnlyFor(entries, operation) && other != operation
    ensures Statuses(Log(Extend(before, entries)), other) == Statuses(Log(before), other)
  {
    hide Statuses, Extend, Chained;
    ExtendKeepsTheChain(before, entries);
    StatusesConcat(Log(before), entries, other);
    SilentEntries(entries, other);
  }

  /** A plan is not used up: create, destroy and create again give the same generation. */
  method SamePlanTwice(runtime: LabRuntime, plan: Plan, destruction: Identity, operations: seq<string>,
                       stopping: string, pid: nat)
      returns (first: Option<Registration>, second: Option<Registration>)
    requires runtime.Valid() && runtime.reliable && |operations| == 3
    requires operations[0] != operations[1] && operations[0] != operations[2] && operations[1] != operations[2]
    requires forall i | 0 <= i < 3 :: Statuses(Log(runtime.journal), operations[i]) == []
    requires PlanDigest(plan) in runtime.plans && runtime.plans[PlanDigest(plan)] == plan && plan.action == Creation
    requires plan.role.Some? && plan.role.value in runtime.releases && ValidName(plan.name)
    requires plan.name !in runtime.environments
    requires LoadPlan(runtime.plans, destruction, Destruction).Success? && destruction.plan.name == plan.name
    modifies runtime
    ensures first.Some? && second == first && first.value.generation == plan.generation
  {
    hide Chained, Orderly, Sound, Written, Extend, CutOf, Published;
    var approval := "CREATE " + plan.name + " AS " + RoleText(plan.role.value);
    var outcome;
    ghost var name, cut;
    ghost var before := runtime.journal;
    outcome, name, cut := runtime.Create(PlanDigest(plan), approval, operations[0], pid);
    CreatedSpeaks(before, runtime.journal, operations[0], plan.name, PlanDigest(plan), cut);
    first := runtime.environments[plan.name].registration;
    before := runtime.journal;
    outcome, name, cut := runtime.Destroy(destruction, "DESTROY " + plan.name, operations[1], stopping, pid, false);
    DestroyedSpeaks(before, runtime.journal, operations[1], stopping, plan.name, destruction, cut);
    outcome, name, cut := runtime.Create(PlanDigest(plan), approval, operations[2], pid);
    second := runtime.environments[plan.name].registration;
  }

  lemma CreatedSpeaks(before: seq<Event>, after: seq<Event>, operation: string, name: string, plan: Identity, cut: Cut)
    requires Chained(before) && cut == Cut(10, false)
    requires CutOf(cut, CreateScript(operation, name, plan))
    requires after == Extend(before, Written(CreateScript(operation, name, plan),
                                             Entry(operation, Creation, Operation, Uncertain, name, Nothing), cut))
    ensures forall other | other != operation :: Statuses(Log(after), other) == Statuses(Log(before), other)
  {
    hide Chained, Extend, Statuses, Log;
    var entries := CreateScript(operation, name, plan);
    assert entries[..10] + [] == entries;
    CreateIsFramed(operation, name, plan);
    forall other | other != operation ensures Statuses(Log(after), other) == Statuses(Log(before), other) {
      OtherOperationUntouched(before, entries, operation, other);
    }
  }

  lemma DestroyedSpeaks(before: seq<Event>, after: seq<Event>, operation: string, stopping: string, name: string,
                        plan: Identity, cut: Cut)
    requires Chained(before) && cut == Cut(10, false)
    requires CutOf(cut, DestroyScript(operation, stopping, name, plan))
    requires after == Extend(before, Written(DestroyScript(operation, stopping, name, plan),
                                             Entry(stopping, Stopping, Runtime, Uncertain, name, Nothing), cut))
    ensures forall other | other != operation :: Statuses(Log(after), other) == Statuses(Log(before), other)
  {
    hide Chained, Extend, Statuses, Log;
    var entries := DestroyScript(operation, stopping, name, plan);
    assert entries[..10] + [] == entries[..10];
    DestroyPrefixSpeaks(operation, stopping, name, plan, 10);
    forall other | other != operation ensures Statuses(Log(after), other) == Statuses(Log(before), other) {
      OtherOperationUntouched(before, entries[..10], operation, other);
    }
  }
}
