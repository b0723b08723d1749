/**
 What cleaning an unpublished name settles, read off the journal of serial runs: which operation it
 finds, and exactly when that is one still reported, or the one that acted on the name last.
 */
module LabCleaning {
  import opened Common
  import opened LabJournal
  import opened LabRuntime

  /** An entry about a whole operation. */
  predicate Whole(entry: Entry) {
    entry.effect == Operation
  }

  /** A whole-operation entry of a creation or restoration of the name, whatever its status. */
  predicate MakesName(entry: Entry, name: string) {
    Whole(entry) && entry.name == name && entry.action in {Creation, Restoration}
  }

  /** The newest whole-operation entry on the name. */
  function NewestOn(log: seq<Entry>, name: string): Option<Entry> {
    if log == [] then None
    else if Whole(log[|log| - 1]) && log[|log| - 1].name == name then Some(log[|log| - 1])
    else NewestOn(log[..|log| - 1], name)
  }

  /** The newest of a creation or restoration. */
  function NewestMaking(log: seq<Entry>, name: string): Option<Entry> {
    if log == [] then None
    else if MakesName(log[|log| - 1], name) then Some(log[|log| - 1])
    else NewestMaking(log[..|log| - 1], name)
  }

  // ---------------------------------------------------------------- what serial runs keep of the log

  /** All whole-operation entries of one identity are of one action on one name. */
  ghost predicate OneKind(log: seq<Entry>) {
    forall a, b | a in log && b in log && Whole(a) && Whole(b) && a.operation == b.operation ::
      a.name == b.name && a.action == b.action
  }

  predicate Finishes(entry: Entry) {
    Whole(entry) && entry.status == Complete && entry.action in {Creation, Restoration}
  }

  /** What completes is the latest attempt on its name at that moment. */
  predicate CompletesTheLatest(log: seq<Entry>, i: nat)
    requires i < |log|
  {
    Finishes(log[i]) ==>
      && LatestAttempt(log[..i], log[i].name).Some?
      && LatestAttempt(log[..i], log[i].name).value.operation == log[i].operation
  }

  ghost predicate SerialLog(log: seq<Entry>) {
    Orderly(log) && OneKind(log) && forall i | 0 <= i < |log| :: CompletesTheLatest(log, i)
  }

  lemma EmptyLogIsSerial()
    ensures SerialLog([])
  {
    NoStatuses();
  }

  // ---------------------------------------------------------------- searching the log

  lemma {:induction false} NewestMakingAt(log: seq<Entry>, name: string) returns (k: nat)
    requires NewestMaking(log, name).Some?
    ensures k < |log| && log[k] == NewestMaking(log, name).value && MakesName(log[k], name)
    ensures forall j | k < j < |log| :: !MakesName(log[j], name)
  {
    if MakesName(log[|log| - 1], name) {
      k := |log| - 1;
    } else {
      k := NewestMakingAt(log[..|log| - 1], name);
    }
  }

  lemma {:induction false} NewestOnAt(log: seq<Entry>, name: string) returns (k: nat)
    requires NewestOn(log, name).Some?
    ensures k < |log| && log[k] == NewestOn(log, name).value && Whole(log[k]) && log[k].name == name
    ensures forall j | k < j < |log| :: !(Whole(log[j]) && log[j].name == name)
  {
    if Whole(log[|log| - 1]) && log[|log| - 1].name == name {
      k := |log| - 1;
    } else {
      k := NewestOnAt(log[..|log| - 1], name);
    }
  }

  /** An attempt makes both searches succeed. */
  lemma {:induction false} AttemptIsFound(log: seq<Entry>, name: string)
    requires LatestAttempt(log, name).Some?
    ensures NewestMaking(log, name).Some? && NewestOn(log, name).Some?
  {
    if IsAttempt(log[|log| - 1], name) {
    } else {
      AttemptIsFound(log[..|log| - 1], name);
    }
  }

  /** Entries that are no attempts do not change what is found. */
  lemma FoundBefore(log: seq<Entry>, name: string, k: nat)
    requires k <= |log| && forall j | k <= j < |log| :: !IsAttempt(log[j], name)
    ensures LatestAttempt(log, name) == LatestAttempt(log[..k], name)
  {
    NoAttemptAdded(log[..k], log[k..], name);
    assert log == log[..k] + log[k..];
  }

  lemma {:induction false} StatusComesFrom(log: seq<Entry>, operation: string, status: Status) returns (k: nat)
    requires status in Statuses(log, operation)
    ensures k < |log| && Whole(log[k]) && log[k].operation == operation && log[k].status == status
  {
    var n := |log| - 1;
    if Whole(log[n]) && log[n].operation == operation && log[n].status == status {
      k := n;
    } else {
      k := StatusComesFrom(log[..n], operation, status);
    }
  }

  lemma StatusesAround(log: seq<Entry>, k: nat)
    requires k < |log| && Whole(log[k])
    ensures var operation := log[k].operation;
            exists rest: seq<Status> ::
              Statuses(log, operation) == Statuses(log[..k], operation) + [log[k].status] + rest
  {
    hide Statuses;
    var operation, before, last := log[k].operation, log[..k], log[k];
    StatusesConcat(before + [last], log[k + 1..], operation);
    StatusesConcat(before, [last], operation);
    SingleStatus(last, operation);
    assert log == before + [last] + log[k + 1..];
    var rest := Statuses(log[k + 1..], operation);
    assert Statuses(log, operation) == Statuses(before, operation) + [last.status] + rest;
  }

  lemma StatusRecorded(log: seq<Entry>, k: nat)
    requires k < |log| && Whole(log[k])
    ensures log[k].status in Statuses(log, log[k].operation)
  {
    hide Statuses;
    StatusesAround(log, k);
  }

  lemma AfterComplete(before: seq<Status>, last: Status, rest: seq<Status>)
    requires Lifecycle(before + [last] + rest) && Complete in before
    ensures last == Complete
  {
    var statuses := before + [last] + rest;
    var i :| 0 <= i < |before| && before[i] == Complete;
    assert statuses[i] == Complete && statuses[|before|] == last;
  }

  /** After "complete" an operation writes nothing else. */
  lemma CompleteIsLast(log: seq<Entry>, m: nat, k: nat)
    requires Orderly(log) && m < k < |log| && Whole(log[m]) && Whole(log[k])
    requires log[m].operation == log[k].operation && log[m].status == Complete
    ensures log[k].status == Complete
  {
    hide Statuses, Lifecycle;
    var operation := log[k].operation;
    StatusRecorded(log[..k], m);
    StatusesAround(log, k);
    var rest: seq<Status> :| Statuses(log, operation) == Statuses(log[..k], operation) + [log[k].status] + rest;
    assert Lifecycle(Statuses(log, operation));
    AfterComplete(Statuses(log[..k], operation), log[k].status, rest);
  }

  // ---------------------------------------------------------------- the exact conditions

  /**
   Cleaning settles an operation that `recover` reports exactly when the newest creation or restoration
   entry on the name is not a completion.
   */
  lemma SettlesAReportedOperationExactlyWhen(log: seq<Entry>, name: string)
    requires SerialLog(log) && LatestAttempt(log, name).Some?
    ensures NewestMaking(log, name).Some?
    ensures Unsettled(log, LatestAttempt(log, name).value.operation)
            <==> NewestMaking(log, name).value.status != Complete
  {
    hide Orderly, OneKind, Statuses, LatestAttempt, NewestMaking;
    AttemptIsFound(log, name);
    var k := NewestMakingAt(log, name);
    var newest := log[k];
    if newest.status != Complete {
      LatestAttemptIsNewest(log, name, k);
      StatusRecorded(log, k);
      NewestIsUnsettled(log, name, k);
    } else {
      assert CompletesTheLatest(log, k);
      FoundBefore(log, name, k);
      StatusRecorded(log, k);
    }
  }

  lemma NewestIsUnsettled(log: seq<Entry>, name: string, k: nat)
    requires Orderly(log) && OneKind(log) && k < |log| && MakesName(log[k], name) && log[k].status != Complete
    requires forall j | k < j < |log| :: !MakesName(log[j], name)
    ensures Unsettled(log, log[k].operation)
  {
    hide Statuses;
    var operation := log[k].operation;
    if Complete in Statuses(log, operation) {
      var m := StatusComesFrom(log, operation, Complete);
      assert MakesName(log[m], name);
      CompleteIsLast(log, m, k);
    }
    StatusRecorded(log, k);
    assert Lifecycle(Statuses(log, operation));
    assert Statuses(log, operation)[0] == Started;
  }

  /**
   Cleaning settles, as one that was still reported, the operation that acted on the name last exactly
   when the newest whole-operation entry on the name is a started or uncertain creation or restoration.
   */
  lemma SettlesTheLastOperationExactlyWhen(log: seq<Entry>, name: string)
    requires SerialLog(log) && LatestAttempt(log, name).Some?
    ensures NewestOn(log, name).Some?
    ensures var newest, found := NewestOn(log, name).value, LatestAttempt(log, name).value;
            found.operation == newest.operation && Unsettled(log, newest.operation) <==> IsAttempt(newest, name)
  {
    hide Orderly, Statuses, LatestAttempt, NewestOn;
    AttemptIsFound(log, name);
    LatestAttemptIsRecorded(log, name);
    var k := NewestOnAt(log, name);
    if IsAttempt(log[k], name) {
      LatestAttemptIsNewest(log, name, k);
      NewestIsUnsettled(log, name, k);
    } else {
      StatusRecorded(log, k);
      var found := LatestAttempt(log, name).value;
      assert found in log && Whole(found) && log[k] in log;
      assert found.operation == log[k].operation ==> log[k].action == found.action && log[k].status == Complete;
    }
  }

  // ---------------------------------------------------------------- how the log grows

  /** A destruction's own entry is in the log. */
  ghost predicate Destroying(log: seq<Entry>, operation: string) {
    exists e :: e in log && Whole(e) && e.operation == operation && e.action == Destruction
  }

  /**
   What one command does to the log, given the names whose directory existed: it stays serial and
   grows, unfinished destructions stay unfinished, and no attempt is added on an existing name.
   */
  ghost predicate Follows(names: set<string>, before: seq<Entry>, after: seq<Entry>) {
    && before <= after && SerialLog(after)
    && (forall operation | Destroying(before, operation) && Unsettled(before, operation) ::
          Destroying(after, operation) && Unsettled(after, operation))
    && (forall name | name in names :: LatestAttempt(after, name) == LatestAttempt(before, name))
  }

  /** The entries of one operation: it starts first and is of one kind. */
  predicate OneOperation(entries: seq<Entry>, operation: string, name: string, action: Action) {
    && (forall e | e in entries && Whole(e) :: e.operation == operation && e.name == name && e.action == action)
    && (entries != [] ==> Whole(entries[0]) && entries[0].status == Started)
    && (forall i | 0 < i < |entries| :: Whole(entries[i]) ==> entries[i].status != Started)
  }

  lemma {:induction false} FreshIsAbsent(log: seq<Entry>, operation: string)
    requires Statuses(log, operation) == []
    ensures forall e | e in log && Whole(e) :: e.operation != operation
  {
    forall k | 0 <= k < |log| && Whole(log[k]) ensures log[k].operation != operation {
      if log[k].operation == operation {
        StatusRecorded(log, k);
      }
    }
  }

  lemma {:induction false} LatestIsOwn(log: seq<Entry>, entries: seq<Entry>, operation: string, name: string,
                                       action: Action)
    requires OneOperation(entries, operation, name, action) && entries != [] && action in {Creation, Restoration}
    ensures LatestAttempt(log + entries, name).Some?
    ensures LatestAttempt(log + entries, name).value.operation == operation
    decreases |entries|
  {
    var n := |entries| - 1;
    assert (log + entries)[..|log + entries| - 1] == log + entries[..n];
    assert entries[n] in entries && entries[0] in entries;
    if n == 0 || IsAttempt(entries[n], name) {
    } else {
      assert forall i | 0 <= i < n :: entries[..n][i] == entries[i];
      LatestIsOwn(log, entries[..n], operation, name, action);
    }
  }

  lemma NewOperationIsSerial(log: seq<Entry>, entries: seq<Entry>, operation: string, name: string, action: Action)
    requires SerialLog(log) && Statuses(log, operation) == []
    requires OneOperation(entries, operation, name, action) && Orderly(log + entries)
    ensures SerialLog(log + entries)
  {
    hide Orderly, Statuses, LatestAttempt, IsAttempt;
    FreshIsAbsent(log, operation);
    var all := log + entries;
    forall i | 0 <= i < |all| ensures CompletesTheLatest(all, i) {
      if i < |log| {
        assert all[..i] == log[..i] && CompletesTheLatest(log, i);
      } else if Finishes(all[i]) {
        var n := i - |log|;
        assert all[i] == entries[n] && entries[n] in entries && all[..i] == log + entries[..n];
        assert forall j | 0 <= j < n :: entries[..n][j] == entries[j];
        LatestIsOwn(log, entries[..n], operation, name, action);
      }
    }
    KindsStayOne(log, entries, operation, name, action);
  }

  lemma KindsStayOne(log: seq<Entry>, entries: seq<Entry>, operation: string, name: string, action: Action)
    requires OneKind(log) && (forall e | e in log && Whole(e) :: e.operation != operation)
    requires OneOperation(entries, operation, name, action)
    ensures OneKind(log + entries)
  {
  }

  /** A new operation never speaks for another. */
  lemma NewOperationFollows(names: set<string>, log: seq<Entry>, entries: seq<Entry>, operation: string, name: string,
                            action: Action)
    requires SerialLog(log) && Statuses(log, operation) == []
    requires OneOperation(entries, operation, name, action) && Orderly(log + entries)
    requires (entries != [] && action in {Creation, Restoration}) ==> name !in names
    ensures Follows(names, log, log + entries)
  {
    NewOperationIsSerial(log, entries, operation, name, action);
    hide SerialLog, Statuses, LatestAttempt, Unsettled, Destroying;
    FreshIsAbsent(log, operation);
    forall other | Destroying(log, other) && Unsettled(log, other)
      ensures Destroying(log + entries, other) && Unsettled(log + entries, other)
    {
      DestructionStays(log, entries, operation, other);
    }
    forall existing | existing in names ensures LatestAttempt(log + entries, existing) == LatestAttempt(log, existing) {
      NoAttemptAdded(log, entries, existing);
    }
  }

  lemma DestructionStays(log: seq<Entry>, entries: seq<Entry>, operation: string, other: string)
    requires forall e | e in log && Whole(e) :: e.operation != operation
    requires forall e | e in entries && Whole(e) :: e.operation == operation
    requires Destroying(log, other) && Unsettled(log, other)
    ensures Destroying(log + entries, other) && Unsettled(log + entries, other)
  {
    hide Statuses;
    var e :| e in log && Whole(e) && e.operation == other && e.action == Destruction;
    assert e in log + entries;
    StatusesConcat(log, entries, other);
    SilentEntries(entries, other);
  }

  lemma SilenceFollows(names: set<string>, log: seq<Entry>, entries: seq<Entry>)
    requires SerialLog(log) && forall e | e in entries :: !Whole(e)
    ensures Follows(names, log, log + entries)
  {
    OrderlyAfterSilence(log, entries);
    hide Orderly, Statuses, LatestAttempt;
    var all := log + entries;
    forall i | 0 <= i < |all| ensures CompletesTheLatest(all, i) {
      if i < |log| {
        assert all[..i] == log[..i] && CompletesTheLatest(log, i);
      } else {
        assert all[i] in entries;
      }
    }
    forall operation | Destroying(log, operation) ensures Destroying(all, operation) {
      var e :| e in log && Whole(e) && e.operation == operation && e.action == Destruction;
      assert e in all;
    }
    forall name | name in names ensures LatestAttempt(all, name) == LatestAttempt(log, name) {
      NoAttemptAdded(log, entries, name);
    }
  }

  /** Cleaning completes a creation or restoration, so never a destruction. */
  lemma CleaningFollows(names: set<string>, log: seq<Entry>, name: string)
    requires SerialLog(log) && LatestAttempt(log, name).Some?
    ensures Follows(names, log, log + [Cleaned(LatestAttempt(log, name).value, name)])
  {
    var found := LatestAttempt(log, name).value;
    var completion := Cleaned(found, name);
    LatestAttemptIsRecorded(log, name);
    OrderlyAfterCompletion(log, completion);
    hide Orderly, Statuses, LatestAttempt, Unsettled;
    var all := log + [completion];
    forall i | 0 <= i < |all| ensures CompletesTheLatest(all, i) {
      if i < |log| {
        assert all[..i] == log[..i] && CompletesTheLatest(log, i);
      } else {
        assert all[..i] == log;
      }
    }
    forall operation | Destroying(log, operation) && Unsettled(log, operation)
      ensures Destroying(all, operation) && Unsettled(all, operation)
    {
      var e :| e in log && Whole(e) && e.operation == operation && e.action == Destruction;
      assert e in all;
    }
    forall other | other in names ensures LatestAttempt(all, other) == LatestAttempt(log, other) {
      NoAttemptAdded(log, [completion], other);
    }
  }

  // ---------------------------------------------------------------- what stands was begun

  /** The log says that this effect was begun on the name, by a creation, or a restoration as a whole. */
  ghost predicate Begun(log: seq<Entry>, name: string, effect: Effect) {
    exists e :: e in log && e.name == name && e.status == Started
                && (e.effect == effect || (e.effect == Operation && e.action == Restoration))
  }

  ghost predicate WitnessedAt(env: Environment, log: seq<Entry>, name: string) {
    && (env.root.Some? ==> Begun(log, name, RootEffect))
    && (env.home.Some? ==> Begun(log, name, HomeEffect))
    && (env.registration.Some? ==> Begun(log, name, Publish))
  }

  /** No root, home or registration stands that the journal does not say was begun. */
  ghost predicate Witnessed(environments: map<string, Environment>, log: seq<Entry>) {
    forall name | name in environments :: WitnessedAt(environments[name], log, name)
  }

  lemma WitnessStays(env: Environment, later: Environment, log: seq<Entry>, after: seq<Entry>, name: string)
    requires WitnessedAt(env, log, name) && log <= after
    requires later.root.Some? ==> env.root.Some?
    requires later.home.Some? ==> env.home.Some?
    requires later.registration.Some? ==> env.registration.Some?
    ensures WitnessedAt(later, after, name)
  {
    forall effect | Begun(log, name, effect) ensures Begun(after, name, effect) {
      var e :| e in log && e.name == name && e.status == Started
               && (e.effect == effect || (e.effect == Operation && e.action == Restoration));
      assert e in after;
    }
  }

  /** All names but one are as before. */
  lemma OthersStayWitnessed(before: map<string, Environment>, after: map<string, Environment>,
                            log: seq<Entry>, longer: seq<Entry>, name: string)
    requires Witnessed(before, log) && log <= longer
    requires after == before || after == before - {name} || (name in after && after == before[name := after[name]])
    requires name in after ==> WitnessedAt(after[name], longer, name)
    ensures Witnessed(after, longer)
  {
    hide WitnessedAt;
    forall other | other in after ensures WitnessedAt(after[other], longer, other) {
      if other != name {
        WitnessStays(before[other], after[other], log, longer, other);
      }
    }
  }

  lemma LoggedIsBegun(log: seq<Entry>, entries: seq<Entry>, name: string, effect: Effect)
    requires Logged(entries, effect, Started) && forall e | e in entries :: e.name == name
    ensures Begun(log + entries, name, effect)
  {
    var e :| e in entries && e.effect == effect && e.status == Started;
    assert e in log + entries;
  }
}
