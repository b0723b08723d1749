/**
 The operation journal of the laboratory runtime (scripts/virtual-lab/apx-lab-runtime.py): a hash
 chain of events, and what its "operation" events say about each operation.
 */
module LabJournal {
  import opened Common

  datatype Role = Hub | Development | Minimal
  datatype Action = Creation | Restoration | Destruction | Activation | Stopping
  datatype Effect = Operation | RootEffect | HomeEffect | Configure | Publish | Runtime | Unpublish | RemoveHome
    | RemoveRoot
  datatype Status = Started | Complete | Uncertain

  /** A plan without its digest; the plan of a creation carries a role. */
  datatype Plan = Plan(action: Action, name: string, role: Option<Role>, generation: string)

  /** A plan identity: the digest of a plan, or text that is none. */
  datatype Identity = PlanDigest(plan: Plan) | Text(text: string)

  datatype Extra = Nothing | OfPlan(plan: Identity) | OfArchive(archive: string) | ApprovedClean

  /** What a caller of `append_event` records. */
  datatype Entry = Entry(operation: string, action: Action, effect: Effect, status: Status, name: string, extra: Extra)

  datatype Hash = Zero | Of(event: Event)
  datatype Event = Event(entry: Entry, previous: Hash)

  // ---------------------------------------------------------------- the chain

  function Head(journal: seq<Event>): Hash {
    if journal == [] then Zero else Of(journal[|journal| - 1])
  }

  /** The journal after these entries were appended one by one. */
  function Extend(journal: seq<Event>, entries: seq<Entry>): seq<Event>
    decreases |entries|
  {
    if entries == [] then journal
    else Extend(journal + [Event(entries[0], Head(journal))], entries[1..])
  }

  predicate Chained(journal: seq<Event>) {
    forall i | 0 <= i < |journal| :: journal[i].previous == Head(journal[..i])
  }

  function Log(journal: seq<Event>): seq<Entry> {
    seq(|journal|, i requires 0 <= i < |journal| => journal[i].entry)
  }

  lemma {:induction false} ExtendTwice(journal: seq<Event>, first: seq<Entry>, second: seq<Entry>)
    ensures Extend(journal, first + second) == Extend(Extend(journal, first), second)
    decreases |first|
  {
    if first == [] {
      assert first + second == second;
    } else {
      assert (first + second)[1..] == first[1..] + second;
      ExtendTwice(journal + [Event(first[0], Head(journal))], first[1..], second);
    }
  }

  /** Appending keeps the chain and everything already recorded. */
  lemma {:induction false} ExtendKeepsTheChain(journal: seq<Event>, entries: seq<Entry>)
    requires Chained(journal)
    ensures Chained(Extend(journal, entries))
    ensures journal <= Extend(journal, entries)
    ensures Log(Extend(journal, entries)) == Log(journal) + entries
    decreases |entries|
  {
    if entries == [] {
    } else {
      var next := journal + [Event(entries[0], Head(journal))];
      forall i | 0 <= i < |next| ensures next[i].previous == Head(next[..i]) {
        assert next[..i] == journal[..i];
        assert journal[..|journal|] == journal;
      }
      ExtendKeepsTheChain(next, entries[1..]);
      assert Log(next) == Log(journal) + [entries[0]];
      assert entries == [entries[0]] + entries[1..];
    }
  }

  /** The digest of the newest event commits to every event before it. */
  lemma {:induction false} HeadDeterminesHistory(a: seq<Event>, b: seq<Event>)
    requires Chained(a) && Chained(b) && Head(a) == Head(b)
    ensures a == b
    decreases |a|
  {
    if a == [] {
    } else {
      var i, j := |a| - 1, |b| - 1;
      assert a[i] == b[j];
      PrefixIsChained(a, i);
      PrefixIsChained(b, j);
      hide Chained;
      HeadDeterminesHistory(a[..i], b[..j]);
      assert a == a[..i] + [a[i]] && b == b[..j] + [b[j]];
    }
  }

  lemma PrefixIsChained(journal: seq<Event>, n: nat)
    requires Chained(journal) && n < |journal|
    ensures Chained(journal[..n]) && journal[n].previous == Head(journal[..n])
  {
    assert forall k | 0 <= k < n :: journal[..n][..k] == journal[..k];
  }

  // ---------------------------------------------------------------- operations in the log

  /** The statuses an operation logged for itself as a whole, oldest first. */
  function Statuses(log: seq<Entry>, operation: string): seq<Status> {
    if log == [] then []
    else
      var last := log[|log| - 1];
      Statuses(log[..|log| - 1], operation)
      + if last.effect == Operation && last.operation == operation then [last.status] else []
  }

  /** Started once and first; nothing but "complete" after "complete". */
  predicate Lifecycle(statuses: seq<Status>) {
    && (forall i | 0 <= i < |statuses| :: statuses[i] == Started <==> i == 0)
    && (forall i, j | 0 <= i < j < |statuses| && statuses[i] == Complete :: statuses[j] == Complete)
  }

  ghost predicate Orderly(log: seq<Entry>) {
    forall operation :: Lifecycle(Statuses(log, operation))
  }

  /** Started, and no "complete" was ever written for it. */
  predicate Unsettled(log: seq<Entry>, operation: string) {
    Started in Statuses(log, operation) && Complete !in Statuses(log, operation)
  }

  /** What `recover` computes: the last status, when there is one, is not "complete". */
  predicate ReportedUncertain(log: seq<Entry>, operation: string) {
    var statuses := Statuses(log, operation);
    statuses != [] && statuses[|statuses| - 1] != Complete
  }

  lemma ReportIsExact(log: seq<Entry>, operation: string)
    requires Orderly(log)
    ensures ReportedUncertain(log, operation) <==> Unsettled(log, operation)
  {
    var statuses := Statuses(log, operation);
    assert Lifecycle(statuses);
    if statuses != [] {
      assert statuses[0] == Started;
    }
  }

  lemma {:induction false} StatusesConcat(a: seq<Entry>, b: seq<Entry>, operation: string)
    ensures Statuses(a + b, operation) == Statuses(a, operation) + Statuses(b, operation)
    decreases |b|
  {
    if b == [] {
      assert a + b == a;
    } else {
      assert (a + b)[..|a + b| - 1] == a + b[..|b| - 1];
      StatusesConcat(a, b[..|b| - 1], operation);
    }
  }

  predicate SpeaksOnlyFor(entries: seq<Entry>, operation: string) {
    forall e | e in entries && e.effect == Operation :: e.operation == operation
  }

  lemma {:induction false} SilentEntries(entries: seq<Entry>, operation: string)
    requires forall e | e in entries && e.effect == Operation :: e.operation != operation
    ensures Statuses(entries, operation) == []
    decreases |entries|
  {
    if entries == [] {
    } else {
      assert entries[|entries| - 1] in entries;
      SilentEntries(entries[..|entries| - 1], operation);
    }
  }

  /** A new operation leaves the log orderly wherever it stops. */
  lemma OrderlyAfterNewOperation(log: seq<Entry>, entries: seq<Entry>, operation: string)
    requires Orderly(log) && Statuses(log, operation) == []
    requires SpeaksOnlyFor(entries, operation) && Lifecycle(Statuses(entries, operation))
    ensures Orderly(log + entries)
    ensures forall other | other != operation :: Statuses(log + entries, other) == Statuses(log, other)
    ensures Statuses(log + entries, operation) == Statuses(entries, operation)
  {
    hide Lifecycle, Statuses;
    forall other
      ensures Statuses(log + entries, other)
              == if other == operation then Statuses(entries, operation) else Statuses(log, other)
    {
      StatusesConcat(log, entries, other);
      if other != operation {
        SilentEntries(entries, other);
      }
    }
  }

  /** One more "complete" for a recorded operation settles it and touches no other. */
  lemma OrderlyAfterCompletion(log: seq<Entry>, completion: Entry)
    requires Orderly(log) && Statuses(log, completion.operation) != []
    requires completion.effect == Operation && completion.status == Complete
    ensures Orderly(log + [completion])
    ensures forall operation ::
              Unsettled(log + [completion], operation)
              <==> Unsettled(log, operation) && operation != completion.operation
  {
    forall operation
      ensures Statuses(log + [completion], operation)
              == Statuses(log, operation) + if operation == completion.operation then [Complete] else []
    {
      StatusesConcat(log, [completion], operation);
      assert Statuses([completion][..0], operation) == [];
    }
    hide Statuses;
    forall operation ensures Lifecycle(Statuses(log + [completion], operation)) {
      assert Lifecycle(Statuses(log, operation));
    }
    assert Complete in Statuses(log, completion.operation) + [Complete];
  }

  // ---------------------------------------------------------------- what recovery cleaning looks for

  predicate IsAttempt(entry: Entry, name: string) {
    && entry.name == name && entry.action in {Creation, Restoration}
    && entry.effect == Operation && entry.status in {Started, Uncertain}
  }

  /** The newest creation or restoration entry for a name that is "started" or "uncertain". */
  function LatestAttempt(log: seq<Entry>, name: string): Option<Entry> {
    if log == [] then None
    else if IsAttempt(log[|log| - 1], name) then Some(log[|log| - 1])
    else LatestAttempt(log[..|log| - 1], name)
  }

  lemma {:induction false} LatestAttemptIsNewest(log: seq<Entry>, name: string, i: nat)
    requires i < |log| && IsAttempt(log[i], name)
    requires forall j | i < j < |log| :: !IsAttempt(log[j], name)
    ensures LatestAttempt(log, name) == Some(log[i])
    decreases |log|
  {
    if i == |log| - 1 {
    } else {
      LatestAttemptIsNewest(log[..|log| - 1], name, i);
    }
  }

  lemma {:induction false} LatestAttemptIsRecorded(log: seq<Entry>, name: string)
    requires LatestAttempt(log, name).Some?
    ensures var found := LatestAttempt(log, name).value;
            found in log && IsAttempt(found, name) && Statuses(log, found.operation) != []
    decreases |log|
  {
    if IsAttempt(log[|log| - 1], name) {
    } else {
      LatestAttemptIsRecorded(log[..|log| - 1], name);
    }
  }

  lemma {:induction false} NoAttemptAdded(log: seq<Entry>, entries: seq<Entry>, name: string)
    requires forall e | e in entries :: !IsAttempt(e, name)
    ensures LatestAttempt(log + entries, name) == LatestAttempt(log, name)
    decreases |entries|
  {
    if entries == [] {
      assert log + entries == log;
    } else {
      assert (log + entries)[..|log + entries| - 1] == log + entries[..|entries| - 1];
      assert entries[|entries| - 1] in entries;
      NoAttemptAdded(log, entries[..|entries| - 1], name);
    }
  }

  // ---------------------------------------------------------------- what each operation writes

  function CreateScript(operation: string, name: string, plan: Identity): seq<Entry> {
    [Entry(operation, Creation, Operation, Started, name, OfPlan(plan)),
     Entry(operation, Creation, RootEffect, Started, name, Nothing),
     Entry(operation, Creation, RootEffect, Complete, name, Nothing),
     Entry(operation, Creation, HomeEffect, Started, name, Nothing),
     Entry(operation, Creation, HomeEffect, Complete, name, Nothing),
     Entry(operation, Creation, Configure, Started, name, Nothing),
     Entry(operation, Creation, Configure, Complete, name, Nothing),
     Entry(operation, Creation, Publish, Started, name, Nothing),
     Entry(operation, Creation, Publish, Complete, name, Nothing),
     Entry(operation, Creation, Operation, Complete, name, Nothing)]
  }

  function RestoreScript(operation: string, name: string, archive: string): seq<Entry> {
    [Entry(operation, Restoration, Operation, Started, name, OfArchive(archive)),
     Entry(operation, Restoration, Operation, Complete, name, OfArchive(archive))]
  }

  function RuntimeScript(operation: string, action: Action, name: string): seq<Entry> {
    [Entry(operation, action, Runtime, Started, name, Nothing),
     Entry(operation, action, Runtime, Complete, name, Nothing)]
  }

  /** Between its own entries a destruction holds those of the stop it begins with. */
  function DestroyScript(operation: string, stopping: string, name: string, plan: Identity): seq<Entry> {
    [Entry(operation, Destruction, Operation, Started, name, OfPlan(plan))]
    + RuntimeScript(stopping, Stopping, name)
    + [Entry(operation, Destruction, Unpublish, Started, name, Nothing),
       Entry(operation, Destruction, Unpublish, Complete, name, Nothing),
       Entry(operation, Destruction, RemoveHome, Started, name, Nothing),
       Entry(operation, Destruction, RemoveHome, Complete, name, Nothing),
       Entry(operation, Destruction, RemoveRoot, Started, name, Nothing),
       Entry(operation, Destruction, RemoveRoot, Complete, name, Nothing),
       Entry(operation, Destruction, Operation, Complete, name, Nothing)]
  }

  /** A script cut short after `n` entries, and possibly then reported uncertain. */
  datatype Cut = Cut(n: nat, reported: bool)

  predicate CutOf(cut: Cut, script: seq<Entry>) {
    cut.n <= |script| && (cut.reported ==> 0 < cut.n < |script|)
  }

  function Written(script: seq<Entry>, uncertain: Entry, cut: Cut): seq<Entry>
    requires CutOf(cut, script)
  {
    script[..cut.n] + if cut.reported then [uncertain] else []
  }

  /** "started" first, "complete" last, nothing about the whole operation in between. */
  predicate Framed(script: seq<Entry>, operation: string) {
    && |script| >= 2
    && script[0].effect == Operation && script[0].operation == operation && script[0].status == Started
    && script[|script| - 1].effect == Operation && script[|script| - 1].operation == operation
    && script[|script| - 1].status == Complete
    && (forall i | 1 <= i < |script| - 1 :: script[i].effect != Operation)
  }

  lemma SingleStatus(entry: Entry, operation: string)
    ensures Statuses([entry], operation)
            == if entry.effect == Operation && entry.operation == operation then [entry.status] else []
  {
    assert Statuses([entry][..0], operation) == [];
  }

  /** A proper prefix says only that the operation started. */
  lemma FramedPrefix(script: seq<Entry>, operation: string, n: nat)
    requires Framed(script, operation) && 0 < n < |script|
    ensures SpeaksOnlyFor(script[..n], operation) && Statuses(script[..n], operation) == [Started]
  {
    SilentEntries(script[1..n], operation);
    SingleStatus(script[0], operation);
    StatusesConcat([script[0]], script[1..n], operation);
    assert [script[0]] + script[1..n] == script[..n];
  }

  lemma OneMoreStatus(entries: seq<Entry>, last: Entry, operation: string)
    requires SpeaksOnlyFor(entries, operation) && (last.effect == Operation ==> last.operation == operation)
    ensures SpeaksOnlyFor(entries + [last], operation)
    ensures Statuses(entries + [last], operation)
            == Statuses(entries, operation) + if last.effect == Operation then [last.status] else []
  {
    SingleStatus(last, operation);
    StatusesConcat(entries, [last], operation);
  }

  /** Wherever a framed script is cut, and whether or not the cut is reported, the statuses stay in order. */
  lemma FramedTraces(script: seq<Entry>, operation: string, uncertain: Entry, cut: Cut)
    requires Framed(script, operation) && CutOf(cut, script)
    requires uncertain.effect == Operation ==> uncertain.operation == operation && uncertain.status == Uncertain
    ensures SpeaksOnlyFor(Written(script, uncertain, cut), operation)
    ensures Statuses(Written(script, uncertain, cut), operation)
            == if cut.n == 0 then []
               else if cut.n == |script| then [Started, Complete]
               else if cut.reported && uncertain.effect == Operation then [Started, Uncertain]
               else [Started]
  {
    hide Framed, SpeaksOnlyFor, Statuses;
    var n := cut.n;
    FramedIsLong(script, operation);
    if n == 0 {
      NothingSpeaks(operation);
    } else if n == |script| {
      FramedPrefix(script, operation, n - 1);
      OneMoreStatus(script[..n - 1], script[n - 1], operation);
      assert script[..n] + [] == script[..n - 1] + [script[n - 1]];
    } else {
      FramedPrefix(script, operation, n);
      OneMoreStatus(script[..n], uncertain, operation);
      assert script[..n] + [] == script[..n];
    }
  }

  lemma CutLifecycles(statuses: seq<Status>)
    requires statuses in {[], [Started], [Started, Uncertain], [Started, Complete]}
    ensures Lifecycle(statuses)
  {
  }

  lemma NothingSpeaks(operation: string)
    ensures SpeaksOnlyFor([] + [], operation) && Statuses([] + [], operation) == []
  {
  }

  lemma FramedIsLong(script: seq<Entry>, operation: string)
    requires Framed(script, operation)
    ensures |script| >= 2
    ensures var last := script[|script| - 1];
            last.effect == Operation && last.operation == operation && last.status == Complete
  {
  }
}
