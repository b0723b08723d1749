/** What an unlocked reader of a journal file ends up with, whatever others do while it reads. */
module ExecutorReaders {
  import opened Common
  import opened ExecutorJournal
  import opened ExecutorStore

  /** The process reads, or has read, this version. */
  predicate OnVersion(s: State, pid: nat, version: nat) {
    match At(s, pid)
    case Reading(inode, _) => inode in s.published && s.published[inode] == version
    case Seen(_, seen) => seen == version
    case _ => false
  }

  /** Nobody republishes an inode, and reading on does not change which file is read. */
  lemma StepKeepsVersion(codec: Codec, operation: string, s: State, step: Step, pid: nat, version: nat)
    requires Sound(codec, operation, s) && OnVersion(s, pid, version)
    requires step.pid == pid ==> step.ReadChunk?
    ensures OnVersion(Perform(codec, operation, s, step), pid, version)
  {
    hide FilesSound, ChainedFrom, Proper, Readable, Parse, Received, MayPublish;
    assert ProcessSound(codec, operation, s, step.pid);
  }

  lemma HistoryOnlyGrows(codec: Codec, operation: string, s: State, step: Step)
    requires Sound(codec, operation, s)
    ensures s.history <= Perform(codec, operation, s, step).history
  {
    hide Sound, Perform, Accepts;
    if step.Publish? {
      PublishIsAtomic(codec, operation, s, step.pid);
    } else {
      OnlyPublishingChangesHistory(codec, operation, s, step);
    }
  }

  lemma {:induction false} RunKeepsVersion(codec: Codec, operation: string, before: seq<Step>, during: seq<Step>,
                                           pid: nat, version: nat)
    requires Faithful(codec) && OnVersion(RunSteps(codec, operation, INITIAL, before), pid, version)
    requires forall i | 0 <= i < |during| && during[i].pid == pid :: during[i].ReadChunk?
    ensures var s := RunSteps(codec, operation, INITIAL, before);
            var t := RunSteps(codec, operation, INITIAL, before + during);
            OnVersion(t, pid, version) && s.history <= t.history
    decreases |during|
  {
    hide Perform, Sound, OnVersion, Faithful;
    if during == [] {
      assert before + during == before;
    } else {
      var front, last := during[..|during| - 1], during[|during| - 1];
      RunKeepsVersion(codec, operation, before, front, pid, version);
      RunKeepsSound(codec, operation, before + front);
      StepKeepsVersion(codec, operation, RunSteps(codec, operation, INITIAL, before + front), last, pid, version);
      HistoryOnlyGrows(codec, operation, RunSteps(codec, operation, INITIAL, before + front), last);
      assert (before + during)[..|before + during| - 1] == before + front;
    }
  }

  lemma OpeningIsOnTheNewest(codec: Codec, operation: string, before: seq<Step>, pid: nat)
    requires Faithful(codec)
    requires var s := RunSteps(codec, operation, INITIAL, before);
             s.history != [] && (At(s, pid).Idle? || At(s, pid).Seen?)
    ensures var s := RunSteps(codec, operation, INITIAL, before);
            var t := RunSteps(codec, operation, INITIAL, before + [StartReading(pid)]);
            OnVersion(t, pid, |s.history| - 1) && t.history == s.history
  {
    hide RunSteps, Faithful;
    ReadersStartOnTheNewest(codec, operation, before, pid);
    RunBoth(codec, operation, INITIAL, before, [StartReading(pid)]);
    OneStep(codec, operation, RunSteps(codec, operation, INITIAL, before), StartReading(pid));
  }

  lemma OneStep(codec: Codec, operation: string, s: State, step: Step)
    ensures RunSteps(codec, operation, s, [step]) == Perform(codec, operation, s, step)
  {
    hide Perform;
    assert [step][..0] == [];
  }

  /**
   A reader holds, at the end, the version that was newest when it opened the file, whole, whatever
   any other process publishes, fails or leaves behind meanwhile; it is refused only if that version
   is too long.
   */
  lemma ReaderSeesTheVersionItOpened(codec: Codec, operation: string, before: seq<Step>, during: seq<Step>, pid: nat)
    requires Faithful(codec)
    requires var s := RunSteps(codec, operation, INITIAL, before);
             s.history != [] && (At(s, pid).Idle? || At(s, pid).Seen?)
    requires forall i | 0 <= i < |during| && during[i].pid == pid :: during[i].ReadChunk?
    ensures var s := RunSteps(codec, operation, INITIAL, before);
            var t := RunSteps(codec, operation, INITIAL, before + [StartReading(pid)] + during);
            var newest := s.history[|s.history| - 1];
            && s.history <= t.history
            && (At(t, pid).Seen? ==> At(t, pid).result == if Readable(codec, newest) then Some(newest) else None)
  {
    hide RunSteps, Faithful, Readable;
    var started := before + [StartReading(pid)];
    var version := |RunSteps(codec, operation, INITIAL, before).history| - 1;
    OpeningIsOnTheNewest(codec, operation, before, pid);
    RunKeepsVersion(codec, operation, started, during, pid, version);
    ReadersSeeOneVersion(codec, operation, started + during, pid);
  }
}
