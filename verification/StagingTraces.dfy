/**
 What a caller of the staging area did and saw, one writer open at a time, and what the directory
 then owes to it.
 */
module StagingTraces {
  import opened Common
  import opened Staging
  import opened StagingArea
  import opened StagingWriter

  datatype Call =
    | Begin(filename: string, maximumBytes: int)
    | WriteChunk(chunk: Bytes)
    | FinalizeFile(expectedBytes: int, expectedSha256: Digest)
    | CloseWriter
    | StageWhole(filename: string, chunks: seq<Bytes>, expectedBytes: int, expectedSha256: Digest, perFileMax: int)

  /** A call a caller made, and how it saw it end. After a crash another process goes on. */
  datatype Event = Event(call: Call, outcome: Outcome)

  // ---------------------------------------------------------------- reading a trace

  /** The file of the writer held after these events, if one is. */
  function Current(trace: seq<Event>): Option<string> {
    if trace == [] then None
    else
      var front, last := trace[..|trace| - 1], trace[|trace| - 1];
      match last.call
      case Begin(filename, _) => if last.outcome == Done then Some(filename) else None
      case WriteChunk(_) => if last.outcome == Crashed then None else Current(front)
      case FinalizeFile(_, _) => if last.outcome == Raised then Current(front) else None
      case CloseWriter => None
      case StageWhole(_, _, _, _, _) => None
  }

  /** A caller begins or stages without a writer, and does the rest with one. */
  predicate CanMake(trace: seq<Event>, call: Call) {
    if call.Begin? || call.StageWhole? then Current(trace).None? else Current(trace).Some?
  }

  /** The events after these calls with these outcomes: exactly the calls that can be made are. */
  function Traced(trace: seq<Event>, calls: seq<Call>, outcomes: seq<Outcome>): seq<Event>
    requires |calls| == |outcomes|
  {
    if calls == [] then trace
    else
      var n := |calls| - 1;
      var front := Traced(trace, calls[..n], outcomes[..n]);
      if CanMake(front, calls[n]) then front + [Event(calls[n], outcomes[n])] else front
  }

  /** A write on the present writer did not return. */
  predicate Failed(trace: seq<Event>) {
    if trace == [] then false
    else
      var front, last := trace[..|trace| - 1], trace[|trace| - 1];
      match last.call
      case Begin(_, _) => last.outcome != Done && Failed(front)
      case WriteChunk(_) => last.outcome != Done || Failed(front)
      case _ => Failed(front)
  }

  /** Somewhere the caller wrote on after a failed write. */
  predicate Retried(trace: seq<Event>) {
    if trace == [] then false
    else
      var front, last := trace[..|trace| - 1], trace[|trace| - 1];
      Retried(front) || (last.call.WriteChunk? && Failed(front))
  }

  /** Somewhere the caller finalized after a failed write. */
  predicate FinalizedAfterFailure(trace: seq<Event>) {
    if trace == [] then false
    else
      var front, last := trace[..|trace| - 1], trace[|trace| - 1];
      FinalizedAfterFailure(front) || (last.call.FinalizeFile? && Failed(front))
  }

  /** One more event. */
  lemma TraceGrows(trace: seq<Event>, event: Event)
    ensures Failed(trace + [event])
            == match event.call
               case Begin(_, _) => event.outcome != Done && Failed(trace)
               case WriteChunk(_) => event.outcome != Done || Failed(trace)
               case _ => Failed(trace)
    ensures Retried(trace + [event]) <==> Retried(trace) || (event.call.WriteChunk? && Failed(trace))
    ensures FinalizedAfterFailure(trace + [event])
            <==> FinalizedAfterFailure(trace) || (event.call.FinalizeFile? && Failed(trace))
    ensures Current(trace + [event])
            == match event.call
               case Begin(filename, _) => if event.outcome == Done then Some(filename) else None
               case WriteChunk(_) => if event.outcome == Crashed then None else Current(trace)
               case FinalizeFile(_, _) => if event.outcome == Raised then Current(trace) else None
               case CloseWriter => None
               case StageWhole(_, _, _, _, _) => None
  {
    assert (trace + [event])[..|trace|] == trace;
  }

  lemma OneMoreCall(trace: seq<Event>, calls: seq<Call>, outcomes: seq<Outcome>, call: Call, outcome: Outcome)
    requires |calls| == |outcomes|
    ensures var front := Traced(trace, calls, outcomes);
            Traced(trace, calls + [call], outcomes + [outcome])
            == if CanMake(front, call) then front + [Event(call, outcome)] else front
  {
    assert (calls + [call])[..|calls|] == calls && (outcomes + [outcome])[..|outcomes|] == outcomes;
  }

  // ---------------------------------------------------------------- publications

  /** A final name: the event that gave it, its inode and bytes, and the evidence it was given for. */
  datatype Publication = Publication(at: nat, filename: string, inode: nat, content: Bytes,
                                     expectedBytes: int, expectedSha256: Digest)

  predicate Publishes(call: Call) {
    call.FinalizeFile? || call.StageWhole?
  }

  /** The event finalized the writer's file, or staged the file, with the publication's evidence. */
  predicate StemsFrom(trace: seq<Event>, p: Publication) {
    && p.at < |trace|
    && match trace[p.at].call
       case FinalizeFile(expectedBytes, expectedSha256) =>
         && Current(trace[..p.at]) == Some(p.filename)
         && expectedBytes == p.expectedBytes && expectedSha256 == p.expectedSha256
       case StageWhole(filename, _, expectedBytes, expectedSha256, _) =>
         filename == p.filename && expectedBytes == p.expectedBytes && expectedSha256 == p.expectedSha256
       case _ => false
  }

  predicate PublishedAt(publications: seq<Publication>, i: nat) {
    exists p :: p in publications && p.at == i
  }

  /** The publications, in the order of their events: all of those that returned, and only of such calls. */
  ghost predicate Recorded(trace: seq<Event>, publications: seq<Publication>) {
    && (forall k, l | 0 <= k < l < |publications| :: publications[k].at < publications[l].at)
    && (forall p | p in publications :: StemsFrom(trace, p))
    && (forall i | 0 <= i < |trace| && Publishes(trace[i].call) && trace[i].outcome == Done ::
          PublishedAt(publications, i))
  }

  predicate AllMatch(publications: seq<Publication>) {
    forall p | p in publications :: Matches(p.content, p.expectedBytes, p.expectedSha256)
  }

  lemma QuietEvent(trace: seq<Event>, event: Event, publications: seq<Publication>)
    requires Recorded(trace, publications) && !(Publishes(event.call) && event.outcome == Done)
    ensures Recorded(trace + [event], publications)
  {
    var longer := trace + [event];
    forall p | p in publications ensures StemsFrom(longer, p) {
      assert StemsFrom(trace, p) && longer[..p.at] == trace[..p.at];
    }
    assert forall i | 0 <= i < |trace| :: longer[i] == trace[i];
  }

  lemma PublishingEvent(trace: seq<Event>, event: Event, publications: seq<Publication>, p: Publication)
    requires Recorded(trace, publications) && p.at == |trace| && StemsFrom(trace + [event], p)
    ensures Recorded(trace + [event], publications + [p])
  {
    var longer, more := trace + [event], publications + [p];
    forall q | q in more ensures StemsFrom(longer, q) {
      if q in publications {
        assert StemsFrom(trace, q) && longer[..q.at] == trace[..q.at];
      }
    }
    forall k, l | 0 <= k < l < |more| ensures more[k].at < more[l].at {
      if l == |publications| {
        assert StemsFrom(trace, publications[k]);
      }
    }
    forall i | 0 <= i < |longer| && Publishes(longer[i].call) && longer[i].outcome == Done
      ensures PublishedAt(more, i)
    {
      if i < |trace| {
        assert longer[i] == trace[i] && PublishedAt(publications, i);
        var q :| q in publications && q.at == i;
        assert q in more;
      } else {
        assert p in more;
      }
    }
  }

  // ---------------------------------------------------------------- the directory's account

  /** Every published name still holds the inode and the bytes it was published with. */
  ghost predicate Intact(f: Files, publications: seq<Publication>) {
    forall p | p in publications ::
      && p.filename in f.names && f.names[p.filename] == p.inode && p.inode in f.inodes
      && f.inodes[p.inode].content == p.content
  }

  /** Every name of the start still holds its inode, and that its bytes. */
  ghost predicate Kept(start: Files, f: Files) {
    forall name | name in start.names ::
      && name in f.names && f.names[name] == start.names[name]
      && start.names[name] in start.inodes && start.names[name] in f.inodes
      && f.inodes[start.names[name]] == start.inodes[start.names[name]]
  }

  /** The name is the partial of a file these events began or staged. */
  predicate LeftPartial(trace: seq<Event>, name: string) {
    exists event :: event in trace && PartialOf(event.call, name)
  }

  predicate PartialOf(call: Call, name: string) {
    (call.Begin? || call.StageWhole?) && name == call.filename + PARTIAL
  }

  predicate Named(publications: seq<Publication>, name: string) {
    exists p :: p in publications && p.filename == name
  }

  /** No name is unexplained: it was there at the start, is such a partial, or was published. */
  ghost predicate Explained(start: Files, f: Files, trace: seq<Event>, publications: seq<Publication>) {
    forall name | name in f.names :: name in start.names || LeftPartial(trace, name) || Named(publications, name)
  }

  ghost predicate Accounted(start: Files, f: Files, trace: seq<Event>, publications: seq<Publication>) {
    Intact(f, publications) && Kept(start, f) && Explained(start, f, trace, publications)
  }

  lemma NothingYet(f: Files)
    requires Consistent(f)
    ensures Accounted(f, f, [], []) && Recorded([], []) && AllMatch([]) && !Retried([]) && Current([]).None?
  {
  }

  lemma LaterAccount(start: Files, f: Files, trace: seq<Event>, event: Event, publications: seq<Publication>)
    requires Accounted(start, f, trace, publications)
    ensures Accounted(start, f, trace + [event], publications)
  {
    hide LeftPartial;
    forall name | LeftPartial(trace, name) ensures LeftPartial(trace + [event], name) {
      PartialStays(trace, event, name);
    }
  }

  lemma PartialStays(trace: seq<Event>, event: Event, name: string)
    requires LeftPartial(trace, name) || PartialOf(event.call, name)
    ensures LeftPartial(trace + [event], name)
  {
    assert event in trace + [event];
    if LeftPartial(trace, name) {
      var e :| e in trace && PartialOf(e.call, name);
      assert e in trace + [event];
    }
  }

  lemma PublishedFile(base: Files, filename: string, inode: nat, content: Bytes, stage: Stage)
    requires stage in {BothNames, FinalOnly}
    ensures var f := AtStage(base, filename, inode, content, stage);
            && filename in f.names && f.names[filename] == inode && inode in f.inodes
            && f.inodes[inode].content == content
  {
    PartialIsNotFinal(filename);
    var f := AtStage(base, filename, inode, content, stage);
    assert [] + content == content;
    assert filename in f.names && f.names[filename] == inode;
    assert inode in f.names.Values;
  }

  /** A new file at any stage leaves every earlier name with its inode and bytes, and adds at most two names. */
  lemma NewFileAdds(base: Files, filename: string, inode: nat, content: Bytes, stage: Stage)
    requires inode !in base.inodes && filename + PARTIAL !in base.names
    requires stage in {BothNames, FinalOnly} ==> filename !in base.names
    ensures var f := AtStage(base, filename, inode, content, stage);
            && (forall name | name in base.names && base.names[name] in base.inodes ::
                  && name in f.names && f.names[name] == base.names[name] && f.names[name] in f.inodes
                  && f.inodes[f.names[name]] == base.inodes[base.names[name]])
            && (forall name | name in f.names && name !in base.names ::
                  name == filename + PARTIAL || (name == filename && stage in {BothNames, FinalOnly}))
  {
    PartialIsNotFinal(filename);
    var f := AtStage(base, filename, inode, content, stage);
    forall name | name in base.names && base.names[name] in base.inodes
      ensures name in f.names && f.names[name] == base.names[name] && f.names[name] in f.inodes
      ensures f.inodes[f.names[name]] == base.inodes[base.names[name]]
    {
      assert base.names[name] != inode && name in f.names && f.names[name] == base.names[name];
      assert stage == FinalOnly ==> base.names[name] in f.names.Values;
    }
  }

  /** Before it has its final name a new file is only a partial to account for. */
  lemma PartialAccount(start: Files, base: Files, filename: string, inode: nat, content: Bytes, stage: Stage,
                       trace: seq<Event>, publications: seq<Publication>)
    requires Accounted(start, base, trace, publications) && LeftPartial(trace, filename + PARTIAL)
    requires inode !in base.inodes && filename + PARTIAL !in base.names && stage in {Absent, PartialOnly}
    ensures Accounted(start, AtStage(base, filename, inode, content, stage), trace, publications)
  {
    hide AtStage, LeftPartial, Named;
    NewFileAdds(base, filename, inode, content, stage);
  }

  /** With its final name it is accounted for by one more publication. */
  lemma PublishedAccount(start: Files, base: Files, content: Bytes, stage: Stage, trace: seq<Event>,
                         publications: seq<Publication>, p: Publication)
    requires Accounted(start, base, trace, publications) && LeftPartial(trace, p.filename + PARTIAL)
    requires p.inode !in base.inodes && p.filename + PARTIAL !in base.names && p.filename !in base.names
    requires stage in {BothNames, FinalOnly} && p.content == content
    ensures Accounted(start, AtStage(base, p.filename, p.inode, content, stage), trace, publications + [p])
  {
    hide AtStage, LeftPartial;
    NewFileAdds(base, p.filename, p.inode, content, stage);
    PublishedFile(base, p.filename, p.inode, content, stage);
    assert p in publications + [p];
    forall name | Named(publications, name) ensures Named(publications + [p], name) {
      var q :| q in publications && q.filename == name;
      assert q in publications + [p];
    }
  }
}
