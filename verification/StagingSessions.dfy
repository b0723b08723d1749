/**
 Any sequence of calls on a staging area with one writer open at a time: the caller, the writer it
 holds, and what its directory owes to it.
 */
module StagingSessions {
  import opened Common
  import opened Staging
  import opened StagingArea
  import opened StagingRuns
  import opened StagingTraces
  import opened StagingWriter

  // ---------------------------------------------------------------- the invariant of a session

  /** The first directory, the one before the present writer, how far its file is, its calls, all publications. */
  datatype Frame = Frame(start: Files, base: Files, stage: Stage, attempts: seq<Attempt>,
                         publications: seq<Publication>)

  ghost predicate Holding(w: StreamingStagingWriter, frame: Frame)
    reads w, w.dir
  {
    && Consistent(frame.base) && w.inode !in frame.base.inodes && w.filename + PARTIAL !in frame.base.names
    && frame.stage != Absent && !w.closed
    && (frame.stage != PartialOnly ==> w.filename !in frame.base.names && !w.open)
    && |frame.base.names| < MAX_FILES && Scanned(frame.base) + w.aggregateRemaining == MAX_AGGREGATE_BYTES
    && Possibles(w.Limit(), frame.attempts)
    && var p := AfterAll(w.Limit(), frame.attempts);
       && w.dir.files == AtStage(frame.base, w.filename, w.inode, p.content, frame.stage)
       && w.hashed == p.hashed && w.written == p.written
  }

  ghost predicate InSession(dir: Directory, w: StreamingStagingWriter?, frame: Frame, trace: seq<Event>)
    reads dir, w, if w == null then {} else {w.dir}
  {
    && Consistent(dir.files)
    && Accounted(frame.start, dir.files, trace, frame.publications) && Recorded(trace, frame.publications)
    && (WithinLimits(frame.start) && !Retried(trace) ==> WithinLimits(dir.files))
    && (!FinalizedAfterFailure(trace) ==> AllMatch(frame.publications))
    && Current(trace) == (if w == null then None else Some(w.filename))
    && (w != null ==>
          && w.dir == dir && Holding(w, frame) && LeftPartial(trace, w.filename + PARTIAL)
          && (frame.stage == PartialOnly ==> Accounted(frame.start, frame.base, trace, frame.publications))
          && (WithinLimits(frame.start) && !Retried(trace) ==>
                WithinLimits(frame.base) && StoppedAtFailure(frame.attempts))
          && (!Failed(trace) ==> Lost(frame.attempts) == 0))
  }

  /** What the held writer's file says of the limits. */
  lemma HoldingKeepsLimits(w: StreamingStagingWriter, frame: Frame)
    requires Holding(w, frame)
    ensures Consistent(w.dir.files)
    ensures WithinLimits(frame.base) && StoppedAtFailure(frame.attempts) ==> WithinLimits(w.dir.files)
  {
    hide Consistent, Held, Scanned, AtStage;
    var p := AfterAll(w.Limit(), frame.attempts);
    EveryStageIsConsistent(frame.base, w.filename, w.inode, p.content, frame.stage);
    if WithinLimits(frame.base) && StoppedAtFailure(frame.attempts) {
      StoppingKeepsTheBound(w.Limit(), frame.attempts);
      AdmittedFileKeepsLimits(frame.base, w.filename, w.inode, p.content, frame.stage);
    }
  }

  /** The held file's inode, content and, while it is open, its partial name. */
  lemma HeldFile(w: StreamingStagingWriter, frame: Frame)
    requires Holding(w, frame)
    ensures w.inode in w.dir.files.inodes && w.Now() == AfterAll(w.Limit(), frame.attempts)
    ensures frame.stage == PartialOnly ==>
              w.filename + PARTIAL in w.dir.files.names && w.dir.files.names[w.filename + PARTIAL] == w.inode
  {
    hide Consistent, AfterAll;
    var content := AfterAll(w.Limit(), frame.attempts).content;
    assert [] + content == content;
    if frame.stage != PartialOnly {
      PublishedFile(frame.base, w.filename, w.inode, content, frame.stage);
    }
  }

  lemma AppendAtStage(base: Files, filename: string, inode: nat, content: Bytes, stage: Stage, landed: Bytes)
    requires stage != Absent && (stage != PartialOnly ==> landed == [])
    requires inode in AtStage(base, filename, inode, content, stage).inodes
    ensures Append(AtStage(base, filename, inode, content, stage), inode, landed)
            == AtStage(base, filename, inode, content + landed, stage)
  {
    if stage == PartialOnly {
      AppendTwice(Create(base, filename + PARTIAL, inode), inode, content, landed);
    } else {
      assert content + landed == content;
      AppendNothing(AtStage(base, filename, inode, content, stage), inode);
    }
  }

  lemma OneMoreAttempt(limit: nat, attempts: seq<Attempt>, attempt: Attempt)
    requires Possibles(limit, attempts) && Possible(limit, AfterAll(limit, attempts), attempt)
    ensures Possibles(limit, attempts + [attempt])
    ensures AfterAll(limit, attempts + [attempt]) == After(AfterAll(limit, attempts), attempt)
    ensures Lost(attempts + [attempt]) == Lost(attempts) + if attempt.done then 0 else attempt.landed
    ensures Lost(attempts) == 0 ==> StoppedAtFailure(attempts + [attempt])
  {
    assert (attempts + [attempt])[..|attempts|] == attempts;
  }

  // ---------------------------------------------------------------- the calls

  lemma WrittenContent(before: Progress, attempt: Attempt, landed: Bytes)
    requires landed <= attempt.chunk && attempt.landed == |landed|
    ensures After(before, attempt).content == before.content + landed
  {
    assert attempt.chunk[..|landed|] == landed;
  }

  lemma LaterStage(base: Files, filename: string, inode: nat, content: Bytes, stage: Stage)
    requires stage in {BothNames, FinalOnly}
    ensures filename !in AtStage(base, filename, inode, content, PartialOnly).names ==> filename !in base.names
    ensures var both := Link(AtStage(base, filename, inode, content, PartialOnly), filename, inode);
            && filename + PARTIAL in both.names
            && AtStage(base, filename, inode, content, stage)
               == if stage == BothNames then both else Unlink(both, filename + PARTIAL)
  {
  }

  lemma StageKeepsLimits(w: StreamingStagingWriter, frame: Frame, stage: Stage)
    requires stage in {BothNames, FinalOnly} && Possibles(w.Limit(), frame.attempts)
    requires Consistent(frame.base) && w.inode !in frame.base.inodes
    requires w.filename + PARTIAL !in frame.base.names && w.filename !in frame.base.names
    requires |frame.base.names| < MAX_FILES && Scanned(frame.base) + w.aggregateRemaining == MAX_AGGREGATE_BYTES
    ensures var f := AtStage(frame.base, w.filename, w.inode, AfterAll(w.Limit(), frame.attempts).content, stage);
            && Consistent(f)
            && (WithinLimits(frame.base) && StoppedAtFailure(frame.attempts) ==> WithinLimits(f))
  {
    hide Consistent, Held, Scanned, AtStage;
    var p := AfterAll(w.Limit(), frame.attempts);
    EveryStageIsConsistent(frame.base, w.filename, w.inode, p.content, stage);
    if WithinLimits(frame.base) && StoppedAtFailure(frame.attempts) {
      StoppingKeepsTheBound(w.Limit(), frame.attempts);
      AdmittedFileKeepsLimits(frame.base, w.filename, w.inode, p.content, stage);
    }
  }

  lemma AbsentIsBefore(base: Files, filename: string, inode: nat, content: Bytes)
    ensures AtStage(base, filename, inode, content, Absent) == base
  {
  }

  /** The account after an event that leaves the writer's file without its final name. */
  lemma UnpublishedAccount(w: StreamingStagingWriter, frame: Frame, trace: seq<Event>, event: Event)
    requires Holding(w, frame) && frame.stage == PartialOnly
    requires Accounted(frame.start, frame.base, trace, frame.publications)
    requires LeftPartial(trace, w.filename + PARTIAL) || PartialOf(event.call, w.filename + PARTIAL)
    ensures Accounted(frame.start, frame.base, trace + [event], frame.publications)
    ensures Accounted(frame.start, w.dir.files, trace + [event], frame.publications)
    ensures LeftPartial(trace + [event], w.filename + PARTIAL)
  {
    hide Consistent, AfterAll, Possibles, Accounted, AtStage, LeftPartial;
    LaterAccount(frame.start, frame.base, trace, event, frame.publications);
    PartialStays(trace, event, w.filename + PARTIAL);
    PartialAccount(frame.start, frame.base, w.filename, w.inode, AfterAll(w.Limit(), frame.attempts).content,
                   PartialOnly, trace + [event], frame.publications);
  }

  method WriteOne(dir: Directory, w: StreamingStagingWriter, chunk: Bytes, ghost frame: Frame, ghost trace: seq<Event>)
      returns (outcome: Outcome, ghost after: Frame)
    requires InSession(dir, w, frame, trace)
    modifies w, dir
    ensures after.start == frame.start && after.publications == frame.publications
    ensures InSession(dir, if outcome == Crashed then null else w, after, trace + [Event(WriteChunk(chunk), outcome)])
    ensures dir.reliable ==> (outcome == Done <==> old((w.open || chunk == []) && w.Fits(w.written + |chunk|)))
  {
    hide Consistent, WithinLimits, AtStage, AfterAll, Possibles, Lost, Possible, After, Failed, Retried, AllMatch;
    hide Accounted, Recorded, LeftPartial, Current, FinalizedAfterFailure;
    ghost var limit, before := w.Limit(), AfterAll(w.Limit(), frame.attempts);
    HeldFile(w, frame);
    ghost var landed;
    outcome, landed := w.Write(chunk);
    ghost var attempt, event := Attempt(chunk, |landed|, outcome == Done), Event(WriteChunk(chunk), outcome);
    after := frame.(attempts := frame.attempts + [attempt]);
    OneMoreAttempt(limit, frame.attempts, attempt);
    WrittenContent(before, attempt, landed);
    AppendAtStage(frame.base, w.filename, w.inode, before.content, frame.stage, landed);
    assert Holding(w, after);
    HoldingKeepsLimits(w, after);
    TraceGrows(trace, event);
    QuietEvent(trace, event, frame.publications);
    PartialStays(trace, event, w.filename + PARTIAL);
    if frame.stage == PartialOnly {
      UnpublishedAccount(w, after, trace, event);
    } else {
      AppendNothing(old(dir.files), w.inode);
      LaterAccount(frame.start, dir.files, trace, event, frame.publications);
    }
  }

  method FinalizeOne(dir: Directory, w: StreamingStagingWriter, expectedBytes: int, expectedSha256: Digest,
                     ghost frame: Frame, ghost trace: seq<Event>)
      returns (outcome: Outcome, ghost after: Frame)
    requires InSession(dir, w, frame, trace)
    modifies w, dir
    ensures after.start == frame.start && frame.publications <= after.publications
    ensures InSession(dir, if outcome == Raised then w else null, after,
                      trace + [Event(FinalizeFile(expectedBytes, expectedSha256), outcome)])
    ensures dir.reliable ==>
              (outcome == Done <==> old(&& w.open && w.written == expectedBytes && Sha256(w.hashed) == expectedSha256
                                        && w.filename !in dir.files.names))
  {
    hide Consistent, WithinLimits, AtStage, AfterAll, Possibles, Lost, InStep, Matches, Failed, Retried, Accounted;
    hide Recorded, LeftPartial, Current, FinalizedAfterFailure;
    ghost var content, base := AfterAll(w.Limit(), frame.attempts).content, frame.base;
    HeldFile(w, frame);
    var staged;
    ghost var stage;
    outcome, staged, stage := w.Finalize(expectedBytes, expectedSha256);
    ghost var event := Event(FinalizeFile(expectedBytes, expectedSha256), outcome);
    TraceGrows(trace, event);
    PartialStays(trace, event, w.filename + PARTIAL);
    if frame.stage == PartialOnly {
      LaterAccount(frame.start, base, trace, event, frame.publications);
    }
    after := frame;
    if stage != PartialOnly {
      ghost var p := Publication(|trace|, w.filename, w.inode, content, expectedBytes, expectedSha256);
      after := frame.(stage := stage, publications := frame.publications + [p]);
      assert (trace + [event])[..|trace|] == trace;
      PublishingEvent(trace, event, frame.publications, p);
      LaterStage(base, w.filename, w.inode, content, stage);
      FileHoldsCountedAndLost(w.Limit(), frame.attempts);
      PublishedAccount(frame.start, base, content, stage, trace + [event], frame.publications, p);
      StageKeepsLimits(w, frame, stage);
    } else {
      QuietEvent(trace, event, frame.publications);
      LaterAccount(frame.start, dir.files, trace, event, frame.publications);
    }
  }

  method BeginOne(staging: FixtureAcquisitionStaging, filename: string, maximumBytes: int,
                  ghost frame: Frame, ghost trace: seq<Event>)
      returns (outcome: Outcome, w: StreamingStagingWriter?, ghost after: Frame)
    requires InSession(staging.dir, null, frame, trace)
    modifies staging.dir
    ensures w != null ==> fresh(w)
    ensures after.start == frame.start && after.publications == frame.publications
    ensures InSession(staging.dir, w, after, trace + [Event(Begin(filename, maximumBytes), outcome)])
    ensures staging.dir.reliable ==> (outcome == Done <==> old(staging.Admits(filename, maximumBytes)))
  {
    hide Consistent, WithinLimits, AllMatch, Failed, Retried, SafeFilename, Scanned, Accounted, Recorded, Current;
    hide LeftPartial, FinalizedAfterFailure;
    ghost var base, event := staging.dir.files, Event(Begin(filename, maximumBytes), Done);
    outcome, w := staging.BeginStream(filename, maximumBytes);
    event := Event(Begin(filename, maximumBytes), outcome);
    TraceGrows(trace, event);
    QuietEvent(trace, event, frame.publications);
    after := frame;
    if outcome == Done {
      after := Frame(frame.start, base, PartialOnly, [], frame.publications);
      AppendNothing(Create(base, filename + PARTIAL, w.inode), w.inode);
      assert Holding(w, after);
      HoldingKeepsLimits(w, after);
      UnpublishedAccount(w, after, trace, event);
    } else {
      w := null;
      LaterAccount(frame.start, base, trace, event, frame.publications);
    }
  }

  method StageOne(staging: FixtureAcquisitionStaging, filename: string, chunks: seq<Bytes>, expectedBytes: int,
                  expectedSha256: Digest, perFileMax: int, ghost frame: Frame, ghost trace: seq<Event>)
      returns (outcome: Outcome, ghost after: Frame)
    requires InSession(staging.dir, null, frame, trace)
    modifies staging.dir
    ensures after.start == frame.start && frame.publications <= after.publications
    ensures InSession(staging.dir, null, after,
                      trace + [Event(StageWhole(filename, chunks, expectedBytes, expectedSha256, perFileMax), outcome)])
    ensures staging.dir.reliable ==>
              (outcome == Done
               <==> old(staging.Stageable(filename, chunks, expectedBytes, expectedSha256, perFileMax)))
  {
    hide Consistent, WithinLimits, AtStage, Failed, Retried, Accounted, Flatten, Scanned, Recorded, Current;
    hide LeftPartial, FinalizedAfterFailure;
    ghost var base := staging.dir.files;
    var staged;
    ghost var inode, content, stage;
    outcome, staged, inode, content, stage :=
      staging.StageBytes(filename, chunks, expectedBytes, expectedSha256, perFileMax);
    ghost var event := Event(StageWhole(filename, chunks, expectedBytes, expectedSha256, perFileMax), outcome);
    TraceGrows(trace, event);
    LaterAccount(frame.start, base, trace, event, frame.publications);
    PartialStays(trace, event, filename + PARTIAL);
    after := frame;
    if stage in {BothNames, FinalOnly} {
      ghost var p := Publication(|trace|, filename, inode, content, expectedBytes, expectedSha256);
      after := frame.(publications := frame.publications + [p]);
      PublishingEvent(trace, event, frame.publications, p);
      PublishedAccount(frame.start, base, content, stage, trace + [event], frame.publications, p);
    } else {
      QuietEvent(trace, event, frame.publications);
      if stage == PartialOnly {
        PartialAccount(frame.start, base, filename, inode, content, stage, trace + [event], frame.publications);
      } else {
        AbsentIsBefore(base, filename, inode, content);
      }
    }
  }

  /** Closing needs nothing of the writer's file. */
  lemma CloseOne(dir: Directory, w: StreamingStagingWriter?, frame: Frame, trace: seq<Event>)
    requires InSession(dir, w, frame, trace)
    ensures InSession(dir, null, frame, trace + [Event(CloseWriter, Done)])
  {
    hide Consistent, WithinLimits, Accounted, Recorded, AllMatch, Failed, Retried, Current, FinalizedAfterFailure;
    TraceGrows(trace, Event(CloseWriter, Done));
    QuietEvent(trace, Event(CloseWriter, Done), frame.publications);
    LaterAccount(frame.start, dir.files, trace, Event(CloseWriter, Done), frame.publications);
  }

  // ---------------------------------------------------------------- the caller

  /** What a directory owes to a caller that started from `start` and made these calls. */
  ghost predicate Owed(start: Files, f: Files, trace: seq<Event>, publications: seq<Publication>) {
    && Consistent(f)
    && Intact(f, publications) && Kept(start, f) && Explained(start, f, trace, publications)
    && Recorded(trace, publications)
    && (WithinLimits(start) && !Retried(trace) ==> WithinLimits(f))
    && (!FinalizedAfterFailure(trace) ==> AllMatch(publications))
  }

  /**
   Any caller, and the processes that follow it after crashes: it begins, writes, finalizes, closes and
   stages as it likes, and goes on after exceptions.
   */
  class StagingCaller {
    const staging: FixtureAcquisitionStaging
    var writer: StreamingStagingWriter?
    ghost var frame: Frame
    ghost var trace: seq<Event>

    ghost predicate Valid()
      reads this, staging.dir, writer, if writer == null then {} else {writer.dir}
    {
      InSession(staging.dir, writer, frame, trace)
    }

    ghost function Start(): Files
      reads this
    {
      frame.start
    }

    ghost function Publications(): seq<Publication>
      reads this
    {
      frame.publications
    }

    /** What a call needs to succeed when no call of the directory fails. */
    ghost predicate Succeeds(call: Call)
      reads this, staging.dir, writer, if writer == null then {} else {writer.dir}
      requires Valid() && (writer == null <==> call.Begin? || call.StageWhole?)
    {
      match call
      case Begin(filename, maximumBytes) => staging.Admits(filename, maximumBytes)
      case WriteChunk(chunk) => (writer.open || chunk == []) && writer.Fits(writer.written + |chunk|)
      case FinalizeFile(expectedBytes, expectedSha256) =>
        && writer.open && writer.written == expectedBytes && Sha256(writer.hashed) == expectedSha256
        && writer.filename !in staging.dir.files.names
      case CloseWriter => true
      case StageWhole(filename, chunks, expectedBytes, expectedSha256, perFileMax) =>
        staging.Stageable(filename, chunks, expectedBytes, expectedSha256, perFileMax)
    }

    constructor (staging: FixtureAcquisitionStaging)
      requires Consistent(staging.dir.files)
      ensures Valid() && this.staging == staging && writer == null
      ensures Start() == staging.dir.files && trace == [] && Publications() == []
    {
      this.staging := staging;
      writer := null;
      frame, trace := Frame(staging.dir.files, staging.dir.files, Absent, [], []), [];
      NothingYet(staging.dir.files);
    }

    /**
     One call, and how it ended. It is made exactly when the trace says it can be, and nothing published
     before is touched. With no failing call it succeeds exactly when the state lets it.
     */
    method Make(call: Call) returns (outcome: Outcome)
      requires Valid()
      modifies this, staging.dir, writer
      ensures Valid() && Start() == old(Start()) && old(Publications()) <= Publications()
      ensures Owed(Start(), staging.dir.files, trace, Publications())
      ensures trace == old(trace) + if CanMake(old(trace), call) then [Event(call, outcome)] else []
      ensures CanMake(old(trace), call) <==> (old(writer) == null <==> call.Begin? || call.StageWhole?)
      ensures staging.dir.reliable && CanMake(old(trace), call) ==> (outcome == Done <==> old(Succeeds(call)))
      ensures !CanMake(old(trace), call) ==> outcome != Done && staging.dir.files == old(staging.dir.files)
      ensures writer == null || writer == old(writer) || fresh(writer)
    {
      hide Consistent, WithinLimits, Recorded, AllMatch, Retried, Current, FinalizedAfterFailure, Holding, LeftPartial;
      hide Intact, Kept, Explained;
      outcome := Raised;
      if (writer == null) != (call.Begin? || call.StageWhole?) {
        return;
      }
      ghost var before := trace;
      match call {
        case Begin(filename, maximumBytes) =>
          outcome, writer, frame := BeginOne(staging, filename, maximumBytes, frame, trace);
        case WriteChunk(chunk) =>
          outcome, frame := WriteOne(staging.dir, writer, chunk, frame, trace);
          writer := if outcome == Crashed then null else writer;
        case FinalizeFile(expectedBytes, expectedSha256) =>
          outcome, frame := FinalizeOne(staging.dir, writer, expectedBytes, expectedSha256, frame, trace);
          writer := if outcome == Raised then writer else null;
        case CloseWriter =>
          CloseOne(staging.dir, writer, frame, trace);
          writer.Close();
          writer, outcome := null, Done;
        case StageWhole(filename, chunks, expectedBytes, expectedSha256, perFileMax) =>
          outcome, frame :=
            StageOne(staging, filename, chunks, expectedBytes, expectedSha256, perFileMax, frame, trace);
      }
      trace := before + [Event(call, outcome)];
    }

    /** A sequence of calls: exactly those that can be made are, in order, with the outcomes returned. */
    method MakeAll(calls: seq<Call>) returns (outcomes: seq<Outcome>)
      requires Valid()
      modifies this, staging.dir, writer
      ensures Valid() && Start() == old(Start()) && old(Publications()) <= Publications()
      ensures Owed(Start(), staging.dir.files, trace, Publications())
      ensures |outcomes| == |calls| && trace == Traced(old(trace), calls, outcomes)
      ensures writer == null || writer == old(writer) || fresh(writer)
    {
      hide Consistent, WithinLimits, Recorded, AllMatch, Retried, Current, FinalizedAfterFailure, Holding, LeftPartial;
      hide Intact, Kept, Explained, Traced, CanMake;
      outcomes := [];
      NoCalls(trace);
      for i := 0 to |calls|
        invariant Valid() && Start() == old(Start()) && old(Publications()) <= Publications()
        invariant |outcomes| == i && trace == Traced(old(trace), calls[..i], outcomes)
        invariant writer == null || writer == old(writer) || fresh(writer)
      {
        var outcome := Make(calls[i]);
        OneMoreCall(old(trace), calls[..i], outcomes, calls[i], outcome);
        assert calls[..i + 1] == calls[..i] + [calls[i]];
        outcomes := outcomes + [outcome];
      }
      assert calls[..|calls|] == calls;
    }
  }

  lemma NoCalls(trace: seq<Event>)
    ensures forall calls: seq<Call> | calls == [] :: Traced(trace, calls, []) == trace
  {
  }

  /** From any consistent directory. */
  method Session(staging: FixtureAcquisitionStaging, calls: seq<Call>)
      returns (outcomes: seq<Outcome>, ghost publications: seq<Publication>)
    requires Consistent(staging.dir.files)
    modifies staging.dir
    ensures |outcomes| == |calls|
    ensures Owed(old(staging.dir.files), staging.dir.files, Traced([], calls, outcomes), publications)
  {
    hide Consistent, Owed, InSession, Traced;
    var caller := new StagingCaller(staging);
    outcomes := caller.MakeAll(calls);
    publications := caller.Publications();
  }

  /**
   Between two moments: what is published after the first calls is still there, name, inode and bytes,
   after all of them.
   */
  method PublishedForEver(staging: FixtureAcquisitionStaging, first: seq<Call>, more: seq<Call>)
      returns (outcomes: seq<Outcome>, others: seq<Outcome>,
               ghost middle: Files, ghost published: seq<Publication>, ghost all: seq<Publication>)
    requires Consistent(staging.dir.files)
    modifies staging.dir
    ensures |outcomes| == |first| && |others| == |more|
    ensures Owed(old(staging.dir.files), middle, Traced([], first, outcomes), published)
    ensures Owed(old(staging.dir.files), staging.dir.files, Traced([], first + more, outcomes + others), all)
    ensures published <= all
    ensures forall p | p in published ::
              && p.filename in middle.names && middle.names[p.filename] == p.inode
              && p.filename in staging.dir.files.names && staging.dir.files.names[p.filename] == p.inode
              && p.inode in middle.inodes && p.inode in staging.dir.files.inodes
              && middle.inodes[p.inode].content == staging.dir.files.inodes[p.inode].content == p.content
  {
    hide Consistent, InSession, Traced, WithinLimits, Recorded, AllMatch, Kept, Explained;
    var caller := new StagingCaller(staging);
    outcomes := caller.MakeAll(first);
    middle, published := staging.dir.files, caller.Publications();
    others := caller.MakeAll(more);
    all := caller.Publications();
    TracedTwice([], first, outcomes, more, others);
  }

  lemma {:induction false} TracedTwice(trace: seq<Event>, calls: seq<Call>, outcomes: seq<Outcome>,
                                       more: seq<Call>, others: seq<Outcome>)
    requires |calls| == |outcomes| && |more| == |others|
    ensures Traced(trace, calls + more, outcomes + others) == Traced(Traced(trace, calls, outcomes), more, others)
    decreases |more|
  {
    if more == [] {
      assert calls + more == calls && outcomes + others == outcomes;
    } else {
      var n := |more| - 1;
      TracedTwice(trace, calls, outcomes, more[..n], others[..n]);
      assert calls + more == calls + more[..n] + [more[n]];
      assert outcomes + others == outcomes + others[..n] + [others[n]];
      OneMoreCall(trace, calls + more[..n], outcomes + others[..n], more[n], others[n]);
    }
  }
}
