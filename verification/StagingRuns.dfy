/**
 What any caller of the staging area can bring about, one writer open at a time: the accounting of
 writes that fail part of the way, and the condition under which limits and evidence hold.
 */
module StagingRuns {
  import opened Common
  import opened Staging
  import opened StagingArea
  import opened StagingWriter

  // ---------------------------------------------------------------- the accounting of one writer

  const NOTHING_WRITTEN := Progress([], [], 0)

  predicate Possibles(limit: nat, attempts: seq<Attempt>)
    decreases |attempts|, 0
  {
    if attempts == [] then true
    else
      var front, last := attempts[..|attempts| - 1], attempts[|attempts| - 1];
      Possibles(limit, front) && Possible(limit, AfterAll(limit, front), last)
  }

  /** Where a writer stands after these calls of `write`. */
  function AfterAll(limit: nat, attempts: seq<Attempt>): Progress
    requires Possibles(limit, attempts)
    decreases |attempts|, 1
  {
    if attempts == [] then NOTHING_WRITTEN
    else After(AfterAll(limit, attempts[..|attempts| - 1]), attempts[|attempts| - 1])
  }

  /** Bytes that reached the file in calls that did not return. */
  function Lost(attempts: seq<Attempt>): nat {
    if attempts == [] then 0
    else
      var last := attempts[|attempts| - 1];
      Lost(attempts[..|attempts| - 1]) + if last.done then 0 else last.landed
  }

  /** Every call but possibly the last returned or landed nothing. */
  predicate StoppedAtFailure(attempts: seq<Attempt>) {
    attempts == [] || Lost(attempts[..|attempts| - 1]) == 0
  }

  /**
   The file holds what was counted and what was lost; so the digest and the count speak of the file
   exactly when nothing was lost.
   */
  lemma {:induction false} FileHoldsCountedAndLost(limit: nat, attempts: seq<Attempt>)
    requires Possibles(limit, attempts)
    ensures var p := AfterAll(limit, attempts);
            && |p.content| == p.written + Lost(attempts)
            && |p.hashed| == p.written <= limit
            && (InStep(p) <==> Lost(attempts) == 0)
  {
    if attempts == [] {
    } else {
      var front, last := attempts[..|attempts| - 1], attempts[|attempts| - 1];
      FileHoldsCountedAndLost(limit, front);
      assert last.done ==> last.chunk[..last.landed] == last.chunk;
      assert last.landed == 0 ==> AfterAll(limit, front).content + last.chunk[..0] == AfterAll(limit, front).content;
    }
  }

  /** A caller that stops at the first failure keeps the bound, though that failure may lose bytes. */
  lemma StoppingKeepsTheBound(limit: nat, attempts: seq<Attempt>)
    requires Possibles(limit, attempts) && StoppedAtFailure(attempts)
    ensures |AfterAll(limit, attempts).content| <= limit
  {
    if attempts == [] {
    } else {
      FileHoldsCountedAndLost(limit, attempts[..|attempts| - 1]);
    }
  }

  /** `finalize` with the writer's own evidence publishes other bytes exactly when some were lost. */
  lemma EvidenceIsWrongExactlyAfterALoss(limit: nat, attempts: seq<Attempt>, expectedBytes: int, expectedSha256: Digest)
    requires Possibles(limit, attempts)
    requires AfterAll(limit, attempts).written == expectedBytes
             && Sha256(AfterAll(limit, attempts).hashed) == expectedSha256
    ensures Matches(AfterAll(limit, attempts).content, expectedBytes, expectedSha256) <==> Lost(attempts) == 0
  {
    FileHoldsCountedAndLost(limit, attempts);
  }

  ghost predicate MayOverrun(limit: nat) {
    exists attempts: seq<Attempt> :: Possibles(limit, attempts) && |AfterAll(limit, attempts).content| > limit
  }

  ghost predicate MayLose(limit: nat) {
    exists attempts: seq<Attempt> :: Possibles(limit, attempts) && !InStep(AfterAll(limit, attempts))
  }

  /** The witness: all but one byte lands and the call fails; the same chunk is written again. */
  function WrittenAgain(chunk: Bytes): seq<Attempt>
    requires chunk != []
  {
    [Attempt(chunk, |chunk| - 1, false), Attempt(chunk, |chunk|, true)]
  }

  lemma WritingAgain(limit: nat, chunk: Bytes)
    requires 2 <= |chunk| <= limit
    ensures Possibles(limit, WrittenAgain(chunk))
    ensures var p := AfterAll(limit, WrittenAgain(chunk));
            p == Progress(chunk[..|chunk| - 1] + chunk, chunk, |chunk|) && !InStep(p)
  {
    var first, second := WrittenAgain(chunk)[0], WrittenAgain(chunk)[1];
    assert WrittenAgain(chunk)[..1] == [first] && [first][..0] == [];
    assert AfterAll(limit, [first]) == After(NOTHING_WRITTEN, first);
    assert [] + chunk[..|chunk| - 1] == chunk[..|chunk| - 1] && chunk[..|chunk|] == chunk && [] + chunk == chunk;
  }

  /** With room for one byte no call can land a part of its chunk. */
  lemma {:induction false} NothingLostInOneByte(limit: nat, attempts: seq<Attempt>)
    requires limit <= 1 && Possibles(limit, attempts)
    ensures Lost(attempts) == 0
  {
    if attempts == [] {
    } else {
      NothingLostInOneByte(limit, attempts[..|attempts| - 1]);
    }
  }

  /**
   The bound on a file, and the agreement of file and evidence, can each be broken by a caller that
   goes on after a failed write exactly when the bound leaves room for two bytes.
   */
  lemma BrokenExactlyWithRoomForTwo(limit: nat)
    ensures MayOverrun(limit) <==> limit >= 2
    ensures MayLose(limit) <==> limit >= 2
  {
    if limit >= 2 {
      var chunk := seq(limit, _ => 0 as byte);
      WritingAgain(limit, chunk);
      assert |AfterAll(limit, WrittenAgain(chunk)).content| == 2 * limit - 1;
    } else {
      forall attempts: seq<Attempt> | Possibles(limit, attempts)
        ensures |AfterAll(limit, attempts).content| <= limit && InStep(AfterAll(limit, attempts))
      {
        NothingLostInOneByte(limit, attempts);
        FileHoldsCountedAndLost(limit, attempts);
      }
    }
  }

  // ---------------------------------------------------------------- what the caller can tell

  /** A call of `write` as its caller sees it: the chunk, and whether the call returned. */
  datatype Seen = Seen(chunk: Bytes, done: bool)

  function SeenOf(attempts: seq<Attempt>): seq<Seen> {
    seq(|attempts|, i requires 0 <= i < |attempts| => Seen(attempts[i].chunk, attempts[i].done))
  }

  /** What the calls that returned were given. */
  function Counted(seen: seq<Seen>): nat {
    if seen == [] then 0
    else Counted(seen[..|seen| - 1]) + if seen[|seen| - 1].done then |seen[|seen| - 1].chunk| else 0
  }

  /** Whatever returned had fitted. */
  predicate Feasible(limit: nat, seen: seq<Seen>) {
    if seen == [] then true
    else
      var front, last := seen[..|seen| - 1], seen[|seen| - 1];
      Feasible(limit, front) && (last.done ==> Counted(front) + |last.chunk| <= limit)
  }

  /** The most a failed call can have left behind: all but one byte of a chunk that fitted. */
  function Leftover(limit: nat, counted: nat, last: Seen): nat {
    if last.done || last.chunk == [] || counted + |last.chunk| > limit then 0 else |last.chunk| - 1
  }

  function MostLost(limit: nat, seen: seq<Seen>): nat {
    if seen == [] then 0
    else
      var front, last := seen[..|seen| - 1], seen[|seen| - 1];
      MostLost(limit, front) + Leftover(limit, Counted(front), last)
  }

  lemma OneMoreSeen(attempts: seq<Attempt>, attempt: Attempt)
    ensures SeenOf(attempts + [attempt]) == SeenOf(attempts) + [Seen(attempt.chunk, attempt.done)]
  {
  }

  lemma OneMoreCounted(limit: nat, seen: seq<Seen>, last: Seen)
    ensures Counted(seen + [last]) == Counted(seen) + if last.done then |last.chunk| else 0
    ensures Feasible(limit, seen + [last])
            <==> Feasible(limit, seen) && (last.done ==> Counted(seen) + |last.chunk| <= limit)
    ensures MostLost(limit, seen + [last]) == MostLost(limit, seen) + Leftover(limit, Counted(seen), last)
  {
    assert (seen + [last])[..|seen|] == seen;
  }

  /** Whatever landed, the calls show what was counted and bound what was lost. */
  lemma {:induction false} SeenBoundsLost(limit: nat, attempts: seq<Attempt>)
    requires Possibles(limit, attempts)
    ensures Feasible(limit, SeenOf(attempts))
    ensures AfterAll(limit, attempts).written == Counted(SeenOf(attempts))
    ensures Lost(attempts) <= MostLost(limit, SeenOf(attempts))
  {
    if attempts == [] {
    } else {
      var front, last := attempts[..|attempts| - 1], attempts[|attempts| - 1];
      SeenBoundsLost(limit, front);
      assert attempts == front + [last];
      OneMoreSeen(front, last);
      OneMoreCounted(limit, SeenOf(front), Seen(last.chunk, last.done));
      hide MostLost, Counted, Feasible, SeenOf;
    }
  }

  function Worst(limit: nat, counted: nat, last: Seen): Attempt {
    Attempt(last.chunk, if last.done then |last.chunk| else Leftover(limit, counted, last), last.done)
  }

  lemma WorstIsPossible(limit: nat, attempts: seq<Attempt>, last: Seen)
    requires Possibles(limit, attempts)
    requires last.done ==> AfterAll(limit, attempts).written + |last.chunk| <= limit
    ensures var worst := attempts + [Worst(limit, AfterAll(limit, attempts).written, last)];
            && Possibles(limit, worst)
            && Lost(worst) == Lost(attempts) + Leftover(limit, AfterAll(limit, attempts).written, last)
  {
    var attempt := Worst(limit, AfterAll(limit, attempts).written, last);
    assert (attempts + [attempt])[..|attempts|] == attempts;
  }

  /** And all of it can have been lost. */
  lemma {:induction false} MostCanBeLost(limit: nat, seen: seq<Seen>) returns (attempts: seq<Attempt>)
    requires Feasible(limit, seen)
    ensures Possibles(limit, attempts) && SeenOf(attempts) == seen && Lost(attempts) == MostLost(limit, seen)
  {
    if seen == [] {
      attempts := [];
    } else {
      var front, last := seen[..|seen| - 1], seen[|seen| - 1];
      assert seen == front + [last];
      OneMoreCounted(limit, front, last);
      hide MostLost, Counted, Feasible, SeenOf, Possibles, Lost, AfterAll, Leftover;
      var before := MostCanBeLost(limit, front);
      SeenBoundsLost(limit, before);
      WorstIsPossible(limit, before, last);
      var attempt := Worst(limit, Counted(front), last);
      OneMoreSeen(before, attempt);
      attempts := before + [attempt];
    }
  }

  ghost predicate MayBeOutOfStep(limit: nat, seen: seq<Seen>) {
    exists attempts: seq<Attempt> ::
      Possibles(limit, attempts) && SeenOf(attempts) == seen && !InStep(AfterAll(limit, attempts))
  }

  ghost predicate MayHaveOverrun(limit: nat, seen: seq<Seen>) {
    exists attempts: seq<Attempt> ::
      Possibles(limit, attempts) && SeenOf(attempts) == seen && |AfterAll(limit, attempts).content| > limit
  }

  /** A call that did not return although its chunk, of two bytes or more, fitted. */
  predicate FailedInPart(limit: nat, seen: seq<Seen>, i: nat)
    requires i < |seen|
  {
    !seen[i].done && |seen[i].chunk| >= 2 && Counted(seen[..i]) + |seen[i].chunk| <= limit
  }

  lemma {:induction false} LossNeedsAPart(limit: nat, seen: seq<Seen>)
    ensures MostLost(limit, seen) > 0 <==> exists i :: 0 <= i < |seen| && FailedInPart(limit, seen, i)
  {
    if seen == [] {
    } else {
      var n := |seen| - 1;
      LossNeedsAPart(limit, seen[..n]);
      forall i | 0 <= i < n ensures FailedInPart(limit, seen, i) <==> FailedInPart(limit, seen[..n], i) {
        assert seen[..n][..i] == seen[..i];
      }
      assert FailedInPart(limit, seen, n) <==> Leftover(limit, Counted(seen[..n]), seen[n]) > 0;
    }
  }

  /**
   Over what a caller sees: file and evidence may be out of step exactly when some failed call had a
   chunk of at least two bytes that fitted.
   */
  lemma OutOfStepExactlyWhen(limit: nat, seen: seq<Seen>)
    requires Feasible(limit, seen)
    ensures MayBeOutOfStep(limit, seen) <==> exists i :: 0 <= i < |seen| && FailedInPart(limit, seen, i)
  {
    hide MostLost, Feasible, InStep;
    LossNeedsAPart(limit, seen);
    if MayBeOutOfStep(limit, seen) {
      var attempts :|
        Possibles(limit, attempts) && SeenOf(attempts) == seen && !InStep(AfterAll(limit, attempts));
      SeenBoundsLost(limit, attempts);
      FileHoldsCountedAndLost(limit, attempts);
    }
    var attempts := MostCanBeLost(limit, seen);
    FileHoldsCountedAndLost(limit, attempts);
  }

  /** And the file may be over the bound exactly when what was counted and what can have been lost is. */
  lemma OverrunExactlyWhen(limit: nat, seen: seq<Seen>)
    requires Feasible(limit, seen)
    ensures MayHaveOverrun(limit, seen) <==> Counted(seen) + MostLost(limit, seen) > limit
  {
    hide MostLost, Feasible, Counted, InStep;
    if MayHaveOverrun(limit, seen) {
      var attempts :|
        Possibles(limit, attempts) && SeenOf(attempts) == seen && |AfterAll(limit, attempts).content| > limit;
      SeenBoundsLost(limit, attempts);
      FileHoldsCountedAndLost(limit, attempts);
    }
    var attempts := MostCanBeLost(limit, seen);
    SeenBoundsLost(limit, attempts);
    FileHoldsCountedAndLost(limit, attempts);
  }

  // ---------------------------------------------------------------- the same on the writer

  /** A writer at its beginning, as `begin_stream` returns it. */
  ghost predicate AtItsBeginning(writer: StreamingStagingWriter)
    reads writer, writer.dir
  {
    && writer.open && !writer.closed
    && writer.inode in writer.dir.files.inodes && writer.Now() == NOTHING_WRITTEN
    && writer.filename + PARTIAL in writer.dir.files.names
    && writer.dir.files.names[writer.filename + PARTIAL] == writer.inode
  }

  lemma ContentAfterBoth(landed: Bytes, chunk: Bytes)
    requires landed == [] || landed < chunk
    ensures var first := After(NOTHING_WRITTEN, Attempt(chunk, |landed|, false));
            first == Progress(landed, [], 0)
            && After(first, Attempt(chunk, |chunk|, true)) == Progress(landed + chunk, chunk, |chunk|)
  {
    assert chunk[..|landed|] == landed && chunk[..|chunk|] == chunk;
  }

  lemma LongerDoesNotMatch(landed: Bytes, chunk: Bytes)
    ensures Matches(landed + chunk, |chunk|, Sha256(chunk)) <==> landed == []
    ensures InStep(Progress(landed + chunk, chunk, |chunk|)) <==> landed == []
  {
    assert landed == [] ==> landed + chunk == chunk;
  }

  /** Writing a chunk again after it failed: the file gets what landed, and then the chunk. */
  method WriteAgain(writer: StreamingStagingWriter, chunk: Bytes)
      returns (first: Outcome, second: Outcome, ghost landed: Bytes, ghost between: Bytes)
    requires AtItsBeginning(writer)
    modifies writer, writer.dir
    ensures writer.inode in writer.dir.files.inodes
    ensures first == Raised ==> (landed == [] || landed < chunk) && between == landed
    ensures first == Raised && second == Done ==>
              && writer.open && !writer.closed && writer.Now() == Progress(landed + chunk, chunk, |chunk|)
              && writer.dir.files.names == old(writer.dir.files.names)
  {
    hide Possible, After, InStep, Matches;
    second := Raised;
    first, landed := writer.Write(chunk);
    between := writer.dir.files.inodes[writer.inode].content;
    if first == Raised {
      ContentAfterBoth(landed, chunk);
      assert writer.Now() == Progress(landed, [], 0);
      ghost var again;
      second, again := writer.Write(chunk);
    }
  }

  /**
   And publishing it: the final name holds what landed followed by the chunk, and matches the evidence
   the writer accepted exactly when nothing had landed.
   */
  method WriteAgainAndPublish(writer: StreamingStagingWriter, chunk: Bytes)
      returns (first: Outcome, second: Outcome, third: Outcome, ghost landed: Bytes, ghost between: Bytes)
    requires AtItsBeginning(writer)
    modifies writer, writer.dir
    ensures first == Raised ==> (landed == [] || landed < chunk) && between == landed
    ensures first == Raised && second == Done && third == Done ==>
              && writer.filename in writer.dir.files.names
              && writer.dir.files.names[writer.filename] == writer.inode
              && writer.inode in writer.dir.files.inodes
              && writer.dir.files.inodes[writer.inode].content == landed + chunk
              && (Matches(landed + chunk, |chunk|, Sha256(chunk)) <==> landed == [])
  {
    hide InStep, Matches;
    third := Raised;
    first, second, landed, between := WriteAgain(writer, chunk);
    if first == Raised && second == Done {
      ghost var before := writer.dir.files;
      var staged;
      ghost var stage;
      third, staged, stage := writer.Finalize(|chunk|, Sha256(chunk));
      PartialIsNotFinal(writer.filename);
      LongerDoesNotMatch(landed, chunk);
    }
  }
}
