/** One reserved operation's staging area: it hands out writers and keeps the aggregate limits. */
module StagingArea {
  import opened Common
  import opened Staging
  import opened StagingWriter

  // ---------------------------------------------------------------- what every stage keeps

  lemma PartialIsConsistent(before: Files, filename: string, inode: nat, content: Bytes)
    requires Consistent(before) && inode !in before.inodes && filename + PARTIAL !in before.names
    ensures Consistent(AtStage(before, filename, inode, content, PartialOnly))
  {
    var after := AtStage(before, filename, inode, content, PartialOnly);
    forall i | i in after.inodes ensures exists name :: name in after.names && after.names[name] == i {
      if i == inode {
        assert filename + PARTIAL in after.names;
      } else {
        var name :| name in before.names && before.names[name] == i;
        assert name in after.names;
      }
    }
  }

  lemma LinkKeepsConsistent(f: Files, name: string, inode: nat)
    requires Consistent(f) && inode in f.inodes && name !in f.names
    ensures Consistent(Link(f, name, inode))
  {
    var after := Link(f, name, inode);
    forall i | i in after.inodes ensures exists other :: other in after.names && after.names[other] == i {
      var other :| other in f.names && f.names[other] == i;
      assert other in after.names;
    }
  }

  /** Whatever stage a new file is left at, the directory is consistent and its held bytes are known. */
  lemma EveryStageIsConsistent(before: Files, filename: string, inode: nat, content: Bytes, stage: Stage)
    requires Consistent(before) && inode !in before.inodes && filename + PARTIAL !in before.names
    requires stage in {BothNames, FinalOnly} ==> filename !in before.names
    ensures Consistent(AtStage(before, filename, inode, content, stage))
    ensures stage != Absent ==>
              && Held(AtStage(before, filename, inode, content, stage)) == Held(before) + |content|
              && |AtStage(before, filename, inode, content, stage).inodes| == |before.inodes| + 1
  {
    hide Consistent;
    PartialIsNotFinal(filename);
    PartialIsConsistent(before, filename, inode, content);
    HeldAfterCreate(before, filename + PARTIAL, inode);
    HeldAfterAppend(Create(before, filename + PARTIAL, inode), inode, content);
    var partial := AtStage(before, filename, inode, content, PartialOnly);
    assert |partial.inodes.Keys| == |Create(before, filename + PARTIAL, inode).inodes.Keys|;
    if stage in {BothNames, FinalOnly} {
      var both := Link(partial, filename, inode);
      LinkKeepsConsistent(partial, filename, inode);
      if stage == FinalOnly {
        UnlinkKeepsConsistent(both, filename + PARTIAL);
        UnlinkingTheSecondNameKeepsInodes(both, filename + PARTIAL, filename);
      }
    }
  }

  /** A file admitted by the scan keeps the limits at every stage, however often names were counted. */
  lemma AdmittedFileKeepsLimits(before: Files, filename: string, inode: nat, content: Bytes, stage: Stage)
    requires Consistent(before) && WithinLimits(before)
    requires inode !in before.inodes && filename + PARTIAL !in before.names
    requires stage in {BothNames, FinalOnly} ==> filename !in before.names
    requires stage != Absent ==> |before.names| < MAX_FILES && Scanned(before) + |content| <= MAX_AGGREGATE_BYTES
    ensures Consistent(AtStage(before, filename, inode, content, stage))
    ensures WithinLimits(AtStage(before, filename, inode, content, stage))
  {
    hide Consistent;
    EveryStageIsConsistent(before, filename, inode, content, stage);
    ScanDominatesHeld(before);
  }

  function Flatten(chunks: seq<Bytes>): Bytes {
    if chunks == [] then [] else Flatten(chunks[..|chunks| - 1]) + chunks[|chunks| - 1]
  }

  lemma {:induction false} FlattenGrows(chunks: seq<Bytes>, i: nat)
    requires i <= |chunks|
    ensures |Flatten(chunks[..i])| <= |Flatten(chunks)|
    decreases |chunks|
  {
    if i < |chunks| {
      assert chunks[..|chunks| - 1][..i] == chunks[..i];
      FlattenGrows(chunks[..|chunks| - 1], i);
    } else {
      assert chunks[..i] == chunks;
    }
  }

  ghost predicate AllRegular(f: Files)
    requires Consistent(f)
  {
    forall name | name in f.names :: f.inodes[f.names[name]].regular
  }

  class FixtureAcquisitionStaging {
    const dir: Directory

    constructor (dir: Directory)
      ensures this.dir == dir
    {
      this.dir := dir;
    }

    /** The checks of `begin_stream`, as a caller can make them. */
    ghost predicate Admits(filename: string, maximumBytes: int)
      reads dir
      requires Consistent(dir.files)
    {
      && SafeFilename(filename) && 0 < maximumBytes <= MAX_AGGREGATE_BYTES
      && AllRegular(dir.files)
      && |dir.files.names| < MAX_FILES && Scanned(dir.files) < MAX_AGGREGATE_BYTES
      && filename + PARTIAL !in dir.files.names
    }

    method BeginStream(filename: string, maximumBytes: int)
        returns (outcome: Outcome, writer: StreamingStagingWriter?)
      requires Consistent(dir.files)
      modifies dir
      ensures outcome == Done ==>
                && writer != null && fresh(writer) && writer.dir == dir && writer.filename == filename
                && writer.inode !in old(dir.files).inodes
                && filename + PARTIAL !in old(dir.files).names
                && dir.files == Create(old(dir.files), filename + PARTIAL, writer.inode)
                && writer.hashed == [] && writer.written == 0 && writer.open && !writer.closed
                && writer.maximumBytes == maximumBytes
                && writer.aggregateRemaining == MAX_AGGREGATE_BYTES - Scanned(old(dir.files))
      ensures outcome == Done ==> old(Admits(filename, maximumBytes))
      ensures outcome != Done ==> dir.files == old(dir.files)
      ensures dir.reliable ==> (outcome == Done <==> old(Admits(filename, maximumBytes)))
      ensures dir.reliable ==> outcome != Crashed
    {
      writer := null;
      if !SafeFilename(filename) || !(0 < maximumBytes <= MAX_AGGREGATE_BYTES) {
        return Raised, null;
      }
      var count, current;
      outcome, count, current := dir.CurrentUsage();
      if outcome != Done {
        if dir.reliable {
          return Raised, null;
        }
        return;
      }
      if count >= MAX_FILES || current >= MAX_AGGREGATE_BYTES {
        return Raised, null;
      }
      var inode;
      outcome, inode := dir.OpenExclusive(filename + PARTIAL);
      if outcome != Done {
        return;
      }
      writer := new StreamingStagingWriter(dir, inode, filename, maximumBytes, MAX_AGGREGATE_BYTES - current);
    }

    /** The chunk loop of `stage_bytes`: the size is checked before a chunk is written. */
    method FillPartial(ghost before: Files, filename: string, inode: nat, chunks: seq<Bytes>, expectedBytes: nat,
                       perFileMax: nat)
        returns (outcome: Outcome, hashed: Bytes, ghost content: Bytes)
      requires dir.files == AtStage(before, filename, inode, [], PartialOnly)
      modifies dir
      ensures dir.files == AtStage(before, filename, inode, content, PartialOnly)
      ensures |content| <= expectedBytes
      ensures outcome == Done ==> hashed == content == Flatten(chunks)
      ensures dir.reliable && |Flatten(chunks)| <= expectedBytes <= perFileMax ==> outcome == Done
    {
      ghost var created := Create(before, filename + PARTIAL, inode);
      hashed, content := [], [];
      for i := 0 to |chunks|
        invariant hashed == content == Flatten(chunks[..i]) && |content| <= expectedBytes
        invariant dir.files == Append(created, inode, content)
      {
        assert chunks[..i + 1][..i] == chunks[..i];
        FlattenGrows(chunks, i + 1);
        if |hashed| + |chunks[i]| > expectedBytes || |hashed| + |chunks[i]| > perFileMax {
          return Raised, hashed, content;
        }
        ghost var landed;
        outcome, landed := dir.WriteAll(inode, chunks[i]);
        AppendTwice(created, inode, content, landed);
        content := content + landed;
        if outcome != Done {
          return;
        }
        hashed := hashed + chunks[i];
      }
      assert chunks[..|chunks|] == chunks;
      outcome := Done;
    }

    /** What `stage_bytes` demands, as a caller can check it. */
    ghost predicate Stageable(filename: string, chunks: seq<Bytes>, expectedBytes: int, expectedSha256: Digest,
                              perFileMax: int)
      reads dir
      requires Consistent(dir.files)
    {
      && SafeFilename(filename) && 0 <= expectedBytes <= perFileMax && WellFormed(expectedSha256)
      && AllRegular(dir.files)
      && |dir.files.names| < MAX_FILES && Scanned(dir.files) + expectedBytes <= MAX_AGGREGATE_BYTES
      && filename + PARTIAL !in dir.files.names && filename !in dir.files.names
      && |Flatten(chunks)| == expectedBytes && Sha256(Flatten(chunks)) == expectedSha256
    }

    /** Stage a file from chunks at hand, against evidence known in advance. */
    method StageBytes(filename: string, chunks: seq<Bytes>, expectedBytes: int, expectedSha256: Digest, perFileMax: int)
        returns (outcome: Outcome, staged: Option<StagedFile>, ghost inode: nat, ghost content: Bytes,
                 ghost stage: Stage)
      requires Consistent(dir.files)
      modifies dir
      ensures dir.files == AtStage(old(dir.files), filename, inode, content, stage)
      ensures stage != Absent ==>
                && inode !in old(dir.files).inodes && filename + PARTIAL !in old(dir.files).names
                && |old(dir.files).names| < MAX_FILES
                && |content| <= expectedBytes && Scanned(old(dir.files)) + expectedBytes <= MAX_AGGREGATE_BYTES
      ensures stage in {BothNames, FinalOnly} ==>
                && filename !in old(dir.files).names
                && content == Flatten(chunks) && |content| == expectedBytes && Sha256(content) == expectedSha256
      ensures outcome == Done ==>
                stage == FinalOnly && staged == Some(StagedFile(filename, |content|, Sha256(content), inode))
      ensures dir.reliable ==>
                (outcome == Done <==> old(Stageable(filename, chunks, expectedBytes, expectedSha256, perFileMax)))
      ensures Consistent(dir.files)
      ensures old(WithinLimits(dir.files)) ==> WithinLimits(dir.files)
    {
      hide SafeFilename, Consistent, Held, Scanned;
      staged, inode, content, stage := None, 0, [], Absent;
      if !SafeFilename(filename) || expectedBytes < 0 || perFileMax < 0 {
        return Raised, None, 0, [], Absent;
      }
      if expectedBytes > perFileMax || !WellFormed(expectedSha256) {
        return Raised, None, 0, [], Absent;
      }
      var count, current;
      outcome, count, current := dir.CurrentUsage();
      if outcome != Done {
        return;
      }
      if count >= MAX_FILES || current + expectedBytes > MAX_AGGREGATE_BYTES {
        return Raised, None, 0, [], Absent;
      }
      ghost var before := dir.files;
      var file;
      outcome, file := dir.OpenExclusive(filename + PARTIAL);
      if outcome != Done {
        return;
      }
      inode, stage := file, PartialOnly;
      AppendNothing(dir.files, file);
      var hashed;
      outcome, hashed, content := FillPartial(before, filename, file, chunks, expectedBytes, perFileMax);
      if outcome == Done {
        outcome := Fate(dir.reliable);
        if outcome == Done && (|hashed| != expectedBytes || Sha256(hashed) != expectedSha256) {
          outcome := Raised;
        }
        if outcome == Done {
          PartialIsNotFinal(filename);
          outcome := dir.HardLink(filename + PARTIAL, filename);
          if outcome == Done {
            stage := BothNames;
            outcome := dir.Remove(filename + PARTIAL);
            if outcome == Done {
              stage := FinalOnly;
              outcome := Fate(dir.reliable);
              staged := Some(StagedFile(filename, |hashed|, Sha256(hashed), file));
            }
          }
        }
      }
      EveryStageIsConsistent(before, filename, inode, content, stage);
      if WithinLimits(before) {
        AdmittedFileKeepsLimits(before, filename, inode, content, stage);
      }
    }
  }
}
