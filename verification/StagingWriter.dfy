/** The staging fixture's directory calls, its streaming writer and its one-shot `stage_bytes`. */
module StagingWriter {
  import opened Common
  import opened Sums
  import opened Staging

  /** How far one file has got: its names tell. */
  datatype Stage = Absent | PartialOnly | BothNames | FinalOnly

  /** The directory once a new file with this content has reached a stage. */
  function AtStage(before: Files, filename: string, inode: nat, content: Bytes, stage: Stage): Files {
    var partial := Append(Create(before, filename + PARTIAL, inode), inode, content);
    match stage
    case Absent => before
    case PartialOnly => partial
    case BothNames => Link(partial, filename, inode)
    case FinalOnly => Unlink(Link(partial, filename, inode), filename + PARTIAL)
  }

  lemma AppendTwice(f: Files, inode: nat, a: Bytes, b: Bytes)
    requires inode in f.inodes
    ensures Append(Append(f, inode, a), inode, b) == Append(f, inode, a + b)
  {
    var content := f.inodes[inode].content;
    assert content + a + b == content + (a + b);
    assert f.inodes[inode := f.inodes[inode].(content := content + a)]
                   [inode := f.inodes[inode].(content := content + a + b)]
           == f.inodes[inode := f.inodes[inode].(content := content + a + b)];
  }

  lemma AppendNothing(f: Files, inode: nat)
    requires inode in f.inodes
    ensures Append(f, inode, []) == f
  {
    assert f.inodes[inode].content + [] == f.inodes[inode].content;
    assert f.inodes[inode := f.inodes[inode]] == f.inodes;
  }

  lemma PartialIsNotFinal(filename: string)
    ensures filename + PARTIAL != filename
  {
    assert |filename + PARTIAL| == |filename| + |PARTIAL|;
  }

  lemma UnlinkingTheSecondNameKeepsInodes(f: Files, name: string, other: string)
    requires name in f.names && other in f.names && name != other && f.names[name] == f.names[other]
    ensures Unlink(f, name).inodes == f.inodes
  {
    var names := f.names - {name};
    assert other in names && names[other] == f.names[name];
  }

  // ---------------------------------------------------------------- what a writer has done

  /** One call of `write`: how many of the chunk's bytes reached the file, and whether it returned. */
  datatype Attempt = Attempt(chunk: Bytes, landed: nat, done: bool)

  /** What the file holds, what the running digest was given, and the count. */
  datatype Progress = Progress(content: Bytes, hashed: Bytes, written: nat)

  /** A chunk that does not fit lands nothing; one that fails lands less than itself. */
  predicate Possible(limit: nat, p: Progress, a: Attempt) {
    && a.landed <= |a.chunk|
    && (a.landed > 0 || a.done ==> p.written + |a.chunk| <= limit)
    && (if a.done then a.landed == |a.chunk| else a.landed == 0 || a.landed < |a.chunk|)
  }

  function After(p: Progress, a: Attempt): Progress
    requires a.landed <= |a.chunk|
  {
    var content := p.content + a.chunk[..a.landed];
    if a.done then Progress(content, p.hashed + a.chunk, p.written + |a.chunk|) else p.(content := content)
  }

  /** The file's bytes are those the digest and the count stand for. */
  predicate InStep(p: Progress) {
    p.content == p.hashed && |p.content| == p.written
  }

  predicate Matches(content: Bytes, expectedBytes: int, expectedSha256: Digest) {
    |content| == expectedBytes && Sha256(content) == expectedSha256
  }

  class Directory {
    /** No call fails and the process is not killed. */
    const reliable: bool
    var files: Files

    constructor (reliable: bool, files: Files)
      ensures this.reliable == reliable && this.files == files
    {
      this.reliable := reliable;
      this.files := files;
    }

    /** `os.open` with O_CREAT and O_EXCL. */
    method OpenExclusive(name: string) returns (outcome: Outcome, inode: nat)
      modifies this
      ensures outcome == Done ==>
                name !in old(files).names && inode !in old(files).inodes && files == Create(old(files), name, inode)
      ensures outcome != Done ==> files == old(files)
      ensures reliable ==> (outcome == Done <==> name !in old(files).names)
      ensures reliable ==> outcome != Crashed
    {
      outcome := Fate(reliable);
      inode := FreshInode();
      if outcome == Done {
        if name in files.names {
          outcome := Raised;
        } else {
          files := Create(files, name, inode);
        }
      }
    }

    method FreshInode() returns (inode: nat)
      ensures inode !in files.inodes
    {
      inode := 0;
      var unseen := files.inodes.Keys;
      while inode in files.inodes
        invariant unseen == set i | i in files.inodes && i >= inode
        decreases unseen
      {
        unseen := unseen - {inode};
        inode := inode + 1;
      }
    }

    /** One `os.write`: some prefix of the view reaches the file. */
    method WriteSome(inode: nat, view: Bytes) returns (outcome: Outcome, consumed: nat)
      requires inode in files.inodes && view != []
      modifies this
      ensures outcome == Done ==> consumed <= |view| && files == Append(old(files), inode, view[..consumed])
      ensures outcome != Done ==> files == old(files)
      ensures reliable ==> outcome == Done && consumed > 0
    {
      outcome := Fate(reliable);
      consumed := |view|;
      if outcome == Done {
        if !reliable {
          consumed :| 0 <= consumed <= |view|;
        }
        files := Append(files, inode, view[..consumed]);
      }
    }

    /** The write loop: on anything but Done a proper prefix may have reached the file. */
    method WriteAll(inode: nat, chunk: Bytes) returns (outcome: Outcome, ghost landed: Bytes)
      requires inode in files.inodes
      modifies this
      ensures landed <= chunk && files == Append(old(files), inode, landed)
      ensures if outcome == Done then landed == chunk else |landed| < |chunk|
      ensures reliable ==> outcome == Done
    {
      var view := chunk;
      landed := [];
      AppendNothing(files, inode);
      while view != []
        invariant landed + view == chunk
        invariant inode in old(files).inodes && files == Append(old(files), inode, landed)
        decreases |view|
      {
        var consumed: nat;
        outcome, consumed := WriteSome(inode, view);
        if outcome != Done {
          return;
        }
        AppendTwice(old(files), inode, landed, view[..consumed]);
        landed := landed + view[..consumed];
        if consumed == 0 {
          return Raised, landed;
        }
        view := view[consumed..];
      }
      outcome := Done;
    }

    /** `os.link` without following symlinks. */
    method HardLink(name: string, target: string) returns (outcome: Outcome)
      requires name in files.names
      modifies this
      ensures outcome == Done ==>
                && target !in old(files).names
                && files == Link(old(files), target, old(files).names[name])
      ensures outcome != Done ==> files == old(files)
      ensures reliable ==> (outcome == Done <==> target !in old(files).names)
      ensures reliable ==> outcome != Crashed
    {
      outcome := Fate(reliable);
      if outcome == Done {
        if target in files.names {
          outcome := Raised;
        } else {
          files := Link(files, target, files.names[name]);
        }
      }
    }

    method Remove(name: string) returns (outcome: Outcome)
      requires name in files.names
      modifies this
      ensures outcome == Done ==> files == Unlink(old(files), name)
      ensures outcome != Done ==> files == old(files)
      ensures reliable ==> outcome == Done
    {
      outcome := Fate(reliable);
      if outcome == Done {
        files := Unlink(files, name);
      }
    }

    /** `_current_usage`: names and bytes, each name counted; raises on a non-regular entry. */
    method CurrentUsage() returns (outcome: Outcome, count: nat, total: nat)
      requires Consistent(files)
      ensures outcome == Done ==> count == |files.names| && total == Scanned(files)
      ensures outcome == Done ==> forall name | name in files.names :: files.inodes[files.names[name]].regular
      ensures reliable && (forall name | name in files.names :: files.inodes[files.names[name]].regular)
              ==> outcome == Done
    {
      total, count := 0, 0;
      var unread := files.names.Keys;
      ghost var sizes := NameSizes(files);
      assert sizes - {} == sizes;
      assert files.names.Keys - unread == {};
      while unread != {}
        invariant unread <= files.names.Keys
        invariant count == |files.names.Keys| - |unread|
        invariant total + Sum(sizes - (files.names.Keys - unread)) == Scanned(files)
        invariant forall name | name in files.names && name !in unread :: files.inodes[files.names[name]].regular
        decreases unread
      {
        var name :| name in unread;
        outcome := Fate(reliable);
        if outcome != Done {
          return;
        }
        var info := files.inodes[files.names[name]];
        if !info.regular {
          return Raised, count, total;
        }
        var left := sizes - (files.names.Keys - unread);
        SumRemove(left, name);
        assert left - {name} == sizes - (files.names.Keys - (unread - {name}));
        total := total + |info.content|;
        count := count + 1;
        unread := unread - {name};
      }
      assert sizes - (files.names.Keys - unread) == map[];
      outcome := Done;
    }
  }

  datatype StagedFile = StagedFile(filename: string, bytesWritten: nat, sha256: Digest, inode: nat)

  class StreamingStagingWriter {
    const dir: Directory
    const inode: nat
    const filename: string
    const maximumBytes: nat
    const aggregateRemaining: nat
    /** The bytes given to the running SHA-256. */
    var hashed: Bytes
    var written: nat
    /** The descriptor of the partial file is open. */
    var open: bool
    var closed: bool

    constructor (dir: Directory, inode: nat, filename: string, maximumBytes: nat, aggregateRemaining: nat)
      ensures this.dir == dir && this.inode == inode && this.filename == filename
      ensures this.maximumBytes == maximumBytes && this.aggregateRemaining == aggregateRemaining
      ensures hashed == [] && written == 0 && open && !closed
    {
      this.dir := dir;
      this.inode := inode;
      this.filename := filename;
      this.maximumBytes := maximumBytes;
      this.aggregateRemaining := aggregateRemaining;
      hashed, written, open, closed := [], 0, true, false;
    }

    predicate Fits(size: nat) {
      size <= maximumBytes && size <= aggregateRemaining
    }

    function Limit(): nat {
      if maximumBytes < aggregateRemaining then maximumBytes else aggregateRemaining
    }

    function Now(): Progress
      reads this, dir
      requires inode in dir.files.inodes
    {
      Progress(dir.files.inodes[inode].content, hashed, written)
    }

    /**
     Accept one chunk. A refused chunk changes nothing; a failed write may leave a proper prefix of a
     chunk that fits, which neither the count nor the digest includes. A writer in step stays in step
     exactly when the call returned or landed nothing.
     */
    method Write(chunk: Bytes) returns (outcome: Outcome, ghost landed: Bytes)
      requires !closed ==> inode in dir.files.inodes
      modifies this, dir
      ensures closed == old(closed) && open == old(open)
      ensures landed <= chunk
      ensures dir.files == if old(closed) then old(dir.files) else Append(old(dir.files), inode, landed)
      ensures landed != [] ==> !closed && open && Fits(old(written) + |chunk|)
      ensures outcome == Done ==>
                && landed == chunk && !closed && Fits(written)
                && written == old(written) + |chunk| && hashed == old(hashed) + chunk
      ensures outcome != Done ==> written == old(written) && hashed == old(hashed)
      ensures !closed ==>
                && Possible(Limit(), old(Now()), Attempt(chunk, |landed|, outcome == Done))
                && Now() == After(old(Now()), Attempt(chunk, |landed|, outcome == Done))
      ensures !closed && old(InStep(Now())) ==> (InStep(Now()) <==> outcome == Done || landed == [])
      ensures dir.reliable ==> (outcome == Done <==> !closed && (open || chunk == []) && Fits(old(written) + |chunk|))
      ensures dir.reliable ==> outcome != Crashed
    {
      landed := [];
      if closed {
        return Raised, [];
      }
      AppendNothing(dir.files, inode);
      var newTotal := written + |chunk|;
      if newTotal > maximumBytes || newTotal > aggregateRemaining || (!open && chunk != []) {
        return Raised, [];
      }
      outcome, landed := dir.WriteAll(inode, chunk);
      if outcome != Done {
        return;
      }
      hashed := hashed + chunk;
      written := newTotal;
    }

    /**
     Publish by link and unlink, only when the count and digest match the evidence. Killed or failing
     between the two, the file keeps both names. What is published matches the evidence exactly when
     the writer was in step.
     */
    method Finalize(expectedBytes: int, expectedSha256: Digest)
        returns (outcome: Outcome, staged: Option<StagedFile>, ghost stage: Stage)
      requires !closed && open ==>
                 && inode in dir.files.inodes
                 && filename + PARTIAL in dir.files.names && dir.files.names[filename + PARTIAL] == inode
      modifies this, dir
      ensures hashed == old(hashed) && written == old(written)
      ensures closed == (old(closed) || outcome == Done) && (open ==> old(open))
      ensures stage == PartialOnly ==> dir.files == old(dir.files)
      ensures stage == BothNames ==> dir.files == Link(old(dir.files), filename, inode)
      ensures stage == FinalOnly ==>
                && filename + PARTIAL in Link(old(dir.files), filename, inode).names
                && dir.files == Unlink(Link(old(dir.files), filename, inode), filename + PARTIAL)
      ensures stage != Absent
      ensures stage != PartialOnly ==>
                && !old(closed) && old(open) && !open
                && written == expectedBytes && Sha256(hashed) == expectedSha256
                && filename !in old(dir.files).names
      ensures stage != PartialOnly ==>
                && dir.files.inodes == old(dir.files).inodes
                && (Matches(old(dir.files).inodes[inode].content, expectedBytes, expectedSha256)
                    <==> old(InStep(Now())))
      ensures outcome == Done ==>
                && stage == FinalOnly
                && staged == Some(StagedFile(filename, written, Sha256(hashed), inode))
      ensures dir.reliable ==>
                (outcome == Done <==> !old(closed) && old(open) && written == expectedBytes
                                      && Sha256(hashed) == expectedSha256 && filename !in old(dir.files).names)
      ensures dir.reliable ==> outcome != Crashed
      ensures dir.reliable && outcome != Done ==> stage == PartialOnly
    {
      staged, stage := None, PartialOnly;
      if closed {
        return Raised, None, PartialOnly;
      }
      if expectedBytes < 0 || !WellFormed(expectedSha256) || !open {
        return Raised, None, PartialOnly;
      }
      outcome := Fate(dir.reliable);
      if outcome != Done {
        return;
      }
      if written != expectedBytes || Sha256(hashed) != expectedSha256 {
        return Raised, None, PartialOnly;
      }
      open := false;
      outcome := Fate(dir.reliable);
      if outcome != Done {
        return;
      }
      outcome := dir.HardLink(filename + PARTIAL, filename);
      if outcome != Done {
        return;
      }
      stage := BothNames;
      PartialIsNotFinal(filename);
      UnlinkingTheSecondNameKeepsInodes(dir.files, filename + PARTIAL, filename);
      outcome := dir.Remove(filename + PARTIAL);
      if outcome != Done {
        return;
      }
      stage := FinalOnly;
      outcome := Fate(dir.reliable);
      if outcome != Done {
        return;
      }
      staged := Some(StagedFile(filename, written, Sha256(hashed), inode));
      open, closed := false, true;
    }

    method Close()
      modifies this
      ensures closed && !open && hashed == old(hashed) && written == old(written)
    {
      open, closed := false, true;
    }
  }
}
