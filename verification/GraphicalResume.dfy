/** The acquisition loop and the resumption that completes it after a crash. */
module GraphicalResume {
  import opened Common
  import opened Staging
  import opened StagingWriter
  import opened StagingArea
  import opened Downloader
  import opened Transfer
  import opened GraphicalAcquisition

  lemma InterruptedWitness(f: Files, requests: seq<DownloadRequest>, server: Server, k: nat, stage: Stage,
                           base: Files, inode: nat, content: Bytes)
    requires InterruptedFrom(f, requests, server, k, stage, base, inode, content)
    ensures Interrupted(f, requests, server, k, stage)
  {
  }

  lemma CompleteIsInterrupted(f: Files, requests: seq<DownloadRequest>, server: Server, k: nat)
    requires Complete(f, requests, server, k)
    ensures Interrupted(f, requests, server, k, Absent)
  {
    hide Complete;
    InterruptedWitness(f, requests, server, k, Absent, f, 0, []);
  }

  lemma BodyComesFromAValidRequest(server: Server, request: DownloadRequest)
    requires Body(server, request).Some?
    ensures SafeFilename(request.filename) && request.maximumBytes > 0
  {
  }

  /** What the staging demands of the next file comes down to the request. */
  lemma NextIsAdmitted(staging: FixtureAcquisitionStaging, requests: seq<DownloadRequest>, server: Server, k: nat)
    requires Complete(staging.dir.files, requests, server, k) && Distinct(requests) && k < |requests|
    requires Body(server, requests[k]).Some?
    ensures staging.Admits(requests[k].filename, requests[k].maximumBytes)
            ==> k < MAX_FILES && requests[k].maximumBytes <= MAX_AGGREGATE_BYTES
    ensures && k < MAX_FILES && requests[k].maximumBytes <= MAX_AGGREGATE_BYTES
            && TotalBytes(requests, server, k + 1) <= AUTHORIZED_AGGREGATE
            ==> && staging.Admits(requests[k].filename, requests[k].maximumBytes)
                && Scanned(staging.dir.files) + |Body(server, requests[k]).value| <= AUTHORIZED_AGGREGATE
  {
    hide Body, SafeFilename;
    BodyComesFromAValidRequest(server, requests[k]);
    NextNameIsFree(staging.dir.files, requests, server, k);
    CompleteSizes(staging.dir.files, requests, server, k);
    assert forall name | name in staging.dir.files.names :: SafeEntry(staging.dir.files, name);
  }

  /** One turn of the loop: the next request, from a directory holding the first `k` files. */
  method AcquireNext(requests: seq<DownloadRequest>, server: Server, staging: FixtureAcquisitionStaging, k: nat)
      returns (outcome: Outcome, received: nat, ghost done: nat, ghost stage: Stage)
    requires Distinct(requests) && k < |requests| && Complete(staging.dir.files, requests, server, k)
    modifies staging.dir
    ensures k <= done <= |requests| && Interrupted(staging.dir.files, requests, server, done, stage)
    ensures outcome == Done ==>
              && done == k + 1 && Complete(staging.dir.files, requests, server, k + 1)
              && received == TotalBytes(requests, server, k + 1) - TotalBytes(requests, server, k)
    ensures staging.dir.reliable && outcome == Done ==> Obtainable(requests, server, k)
    ensures && staging.dir.reliable && Obtainable(requests, server, k)
            && TotalBytes(requests, server, k + 1) <= AUTHORIZED_AGGREGATE
            ==> outcome == Done
  {
    hide Body, Complete, AtStage, Distinct, TotalBytes, Deliverable, EndsWithPartial, Acquired;
    ghost var base := staging.dir.files;
    CompleteIsConsistent(base, requests, server, k);
    NextNameIsFree(base, requests, server, k);
    if Body(server, requests[k]).Some? {
      NextIsAdmitted(staging, requests, server, k);
    }
    BodyIsDeliverable(server, requests[k]);
    var acquired, disagreed;
    ghost var inode, content;
    outcome, acquired, disagreed, inode, content, stage :=
      AcquireToFixture(requests[k], server(requests[k].uri), staging);
    received := if outcome == Done then acquired.value.transfer.bytesReceived else 0;
    if stage == FinalOnly {
      PublishingCompletesTheNext(base, requests, server, k, inode, content);
      CompleteIsInterrupted(staging.dir.files, requests, server, k + 1);
      OneMoreBody(requests, server, k, content);
      done, stage := k + 1, Absent;
    } else {
      done := k;
      AbsentStage(base, requests[k].filename, inode, content);
      InterruptedWitness(staging.dir.files, requests, server, k, stage, base, inode, content);
    }
  }

  lemma CompleteIsConsistent(f: Files, requests: seq<DownloadRequest>, server: Server, k: nat)
    requires Complete(f, requests, server, k)
    ensures Consistent(f)
  {
  }

  lemma BodyIsDeliverable(server: Server, request: DownloadRequest)
    ensures Body(server, request) == Deliverable(request, server(request.uri))
  {
    hide Deliverable;
  }

  lemma AbsentStage(base: Files, filename: string, inode: nat, content: Bytes)
    ensures AtStage(base, filename, inode, content, Absent) == base
  {
  }

  lemma OneMoreBody(requests: seq<DownloadRequest>, server: Server, k: nat, content: Bytes)
    requires k < |requests| && Body(server, requests[k]) == Some(content)
    ensures TotalBytes(requests, server, k + 1) == TotalBytes(requests, server, k) + |content|
  {
    hide Body;
  }

  /** `acquire_graphical_packages`, from the reserved and still empty directory. */
  method AcquireGraphicalPackages(requests: seq<DownloadRequest>, server: Server, staging: FixtureAcquisitionStaging)
      returns (outcome: Outcome, aggregate: nat, ghost done: nat, ghost stage: Stage)
    requires Distinct(requests) && staging.dir.files == Files(map[], map[])
    modifies staging.dir
    ensures done <= |requests| && Interrupted(staging.dir.files, requests, server, done, stage)
    ensures outcome == Done ==>
              && Complete(staging.dir.files, requests, server, |requests|)
              && aggregate == TotalBytes(requests, server, |requests|) <= AUTHORIZED_AGGREGATE
    ensures staging.dir.reliable ==> (outcome == Done <==> Sound(requests, server, 0))
  {
    hide Complete, Interrupted, TotalBytes, Distinct, Obtainable;
    EmptyIsComplete(requests, server);
    CompleteIsInterrupted(staging.dir.files, requests, server, 0);
    NothingIsZero(requests, server);
    aggregate, done, stage := 0, 0, Absent;
    for k := 0 to |requests|
      invariant Complete(staging.dir.files, requests, server, k)
      invariant Interrupted(staging.dir.files, requests, server, k, Absent)
      invariant aggregate == TotalBytes(requests, server, k) <= AUTHORIZED_AGGREGATE
      invariant staging.dir.reliable ==> forall j | 0 <= j < k :: Obtainable(requests, server, j)
    {
      TotalBytesGrows(requests, server, k + 1, |requests|);
      var received;
      outcome, received, done, stage := AcquireNext(requests, server, staging, k);
      if outcome != Done {
        return;
      }
      aggregate := aggregate + received;
      CompleteIsInterrupted(staging.dir.files, requests, server, k + 1);
      if aggregate > AUTHORIZED_AGGREGATE {
        return Raised, aggregate, k + 1, Absent;
      }
    }
    outcome, done, stage := Done, |requests|, Absent;
  }

  lemma EmptyIsComplete(requests: seq<DownloadRequest>, server: Server)
    ensures Complete(Files(map[], map[]), requests, server, 0)
  {
    assert Contents(Files(map[], map[])) == map[];
  }

  lemma NothingIsZero(requests: seq<DownloadRequest>, server: Server)
    ensures TotalBytes(requests, server, 0) == 0
  {
  }

  // ---------------------------------------------------------------- resumption

  predicate Expected(requests: seq<DownloadRequest>, name: string) {
    exists j | 0 <= j < |requests| :: requests[j].filename == FinalName(name)
  }

  /** What the scan of `resume` demands of one name. */
  predicate Resumable(requests: seq<DownloadRequest>, f: Files, name: string) {
    && name in f.names && f.names[name] in f.inodes
    && Expected(requests, name) && SafeEntry(f, name)
  }

  /** The scan: every entry expected and safe; the partials are collected. */
  method ScanEntries(requests: seq<DownloadRequest>, dir: Directory) returns (outcome: Outcome, partials: set<string>)
    requires Consistent(dir.files)
    ensures outcome == Done ==>
              && (forall name | name in dir.files.names :: Resumable(requests, dir.files, name))
              && (forall name | name in dir.files.names ::
                    var inode := dir.files.inodes[dir.files.names[name]];
                    && inode.regular && inode.trusted
                    && (exists j | 0 <= j < |requests| ::
                          name in {requests[j].filename, requests[j].filename + PARTIAL})
                    && (forall other | other in dir.files.names && other != name ::
                          dir.files.names[other] != dir.files.names[name]))
              && partials == Partials(dir.files)
    ensures dir.reliable && (forall name | name in dir.files.names :: Resumable(requests, dir.files, name))
            ==> outcome == Done
  {
    hide EndsWithPartial, SafeEntry, Expected, Consistent;
    partials := {};
    var unread := dir.files.names.Keys;
    while unread != {}
      invariant unread <= dir.files.names.Keys
      invariant forall name | name in dir.files.names && name !in unread :: Resumable(requests, dir.files, name)
      invariant partials == set name | name in dir.files.names && name !in unread && EndsWithPartial(name)
      decreases unread
    {
      var name :| name in unread;
      NamedInodeExists(dir.files, name);
      outcome := Fate(dir.reliable);
      if outcome != Done {
        return;
      }
      if !Resumable(requests, dir.files, name) {
        return Raised, partials;
      }
      if EndsWithPartial(name) {
        partials := partials + {name};
      }
      unread := unread - {name};
    }
    ResumableIsOwn(requests, dir.files);
    outcome := Done;
  }

  /** Every entry is a regular file of this user under its only name, which a request or its partial has. */
  lemma ResumableIsOwn(requests: seq<DownloadRequest>, f: Files)
    requires Consistent(f) && forall name | name in f.names :: Resumable(requests, f, name)
    ensures forall name | name in f.names ::
              && f.inodes[f.names[name]].regular && f.inodes[f.names[name]].trusted
              && (exists j | 0 <= j < |requests| ::
                    name in {requests[j].filename, requests[j].filename + PARTIAL})
              && (forall other | other in f.names && other != name :: f.names[other] != f.names[name])
  {
    hide EndsWithPartial;
    forall name | name in f.names
      ensures f.inodes[f.names[name]].regular && f.inodes[f.names[name]].trusted
      ensures exists j | 0 <= j < |requests| :: name in {requests[j].filename, requests[j].filename + PARTIAL}
      ensures forall other | other in f.names && other != name :: f.names[other] != f.names[name]
    {
      assert Resumable(requests, f, name);
      var j :| 0 <= j < |requests| && requests[j].filename == FinalName(name);
      NameAndSuffix(name);
      assert name in {requests[j].filename, requests[j].filename + PARTIAL};
    }
  }

  lemma NameAndSuffix(name: string)
    ensures name in {FinalName(name), FinalName(name) + PARTIAL}
  {
    if EndsWithPartial(name) {
      assert name == name[..|name| - |PARTIAL|] + PARTIAL;
    }
  }

  function Partials(f: Files): set<string> {
    set name | name in f.names && EndsWithPartial(name)
  }

  /** The directory once these names are gone, and every inode no longer named. */
  function Without(f: Files, gone: set<string>): Files {
    var names := f.names - gone;
    Files(names, map i | i in f.inodes && i in names.Values :: f.inodes[i])
  }

  lemma WithoutNothing(f: Files)
    requires Consistent(f)
    ensures Without(f, {}) == f
  {
    assert f.names - {} == f.names;
    forall i | i in f.inodes ensures i in f.names.Values {
      var name :| name in f.names && f.names[name] == i;
    }
  }

  lemma UnlinkingOneMore(f: Files, gone: set<string>, name: string)
    requires name in f.names && name !in gone
    ensures Unlink(Without(f, gone), name) == Without(f, gone + {name})
  {
    assert f.names - gone - {name} == f.names - (gone + {name});
    var names, rest := f.names - gone, f.names - (gone + {name});
    forall i | i in names.Values && i !in rest.Values ensures i == f.names[name] {
      var other :| other in names && names[other] == i;
      assert other !in rest;
    }
  }

  /** The removal loop: whatever stops it, only partials are gone. */
  method RemovePartials(dir: Directory, partials: set<string>) returns (outcome: Outcome, ghost removed: set<string>)
    requires Consistent(dir.files) && partials <= dir.files.names.Keys
    modifies dir
    ensures removed <= partials && dir.files == Without(old(dir.files), removed)
    ensures outcome == Done ==> removed == partials
    ensures dir.reliable ==> outcome == Done
  {
    hide Unlink;
    var left := partials;
    removed := {};
    ghost var before := dir.files;
    WithoutNothing(before);
    while left != {}
      invariant removed !! left && removed + left == partials
      invariant dir.files == Without(before, removed)
      decreases left
    {
      var name :| name in left;
      outcome := dir.Remove(name);
      if outcome != Done {
        return;
      }
      UnlinkingOneMore(before, removed, name);
      removed, left := removed + {name}, left - {name};
    }
    outcome := Done;
    if partials != {} {
      outcome := Fate(dir.reliable);
    }
  }

  /** `_validated_existing_bytes`. */
  method ValidatedExistingBytes(request: DownloadRequest, dir: Directory) returns (outcome: Outcome, size: nat)
    requires request.filename in dir.files.names && dir.files.names[request.filename] in dir.files.inodes
    ensures outcome == Done ==>
              var content := FileContent(dir.files, request.filename);
              && Validated(request, dir.files) && 0 < size == |content| <= request.maximumBytes
              && request.expectedBytes in {None, Some(size as int)}
              && request.expectedSha256 in {None, Some(Sha256(content))}
    ensures dir.reliable && Validated(request, dir.files) ==> outcome == Done
  {
    size := 0;
    outcome := Fate(dir.reliable);
    if outcome != Done {
      return;
    }
    var info := dir.files.inodes[dir.files.names[request.filename]];
    size := |info.content|;
    if !SafeEntry(dir.files, request.filename) || !(0 < size <= request.maximumBytes) {
      return Raised, size;
    }
    if request.expectedBytes.Some? && size != request.expectedBytes.value {
      return Raised, size;
    }
    if request.expectedSha256.Some? {
      outcome := Fate(dir.reliable);
      if outcome == Done && Sha256(info.content) != request.expectedSha256.value {
        outcome := Raised;
      }
    }
  }

  function FileContent(f: Files, name: string): Bytes
    requires name in f.names && f.names[name] in f.inodes
  {
    f.inodes[f.names[name]].content
  }

  predicate Validated(request: DownloadRequest, f: Files)
    requires request.filename in f.names && f.names[request.filename] in f.inodes
  {
    var content := FileContent(f, request.filename);
    && SafeEntry(f, request.filename)
    && 0 < |content| <= request.maximumBytes
    && (request.expectedBytes.Some? ==> request.expectedBytes.value == |content|)
    && (request.expectedSha256.Some? ==> request.expectedSha256.value == Sha256(content))
  }

  /** Between link and unlink the new inode has two names, so no scan accepts it. */
  lemma TwoNamesAreNotResumable(requests: seq<DownloadRequest>, base: Files, filename: string, inode: nat,
                                content: Bytes)
    ensures var both := AtStage(base, filename, inode, content, BothNames);
            filename in both.names && !Resumable(requests, both, filename)
  {
    PartialIsNotFinal(filename);
    var both := AtStage(base, filename, inode, content, BothNames);
    assert both.names[filename] == both.names[filename + PARTIAL] == inode;
  }

  lemma CompleteIsResumable(f: Files, requests: seq<DownloadRequest>, server: Server, k: nat)
    requires Complete(f, requests, server, k) && Distinct(requests)
    ensures forall name | name in f.names :: Resumable(requests, f, name)
    ensures Partials(f) == {}
  {
    hide Body, EndsWithPartial, SafeEntry, Contents;
    CompleteNames(f, requests, server, k);
    forall name | name in f.names ensures Resumable(requests, f, name) {
      NamedInodeExists(f, name);
    }
  }

  lemma PartialIsResumable(base: Files, requests: seq<DownloadRequest>, server: Server, k: nat, inode: nat,
                           content: Bytes)
    requires Complete(base, requests, server, k) && Distinct(requests) && k < |requests| && inode !in base.inodes
    ensures var f := AtStage(base, requests[k].filename, inode, content, PartialOnly);
            && (forall name | name in f.names :: Resumable(requests, f, name))
            && Partials(f) == {requests[k].filename + PARTIAL}
  {
    hide Body, EndsWithPartial, Contents, Distinct;
    CompleteIsResumable(base, requests, server, k);
    var added := requests[k].filename + PARTIAL;
    PartialNames(requests[k].filename);
    var f := AtStage(base, requests[k].filename, inode, content, PartialOnly);
    assert f.names == base.names[added := inode];
    forall name | name in f.names ensures Resumable(requests, f, name) {
      if name == added {
        assert requests[k].filename == FinalName(name);
        assert SafeEntry(f, name);
      } else {
        assert Resumable(requests, base, name) && SafeEntry(base, name);
      }
    }
    forall name ensures name in Partials(f) <==> name == added {
      assert name in base.names ==> name !in Partials(base) && !EndsWithPartial(name);
    }
  }

  /** What the scan finds and leaves after a crash at any stage. */
  lemma ScanAfterCrash(f: Files, requests: seq<DownloadRequest>, server: Server, k: nat, stage: Stage,
                       base: Files, inode: nat, content: Bytes)
    requires InterruptedFrom(f, requests, server, k, stage, base, inode, content) && Distinct(requests)
    ensures Consistent(f) && Complete(base, requests, server, k)
    ensures stage == BothNames <==> exists name :: name in f.names && !Resumable(requests, f, name)
    ensures stage == Absent ==> f == base && Partials(f) == {}
    ensures stage == PartialOnly ==>
              && Partials(f) == {requests[k].filename + PARTIAL} && Unlink(f, requests[k].filename + PARTIAL) == base
              && InterruptedFrom(base, requests, server, k, Absent, base, inode, content)
  {
    hide Body, Resumable, Unlink, SafeEntry, Partials, AtStage, Contents, Distinct;
    if stage == Absent {
      CompleteIsResumable(base, requests, server, k);
    } else {
      NextNameIsFree(base, requests, server, k);
      EveryStageIsConsistent(base, requests[k].filename, inode, content, stage);
      if stage == BothNames {
        TwoNamesAreNotResumable(requests, base, requests[k].filename, inode, content);
      } else {
        PartialIsResumable(base, requests, server, k, inode, content);
        RemovingThePartialUndoes(base, requests[k].filename, inode, content);
      }
    }
  }

  /** The scan and the removals of `resume`. */
  method ClearPartials(requests: seq<DownloadRequest>, server: Server, dir: Directory, ghost k: nat, ghost stage: Stage)
      returns (outcome: Outcome, ghost reached: Stage)
    requires Distinct(requests) && Interrupted(dir.files, requests, server, k, stage)
    modifies dir
    ensures Interrupted(dir.files, requests, server, k, reached)
    ensures stage == BothNames ==> outcome != Done && dir.files == old(dir.files)
    ensures outcome == Done ==> Complete(dir.files, requests, server, k)
    ensures dir.reliable && stage != BothNames ==> outcome == Done
  {
    hide Complete, Resumable, Unlink, Distinct, AtStage, Body, Without, Consistent;
    ghost var before := dir.files;
    ghost var base, inode, content :| InterruptedFrom(before, requests, server, k, stage, base, inode, content);
    ScanAfterCrash(before, requests, server, k, stage, base, inode, content);
    reached := stage;
    var partials;
    outcome, partials := ScanEntries(requests, dir);
    if outcome != Done {
      return;
    }
    WithoutNothing(before);
    ghost var removed;
    outcome, removed := RemovePartials(dir, partials);
    if removed != {} {
      assert removed == {requests[k].filename + PARTIAL};
      UnlinkingOneMore(before, {}, requests[k].filename + PARTIAL);
      assert {} + removed == removed;
      reached := Absent;
      InterruptedWitness(base, requests, server, k, Absent, base, inode, content);
    }
  }

  /** A file the acquisition completed passes the check on existing files, if it is not empty. */
  lemma CompletedFileValidates(f: Files, requests: seq<DownloadRequest>, server: Server, k: nat, i: nat)
    requires Complete(f, requests, server, k) && Distinct(requests) && i < k
    ensures requests[i].filename in f.names && f.names[requests[i].filename] in f.inodes
    ensures Body(server, requests[i]) == Some(FileContent(f, requests[i].filename))
    ensures Validated(requests[i], f) <==> Body(server, requests[i]).value != []
  {
    hide Distinct, SafeEntry, Contents, Deliverable, Stream, ContentLength;
    CompleteNames(f, requests, server, k);
    NamedInodeExists(f, requests[i].filename);
    BodyIsDeliverable(server, requests[i]);
    DeliverableIsExact(requests[i], server(requests[i].uri));
  }

  /**
   `resume_graphical_packages`, after an acquisition or an earlier resumption was stopped anywhere:
   between link and unlink it refuses and touches nothing; otherwise no completed file is lost, and
   success leaves exactly what an uninterrupted acquisition would have left, under the same total.
   */
  method ResumeGraphicalPackages(requests: seq<DownloadRequest>, server: Server, staging: FixtureAcquisitionStaging,
                                 ghost k: nat, ghost stage: Stage)
      returns (outcome: Outcome, aggregate: nat, ghost done: nat, ghost reached: Stage)
    requires Distinct(requests) && k <= |requests| && Interrupted(staging.dir.files, requests, server, k, stage)
    modifies staging.dir
    ensures k <= done <= |requests| && Interrupted(staging.dir.files, requests, server, done, reached)
    ensures stage == BothNames ==> outcome != Done && staging.dir.files == old(staging.dir.files)
    ensures outcome == Done ==>
              && Complete(staging.dir.files, requests, server, |requests|)
              && aggregate == TotalBytes(requests, server, |requests|) <= AUTHORIZED_AGGREGATE
    ensures staging.dir.reliable ==> (outcome == Done <==> stage != BothNames && Sound(requests, server, k))
  {
    hide Complete, Interrupted, TotalBytes, Distinct, Body, Validated, Obtainable;
    aggregate, done := 0, k;
    outcome, reached := ClearPartials(requests, server, staging.dir, k, stage);
    if outcome != Done {
      return;
    }
    CompleteIsInterrupted(staging.dir.files, requests, server, k);
    NothingIsZero(requests, server);
    reached := Absent;
    for i := 0 to |requests|
      invariant done == if i < k then k else i
      invariant Complete(staging.dir.files, requests, server, done)
      invariant Interrupted(staging.dir.files, requests, server, done, Absent) && reached == Absent
      invariant aggregate == TotalBytes(requests, server, i) <= AUTHORIZED_AGGREGATE
      invariant forall j | 0 <= j < i && j < k :: Body(server, requests[j]) != Some([])
      invariant staging.dir.reliable ==> forall j | k <= j < i :: Obtainable(requests, server, j)
    {
      var received;
      TotalBytesGrows(requests, server, i + 1, |requests|);
      FoundExactlyBelow(staging.dir.files, requests, server, done, i);
      if requests[i].filename in staging.dir.files.names {
        CompletedFileValidates(staging.dir.files, requests, server, done, i);
        outcome, received := ValidatedExistingBytes(requests[i], staging.dir);
        OneMoreBody(requests, server, i, FileContent(staging.dir.files, requests[i].filename));
      } else {
        outcome, received, done, reached := AcquireNext(requests, server, staging, i);
      }
      if outcome != Done {
        return;
      }
      CompleteIsInterrupted(staging.dir.files, requests, server, done);
      reached := Absent;
      aggregate := aggregate + received;
      if aggregate > AUTHORIZED_AGGREGATE {
        return Raised, aggregate, done, Absent;
      }
    }
    outcome := Done;
  }

  lemma FoundExactlyBelow(f: Files, requests: seq<DownloadRequest>, server: Server, k: nat, i: nat)
    requires Complete(f, requests, server, k) && Distinct(requests) && i < |requests|
    ensures requests[i].filename in f.names <==> i < k
  {
    CompleteNames(f, requests, server, k);
  }
}
