/**
 Acquisition of the fixed request list and its resumption after a crash
 (src/apx_graphical_acquisition.py), over a server that answers each URI the same way every time.
 */
module GraphicalAcquisition {
  import opened Common
  import opened Sums
  import opened Staging
  import opened StagingWriter
  import opened StagingArea
  import opened Downloader
  import opened Transfer

  const AUTHORIZED_AGGREGATE := 277_362_247

  type Server = Uri -> Result<Response>

  predicate EndsWithPartial(name: string) {
    |name| >= |PARTIAL| && name[|name| - |PARTIAL|..] == PARTIAL
  }

  /** `name.removesuffix(".partial")`. */
  function FinalName(name: string): string {
    if EndsWithPartial(name) then name[..|name| - |PARTIAL|] else name
  }

  /** The authorized list: distinct filenames, none of which looks like a partial. */
  predicate Distinct(requests: seq<DownloadRequest>) {
    && (forall i, j | 0 <= i < j < |requests| :: requests[i].filename != requests[j].filename)
    && (forall i | 0 <= i < |requests| :: !EndsWithPartial(requests[i].filename))
  }

  function Body(server: Server, request: DownloadRequest): Option<Bytes> {
    Deliverable(request, server(request.uri))
  }

  /** The files, by name, of the first `k` requests. */
  function Acquired(requests: seq<DownloadRequest>, server: Server, k: nat): map<string, Bytes>
    requires k <= |requests|
  {
    if k == 0 then map[]
    else
      var before := Acquired(requests, server, k - 1);
      var body := Body(server, requests[k - 1]);
      if body.Some? then before[requests[k - 1].filename := body.value] else before
  }

  function TotalBytes(requests: seq<DownloadRequest>, server: Server, k: nat): nat
    requires k <= |requests|
  {
    if k == 0 then 0
    else
      var body := Body(server, requests[k - 1]);
      TotalBytes(requests, server, k - 1) + if body.Some? then |body.value| else 0
  }

  /** The staging admits request `i` when it is reached, and the server has an acceptable body for it. */
  ghost predicate Obtainable(requests: seq<DownloadRequest>, server: Server, i: nat)
    requires i < |requests|
  {
    Body(server, requests[i]).Some? && i < MAX_FILES && requests[i].maximumBytes <= MAX_AGGREGATE_BYTES
  }

  /**
   All that completing the list takes once the first `k` files are there: those are not empty, the
   others are obtainable, and together they stay within the authorization.
   */
  ghost predicate Sound(requests: seq<DownloadRequest>, server: Server, k: nat)
    requires k <= |requests|
  {
    && (forall i | 0 <= i < k :: Body(server, requests[i]) != Some([]))
    && (forall i | k <= i < |requests| :: Obtainable(requests, server, i))
    && TotalBytes(requests, server, |requests|) <= AUTHORIZED_AGGREGATE
  }

  ghost function Contents(f: Files): map<string, Bytes>
    requires Consistent(f)
  {
    map name | name in f.names :: f.inodes[f.names[name]].content
  }

  /** `st_nlink == 1`. */
  predicate SingleLink(f: Files, name: string)
    requires name in f.names
  {
    forall other | other in f.names && f.names[other] == f.names[name] :: other == name
  }

  predicate SafeEntry(f: Files, name: string)
    requires name in f.names && f.names[name] in f.inodes
  {
    && f.inodes[f.names[name]].regular && f.inodes[f.names[name]].trusted
    && SingleLink(f, name)
  }

  /** Exactly the first `k` files, each complete and under one name. */
  ghost predicate Complete(f: Files, requests: seq<DownloadRequest>, server: Server, k: nat) {
    && k <= |requests|
    && Consistent(f)
    && (forall name | name in f.names :: SafeEntry(f, name))
    && (forall j | 0 <= j < k :: Body(server, requests[j]).Some?)
    && Contents(f) == Acquired(requests, server, k)
  }

  /** The first `k` files are complete and the next one got as far as `stage`. */
  ghost predicate Interrupted(f: Files, requests: seq<DownloadRequest>, server: Server, k: nat, stage: Stage) {
    exists base: Files, inode: nat, content: Bytes ::
      InterruptedFrom(f, requests, server, k, stage, base, inode, content)
  }

  ghost predicate InterruptedFrom(f: Files, requests: seq<DownloadRequest>, server: Server, k: nat, stage: Stage,
                                  base: Files, inode: nat, content: Bytes)
  {
    && Complete(base, requests, server, k)
    && stage != FinalOnly
    && if stage == Absent then f == base
       else
         && k < |requests| && inode !in base.inodes
         && f == AtStage(base, requests[k].filename, inode, content, stage)
         && (stage == BothNames ==> Body(server, requests[k]) == Some(content))
  }

  // ---------------------------------------------------------------- names

  lemma PartialNames(filename: string)
    ensures EndsWithPartial(filename + PARTIAL) && FinalName(filename + PARTIAL) == filename
  {
    var name := filename + PARTIAL;
    assert name[|name| - |PARTIAL|..] == PARTIAL;
    assert name[..|name| - |PARTIAL|] == filename;
  }

  lemma {:induction false} AcquiredNames(requests: seq<DownloadRequest>, server: Server, k: nat)
    requires k <= |requests| && Distinct(requests)
    requires forall j | 0 <= j < k :: Body(server, requests[j]).Some?
    ensures forall j | 0 <= j < |requests| ::
              && (requests[j].filename in Acquired(requests, server, k) <==> j < k)
              && (j < k ==> Acquired(requests, server, k)[requests[j].filename] == Body(server, requests[j]).value)
    ensures forall name | name in Acquired(requests, server, k) ::
              exists j :: 0 <= j < k && requests[j].filename == name
  {
    hide Body;
    if k == 0 {
    } else {
      AcquiredNames(requests, server, k - 1);
      assert requests[k - 1].filename in Acquired(requests, server, k);
    }
  }

  /** A complete directory holds the first `k` names, and none that looks like a partial. */
  lemma CompleteNames(f: Files, requests: seq<DownloadRequest>, server: Server, k: nat)
    requires Complete(f, requests, server, k) && Distinct(requests)
    ensures forall j | 0 <= j < |requests| :: requests[j].filename in f.names <==> j < k
    ensures forall j | 0 <= j < k ::
              f.inodes[f.names[requests[j].filename]].content == Body(server, requests[j]).value
    ensures forall name | name in f.names :: !EndsWithPartial(name)
    ensures forall name | name in f.names :: exists j :: 0 <= j < k && requests[j].filename == name
  {
    hide Body;
    AcquiredNames(requests, server, k);
    assert f.names.Keys == Contents(f).Keys;
    forall j | 0 <= j < k
      ensures f.inodes[f.names[requests[j].filename]].content == Body(server, requests[j]).value
    {
      assert Contents(f)[requests[j].filename] == Body(server, requests[j]).value;
    }
    forall name | name in f.names
      ensures !EndsWithPartial(name)
      ensures exists j :: 0 <= j < k && requests[j].filename == name
    {
      assert name in Acquired(requests, server, k);
    }
  }

  // ---------------------------------------------------------------- sizes

  ghost function ContentSizes(contents: map<string, Bytes>): map<string, nat> {
    map name | name in contents :: |contents[name]|
  }

  lemma SizesAfterInsert(contents: map<string, Bytes>, name: string, body: Bytes)
    requires name !in contents
    ensures Sum(ContentSizes(contents[name := body])) == Sum(ContentSizes(contents)) + |body|
    ensures |contents[name := body]| == |contents| + 1
  {
    assert ContentSizes(contents[name := body]) == ContentSizes(contents)[name := |body|];
    SumInsert(ContentSizes(contents), name, |body|);
    InsertAddsOneKey(contents, name, body);
  }

  lemma {:induction false} AcquiredSizes(requests: seq<DownloadRequest>, server: Server, k: nat)
    requires k <= |requests| && Distinct(requests)
    requires forall j | 0 <= j < k :: Body(server, requests[j]).Some?
    ensures Sum(ContentSizes(Acquired(requests, server, k))) == TotalBytes(requests, server, k)
    ensures |Acquired(requests, server, k)| == k
  {
    hide Body, ContentSizes;
    if k == 0 {
      NothingHasNoSize();
    } else {
      AcquiredSizes(requests, server, k - 1);
      AcquiredNames(requests, server, k - 1);
      var before := Acquired(requests, server, k - 1);
      assert requests[k - 1].filename !in before;
      SizesAfterInsert(before, requests[k - 1].filename, Body(server, requests[k - 1]).value);
    }
  }

  lemma NothingHasNoSize()
    ensures Sum(ContentSizes(map[])) == 0
  {
    assert ContentSizes(map[]) == map[];
  }

  lemma CompleteSizes(f: Files, requests: seq<DownloadRequest>, server: Server, k: nat)
    requires Complete(f, requests, server, k) && Distinct(requests)
    ensures Scanned(f) == TotalBytes(requests, server, k) && |f.names| == k
  {
    hide Body;
    AcquiredSizes(requests, server, k);
    assert NameSizes(f) == ContentSizes(Contents(f));
    assert f.names.Keys == Contents(f).Keys;
  }

  lemma {:induction false} TotalBytesGrows(requests: seq<DownloadRequest>, server: Server, i: nat, k: nat)
    requires i <= k <= |requests|
    ensures TotalBytes(requests, server, i) <= TotalBytes(requests, server, k)
    decreases k - i
  {
    hide Body;
    if i == k {
    } else {
      TotalBytesGrows(requests, server, i + 1, k);
    }
  }

  // ---------------------------------------------------------------- publishing and undoing

  /** Publishing adds one name and one inode. */
  lemma FinalStage(base: Files, filename: string, inode: nat, content: Bytes)
    requires Consistent(base) && inode !in base.inodes
    requires filename !in base.names && filename + PARTIAL !in base.names
    ensures AtStage(base, filename, inode, content, FinalOnly)
            == Files(base.names[filename := inode], base.inodes[inode := Inode(true, true, content)])
    ensures Consistent(AtStage(base, filename, inode, content, FinalOnly))
  {
    hide Consistent;
    PartialIsNotFinal(filename);
    EveryStageIsConsistent(base, filename, inode, content, FinalOnly);
    var both := AtStage(base, filename, inode, content, BothNames);
    UnlinkingTheSecondNameKeepsInodes(both, filename + PARTIAL, filename);
    assert [] + content == content;
    assert both.names - {filename + PARTIAL} == base.names[filename := inode];
  }

  /** A new trusted file under a new name and inode leaves every entry safe. */
  lemma NewFileIsSafe(base: Files, after: Files, filename: string, inode: nat, content: Bytes)
    requires Consistent(base) && forall name | name in base.names :: SafeEntry(base, name)
    requires filename !in base.names && inode !in base.inodes
    requires after == Files(base.names[filename := inode], base.inodes[inode := Inode(true, true, content)])
    requires Consistent(after)
    ensures forall name | name in after.names :: SafeEntry(after, name)
    ensures Contents(after) == Contents(base)[filename := content]
  {
    forall name | name in after.names ensures SafeEntry(after, name) {
      assert name != filename ==> SafeEntry(base, name);
    }
  }

  lemma NextNameIsFree(f: Files, requests: seq<DownloadRequest>, server: Server, k: nat)
    requires Complete(f, requests, server, k) && Distinct(requests) && k < |requests|
    ensures requests[k].filename !in f.names && requests[k].filename + PARTIAL !in f.names
  {
    CompleteNames(f, requests, server, k);
    PartialNames(requests[k].filename);
  }

  lemma PublishingCompletesTheNext(
      base: Files, requests: seq<DownloadRequest>, server: Server, k: nat, inode: nat, content: Bytes)
    requires Complete(base, requests, server, k) && Distinct(requests) && k < |requests|
    requires inode !in base.inodes && Body(server, requests[k]) == Some(content)
    ensures Complete(AtStage(base, requests[k].filename, inode, content, FinalOnly), requests, server, k + 1)
  {
    hide Body, AtStage, Consistent, SafeEntry, EndsWithPartial, Contents, Distinct;
    NextNameIsFree(base, requests, server, k);
    FinalStage(base, requests[k].filename, inode, content);
    NewFileIsSafe(base, AtStage(base, requests[k].filename, inode, content, FinalOnly), requests[k].filename, inode,
                  content);
  }

  lemma RemovingThePartialUndoes(base: Files, filename: string, inode: nat, content: Bytes)
    requires Consistent(base) && inode !in base.inodes && filename + PARTIAL !in base.names
    ensures Unlink(AtStage(base, filename, inode, content, PartialOnly), filename + PARTIAL) == base
  {
    var partial := AtStage(base, filename, inode, content, PartialOnly);
    assert partial.names - {filename + PARTIAL} == base.names;
    assert partial.inodes - {inode} == base.inodes;
    assert inode !in base.names.Values;
  }
}
