/**
 The journal file of one operation (`FixtureJournalStore` in src/apx_executor_journal.py) under any
 number of interleaved processes. Writers hold the directory's lock; readers hold none; a process may
 raise or be killed at any step. `history` and `published` only record what was published.
 */
module ExecutorStore {
  import opened Common
  import opened ExecutorJournal
  import opened ExecutorRuns

  const MAX_JOURNAL_BYTES := 64 * 1024
  const CHUNK := 8192

  /** JSON with UTF-8, both ways. */
  datatype Codec = Codec(encode: Journal -> Bytes, decode: Bytes -> Option<Journal>)

  ghost predicate Faithful(codec: Codec) {
    forall j | Valid(j) :: codec.decode(codec.encode(j)) == Some(j)
  }

  /** `parse_journal`. */
  function Parse(codec: Codec, content: Bytes): Option<Journal> {
    if |content| > MAX_JOURNAL_BYTES then None
    else
      var decoded := codec.decode(content);
      if decoded.Some? && Valid(decoded.value) then decoded else None
  }

  predicate Readable(codec: Codec, j: Journal) {
    |codec.encode(j)| <= MAX_JOURNAL_BYTES
  }

  datatype Request = CreateFile(journal: Journal) | UpdateFile(journal: Journal, expected: Digest)

  /** Where a process is. From Locked to Cleaning a writer holds the lock. */
  datatype Process =
    | Idle
    | Waiting(request: Request)
    | Locked(request: Request)
    | Comparing(request: Request, inode: nat, got: Bytes)
    | Opening(request: Request)
    | Writing(request: Request, inode: nat, landed: nat)
    | Publishing(request: Request, inode: nat)
    | Cleaning(request: Request)
    | Reading(inode: nat, got: Bytes)
    | Seen(result: Option<Journal>, version: nat)

  datatype State = State(
    final: Option<nat>, temps: map<nat, nat>, inodes: map<nat, Bytes>, lock: Option<nat>,
    processes: map<nat, Process>, history: seq<Journal>, published: map<nat, nat>)

  const INITIAL := State(None, map[], map[], None, map[], [], map[])

  datatype Step =
    | Ask(pid: nat, request: Request)
    | StartReading(pid: nat)
    | Acquire(pid: nat)
    | Proceed(pid: nat)
    | ReadChunk(pid: nat, n: nat)
    | OpenTemporary(pid: nat, inode: nat)
    | WriteChunk(pid: nat, n: nat)
    | Sync(pid: nat)
    | Publish(pid: nat)
    | CleanUp(pid: nat)
    | Stop(pid: nat, cleans: bool)

  function At(s: State, pid: nat): Process {
    if pid in s.processes then s.processes[pid] else Idle
  }

  function Move(s: State, pid: nat, process: Process): State {
    s.(processes := s.processes[pid := process])
  }

  /** The writer closes the directory, and with it releases the lock. */
  function Leave(s: State, pid: nat): State {
    Move(s.(lock := if s.lock == Some(pid) then None else s.lock), pid, Idle)
  }

  /** What `create` and `update` check before they open anything. */
  predicate Proper(operation: string, request: Request) {
    && Valid(request.journal)
    && request.journal.body.operationId == operation
    && (request.UpdateFile? ==> request.journal.body.previous == Some(request.expected))
  }

  function Min(a: nat, b: nat): nat {
    if a < b then a else b
  }

  /** One `os.read`: nothing only at the end of the file. */
  function Received(content: Bytes, got: Bytes, n: nat): Bytes
    requires |got| <= |content|
  {
    content[..|got| + Min(n, |content| - |got|)]
  }

  /** The comparison of `update`, once the current file was read. */
  function Compared(codec: Codec, s: State, pid: nat, request: Request, content: Bytes): State {
    var current := Parse(codec, content);
    if request.UpdateFile? && current.Some? && current.value.digest == request.expected
    then Move(s, pid, Opening(request))
    else Leave(s, pid)
  }

  function MoreRead(s: State, pid: nat, process: Process, got: Bytes): State
    requires process.Comparing? || process.Reading?
  {
    Move(s, pid, if process.Comparing? then Comparing(process.request, process.inode, got)
         else Reading(process.inode, got))
  }

  /** At the end of the file, or past the limit. */
  function EndRead(codec: Codec, s: State, pid: nat, process: Process, got: Bytes): State
    requires process.Comparing? || process.Reading?
  {
    if process.Comparing? then Compared(codec, s, pid, process.request, got)
    else if process.inode in s.published then Move(s, pid, Seen(Parse(codec, got), s.published[process.inode]))
    else s
  }

  /** One step; a step a process is not ready for changes nothing. */
  function Perform(codec: Codec, operation: string, s: State, step: Step): State {
    var process := At(s, step.pid);
    match step
    case Ask(pid, request) =>
      if (process.Idle? || process.Seen?) && Proper(operation, request) then Move(s, pid, Waiting(request)) else s
    case StartReading(pid) =>
      if (process.Idle? || process.Seen?) && s.final.Some? then Move(s, pid, Reading(s.final.value, [])) else s
    case Acquire(pid) =>
      if process.Waiting? && s.lock.None? then Move(s.(lock := Some(pid)), pid, Locked(process.request)) else s
    case Proceed(pid) =>
      if !process.Locked? then s
      else if process.request.CreateFile? then Move(s, pid, Opening(process.request))
      else if s.final.Some? then Move(s, pid, Comparing(process.request, s.final.value, []))
      else Leave(s, pid)
    case ReadChunk(pid, n) =>
      if (process.Comparing? || process.Reading?) && process.inode in s.inodes
         && |process.got| <= |s.inodes[process.inode]|
         && 0 < n <= CHUNK && |process.got| + n <= MAX_JOURNAL_BYTES + 1
      then
        var got := Received(s.inodes[process.inode], process.got, n);
        if |got| <= MAX_JOURNAL_BYTES && got != process.got then MoreRead(s, pid, process, got)
        else EndRead(codec, s, pid, process, got)
      else s
    case OpenTemporary(pid, inode) =>
      if !process.Opening? || inode in s.inodes then s
      else if pid in s.temps then Leave(s, pid)
      else Move(s.(temps := s.temps[pid := inode], inodes := s.inodes[inode := []]), pid,
                Writing(process.request, inode, 0))
    case WriteChunk(pid, n) =>
      if process.Writing? && process.landed + n <= |codec.encode(process.request.journal)| then
        var content := codec.encode(process.request.journal)[..process.landed + n];
        Move(s.(inodes := s.inodes[process.inode := content]), pid, process.(landed := process.landed + n))
      else s
    case Sync(pid) =>
      if process.Writing? && process.landed == |codec.encode(process.request.journal)|
      then Move(s, pid, Publishing(process.request, process.inode)) else s
    case Publish(pid) =>
      if !process.Publishing? then s
      else if process.request.CreateFile? && s.final.Some? then Move(s, pid, Cleaning(process.request))
      else
        Move(s.(final := Some(process.inode),
                temps := if process.request.UpdateFile? then s.temps - {pid} else s.temps,
                published := s.published[process.inode := |s.history|],
                history := s.history + [process.request.journal]),
             pid, Cleaning(process.request))
    case CleanUp(pid) =>
      if process.Cleaning? then Leave(s.(temps := s.temps - {pid}), pid) else s
    case Stop(pid, cleans) =>
      if cleans && (process.Writing? || process.Publishing? || process.Cleaning?)
      then Leave(s.(temps := s.temps - {pid}), pid)
      else Leave(s, pid)
  }

  function RunSteps(codec: Codec, operation: string, s: State, steps: seq<Step>): State {
    if steps == [] then s
    else Perform(codec, operation, RunSteps(codec, operation, s, steps[..|steps| - 1]), steps[|steps| - 1])
  }

  // ---------------------------------------------------------------- the atomic store

  /** The store as one would describe it without files, locks or crashes. */
  predicate Accepts(codec: Codec, operation: string, history: seq<Journal>, request: Request) {
    && Proper(operation, request)
    && match request
       case CreateFile(_) => history == []
       case UpdateFile(_, expected) =>
         && history != []
         && history[|history| - 1].digest == expected
         && Readable(codec, history[|history| - 1])
  }

  // ---------------------------------------------------------------- what every step keeps

  predicate HoldsLock(process: Process) {
    || process.Locked? || process.Comparing? || process.Opening?
    || process.Writing? || process.Publishing? || process.Cleaning?
  }

  /** Every inode ever published holds one whole version, and the final name the newest. */
  ghost predicate FilesSound(codec: Codec, s: State) {
    && (s.history == [] <==> s.final.None?)
    && (s.final.Some? ==> s.final.value in s.published && s.published[s.final.value] == |s.history| - 1)
    && (forall i | i in s.published ::
          i in s.inodes && s.published[i] < |s.history| && s.inodes[i] == codec.encode(s.history[s.published[i]]))
  }

  /** The comparison has succeeded and still holds. */
  predicate MayPublish(codec: Codec, s: State, request: Request) {
    request.UpdateFile? ==>
      && s.history != [] && s.history[|s.history| - 1].digest == request.expected
      && Readable(codec, s.history[|s.history| - 1])
  }

  ghost predicate ProcessSound(codec: Codec, operation: string, s: State, pid: nat) {
    var process := At(s, pid);
    && (HoldsLock(process) ==> s.lock == Some(pid))
    && (HoldsLock(process) || process.Waiting? ==> Proper(operation, process.request))
    && match process
       case Comparing(request, inode, got) => s.final == Some(inode) && inode in s.inodes && got <= s.inodes[inode]
       case Opening(request) => MayPublish(codec, s, request)
       case Writing(request, inode, landed) =>
         && MayPublish(codec, s, request) && inode in s.inodes && inode !in s.published
         && landed <= |codec.encode(request.journal)| && s.inodes[inode] == codec.encode(request.journal)[..landed]
       case Publishing(request, inode) =>
         && MayPublish(codec, s, request) && inode in s.inodes && inode !in s.published
         && s.inodes[inode] == codec.encode(request.journal)
       case Reading(inode, got) => inode in s.published && inode in s.inodes && got <= s.inodes[inode]
       case Seen(result, version) =>
         && version < |s.history|
         && result == if Readable(codec, s.history[version]) then Some(s.history[version]) else None
       case _ => true
  }

  ghost predicate Sound(codec: Codec, operation: string, s: State) {
    && FilesSound(codec, s)
    && (forall pid :: ProcessSound(codec, operation, s, pid))
    && ChainedFrom(operation, s.history)
  }

  /** Each version after the first names the digest of the one before. */
  predicate ChainedFrom(operation: string, history: seq<Journal>) {
    forall i | 0 <= i < |history| :: LinkAt(operation, history, i)
  }

  predicate LinkAt(operation: string, history: seq<Journal>, i: nat)
    requires i < |history|
  {
    && Valid(history[i]) && history[i].body.operationId == operation
    && (i > 0 ==> history[i].body.previous == Some(history[i - 1].digest))
  }

  /** A step of one process that leaves files and history alone keeps what the others rely on. */
  lemma OthersStaySound(codec: Codec, operation: string, s: State, t: State, pid: nat)
    requires Sound(codec, operation, s)
    requires t.final == s.final && t.inodes == s.inodes && t.history == s.history && t.published == s.published
    requires forall other | other != pid :: At(t, other) == At(s, other)
    requires t.lock == s.lock || ((s.lock.None? || s.lock == Some(pid)) && (t.lock.None? || t.lock == Some(pid)))
    requires ProcessSound(codec, operation, t, pid)
    ensures Sound(codec, operation, t)
  {
    hide FilesSound, ChainedFrom, Proper, Readable;
    assert FilesSound(codec, t) by {
      FilesSoundAgain(codec, s, t);
    }
    forall other ensures ProcessSound(codec, operation, t, other) {
      assert ProcessSound(codec, operation, s, other);
    }
  }

  lemma FilesSoundAgain(codec: Codec, s: State, t: State)
    requires FilesSound(codec, s)
    requires t.final == s.final && t.inodes == s.inodes && t.history == s.history && t.published == s.published
    ensures FilesSound(codec, t)
  {
  }

  // ---------------------------------------------------------------- step by step

  lemma ParseOfVersion(codec: Codec, j: Journal)
    requires Faithful(codec) && Valid(j)
    ensures Parse(codec, codec.encode(j)) == if Readable(codec, j) then Some(j) else None
  {
  }

  /** What is read is a growing prefix; at the end it is the whole file or too long a part of one. */
  lemma ReadingGrows(content: Bytes, got: Bytes, n: nat)
    requires got <= content && n > 0
    ensures got <= Received(content, got, n) <= content
    ensures Received(content, got, n) == got ==> got == content
    ensures |Received(content, got, n)| <= |got| + n
  {
    assert Received(content, got, n)[..|got|] == content[..|got|];
  }

  /** A truncated read past the limit parses like the whole file: not at all. */
  lemma EndOfReading(codec: Codec, s: State, inode: nat, got: Bytes)
    requires Faithful(codec) && FilesSound(codec, s) && inode in s.published && inode in s.inodes
    requires forall j | j in s.history :: Valid(j)
    requires got <= s.inodes[inode] && (got == s.inodes[inode] || |got| > MAX_JOURNAL_BYTES)
    ensures s.published[inode] < |s.history|
    ensures Parse(codec, got)
            == if Readable(codec, s.history[s.published[inode]]) then Some(s.history[s.published[inode]]) else None
  {
    hide Valid;
    ParseOfVersion(codec, s.history[s.published[inode]]);
  }

  lemma HistoryIsValid(operation: string, history: seq<Journal>)
    requires ChainedFrom(operation, history)
    ensures forall j | j in history :: Valid(j)
  {
    hide Valid;
    forall j | j in history ensures Valid(j) {
      var i :| 0 <= i < |history| && history[i] == j;
      assert LinkAt(operation, history, i);
    }
  }

  lemma MoreReadKeepsSound(codec: Codec, operation: string, s: State, pid: nat, got: Bytes)
    requires Sound(codec, operation, s) && (At(s, pid).Comparing? || At(s, pid).Reading?)
    requires At(s, pid).inode in s.inodes && got <= s.inodes[At(s, pid).inode]
    ensures Sound(codec, operation, MoreRead(s, pid, At(s, pid), got))
  {
    hide Valid, Proper, FilesSound, ChainedFrom;
    assert ProcessSound(codec, operation, s, pid);
    OthersStaySound(codec, operation, s, MoreRead(s, pid, At(s, pid), got), pid);
  }

  lemma EndReadKeepsSound(codec: Codec, operation: string, s: State, pid: nat, got: Bytes)
    requires Faithful(codec) && Sound(codec, operation, s) && (At(s, pid).Comparing? || At(s, pid).Reading?)
    requires At(s, pid).inode in s.inodes && got <= s.inodes[At(s, pid).inode]
    requires got == s.inodes[At(s, pid).inode] || |got| > MAX_JOURNAL_BYTES
    ensures Sound(codec, operation, EndRead(codec, s, pid, At(s, pid), got))
  {
    hide Valid, Proper, ChainedFrom, Parse, Readable;
    var process, t := At(s, pid), EndRead(codec, s, pid, At(s, pid), got);
    assert ProcessSound(codec, operation, s, pid);
    HistoryIsValid(operation, s.history);
    assert process.inode in s.published;
    EndOfReading(codec, s, process.inode, got);
    hide FilesSound;
    OthersStaySound(codec, operation, s, t, pid);
  }

  lemma ReadChunkKeepsSound(codec: Codec, operation: string, s: State, pid: nat, n: nat)
    requires Faithful(codec) && Sound(codec, operation, s)
    ensures Sound(codec, operation, Perform(codec, operation, s, ReadChunk(pid, n)))
  {
    hide FilesSound, ChainedFrom, Received, MoreRead, EndRead, Proper, Readable, HoldsLock;
    var process := At(s, pid);
    assert ProcessSound(codec, operation, s, pid);
    if (process.Comparing? || process.Reading?) && process.inode in s.inodes && n > 0 {
      ReadingGrows(s.inodes[process.inode], process.got, n);
      var got := Received(s.inodes[process.inode], process.got, n);
      if |got| <= MAX_JOURNAL_BYTES && got != process.got {
        MoreReadKeepsSound(codec, operation, s, pid, got);
      } else {
        EndReadKeepsSound(codec, operation, s, pid, got);
      }
    }
  }

  /** Asking, locking and opening. */
  lemma EnteringKeepsSound(codec: Codec, operation: string, s: State, step: Step)
    requires Sound(codec, operation, s)
    requires step.Ask? || step.StartReading? || step.Acquire? || step.Proceed?
    ensures Sound(codec, operation, Perform(codec, operation, s, step))
  {
    hide Valid, Proper, Readable, ChainedFrom;
    var t := Perform(codec, operation, s, step);
    assert ProcessSound(codec, operation, s, step.pid);
    if t != s {
      hide FilesSound;
      OthersStaySound(codec, operation, s, t, step.pid);
    }
  }

  /** Leaving, after publishing or without. */
  lemma LeavingKeepsSound(codec: Codec, operation: string, s: State, step: Step)
    requires Sound(codec, operation, s)
    requires step.CleanUp? || step.Stop?
    ensures Sound(codec, operation, Perform(codec, operation, s, step))
  {
    hide Valid, Proper, Readable, ChainedFrom, FilesSound;
    var t := Perform(codec, operation, s, step);
    assert ProcessSound(codec, operation, s, step.pid);
    if t != s {
      OthersStaySound(codec, operation, s, t, step.pid);
    }
  }

  /** A step that adds or fills an inode nobody else holds. */
  lemma PrivateInodeKeepsSound(codec: Codec, operation: string, s: State, t: State, pid: nat, inode: nat,
                               content: Bytes)
    requires Sound(codec, operation, s) && s.lock == Some(pid) && inode !in s.published
    requires t.final == s.final && t.history == s.history && t.published == s.published && t.lock == s.lock
    requires t.inodes == s.inodes[inode := content]
    requires forall other | other != pid :: At(t, other) == At(s, other)
    requires ProcessSound(codec, operation, t, pid)
    ensures Sound(codec, operation, t)
  {
    hide ChainedFrom, Proper, Readable;
    forall other ensures ProcessSound(codec, operation, t, other) {
      assert ProcessSound(codec, operation, s, other);
    }
  }

  lemma WritingKeepsSound(codec: Codec, operation: string, s: State, step: Step)
    requires Sound(codec, operation, s) && (step.OpenTemporary? || step.WriteChunk? || step.Sync?)
    ensures Sound(codec, operation, Perform(codec, operation, s, step))
  {
    hide Valid, Proper, Readable, LinkAt, ChainedFrom;
    var t := Perform(codec, operation, s, step);
    assert ProcessSound(codec, operation, s, step.pid);
    if t != s {
      if At(t, step.pid).Writing? {
        var inode := At(t, step.pid).inode;
        PrivateInodeKeepsSound(codec, operation, s, t, step.pid, inode, t.inodes[inode]);
      } else {
        OthersStaySound(codec, operation, s, t, step.pid);
      }
    }
  }

  /** The one step that changes the history does what the atomic store would do. */
  lemma PublishIsAtomic(codec: Codec, operation: string, s: State, pid: nat)
    requires Sound(codec, operation, s)
    ensures var t := Perform(codec, operation, s, Publish(pid));
            || t.history == s.history
            || (&& At(s, pid).Publishing? && Accepts(codec, operation, s.history, At(s, pid).request)
                && t.history == s.history + [At(s, pid).request.journal])
  {
    hide Proper, Readable, ChainedFrom;
    assert ProcessSound(codec, operation, s, pid);
  }

  lemma PublishKeepsFiles(codec: Codec, operation: string, s: State, pid: nat)
    requires Sound(codec, operation, s)
    ensures FilesSound(codec, Perform(codec, operation, s, Publish(pid)))
  {
    hide Proper, Readable, ChainedFrom;
    assert ProcessSound(codec, operation, s, pid);
  }

  lemma PublishKeepsChain(codec: Codec, operation: string, s: State, pid: nat)
    requires Sound(codec, operation, s)
    ensures ChainedFrom(operation, Perform(codec, operation, s, Publish(pid)).history)
  {
    hide Valid, Readable, FilesSound;
    assert ProcessSound(codec, operation, s, pid);
    var before, after := s.history, Perform(codec, operation, s, Publish(pid)).history;
    if after != before {
      PublishIsAtomic(codec, operation, s, pid);
      var next := At(s, pid).request.journal;
      forall i | 0 <= i < |after| ensures LinkAt(operation, after, i) {
        if i < |before| {
          assert LinkAt(operation, before, i);
        }
      }
    }
  }

  lemma PublishKeepsSound(codec: Codec, operation: string, s: State, pid: nat)
    requires Sound(codec, operation, s)
    ensures Sound(codec, operation, Perform(codec, operation, s, Publish(pid)))
  {
    hide Proper, Readable, FilesSound, ChainedFrom;
    PublishKeepsFiles(codec, operation, s, pid);
    PublishKeepsChain(codec, operation, s, pid);
    var t := Perform(codec, operation, s, Publish(pid));
    assert ProcessSound(codec, operation, s, pid);
    forall other ensures ProcessSound(codec, operation, t, other) {
      assert ProcessSound(codec, operation, s, other);
      assert t.history == s.history || t.history[..|s.history|] == s.history;
    }
  }

  lemma StepKeepsSound(codec: Codec, operation: string, s: State, step: Step)
    requires Faithful(codec) && Sound(codec, operation, s)
    ensures Sound(codec, operation, Perform(codec, operation, s, step))
  {
    hide Sound, Perform, Faithful;
    match step
    case ReadChunk(pid, n) => ReadChunkKeepsSound(codec, operation, s, pid, n);
    case OpenTemporary(_, _) => WritingKeepsSound(codec, operation, s, step);
    case WriteChunk(_, _) => WritingKeepsSound(codec, operation, s, step);
    case Sync(_) => WritingKeepsSound(codec, operation, s, step);
    case Publish(pid) => PublishKeepsSound(codec, operation, s, pid);
    case Ask(_, _) => EnteringKeepsSound(codec, operation, s, step);
    case StartReading(_) => EnteringKeepsSound(codec, operation, s, step);
    case Acquire(_) => EnteringKeepsSound(codec, operation, s, step);
    case Proceed(_) => EnteringKeepsSound(codec, operation, s, step);
    case _ => LeavingKeepsSound(codec, operation, s, step);
  }

  lemma {:induction false} RunKeepsSound(codec: Codec, operation: string, steps: seq<Step>)
    requires Faithful(codec)
    ensures Sound(codec, operation, RunSteps(codec, operation, INITIAL, steps))
    decreases |steps|
  {
    if steps == [] {
    } else {
      hide Sound, Perform, Faithful;
      RunKeepsSound(codec, operation, steps[..|steps| - 1]);
      StepKeepsSound(codec, operation, RunSteps(codec, operation, INITIAL, steps[..|steps| - 1]), steps[|steps| - 1]);
    }
  }

  // ---------------------------------------------------------------- what readers see

  /** A finished reader holds one version, whole; it can only be refused for that version's size. */
  lemma ReadersSeeOneVersion(codec: Codec, operation: string, steps: seq<Step>, pid: nat)
    requires Faithful(codec)
    ensures var s := RunSteps(codec, operation, INITIAL, steps);
            At(s, pid).Seen? ==>
              && At(s, pid).version < |s.history|
              && At(s, pid).result == if Readable(codec, s.history[At(s, pid).version])
                                      then Some(s.history[At(s, pid).version]) else None
  {
    hide FilesSound, ChainedFrom, Readable, Perform;
    RunKeepsSound(codec, operation, steps);
    assert ProcessSound(codec, operation, RunSteps(codec, operation, INITIAL, steps), pid);
  }

  lemma OnlyPublishingChangesHistory(codec: Codec, operation: string, s: State, step: Step)
    requires !step.Publish?
    ensures Perform(codec, operation, s, step).history == s.history
  {
    hide Proper, Parse;
  }

  /** Any step of any process either leaves the history alone or is one accepted atomic request. */
  lemma EveryStepIsAtomic(codec: Codec, operation: string, steps: seq<Step>, step: Step)
    requires Faithful(codec)
    ensures var s := RunSteps(codec, operation, INITIAL, steps);
            var t := Perform(codec, operation, s, step);
            || t.history == s.history
            || (&& step.Publish? && At(s, step.pid).Publishing?
                && Accepts(codec, operation, s.history, At(s, step.pid).request)
                && t.history == s.history + [At(s, step.pid).request.journal])
  {
    RunKeepsSound(codec, operation, steps);
    hide RunSteps, Faithful, Sound, Accepts, Perform;
    if step.Publish? {
      PublishIsAtomic(codec, operation, RunSteps(codec, operation, INITIAL, steps), step.pid);
    } else {
      OnlyPublishingChangesHistory(codec, operation, RunSteps(codec, operation, INITIAL, steps), step);
    }
  }

  /** The version a reader starts on is the newest published one, and nothing it reads changes under it. */
  lemma ReadersStartOnTheNewest(codec: Codec, operation: string, steps: seq<Step>, pid: nat)
    requires Faithful(codec)
    ensures var s := RunSteps(codec, operation, INITIAL, steps);
            var t := Perform(codec, operation, s, StartReading(pid));
            (At(s, pid).Idle? || At(s, pid).Seen?) && s.history != [] ==>
              && At(t, pid).Reading? && At(t, pid).inode in t.published
              && t.published[At(t, pid).inode] == |s.history| - 1
  {
    RunKeepsSound(codec, operation, steps);
  }

  // ---------------------------------------------------------------- no digest recurs

  /** How many digests lie beneath a digest along the chain of previous ones. */
  function Depth(d: Digest): nat {
    match d
    case Text(_) => 0
    case OfJournal(payload) => 1 + if payload.previous.Some? then Depth(payload.previous.value) else 0
  }

  lemma {:induction false} DepthGrows(operation: string, history: seq<Journal>, i: nat, j: nat)
    requires ChainedFrom(operation, history) && i <= j < |history|
    ensures Depth(history[j].digest) == Depth(history[i].digest) + j - i
    decreases j
  {
    hide ValidPayload;
    if i == j {
    } else {
      DepthGrows(operation, history, i, j - 1);
      assert LinkAt(operation, history, j);
    }
  }

  /** No version ever comes back, so whoever read an older one cannot publish over a newer. */
  lemma NoDigestRecurs(codec: Codec, operation: string, steps: seq<Step>, i: nat, j: nat)
    requires Faithful(codec)
    requires i < j < |RunSteps(codec, operation, INITIAL, steps).history|
    ensures var history := RunSteps(codec, operation, INITIAL, steps).history;
            history[i].digest != history[j].digest && history[i].body.previous != history[j].body.previous
  {
    RunKeepsSound(codec, operation, steps);
    hide RunSteps, FilesSound, ProcessSound;
    var history := RunSteps(codec, operation, INITIAL, steps).history;
    DepthGrows(operation, history, i, j);
    PreviousIsBeneath(operation, history, i);
    PreviousIsBeneath(operation, history, j);
  }

  lemma PreviousIsBeneath(operation: string, history: seq<Journal>, i: nat)
    requires ChainedFrom(operation, history) && i < |history|
    ensures Depth(history[i].digest)
            == 1 + if history[i].body.previous.Some? then Depth(history[i].body.previous.value) else 0
    ensures i > 0 ==> history[i].body.previous == Some(history[i - 1].digest)
  {
    hide ValidPayload;
    assert LinkAt(operation, history, i);
  }

  /** A stale expectation, the digest of any version but the newest, is never accepted again. */
  lemma StaleUpdatesLose(codec: Codec, operation: string, steps: seq<Step>, i: nat, request: Request)
    requires Faithful(codec) && request.UpdateFile?
    requires i + 1 < |RunSteps(codec, operation, INITIAL, steps).history|
    requires request.expected == RunSteps(codec, operation, INITIAL, steps).history[i].digest
    ensures !Accepts(codec, operation, RunSteps(codec, operation, INITIAL, steps).history, request)
  {
    hide RunSteps, Proper, Readable;
    var history := RunSteps(codec, operation, INITIAL, steps).history;
    NoDigestRecurs(codec, operation, steps, i, |history| - 1);
  }

  // ---------------------------------------------------------------- the size limit is only on reading

  lemma OversizedStays(codec: Codec, operation: string, s: State, step: Step)
    requires Sound(codec, operation, s) && s.history != [] && !Readable(codec, s.history[|s.history| - 1])
    ensures Perform(codec, operation, s, step).history == s.history
  {
    hide Proper, Readable, ChainedFrom;
    assert ProcessSound(codec, operation, s, step.pid);
    if step.Publish? {
      PublishIsAtomic(codec, operation, s, step.pid);
    }
  }

  /**
   Writing has no size limit and reading has one: once a journal longer than the limit is published,
   nothing can follow it.
   */
  lemma {:induction false} OversizedIsForever(codec: Codec, operation: string, before: seq<Step>, after: seq<Step>)
    requires Faithful(codec)
    requires var history := RunSteps(codec, operation, INITIAL, before).history;
             history != [] && !Readable(codec, history[|history| - 1])
    ensures RunSteps(codec, operation, INITIAL, before + after).history
            == RunSteps(codec, operation, INITIAL, before).history
    decreases |after|
  {
    hide Sound, Perform, Readable, Faithful;
    if after == [] {
      assert before + after == before;
    } else {
      var front := after[..|after| - 1];
      OversizedIsForever(codec, operation, before, front);
      assert (before + after)[..|before + after| - 1] == before + front;
      RunKeepsSound(codec, operation, before + front);
      OversizedStays(codec, operation, RunSteps(codec, operation, INITIAL, before + front), after[|after| - 1]);
    }
  }

  // ---------------------------------------------------------------- accepted requests can succeed

  lemma {:induction false} RunOnFirst(codec: Codec, operation: string, s: State, first: Step, rest: seq<Step>)
    ensures RunSteps(codec, operation, s, [first] + rest)
            == RunSteps(codec, operation, Perform(codec, operation, s, first), rest)
    decreases |rest|
  {
    hide Perform;
    if rest == [] {
      assert [first] + rest == [first] && [first][..0] == [];
    } else {
      assert ([first] + rest)[..|[first] + rest| - 1] == [first] + rest[..|rest| - 1];
      RunOnFirst(codec, operation, s, first, rest[..|rest| - 1]);
    }
  }

  lemma MoveTwice(s: State, pid: nat, a: Process, b: Process)
    ensures Move(Move(s, pid, a), pid, b) == Move(s, pid, b) && At(Move(s, pid, a), pid) == a
  {
  }

  /** Left alone, the comparison reads to the end and finds what it expects. */
  lemma {:induction false} FinishComparing(codec: Codec, operation: string, s: State, pid: nat)
      returns (steps: seq<Step>)
    requires Faithful(codec) && Sound(codec, operation, s) && At(s, pid).Comparing?
    requires Accepts(codec, operation, s.history, At(s, pid).request) && At(s, pid).request.UpdateFile?
    ensures RunSteps(codec, operation, s, steps) == Move(s, pid, Opening(At(s, pid).request))
    decreases if At(s, pid).Comparing? && At(s, pid).inode in s.inodes
              then |s.inodes[At(s, pid).inode]| - |At(s, pid).got| else 0
  {
    hide Valid, Proper, ChainedFrom;
    assert ProcessSound(codec, operation, s, pid);
    var process := At(s, pid);
    var content, last := s.inodes[process.inode], s.history[|s.history| - 1];
    assert content == codec.encode(last) && |content| <= MAX_JOURNAL_BYTES;
    HistoryIsValid(operation, s.history);
    ParseOfVersion(codec, last);
    var n := Min(CHUNK, MAX_JOURNAL_BYTES + 1 - |process.got|);
    ReadingGrows(content, process.got, n);
    var got, step := Received(content, process.got, n), ReadChunk(pid, n);
    var t := Perform(codec, operation, s, step);
    hide Parse, Received, Sound, Readable;
    if got == process.got {
      steps := [step];
      assert t == Move(s, pid, Opening(process.request));
      assert [step][..0] == [];
    } else {
      assert t == Move(s, pid, Comparing(process.request, process.inode, got));
      StepKeepsSound(codec, operation, s, step);
      MoveTwice(s, pid, Comparing(process.request, process.inode, got), Opening(process.request));
      var rest := FinishComparing(codec, operation, t, pid);
      steps := [step] + rest;
      RunOnFirst(codec, operation, s, step, rest);
    }
  }

  lemma Above(keys: set<nat>) returns (bound: nat)
    ensures forall k | k in keys :: k < bound
    decreases keys
  {
    if keys == {} {
      bound := 0;
    } else {
      var k :| k in keys;
      var rest := Above(keys - {k});
      bound := if k < rest then rest else k + 1;
      assert forall other | other in keys :: other == k || other in keys - {k};
    }
  }

  /** The temporary file is opened, filled at once and synchronised. */
  lemma FinishWriting(codec: Codec, operation: string, s: State, pid: nat) returns (steps: seq<Step>)
    requires At(s, pid).Opening? && pid !in s.temps
    ensures var t := RunSteps(codec, operation, s, steps);
            && At(t, pid).Publishing? && At(t, pid).request == At(s, pid).request
            && t.final == s.final && t.history == s.history && t.lock == s.lock
  {
    var inode := Above(s.inodes.Keys);
    var request := At(s, pid).request;
    var size := |codec.encode(request.journal)|;
    var s1 := Perform(codec, operation, s, OpenTemporary(pid, inode));
    assert At(s1, pid) == Writing(request, inode, 0);
    var s2 := Perform(codec, operation, s1, WriteChunk(pid, size));
    assert At(s2, pid) == Writing(request, inode, size);
    var s3 := Perform(codec, operation, s2, Sync(pid));
    assert At(s3, pid) == Publishing(request, inode) && s3.final == s.final && s3.history == s.history;
    hide Perform, At;
    steps := [OpenTemporary(pid, inode)] + ([WriteChunk(pid, size)] + ([Sync(pid)] + []));
    RunOnFirst(codec, operation, s2, Sync(pid), []);
    RunOnFirst(codec, operation, s1, WriteChunk(pid, size), [Sync(pid)] + []);
    RunOnFirst(codec, operation, s, OpenTemporary(pid, inode), [WriteChunk(pid, size)] + ([Sync(pid)] + []));
  }

  lemma FinishPublishing(codec: Codec, operation: string, s: State, pid: nat)
    requires At(s, pid).Publishing? && s.lock == Some(pid)
    requires At(s, pid).request.CreateFile? ==> s.final.None?
    ensures var t := RunSteps(codec, operation, s, [Publish(pid)] + ([CleanUp(pid)] + []));
            && t.history == s.history + [At(s, pid).request.journal]
            && t.lock.None? && At(t, pid).Idle? && pid !in t.temps
  {
    var request := At(s, pid).request;
    var s1 := Perform(codec, operation, s, Publish(pid));
    assert At(s1, pid) == Cleaning(request) && s1.history == s.history + [request.journal];
    var s2 := Perform(codec, operation, s1, CleanUp(pid));
    assert s2.history == s1.history && s2.lock.None? && At(s2, pid).Idle? && pid !in s2.temps;
    hide Perform;
    RunOnFirst(codec, operation, s1, CleanUp(pid), []);
    RunOnFirst(codec, operation, s, Publish(pid), [CleanUp(pid)] + []);
  }

  lemma {:induction false} RunBoth(codec: Codec, operation: string, s: State, first: seq<Step>, rest: seq<Step>)
    ensures RunSteps(codec, operation, s, first + rest)
            == RunSteps(codec, operation, RunSteps(codec, operation, s, first), rest)
    decreases |rest|
  {
    hide Perform;
    if rest == [] {
      assert first + rest == first;
    } else {
      assert (first + rest)[..|first + rest| - 1] == first + rest[..|rest| - 1];
      RunBoth(codec, operation, s, first, rest[..|rest| - 1]);
    }
  }

  lemma AskingLocks(codec: Codec, operation: string, s: State, pid: nat, request: Request)
    requires At(s, pid).Idle? && s.lock.None? && Proper(operation, request)
    ensures var asked := Perform(codec, operation, s, Ask(pid, request));
            Perform(codec, operation, asked, Acquire(pid)) == Move(s.(lock := Some(pid)), pid, Locked(request))
  {
    hide Proper;
    var asked := Perform(codec, operation, s, Ask(pid, request));
    assert asked == Move(s, pid, Waiting(request));
    MoveTwice(s.(lock := Some(pid)), pid, Waiting(request), Locked(request));
  }

  /** With the lock, a create opens its file at once and an update after the comparison. */
  lemma ProceedToOpening(codec: Codec, operation: string, s: State, pid: nat, request: Request)
      returns (steps: seq<Step>)
    requires Faithful(codec) && Sound(codec, operation, s)
    requires At(s, pid) == Locked(request) && Accepts(codec, operation, s.history, request)
    ensures RunSteps(codec, operation, s, steps) == Move(s, pid, Opening(request))
  {
    hide Proper, Readable, ChainedFrom, Faithful;
    var t := Perform(codec, operation, s, Proceed(pid));
    EnteringKeepsSound(codec, operation, s, Proceed(pid));
    var rest := [];
    if request.UpdateFile? {
      assert t == Move(s, pid, Comparing(request, s.final.value, []));
      hide Perform, Sound;
      rest := FinishComparing(codec, operation, t, pid);
      MoveTwice(s, pid, Comparing(request, s.final.value, []), Opening(request));
    } else {
      assert t == Move(s, pid, Opening(request));
    }
    hide Perform, Sound;
    steps := [Proceed(pid)] + rest;
    RunOnFirst(codec, operation, s, Proceed(pid), rest);
  }

  /** From asking to the opening of the temporary file. */
  lemma ReachOpening(codec: Codec, operation: string, s: State, pid: nat, request: Request) returns (steps: seq<Step>)
    requires Faithful(codec) && Sound(codec, operation, s)
    requires At(s, pid).Idle? && s.lock.None? && Accepts(codec, operation, s.history, request)
    ensures RunSteps(codec, operation, s, steps) == Move(s.(lock := Some(pid)), pid, Opening(request))
  {
    hide Perform, Sound, Proper, Readable;
    var asked := Perform(codec, operation, s, Ask(pid, request));
    var held := Perform(codec, operation, asked, Acquire(pid));
    AskingLocks(codec, operation, s, pid, request);
    EnteringKeepsSound(codec, operation, s, Ask(pid, request));
    EnteringKeepsSound(codec, operation, asked, Acquire(pid));
    MoveTwice(s.(lock := Some(pid)), pid, Locked(request), Opening(request));
    var rest := ProceedToOpening(codec, operation, held, pid, request);
    steps := [Ask(pid, request)] + ([Acquire(pid)] + rest);
    RunOnFirst(codec, operation, asked, Acquire(pid), rest);
    RunOnFirst(codec, operation, s, Ask(pid, request), [Acquire(pid)] + rest);
  }

  /**
   With the lock free and no temporary file of its own left behind, a process whose request the
   atomic store would accept can publish it.
   */
  lemma AcceptedRequestsCanSucceed(codec: Codec, operation: string, before: seq<Step>, pid: nat, request: Request)
      returns (steps: seq<Step>)
    requires Faithful(codec)
    requires var s := RunSteps(codec, operation, INITIAL, before);
             && At(s, pid).Idle? && s.lock.None? && pid !in s.temps
             && Accepts(codec, operation, s.history, request)
    ensures var s := RunSteps(codec, operation, INITIAL, before);
            var t := RunSteps(codec, operation, INITIAL, before + steps);
            t.history == s.history + [request.journal] && t.lock.None? && At(t, pid).Idle? && pid !in t.temps
  {
    var s := RunSteps(codec, operation, INITIAL, before);
    RunKeepsSound(codec, operation, before);
    assert request.CreateFile? ==> s.final.None?;
    hide RunSteps, Sound, Accepts;
    var first := ReachOpening(codec, operation, s, pid, request);
    var ready := Move(s.(lock := Some(pid)), pid, Opening(request));
    var writing := FinishWriting(codec, operation, ready, pid);
    FinishPublishing(codec, operation, RunSteps(codec, operation, ready, writing), pid);
    var last := [Publish(pid)] + ([CleanUp(pid)] + []);
    steps := first + (writing + last);
    RunBoth(codec, operation, ready, writing, last);
    RunBoth(codec, operation, s, first, writing + last);
    RunBoth(codec, operation, INITIAL, before, steps);
  }

  /**
   The chain is all an update is checked for: whatever readable journal is stored, some accepted
   successor is the result of no step.
   */
  lemma StoreAcceptsMoreThanSteps(codec: Codec, operation: string, history: seq<Journal>)
    requires history != [] && ChainedFrom(operation, history) && Readable(codec, history[|history| - 1])
    ensures var last := history[|history| - 1];
            exists next: Journal ::
              && Accepts(codec, operation, history, UpdateFile(next, last.digest))
              && forall action :: Apply(last, action) != Success(next)
  {
    hide Readable, Apply, Canonical;
    var last := history[|history| - 1];
    assert LinkAt(operation, history, |history| - 1);
    var next := WithDigest(last.body.(sequence := last.body.sequence + 2, previous := Some(last.digest)));
    assert Accepts(codec, operation, history, UpdateFile(next, last.digest));
    forall action ensures Apply(last, action) != Success(next) {
      if Apply(last, action).Success? {
        StepCounts(last, action);
      }
    }
  }
}
