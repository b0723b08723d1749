/**
 The bounded transfer (src/apx_downloader.py): one response, streamed chunk by chunk into a staging
 writer. A response is everything the injected opener can return.
 */
module Downloader {
  import opened Common
  import opened PosixPaths
  import opened Staging
  import opened StagingWriter

  const ARCHIVE_HOST := "archive.archlinux.org"
  const ARCHIVE_PREFIX := "/repos/2026/07/11/"

  /** A URI as `urlsplit` takes it apart, with its path unquoted. */
  datatype Uri = Uri(text: string, scheme: string, hostname: string, netloc: string, path: string, query: string,
                     fragment: string)

  datatype DownloadRequest = DownloadRequest(
    uri: Uri, filename: string, maximumBytes: int, expectedBytes: Option<int>, expectedSha256: Option<Digest>)

  datatype DownloadResult = DownloadResult(
    requestedUri: string, finalUri: string, filename: string, bytesReceived: nat, sha256: Digest,
    status: int, contentLength: nat)

  /** What one `read` call does; an empty chunk, or the end of the list, ends the body. */
  datatype ReadResult = Chunk(bytes: Bytes) | ReadFailure | NonBytes

  datatype Response = Response(
    status: Option<int>, finalUri: Option<string>, headersReadable: bool, contentLength: Option<string>,
    readable: bool, body: seq<ReadResult>)

  predicate ValidRequest(request: DownloadRequest) {
    && SafeFilename(request.filename)
    && request.uri.scheme == "https"
    && request.uri.hostname == ARCHIVE_HOST && request.uri.netloc == ARCHIVE_HOST
    && request.uri.query == "" && request.uri.fragment == ""
    && ARCHIVE_PREFIX <= request.uri.path
    && Split(request.uri.path)[|Split(request.uri.path)| - 1] == request.filename
    && request.maximumBytes > 0
    && (request.expectedBytes.Some? ==> 0 <= request.expectedBytes.value <= request.maximumBytes)
    && (request.expectedSha256.Some? ==> WellFormed(request.expectedSha256.value))
  }

  /** A single Content-Length of ASCII digits, as section 8.6 of RFC 9110 requires. */
  function ContentLength(raw: Option<string>): Result<nat> {
    if raw.None? || raw.value == "" then Failure
    else if !AllDigits(raw.value) then Failure
    else Success(Decimal(raw.value))
  }

  /** The address names the file in the fixed archive, over HTTPS and nothing else. */
  ghost predicate AtTheArchive(request: DownloadRequest) {
    && request.uri.scheme == "https"
    && request.uri.hostname == "archive.archlinux.org" && request.uri.netloc == "archive.archlinux.org"
    && request.uri.query == "" && request.uri.fragment == ""
    && "/repos/2026/07/11/" <= request.uri.path
    && '/' !in request.filename && request.filename != "" && request.filename != ".."
    && exists folder: string :: request.uri.path == folder + "/" + request.filename
  }

  /** What `validate_download_request` lets through is at the archive, and asks for a possible length. */
  lemma ValidRequestsAreAtTheArchive(request: DownloadRequest)
    requires ValidRequest(request)
    ensures AtTheArchive(request) && request.maximumBytes > 0
    ensures request.expectedBytes.Some? ==> 0 <= request.expectedBytes.value <= request.maximumBytes
    ensures request.expectedSha256.Some? ==> WellFormed(request.expectedSha256.value)
  {
    hide Split, SafeFilename;
    SafeFilenamesStayInTheDirectory(request.filename);
    JoinOfSplit(request.uri.path);
    var parts := Split(request.uri.path);
    assert ARCHIVE_PREFIX[0] == '/' && request.uri.path[0] == ARCHIVE_PREFIX[0];
    assert '/' in request.uri.path;
    if |parts| >= 2 {
      LastPartIsJoined(parts);
    }
  }

  lemma {:induction false} LastPartIsJoined(parts: seq<string>)
    requires |parts| >= 2
    ensures exists folder: string :: Join(parts) == folder + "/" + parts[|parts| - 1]
  {
    if |parts| == 2 {
      assert Join(parts) == parts[0] + "/" + parts[1];
    } else {
      var rest := parts[1..];
      LastPartIsJoined(rest);
      var folder: string :| Join(rest) == folder + "/" + rest[|rest| - 1];
      assert parts[0] + "/" + (folder + "/" + rest[|rest| - 1])
             == parts[0] + "/" + folder + "/" + parts[|parts| - 1];
    }
  }

  /** The header is read as `n` exactly when it is a numeral of `n`. */
  lemma ContentLengthIsTheNumber(raw: Option<string>, n: nat)
    ensures ContentLength(raw) == Success(n) <==> raw.Some? && IsNumeral(raw.value, n)
  {
    hide Decimal;
    if raw.Some? {
      NumeralsAreRead(raw.value, n);
    }
  }

  /** The bytes a response yields before it ends or breaks. */
  function Stream(chunks: seq<ReadResult>): Bytes {
    if chunks == [] || !chunks[0].Chunk? || chunks[0].bytes == [] then [] else chunks[0].bytes + Stream(chunks[1..])
  }

  /** The response reaches an end, rather than breaking off. */
  predicate Ends(chunks: seq<ReadResult>) {
    chunks == [] || (chunks[0].Chunk? && (chunks[0].bytes == [] || Ends(chunks[1..])))
  }

  /** The one body the request accepts from what the opener returned, if any. */
  function Deliverable(request: DownloadRequest, answer: Result<Response>): Option<Bytes> {
    if !ValidRequest(request) || answer.Failure? then None
    else
      var response := answer.value;
      var body := Stream(response.body);
      if && response.status == Some(200)
         && response.finalUri == Some(request.uri.text)
         && response.headersReadable
         && ContentLength(response.contentLength) == Success(|body|)
         && |body| <= request.maximumBytes
         && (request.expectedBytes.Some? ==> request.expectedBytes.value == |body|)
         && response.readable
         && Ends(response.body)
         && (request.expectedSha256.Some? ==> request.expectedSha256.value == Sha256(body))
      then Some(body)
      else None
  }

  /** The bound on what a transfer may hand to its sink, whatever the server sends. */
  function SinkBound(request: DownloadRequest, answer: Result<Response>): nat {
    if answer.Failure? || ContentLength(answer.value.contentLength).Failure? || request.maximumBytes < 0 then 0
    else
      var length := ContentLength(answer.value.contentLength).value;
      if length <= request.maximumBytes then length else 0
  }

  /** What is still to come, after a prefix of the chunks was read. */
  ghost predicate Remaining(chunks: seq<ReadResult>, next: nat, digested: Bytes)
    requires next <= |chunks|
  {
    && digested + Stream(chunks[next..]) == Stream(chunks)
    && (Ends(chunks[next..]) <==> Ends(chunks))
  }

  lemma ReadingStarts(chunks: seq<ReadResult>)
    ensures Remaining(chunks, 0, [])
  {
    assert chunks[0..] == chunks && [] + Stream(chunks) == Stream(chunks);
  }

  lemma NextChunk(chunks: seq<ReadResult>, next: nat)
    requires next < |chunks| && chunks[next].Chunk? && chunks[next].bytes != []
    ensures Stream(chunks[next..]) == chunks[next].bytes + Stream(chunks[next + 1..])
    ensures Ends(chunks[next..]) <==> Ends(chunks[next + 1..])
  {
    assert chunks[next..][1..] == chunks[next + 1..];
  }

  lemma ReadingAdvances(chunks: seq<ReadResult>, next: nat, digested: Bytes)
    requires next < |chunks| && Remaining(chunks, next, digested)
    requires chunks[next].Chunk? && chunks[next].bytes != []
    ensures Remaining(chunks, next + 1, digested + chunks[next].bytes)
    ensures digested + chunks[next].bytes <= Stream(chunks)
  {
    hide Stream, Ends;
    NextChunk(chunks, next);
    var piece, rest := chunks[next].bytes, Stream(chunks[next + 1..]);
    assert digested + piece + rest == digested + (piece + rest);
  }

  lemma PrefixesChain(landed: Bytes, passed: Bytes, chunks: seq<ReadResult>)
    requires landed <= passed <= Stream(chunks)
    ensures landed <= Stream(chunks)
  {
  }

  lemma ReadingStops(chunks: seq<ReadResult>, next: nat, digested: Bytes)
    requires next <= |chunks| && Remaining(chunks, next, digested)
    requires next == |chunks| || !chunks[next].Chunk? || chunks[next].bytes == []
    ensures digested == Stream(chunks)
    ensures Ends(chunks) <==> next == |chunks| || chunks[next].Chunk?
  {
    assert digested + [] == digested;
  }

  /** One chunk given to the sink, after `digested` was. */
  method PassOn(chunk: Bytes, writer: StreamingStagingWriter, ghost before: Files, ghost digested: Bytes)
      returns (outcome: Outcome, ghost landed: Bytes)
    requires writer.open && !writer.closed && writer.inode in before.inodes
    requires writer.dir.files == Append(before, writer.inode, digested)
    modifies writer, writer.dir
    ensures writer.open && !writer.closed
    ensures digested <= landed <= digested + chunk && writer.dir.files == Append(before, writer.inode, landed)
    ensures landed != digested ==> writer.Fits(old(writer.written) + |chunk|)
    ensures outcome == Done ==>
              && landed == digested + chunk && writer.Fits(writer.written)
              && writer.hashed == old(writer.hashed) + chunk && writer.written == old(writer.written) + |chunk|
    ensures writer.dir.reliable ==> (outcome == Done <==> writer.Fits(old(writer.written) + |chunk|))
    ensures writer.dir.reliable ==> outcome != Crashed
  {
    hide Possible, After, InStep;
    ghost var piece;
    outcome, piece := writer.Write(chunk);
    landed := digested + piece;
    AppendTwice(before, writer.inode, digested, piece);
    assert digested + chunk == digested + (piece + chunk[|piece|..]);
  }

  /** The loop's state after `next` chunks: what was read was passed on, counted and hashed. */
  ghost predicate Receiving(chunks: seq<ReadResult>, length: nat, next: nat, digested: Bytes,
                            writer: StreamingStagingWriter, before: Files, hashed: Bytes, written: nat)
    reads writer, writer.dir
  {
    && next <= |chunks| && next <= |digested| <= length
    && digested <= Stream(chunks) && Remaining(chunks, next, digested)
    && writer.open && !writer.closed && writer.inode in before.inodes
    && writer.dir.files == Append(before, writer.inode, digested)
    && writer.hashed == hashed + digested && writer.written == written + |digested|
    && (digested != [] ==> writer.Fits(writer.written))
  }

  /** What holds of the bytes that reached the sink, wherever the loop ends. */
  ghost predicate Bounded(chunks: seq<ReadResult>, length: nat, landed: Bytes,
                          writer: StreamingStagingWriter, before: Files, written: nat)
    reads writer, writer.dir
  {
    && writer.open && !writer.closed && writer.inode in before.inodes
    && writer.dir.files == Append(before, writer.inode, landed)
    && |landed| <= length && landed <= Stream(chunks)
    && (landed != [] ==> writer.Fits(written + |landed|))
  }

  /** A non-empty chunk: measured before the sink sees it. */
  method ReceiveChunk(chunks: seq<ReadResult>, length: nat, maximum: nat, writer: StreamingStagingWriter, next: nat,
                      digested: Bytes, ghost before: Files, ghost hashed: Bytes, ghost written: nat)
      returns (outcome: Outcome, ghost landed: Bytes)
    requires length <= maximum && next < |chunks| && chunks[next].Chunk? && chunks[next].bytes != []
    requires Receiving(chunks, length, next, digested, writer, before, hashed, written)
    modifies writer, writer.dir
    ensures Bounded(chunks, length, landed, writer, before, written)
    ensures outcome == Done ==>
              Receiving(chunks, length, next + 1, digested + chunks[next].bytes, writer, before, hashed, written)
    ensures writer.dir.reliable && |Stream(chunks)| <= length && writer.Fits(written + |Stream(chunks)|)
            ==> outcome == Done
    ensures writer.dir.reliable ==> outcome != Crashed
  {
    hide Stream, Remaining, Append;
    var chunk := chunks[next].bytes;
    ReadingAdvances(chunks, next, digested);
    landed := digested;
    if |digested| + |chunk| > length || |digested| + |chunk| > maximum {
      return Raised, landed;
    }
    outcome, landed := PassOn(chunk, writer, before, digested);
    PrefixesChain(landed, digested + chunk, chunks);
    assert outcome == Done ==> hashed + digested + chunk == hashed + (digested + chunk);
  }

  /** The read loop. */
  method ReceiveBody(chunks: seq<ReadResult>, length: nat, maximum: nat, writer: StreamingStagingWriter)
      returns (outcome: Outcome, digested: Bytes, nonEmptyReads: nat, ghost landed: Bytes)
    requires length <= maximum && writer.open && !writer.closed && writer.inode in writer.dir.files.inodes
    modifies writer, writer.dir
    ensures writer.open && !writer.closed
    ensures writer.dir.files == Append(old(writer.dir.files), writer.inode, landed)
    ensures |landed| <= length && landed <= Stream(chunks)
    ensures landed != [] ==> writer.Fits(old(writer.written) + |landed|)
    ensures nonEmptyReads <= length + 1
    ensures outcome == Done ==>
              && Ends(chunks) && digested == landed == Stream(chunks)
              && writer.hashed == old(writer.hashed) + landed && writer.written == old(writer.written) + |landed|
    ensures writer.dir.reliable && Ends(chunks)
            && |Stream(chunks)| <= length && writer.Fits(old(writer.written) + |Stream(chunks)|)
            ==> outcome == Done
    ensures writer.dir.reliable ==> outcome != Crashed
  {
    hide Stream, Ends, Remaining, Append;
    digested, nonEmptyReads, landed := [], 0, [];
    ghost var before, hashed, written := writer.dir.files, writer.hashed, writer.written;
    AppendNothing(before, writer.inode);
    ReadingStarts(chunks);
    assert hashed + [] == hashed;
    while nonEmptyReads < |chunks|
      invariant Receiving(chunks, length, nonEmptyReads, digested, writer, before, hashed, written)
    {
      var read := chunks[nonEmptyReads];
      if !read.Chunk? {
        ReadingStops(chunks, nonEmptyReads, digested);
        return Raised, digested, nonEmptyReads, digested;
      }
      if read.bytes == [] {
        break;
      }
      outcome, landed :=
        ReceiveChunk(chunks, length, maximum, writer, nonEmptyReads, digested, before, hashed, written);
      nonEmptyReads := nonEmptyReads + 1;
      if outcome != Done {
        return;
      }
      digested := digested + read.bytes;
    }
    landed := digested;
    ReadingStops(chunks, nonEmptyReads, digested);
    outcome := Done;
  }

  /**
   `download_bounded`, its sink a staging writer. It succeeds only with the one acceptable body; what
   reaches the sink is always a prefix of the stream within the declared and approved length; and it
   reads at most one non-empty chunk per declared byte, plus one.
   */
  method DownloadBounded(request: DownloadRequest, answer: Result<Response>, writer: StreamingStagingWriter)
      returns (outcome: Outcome, result: Option<DownloadResult>, nonEmptyReads: nat, ghost landed: Bytes)
    requires writer.open && !writer.closed && writer.inode in writer.dir.files.inodes
    modifies writer, writer.dir
    ensures writer.open && !writer.closed
    ensures writer.dir.files == Append(old(writer.dir.files), writer.inode, landed)
    ensures |landed| <= SinkBound(request, answer)
    ensures landed != [] ==>
              answer.Success? && landed <= Stream(answer.value.body) && writer.Fits(old(writer.written) + |landed|)
    ensures nonEmptyReads <= SinkBound(request, answer) + 1
    ensures outcome == Done ==>
              && answer.Success? && answer.value.contentLength.Some?
              && IsNumeral(answer.value.contentLength.value, |landed|)
              && AtTheArchive(request) && answer.value.status == Some(200)
              && answer.value.finalUri == Some(request.uri.text)
              && Deliverable(request, answer) == Some(landed)
              && writer.hashed == old(writer.hashed) + landed
              && writer.written == old(writer.written) + |landed|
              && result == Some(DownloadResult(request.uri.text, request.uri.text, request.filename, |landed|,
                                               Sha256(landed), 200, |landed|))
    ensures writer.dir.reliable && Deliverable(request, answer).Some?
            && writer.Fits(old(writer.written) + |Deliverable(request, answer).value|)
            ==> outcome == Done
    ensures writer.dir.reliable ==> outcome != Crashed
  {
    hide Stream, Ends, ContentLength, SafeFilename, IsNumeral, AtTheArchive;
    result, nonEmptyReads, landed := None, 0, [];
    AppendNothing(writer.dir.files, writer.inode);
    if !ValidRequest(request) || answer.Failure? {
      return Raised, None, 0, [];
    }
    var response := answer.value;
    if response.status != Some(200) || response.finalUri != Some(request.uri.text) || !response.headersReadable {
      return Raised, None, 0, [];
    }
    var declared := ContentLength(response.contentLength);
    if declared.Failure? || declared.value > request.maximumBytes {
      return Raised, None, 0, [];
    }
    var length := declared.value;
    if (request.expectedBytes.Some? && length != request.expectedBytes.value) || !response.readable {
      return Raised, None, 0, [];
    }
    var digested;
    outcome, digested, nonEmptyReads, landed := ReceiveBody(response.body, length, request.maximumBytes, writer);
    if outcome != Done {
      return;
    }
    if |digested| != length {
      return Raised, None, nonEmptyReads, landed;
    }
    if request.expectedSha256.Some? && request.expectedSha256.value != Sha256(digested) {
      return Raised, None, nonEmptyReads, landed;
    }
    ContentLengthIsTheNumber(response.contentLength, length);
    ValidRequestsAreAtTheArchive(request);
    result := Some(DownloadResult(request.uri.text, request.uri.text, request.filename, |digested|, Sha256(digested),
                                  200, length));
  }

  /** An accepted body is exactly as long as declared, within the request, and matches its evidence. */
  lemma DeliverableIsExact(request: DownloadRequest, answer: Result<Response>)
    requires Deliverable(request, answer).Some?
    ensures var body := Deliverable(request, answer).value;
            && answer.Success? && ContentLength(answer.value.contentLength) == Success(|body|)
            && body == Stream(answer.value.body) && Ends(answer.value.body)
            && |body| == SinkBound(request, answer) <= request.maximumBytes
            && (request.expectedBytes.Some? ==> request.expectedBytes.value == |body|)
            && (request.expectedSha256.Some? ==> request.expectedSha256.value == Sha256(body))
  {
  }
}
