/** `acquire_to_fixture` (src/apx_transfer.py): one transfer into one staged file. */
module Transfer {
  import opened Common
  import opened Staging
  import opened StagingWriter
  import opened StagingArea
  import opened Downloader

  datatype AcquiredFile = AcquiredFile(transfer: DownloadResult, staged: StagedFile)

  /**
   However it ends, the directory is the one before with the request's file at some stage. The final
   name appears only with the complete accepted body, of the length its header names; the published
   evidence never disagrees with the transfer; and with no failing call it succeeds exactly when the
   file is admitted, new, acceptable and fits.
   */
  method AcquireToFixture(request: DownloadRequest, answer: Result<Response>, staging: FixtureAcquisitionStaging)
      returns (outcome: Outcome, acquired: Option<AcquiredFile>, disagreed: bool,
               ghost inode: nat, ghost content: Bytes, ghost stage: Stage)
    requires Consistent(staging.dir.files)
    modifies staging.dir
    ensures staging.dir.files == AtStage(old(staging.dir.files), request.filename, inode, content, stage)
    ensures stage != Absent ==>
              && inode !in old(staging.dir.files).inodes
              && request.filename + PARTIAL !in old(staging.dir.files).names
              && |content| <= SinkBound(request, answer)
    ensures stage in {BothNames, FinalOnly} ==>
              && request.filename !in old(staging.dir.files).names
              && Deliverable(request, answer) == Some(content)
    ensures outcome == Done ==>
              && answer.Success? && answer.value.contentLength.Some?
              && IsNumeral(answer.value.contentLength.value, |content|)
              && stage == FinalOnly && acquired.Some?
              && acquired.value.staged == StagedFile(request.filename, |content|, Sha256(content), inode)
              && acquired.value.transfer.bytesReceived == acquired.value.transfer.contentLength == |content|
    ensures !disagreed
    ensures Consistent(staging.dir.files)
    ensures old(WithinLimits(staging.dir.files)) ==> WithinLimits(staging.dir.files)
    ensures staging.dir.reliable ==>
              (outcome == Done
               <==> old(staging.Admits(request.filename, request.maximumBytes))
                    && request.filename !in old(staging.dir.files).names
                    && Deliverable(request, answer).Some?
                    && Scanned(old(staging.dir.files)) + |Deliverable(request, answer).value| <= MAX_AGGREGATE_BYTES)
    ensures staging.dir.reliable ==> outcome != Crashed && stage != BothNames
  {
    hide Deliverable, SinkBound, SafeFilename, WithinLimits, Consistent, Held, Scanned, InStep, Matches, IsNumeral;
    acquired, disagreed, inode, content, stage := None, false, 0, [], Absent;
    ghost var before := staging.dir.files;
    if Deliverable(request, answer).Some? {
      DeliverableIsExact(request, answer);
    }
    var writer;
    outcome, writer := staging.BeginStream(request.filename, request.maximumBytes);
    if outcome != Done {
      return;
    }
    inode, stage := writer.inode, PartialOnly;
    var transfer, nonEmptyReads;
    outcome, transfer, nonEmptyReads, content := DownloadBounded(request, answer, writer);
    assert outcome == Done ==> [] + content == content;
    if outcome == Done {
      var staged;
      outcome, staged, stage := writer.Finalize(transfer.value.bytesReceived, transfer.value.sha256);
      if outcome == Done {
        disagreed := staged.value.bytesWritten != transfer.value.bytesReceived
                     || staged.value.sha256 != transfer.value.sha256
                     || staged.value.filename != transfer.value.filename;
        if disagreed {
          outcome := Raised;
        } else {
          acquired := Some(AcquiredFile(transfer.value, staged.value));
        }
      }
    }
    writer.Close();
    EveryStageIsConsistent(before, request.filename, inode, content, stage);
    if WithinLimits(before) {
      AdmittedFileKeepsLimits(before, request.filename, inode, content, stage);
    }
  }
}
