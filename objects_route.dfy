/**
 * The upload/download part of the backend objects route
 * (backend/src/routes/api/objects/index.ts).
 *
 * One process-wide progress record `{loaded, status}` and one abort-controller
 * slot are shared by every request. Each handler step (the upload request,
 * each callback of the store's multi-part upload, the abort request, each
 * tick of the progress stream and a subscriber disconnect) is an atomic
 * transition of an `UploadTracker`. The store's upload itself is not
 * modelled: its progress, success and failure callbacks are the methods
 * `OnUploadProgress`, `OnUploadDone` and `OnUploadFailed`.
 */
module ObjectsRoute {
  import opened Wrappers
  import opened Strings
  import opened KeyCodec

  datatype Status = Idle | Uploading | Completed

  /** A snapshot of the progress record, as sent on the progress stream. */
  datatype Progress = Progress(loaded: nat, status: Status)

  /** An HTTP reply: status code and message. */
  datatype Reply = Reply(code: nat, message: string)

  /** What the upload handler hands to the store's multi-part upload. */
  datatype UploadTarget = UploadTarget(bucket: string, key: string, queueSize: nat, leavePartsOnError: bool)

  /** An `AbortController`; `Abort` fires its signal. */
  class AbortController {
    var aborted: bool

    constructor ()
      ensures !aborted
    {
      aborted := false;
    }

    method Abort()
      modifies this
      ensures aborted
    {
      aborted := true;
    }
  }

  /** One `upload-progress` subscription: its interval timer and its response stream. */
  class ProgressSubscription {
    var ticking: bool
    var open: bool

    constructor ()
      ensures ticking && open
    {
      ticking := true;
      open := true;
    }
  }

  /** The shared upload state of the route. */
  class UploadTracker {
    var loaded: nat
    var status: Status
    var abortController: AbortController?
    /** Uploads whose store transfer has started and not yet settled. */
    ghost var inFlight: nat

    /**
     * What every handler keeps: an idle or completed record carries no byte
     * count, and an upload status or a controller in the slot implies that
     * some transfer is still running.
     */
    ghost predicate Valid()
      reads this
    {
      && (status != Uploading ==> loaded == 0)
      && (status == Uploading ==> inFlight > 0)
      && (abortController != null ==> inFlight > 0)
    }

    function Snapshot(): (p: Progress)
      reads this
      ensures p.loaded == loaded && p.status == status
    {
      Progress(loaded, status)
    }

    /** The record starts at `{loaded: 0, status: 'idle'}` and the slot is empty. */
    constructor ()
      ensures loaded == 0 && status == Idle && abortController == null
      ensures inFlight == 0
      ensures Valid()
    {
      loaded := 0;
      status := Idle;
      abortController := null;
      inFlight := 0;
    }

    /** `setUploadProgress`: overwrites the two fields of the record and nothing else. */
    method SetUploadProgress(newLoaded: nat, newStatus: Status)
      modifies this`loaded, this`status
      ensures loaded == newLoaded && status == newStatus
      ensures abortController == old(abortController) && inFlight == old(inFlight)
    {
      loaded := newLoaded;
      status := newStatus;
    }

    /**
     * The upload request up to the start of the transfer. Without a file
     * part it replies 400 and changes nothing; otherwise it puts a new
     * controller in the slot (dropping, not aborting, any previous one),
     * resets progress to `(0, 'uploading')` and starts the transfer to the
     * decoded key, replying only when the transfer settles.
     */
    method BeginUpload(bucket: string, encodedKey: EncodedKey, hasFile: bool)
      returns (reply: Option<Reply>, target: Option<UploadTarget>)
      requires Valid()
      modifies this
      ensures Valid()
      ensures !hasFile ==> reply == Some(Reply(400, "File not found in request")) && target == None
      ensures !hasFile ==> loaded == old(loaded) && status == old(status)
      ensures !hasFile ==> abortController == old(abortController) && inFlight == old(inFlight)
      ensures hasFile ==> reply == None
      ensures hasFile ==> target == Some(UploadTarget(bucket, Decode(encodedKey), 4, false))
      ensures hasFile ==> loaded == 0 && status == Uploading
      ensures hasFile ==> abortController != null && fresh(abortController) && !abortController.aborted
      ensures hasFile ==> inFlight == old(inFlight) + 1
    {
      var key := Decode(encodedKey);
      if !hasFile {
        reply := Some(Reply(400, "File not found in request"));
        target := None;
        return;
      }
      abortController := new AbortController();
      SetUploadProgress(0, Uploading);
      target := Some(UploadTarget(bucket, key, 4, false));
      reply := None;
      inFlight := inFlight + 1;
    }

    /** The transfer's progress callback: status `'uploading'` with the reported byte count. */
    method OnUploadProgress(progressLoaded: nat)
      requires Valid() && inFlight > 0
      modifies this`loaded, this`status
      ensures Valid()
      ensures loaded == progressLoaded && status == Uploading
      ensures abortController == old(abortController)
    {
      SetUploadProgress(progressLoaded, Uploading);
    }

    /** The transfer finished: progress `(0, 'completed')`, slot emptied, success reply. */
    method OnUploadDone() returns (reply: Reply)
      requires Valid() && inFlight > 0
      modifies this
      ensures Valid()
      ensures loaded == 0 && status == Completed && abortController == null
      ensures inFlight == old(inFlight) - 1
      ensures reply == Reply(200, "Object uploaded successfully")
    {
      SetUploadProgress(0, Completed);
      abortController := null;
      inFlight := inFlight - 1;
      reply := Reply(200, "Object uploaded successfully");
    }

    /**
     * The transfer failed (store error, broken input stream, or aborted):
     * slot emptied and progress `(0, 'idle')`. The handler sends no reply.
     */
    method OnUploadFailed()
      requires Valid() && inFlight > 0
      modifies this
      ensures Valid()
      ensures loaded == 0 && status == Idle && abortController == null
      ensures inFlight == old(inFlight) - 1
    {
      abortController := null;
      SetUploadProgress(0, Idle);
      inFlight := inFlight - 1;
    }

    /**
     * `abort-upload`: with a controller in the slot, fire it and reset
     * progress to `(0, 'idle')`; the slot itself is emptied only when the
     * aborted transfer reports its failure. With an empty slot, only reply.
     */
    method AbortUpload() returns (reply: Reply)
      requires Valid()
      modifies this`loaded, this`status, abortController
      ensures Valid()
      ensures abortController == old(abortController)
      ensures old(abortController) != null ==>
        abortController.aborted && loaded == 0 && status == Idle && reply == Reply(200, "Upload aborted")
      ensures old(abortController) == null ==>
        loaded == old(loaded) && status == old(status) && reply == Reply(200, "No upload to abort")
    {
      if abortController != null {
        abortController.Abort();
        SetUploadProgress(0, Idle);
        reply := Reply(200, "Upload aborted");
      } else {
        reply := Reply(200, "No upload to abort");
      }
    }

    /** `upload-progress`: a new subscription whose timer is running. */
    method Subscribe() returns (sub: ProgressSubscription)
      ensures fresh(sub) && sub.ticking && sub.open
    {
      sub := new ProgressSubscription();
    }

    /**
     * One tick of a subscription's timer. A cleared timer does not fire.
     * Otherwise the current record is sent; if it says `'completed'`, the
     * timer is cleared, the record reset to `(0, 'idle')` and the stream ended.
     */
    method Tick(sub: ProgressSubscription) returns (event: Option<Progress>)
      requires Valid()
      modifies this`loaded, this`status, sub
      ensures Valid()
      ensures !old(sub.ticking) ==> event == None
      ensures old(sub.ticking) ==> event == Some(old(Snapshot()))
      ensures old(sub.ticking) && old(status) == Completed ==>
        loaded == 0 && status == Idle && !sub.ticking && !sub.open
      ensures !(old(sub.ticking) && old(status) == Completed) ==>
        loaded == old(loaded) && status == old(status) &&
        sub.ticking == old(sub.ticking) && sub.open == old(sub.open)
    {
      if !sub.ticking {
        event := None;
        return;
      }
      event := Some(Snapshot());
      if status == Completed {
        sub.ticking := false;
        SetUploadProgress(0, Idle);
        sub.open := false;
      }
    }

    /** The subscriber's connection closed: record reset to `(0, 'idle')`, timer cleared. */
    method Disconnect(sub: ProgressSubscription)
      requires Valid()
      modifies this`loaded, this`status, sub
      ensures Valid()
      ensures loaded == 0 && status == Idle && abortController == old(abortController)
      ensures !sub.ticking && !sub.open
    {
      SetUploadProgress(0, Idle);
      sub.ticking := false;
      sub.open := false;
    }
  }

  /**
   * An abort that arrives while a transfer is running resets the record to
   * idle but leaves the fired controller in its slot: "uploading exactly
   * when the slot is full" is not kept by these handlers.
   */
  method AbortBeforeSettling(t: UploadTracker, bucket: string, encodedKey: EncodedKey)
    returns (reply: Reply)
    requires t.Valid()
    modifies t
    ensures t.Valid()
    ensures reply == Reply(200, "Upload aborted")
    ensures t.status == Idle && t.loaded == 0
    ensures t.abortController != null && t.abortController.aborted
  {
    var _, _ := t.BeginUpload(bucket, encodedKey, true);
    reply := t.AbortUpload();
  }

  /** The suggested download filename: the decoded key after its last `/`. */
  function DownloadFileName(encodedKey: EncodedKey): (name: string)
    ensures IsLastSegment(Decode(encodedKey), '/', name)
  {
    LastSegment(Decode(encodedKey), '/')
  }

  /** The reply of the download handler. */
  datatype DownloadResponse =
    | Attachment(contentDisposition: string, contentType: string, key: string)
    | DownloadFailed(reply: Reply)

  /**
   * The download handler: when the store yields the object, headers naming
   * the derived file as an attachment of an opaque binary type and the
   * object's bytes; when the store call fails, a 500 with no body bytes.
   */
  function Download(encodedKey: EncodedKey, storeFound: bool): (r: DownloadResponse)
    ensures storeFound <==> r.Attachment?
    ensures r.Attachment? ==> r.key == Decode(encodedKey) && r.contentType == "application/octet-stream"
    ensures r.Attachment? ==>
      r.contentDisposition == "attachment; filename=\"" + DownloadFileName(encodedKey) + "\""
    ensures r.DownloadFailed? ==> r.reply == Reply(500, "Error downloading file")
  {
    if storeFound then
      Attachment("attachment; filename=\"" + DownloadFileName(encodedKey) + "\"",
                 "application/octet-stream", Decode(encodedKey))
    else
      DownloadFailed(Reply(500, "Error downloading file"))
  }

  /** A key without `/` is offered for download under its own name. */
  lemma DownloadFileNameFlat(key: string)
    requires '/' !in key
    ensures DownloadFileName(Encode(key)) == key
  {
    LastSegmentNoSeparator(key, '/');
  }

  /** For a key under a folder, the name is what follows the last `/`. */
  lemma DownloadFileNameNested(folder: string, name: string)
    requires '/' !in name
    ensures DownloadFileName(Encode(folder + "/" + name)) == name
  {
    LastSegmentAfter(folder, name, '/');
  }
}
