/** The client side of the upload protocol: `uploadFileConcurrently`, which
    runs one worker per chunk index through the pool, `uploadChunkFile`,
    which chains fingerprint, existence check, chunk uploads and merge, and
    the single-file upload. Requests are calls on an `UploadServer`; only
    chunk transfers can fail on the way (the indices in `transferFails`). */
module Client {
  import opened Common
  import opened Ordering
  import opened ChunkPlan
  import opened Fingerprint
  import opened Pool
  import opened Router

  /** `chunkSize: 1 * 1024 * 1024` */
  const UPLOAD_CHUNK_SIZE: nat := 1048576

  /** `poolLimit: 3` */
  const POOL_LIMIT: int := 3

  const ALREADY_UPLOADED: string := "File has been uploaded"
  const UPLOADED: string := "File uploaded successfully"

  /** What one worker resolves with: nothing for a skipped chunk, the
      transfer's response for a sent one. */
  datatype TaskValue = Skipped | Sent(index: nat)

  /** Why `uploadChunkFile` rejects: the fingerprint read failed, a chunk
      transfer failed, or the merge answered an error (its reply has no
      `data`, so reading `data.url` throws). */
  datatype ClientError = FingerprintFailed(window: nat) | TransferFailed(index: nat) | MergeFailed

  /** What `uploadChunkFile` and `uploadSingleFile` resolve with. */
  datatype Reply = Reply(url: string, message: string)

  /** The requests a client sends, in order. */
  datatype Call = ExistsCall(name: string, md5: string) | ChunkCall(part: string) | MergeCall(name: string, md5: string)

  /** The worker for index `i`: a chunk the server reported resolves at once,
      any other is transferred. */
  function ChunkWorker(chunkIds: seq<string>, transferFails: set<nat>, i: nat): Result<TaskValue, ClientError> {
    if IsUploaded(chunkIds, i) then Ok(Skipped)
    else if i in transferFails then Err(TransferFailed(i))
    else Ok(Sent(i))
  }

  /** The session store after the parts `sent` have arrived, in that order. */
  function ApplyParts(tmp: Sessions, md5: string, file: seq<byte>, chunkSize: nat, sent: seq<nat>): Sessions
    requires chunkSize > 0
    requires forall k | 0 <= k < |sent| :: sent[k] < ChunkCount(|file|, chunkSize)
    decreases |sent|
  {
    if sent == [] then tmp
    else
      var i := sent[|sent| - 1];
      PutChunk(ApplyParts(tmp, md5, file, chunkSize, sent[..|sent| - 1]), PartName(md5, i), ChunkBytes(file, chunkSize, i))
  }

  /** The server holds chunk `i` of session `md5` when listing it. */
  ghost predicate Held(tmp: Sessions, md5: string, i: nat) {
    md5 in tmp && NatToString(i) in Listed(tmp[md5].Keys)
  }

  function ChunkCalls(md5: string, indices: seq<nat>): seq<Call> {
    seq(|indices|, k requires 0 <= k < |indices| => ChunkCall(PartName(md5, indices[k])))
  }

  /** Different indices travel under different part names. */
  lemma PartNameInjective(md5: string, i: nat, j: nat)
    ensures PartName(md5, i) == PartName(md5, j) <==> i == j
  {
    if PartName(md5, i) == PartName(md5, j) {
      var p := md5 + "-";
      assert PartName(md5, i) == p + NatToString(i);
      assert PartName(md5, j) == p + NatToString(j);
      assert NatToString(i) == PartName(md5, i)[|p|..];
      assert NatToString(j) == PartName(md5, j)[|p|..];
      NatToStringInjective(i, j);
    }
  }

  /** The pool part of `uploadFileConcurrently`: one worker per index
      0 .. n-1, at most `poolLimit` in flight. It succeeds exactly when no
      transfer that is needed fails, and then yields, per index, whether the
      chunk was skipped or sent; it rejects with a failing transfer that was
      started. `started` is how many workers the pool invoked. */
  method RunChunkPool(n: nat, chunkIds: seq<string>, poolLimit: int, transferFails: set<nat>)
    returns (r: Result<seq<TaskValue>, ClientError>, started: nat)
    ensures started <= n
    ensures r.Ok? <==> forall i | 0 <= i < n :: IsUploaded(chunkIds, i) || i !in transferFails
    ensures r.Ok? ==>
      (started == n && |r.value| == n
       && forall i | 0 <= i < n :: r.value[i] == if IsUploaded(chunkIds, i) then Skipped else Sent(i))
    ensures r.Err? ==>
      (r.error.TransferFailed? && r.error.index < started && r.error.index in transferFails
       && !IsUploaded(chunkIds, r.error.index))
  {
    var indices := ChunkIndices(n);
    IndicesAt(n);
    var worker := (i: nat) => ChunkWorker(chunkIds, transferFails, i);
    var peak;
    r, started, peak := AsyncPool(poolLimit, indices, worker);
    forall i | 0 <= i < n
      ensures worker(indices[i]) == ChunkWorker(chunkIds, transferFails, i)
      ensures worker(indices[i]).Ok? <==> IsUploaded(chunkIds, i) || i !in transferFails
    {
      assert indices[i] == i;
    }
    if forall i | 0 <= i < n :: IsUploaded(chunkIds, i) || i !in transferFails {
      assert forall i | 0 <= i < |indices| :: worker(indices[i]).Ok?;
    }
  }

  /** `uploadFileConcurrently`: the pool over all chunk indices; the workers
      that started send their chunks (see `SendStarted`). The server applies
      the arrived parts in index order; they write distinct chunk files, so
      the order does not change the result. */
  method UploadFileConcurrently(server: UploadServer, file: seq<byte>, md5: string, chunkSize: nat,
                                chunkIds: seq<string>, poolLimit: int, transferFails: set<nat>, storeFails: set<nat>)
    returns (r: Result<seq<TaskValue>, ClientError>, started: nat, attempted: seq<nat>, sent: seq<nat>)
    requires chunkSize > 0
    modifies server
    ensures started <= ChunkCount(|file|, chunkSize)
    ensures r.Ok? <==> forall i | 0 <= i < ChunkCount(|file|, chunkSize) :: IsUploaded(chunkIds, i) || i !in transferFails
    ensures r.Ok? ==> started == ChunkCount(|file|, chunkSize)
    ensures r.Err? ==>
      (r.error.TransferFailed? && r.error.index < started && r.error.index in transferFails
       && !IsUploaded(chunkIds, r.error.index))
    ensures attempted == Transferred(chunkIds, {}, started)
    ensures sent == Transferred(chunkIds, transferFails + storeFails, started)
    ensures forall k | 0 <= k < |sent| :: sent[k] < ChunkCount(|file|, chunkSize)
    ensures server.tmp == ApplyParts(old(server.tmp), md5, file, chunkSize, sent)
    ensures server.upload == old(server.upload)
  {
    var n := ChunkCount(|file|, chunkSize);
    r, started := RunChunkPool(n, chunkIds, poolLimit, transferFails);
    attempted, sent := SendStarted(server, file, md5, chunkSize, chunkIds, transferFails, storeFails, started);
  }

  /** The `uploadChunk` calls of the first `started` workers: the skipped
      chunks send nothing, the others are attempted, and those whose transfer
      does not fail and which the server manages to store arrive. A part the
      server fails to store (`storeFails`) gets the error handler's 400
      reply; `fetch` resolves with it and the client never reads its
      status. */
  method SendStarted(server: UploadServer, file: seq<byte>, md5: string, chunkSize: nat,
                     chunkIds: seq<string>, transferFails: set<nat>, storeFails: set<nat>, started: nat)
    returns (attempted: seq<nat>, sent: seq<nat>)
    requires chunkSize > 0
    requires started <= ChunkCount(|file|, chunkSize)
    modifies server
    ensures attempted == Transferred(chunkIds, {}, started)
    ensures sent == Transferred(chunkIds, transferFails + storeFails, started)
    ensures forall k | 0 <= k < |sent| :: sent[k] < started
    ensures server.tmp == ApplyParts(old(server.tmp), md5, file, chunkSize, sent)
    ensures server.upload == old(server.upload)
  {
    attempted, sent := [], [];
    var j := 0;
    while j < started
      invariant j <= started
      invariant attempted == Transferred(chunkIds, {}, j)
      invariant sent == Transferred(chunkIds, transferFails + storeFails, j)
      invariant forall k | 0 <= k < |sent| :: sent[k] < j
      invariant server.tmp == ApplyParts(old(server.tmp), md5, file, chunkSize, sent)
      invariant server.upload == old(server.upload)
    {
      attempted, sent := SendPart(server, file, md5, chunkSize, chunkIds, transferFails, storeFails, j,
                                  old(server.tmp), attempted, sent);
      j := j + 1;
    }
  }

  /** The worker of index `j`: a chunk the server reported is skipped; any
      other is sent with `uploadChunk` (it joins `attempted`), and the server
      stores it unless the transfer or the storing fails (it joins `sent`).
      `tmp0` is the session tree before the first transfer. */
  method SendPart(server: UploadServer, file: seq<byte>, md5: string, chunkSize: nat,
                  chunkIds: seq<string>, transferFails: set<nat>, storeFails: set<nat>, j: nat,
                  ghost tmp0: Sessions, attempted: seq<nat>, sent: seq<nat>)
    returns (attempted': seq<nat>, sent': seq<nat>)
    requires chunkSize > 0 && j < ChunkCount(|file|, chunkSize)
    requires attempted == Transferred(chunkIds, {}, j)
    requires sent == Transferred(chunkIds, transferFails + storeFails, j)
    requires forall k | 0 <= k < |sent| :: sent[k] < j
    requires server.tmp == ApplyParts(tmp0, md5, file, chunkSize, sent)
    modifies server
    ensures attempted' == Transferred(chunkIds, {}, j + 1)
    ensures sent' == Transferred(chunkIds, transferFails + storeFails, j + 1)
    ensures forall k | 0 <= k < |sent'| :: sent'[k] < j + 1
    ensures server.tmp == ApplyParts(tmp0, md5, file, chunkSize, sent')
    ensures server.upload == old(server.upload)
  {
    TransferredNext(chunkIds, {}, j);
    TransferredNext(chunkIds, transferFails + storeFails, j);
    attempted', sent' := attempted, sent;
    if !IsUploaded(chunkIds, j) {
      // uploadChunk({ url, chunk: file.slice(start, end), chunkIndex: j, fileMd5, fileName })
      attempted' := attempted + [j];
      if j !in transferFails {
        // fetch resolves with the reply whatever its status; it is not read
        var _ := server.Chunk(PartName(md5, j), ChunkBytes(file, chunkSize, j),
                              if j in storeFails then Some(OtherError) else None);
        if j !in storeFails {
          ApplyPartsNext(tmp0, md5, file, chunkSize, sent, j);
          sent' := sent + [j];
        }
      }
    }
  }

  lemma TransferredNext(chunkIds: seq<string>, fails: set<nat>, j: nat)
    ensures Transferred(chunkIds, fails, j + 1)
         == Transferred(chunkIds, fails, j) + if IsUploaded(chunkIds, j) || j in fails then [] else [j]
  {
  }

  /** One more arrived part is one more stored chunk. */
  lemma ApplyPartsNext(tmp: Sessions, md5: string, file: seq<byte>, chunkSize: nat, sent: seq<nat>, j: nat)
    requires chunkSize > 0
    requires forall k | 0 <= k < |sent| :: sent[k] < ChunkCount(|file|, chunkSize)
    requires j < ChunkCount(|file|, chunkSize)
    ensures ApplyParts(tmp, md5, file, chunkSize, sent + [j])
         == PutChunk(ApplyParts(tmp, md5, file, chunkSize, sent), PartName(md5, j), ChunkBytes(file, chunkSize, j))
  {
    assert (sent + [j])[..|sent|] == sent;
  }

  /** `uploadChunkFile(file)`: fingerprint, existence check, then either the
      early answer or the chunk uploads followed by one merge request.
      `calls` are the requests sent; `attempted` the chunk indices sent and
      `sent` those that the server stored. */
  method UploadChunkFile(server: UploadServer, file: seq<byte>, name: string, digest: seq<byte> -> string,
                         readFails: set<nat>, transferFails: set<nat>, storeFails: set<nat>, mergeReadFails: set<string>)
    returns (r: Result<Reply, ClientError>, calls: seq<Call>, attempted: seq<nat>, sent: seq<nat>)
    modifies server
    ensures (exists k | 0 <= k < WindowCount(|file|) :: k in readFails) ==>
      (r.Err? && r.error.FingerprintFailed? && calls == [] && sent == []
       && server.tmp == old(server.tmp) && server.upload == old(server.upload))
    ensures (forall k | 0 <= k < WindowCount(|file|) :: k !in readFails) ==>
      |calls| >= 1 && calls[0] == ExistsCall(name, digest(file))
    ensures r.Err? && r.error.FingerprintFailed? ==> exists k | 0 <= k < WindowCount(|file|) :: k in readFails
    ensures r == Ok(Reply(FileUrl(name), ALREADY_UPLOADED)) <==>
      (forall k | 0 <= k < WindowCount(|file|) :: k !in readFails) && name in old(server.upload)
    ensures (forall k | 0 <= k < WindowCount(|file|) :: k !in readFails) ==>
      ChunkedUpload(old(server.tmp), old(server.upload), server.tmp, server.upload, server.mergeOrder, file, name,
                    digest(file), transferFails, storeFails, mergeReadFails, r, calls, attempted, sent)
  {
    attempted, sent := [], [];
    var fingerprint, windows := CalcFileMd5(file, digest, readFails);
    if fingerprint.Err? {
      return Err(FingerprintFailed(fingerprint.error.window)), [], attempted, sent;
    }
    r, calls, attempted, sent := CheckAndUpload(server, file, name, fingerprint.value, transferFails, storeFails, mergeReadFails);
  }

  /** What the part of `uploadChunkFile` after the fingerprint promises, for
      the fingerprint `md5`, from the trees `tmp0` and `upload0` to `tmp` and
      `upload`:
      - the existence check comes first; "File has been uploaded" is
        answered if and only if the public file exists, and then nothing
        else is sent and nothing changes;
      - a merge request is only ever the last request;
      - `sent` are the `attempted` indices whose transfer and storing
        succeeded;
      - for a new file: a transfer fails if and only if a chunk the server
        lacks fails in transit, and the call resolves if and only if no such
        transfer fails and the merge of the session after the stored parts
        succeeds;
      - any failure leaves the sessions holding exactly the parts stored; a
        failing transfer sends no merge request and leaves the public
        directory alone; a failed merge keeps the session;
      - success follows the chunk requests and one final merge request, and
        stores the merge; when no chunk was lost, every missing chunk
        arrived. */
  ghost predicate ChunkedUpload(tmp0: Sessions, upload0: PublicFiles, tmp: Sessions, upload: PublicFiles, o: Order,
                                file: seq<byte>, name: string, md5: string,
                                transferFails: set<nat>, storeFails: set<nat>, mergeReadFails: set<string>,
                                r: Result<Reply, ClientError>, calls: seq<Call>, attempted: seq<nat>, sent: seq<nat>)
  {
    var n := ChunkCount(|file|, UPLOAD_CHUNK_SIZE);
    && |calls| >= 1 && calls[0] == ExistsCall(name, md5)
    && (r == Ok(Reply(FileUrl(name), ALREADY_UPLOADED)) <==> name in upload0)
    && (r == Ok(Reply(FileUrl(name), ALREADY_UPLOADED)) ==>
          calls == [ExistsCall(name, md5)] && sent == [] && tmp == tmp0 && upload == upload0)
    && (forall k | 0 <= k < |calls| :: calls[k].MergeCall? ==> k == |calls| - 1)
    && (forall k | 0 <= k < |sent| :: sent[k] < n)
    && (forall i: nat :: i in sent <==> i in attempted && i !in transferFails && i !in storeFails)
    && (r.Ok? ==> r.value.url == FileUrl(name))
    && (r.Err? ==> r.error.TransferFailed? || r.error == MergeFailed)
    && (name !in upload0 ==>
          && (r.Err? && r.error.TransferFailed? <==>
                exists i | 0 <= i < n :: !Held(tmp0, md5, i) && i in transferFails)
          && (r.Ok? <==>
                (forall i | 0 <= i < n :: Held(tmp0, md5, i) || i !in transferFails)
                && MergeSucceeds(ApplyParts(tmp0, md5, file, UPLOAD_CHUNK_SIZE, sent), md5, o, mergeReadFails)))
    && (r.Err? ==> tmp == ApplyParts(tmp0, md5, file, UPLOAD_CHUNK_SIZE, sent))
    && (r.Err? && r.error.TransferFailed? ==>
          && calls == [ExistsCall(name, md5)] + ChunkCalls(md5, attempted)
          && r.error.index in transferFails && !Held(tmp0, md5, r.error.index)
          && upload == upload0)
    && (r == Err(MergeFailed) ==>
          && calls == [ExistsCall(name, md5)] + ChunkCalls(md5, attempted) + [MergeCall(name, md5)]
          && Requested(tmp0, file, md5, attempted, storeFails, sent)
          && (md5 in tmp ==> upload == upload0 - {name})
          && (md5 !in tmp ==> upload == upload0))
    && (r.Ok? && r.value.message != ALREADY_UPLOADED ==>
          && r.value.message == UPLOADED
          && calls == [ExistsCall(name, md5)] + ChunkCalls(md5, attempted) + [MergeCall(name, md5)]
          && Requested(tmp0, file, md5, attempted, storeFails, sent)
          && MergedAfter(tmp0, upload0, tmp, upload, o, file, name, md5, sent))
    && ((r.Ok? && r.value.message != ALREADY_UPLOADED
         && forall i | 0 <= i < n :: Held(tmp0, md5, i) || i !in storeFails) ==>
          Uploaded(tmp0, upload0, tmp, upload, o, file, name, md5, sent))
  }

  /** The existence check of `uploadChunkFile` and what follows it, for the
      fingerprint `md5`. */
  method CheckAndUpload(server: UploadServer, file: seq<byte>, name: string, md5: string,
                        transferFails: set<nat>, storeFails: set<nat>, mergeReadFails: set<string>)
    returns (r: Result<Reply, ClientError>, calls: seq<Call>, attempted: seq<nat>, sent: seq<nat>)
    modifies server
    ensures ChunkedUpload(old(server.tmp), old(server.upload), server.tmp, server.upload, server.mergeOrder, file, name,
                          md5, transferFails, storeFails, mergeReadFails, r, calls, attempted, sent)
  {
    attempted, sent := [], [];
    var status := server.Exists(name, md5);
    if status.Found? {
      return Ok(Reply(status.url, ALREADY_UPLOADED)), [ExistsCall(name, md5)], attempted, sent;
    }
    forall i: nat ensures IsUploaded(status.chunkIds, i) <==> Held(server.tmp, md5, i) {
    }
    var rest;
    r, rest, attempted, sent := UploadChunks(server, file, name, md5, status.chunkIds, transferFails, storeFails, mergeReadFails);
    calls := [ExistsCall(name, md5)] + rest;
    assert UPLOADED != ALREADY_UPLOADED by {
      assert UPLOADED[5] != ALREADY_UPLOADED[5];
    }
  }

  /** The chunk indices of `s` are exactly those below the chunk count that
      session `md5` of `tmp0` did not hold and that are not in `lost`, in
      ascending order. */
  ghost predicate MissingChunks(tmp0: Sessions, md5: string, n: nat, s: seq<nat>, lost: set<nat>) {
    && (forall i: nat :: i in s <==> i < n && !Held(tmp0, md5, i) && i !in lost)
    && (forall k | 0 <= k < |s| :: s[k] < n)
    && (forall a, b | 0 <= a < b < |s| :: s[a] < s[b])
  }

  /** Once the pool resolved: every chunk the server did not hold was sent
      (`attempted`), and those it stored (`sent`) are all but the ones whose
      storing failed. */
  ghost predicate Requested(tmp0: Sessions, file: seq<byte>, md5: string, attempted: seq<nat>, storeFails: set<nat>, sent: seq<nat>) {
    && MissingChunks(tmp0, md5, ChunkCount(|file|, UPLOAD_CHUNK_SIZE), attempted, {})
    && MissingChunks(tmp0, md5, ChunkCount(|file|, UPLOAD_CHUNK_SIZE), sent, storeFails)
  }

  /** The state after the merge of session `md5`, once the parts `sent` have
      arrived over `tmp0`: the merged file is stored under `name` and the
      session directory is gone. */
  ghost predicate MergedAfter(tmp0: Sessions, upload0: PublicFiles, tmp: Sessions, upload: PublicFiles, o: Order,
                              file: seq<byte>, name: string, md5: string, sent: seq<nat>)
  {
    && (forall k | 0 <= k < |sent| :: sent[k] < ChunkCount(|file|, UPLOAD_CHUNK_SIZE))
    && var after := ApplyParts(tmp0, md5, file, UPLOAD_CHUNK_SIZE, sent);
    && md5 in after
    && upload == upload0[name := Merged(after[md5], SortedListing(Listed(after[md5].Keys), o))]
    && tmp == after - {md5}
  }

  /** The server's merge of session `md5` of `tmp` succeeds: the session
      directory exists and no chunk file read fails. */
  ghost predicate MergeSucceeds(tmp: Sessions, md5: string, o: Order, mergeReadFails: set<string>) {
    && md5 in tmp
    && var order := SortedListing(Listed(tmp[md5].Keys), o);
    && forall k | 0 <= k < |order| :: order[k] !in mergeReadFails
  }

  /** The state after a successful chunked upload of `file` as `name` in which
      every part arrived: the parts are exactly the chunks the server did
      not hold, in ascending order, and the merged file is stored under
      `name` while its session directory is gone. */
  ghost predicate Uploaded(tmp0: Sessions, upload0: PublicFiles, tmp: Sessions, upload: PublicFiles, o: Order,
                           file: seq<byte>, name: string, md5: string, sent: seq<nat>)
  {
    && MissingChunks(tmp0, md5, ChunkCount(|file|, UPLOAD_CHUNK_SIZE), sent, {})
    && MergedAfter(tmp0, upload0, tmp, upload, o, file, name, md5, sent)
  }

  /** The part of `uploadChunkFile` after the server answered with the chunk
      names it holds: the pool of transfers, then the merge request when the
      pool resolved. */
  method UploadChunks(server: UploadServer, file: seq<byte>, name: string, md5: string, chunkIds: seq<string>,
                      transferFails: set<nat>, storeFails: set<nat>, mergeReadFails: set<string>)
    returns (r: Result<Reply, ClientError>, calls: seq<Call>, attempted: seq<nat>, sent: seq<nat>)
    requires forall i: nat :: IsUploaded(chunkIds, i) <==> Held(server.tmp, md5, i)
    modifies server
    ensures forall k | 0 <= k < |calls| :: calls[k].MergeCall? ==> k == |calls| - 1
    ensures forall k | 0 <= k < |sent| :: sent[k] < ChunkCount(|file|, UPLOAD_CHUNK_SIZE)
    ensures forall i: nat :: i in sent <==> i in attempted && i !in transferFails && i !in storeFails
    ensures r.Err? ==> r.error.TransferFailed? || r.error == MergeFailed
    ensures r.Err? && r.error.TransferFailed? <==>
      exists i | 0 <= i < ChunkCount(|file|, UPLOAD_CHUNK_SIZE) :: !Held(old(server.tmp), md5, i) && i in transferFails
    ensures r.Ok? <==>
      (forall i | 0 <= i < ChunkCount(|file|, UPLOAD_CHUNK_SIZE) :: Held(old(server.tmp), md5, i) || i !in transferFails)
      && MergeSucceeds(ApplyParts(old(server.tmp), md5, file, UPLOAD_CHUNK_SIZE, sent), md5, server.mergeOrder, mergeReadFails)
    ensures r.Err? && r.error.TransferFailed? ==>
      (calls == ChunkCalls(md5, attempted)
       && r.error.index in transferFails && !Held(old(server.tmp), md5, r.error.index)
       && server.tmp == ApplyParts(old(server.tmp), md5, file, UPLOAD_CHUNK_SIZE, sent)
       && server.upload == old(server.upload))
    ensures r == Err(MergeFailed) ==>
      (calls == ChunkCalls(md5, attempted) + [MergeCall(name, md5)]
       && Requested(old(server.tmp), file, md5, attempted, storeFails, sent)
       && server.tmp == ApplyParts(old(server.tmp), md5, file, UPLOAD_CHUNK_SIZE, sent)
       && (md5 in server.tmp ==> server.upload == old(server.upload) - {name})
       && (md5 !in server.tmp ==> server.upload == old(server.upload)))
    ensures r.Ok? ==>
      (r.value == Reply(FileUrl(name), UPLOADED)
       && calls == ChunkCalls(md5, attempted) + [MergeCall(name, md5)]
       && Requested(old(server.tmp), file, md5, attempted, storeFails, sent)
       && MergedAfter(old(server.tmp), old(server.upload), server.tmp, server.upload, server.mergeOrder, file, name, md5, sent))
    ensures r.Ok? && (forall i | 0 <= i < ChunkCount(|file|, UPLOAD_CHUNK_SIZE) :: Held(old(server.tmp), md5, i) || i !in storeFails) ==>
      Uploaded(old(server.tmp), old(server.upload), server.tmp, server.upload, server.mergeOrder, file, name, md5, sent)
  {
    ghost var before := server.tmp;
    var pool, started;
    pool, started, attempted, sent :=
      UploadFileConcurrently(server, file, md5, UPLOAD_CHUNK_SIZE, chunkIds, POOL_LIMIT, transferFails, storeFails);
    TransferredSpec(chunkIds, {}, started);
    TransferredSpec(chunkIds, transferFails + storeFails, started);
    calls := ChunkCalls(md5, attempted);
    if pool.Err? {
      return Err(pool.error), calls, attempted, sent;
    }
    calls := calls + [MergeCall(name, md5)];
    r := RequestMerge(server, file, name, md5, chunkIds, transferFails, storeFails, before, attempted, sent, mergeReadFails);
  }

  /** The merge request of `uploadChunkFile` once the pool resolved, and the
      destructuring of its reply: the server's URL with the success message,
      or a rejection when the reply has no `data`. `tmp0` is the session
      tree before the parts `sent` arrived; `attempted` and `sent` are what
      the resolved pool sent and what the server stored. */
  method RequestMerge(server: UploadServer, file: seq<byte>, name: string, md5: string, chunkIds: seq<string>,
                      transferFails: set<nat>, storeFails: set<nat>, ghost tmp0: Sessions,
                      attempted: seq<nat>, sent: seq<nat>, mergeReadFails: set<string>)
    returns (r: Result<Reply, ClientError>)
    requires forall i: nat :: IsUploaded(chunkIds, i) <==> Held(tmp0, md5, i)
    requires forall i | 0 <= i < ChunkCount(|file|, UPLOAD_CHUNK_SIZE) :: IsUploaded(chunkIds, i) || i !in transferFails
    requires attempted == Transferred(chunkIds, {}, ChunkCount(|file|, UPLOAD_CHUNK_SIZE))
    requires sent == Transferred(chunkIds, transferFails + storeFails, ChunkCount(|file|, UPLOAD_CHUNK_SIZE))
    requires forall k | 0 <= k < |sent| :: sent[k] < ChunkCount(|file|, UPLOAD_CHUNK_SIZE)
    requires server.tmp == ApplyParts(tmp0, md5, file, UPLOAD_CHUNK_SIZE, sent)
    modifies server
    ensures Requested(tmp0, file, md5, attempted, storeFails, sent)
    ensures r.Ok? <==> MergeSucceeds(old(server.tmp), md5, server.mergeOrder, mergeReadFails)
    ensures r.Err? ==> r.error == MergeFailed
    ensures r.Ok? ==>
      (r.value == Reply(FileUrl(name), UPLOADED)
       && MergedAfter(tmp0, old(server.upload), server.tmp, server.upload, server.mergeOrder, file, name, md5, sent))
    ensures r.Ok? && (forall i | 0 <= i < ChunkCount(|file|, UPLOAD_CHUNK_SIZE) :: Held(tmp0, md5, i) || i !in storeFails) ==>
      Uploaded(tmp0, old(server.upload), server.tmp, server.upload, server.mergeOrder, file, name, md5, sent)
    ensures r.Err? ==>
      (server.tmp == old(server.tmp)
       && (md5 in server.tmp ==> server.upload == old(server.upload) - {name})
       && (md5 !in server.tmp ==> server.upload == old(server.upload)))
  {
    PoolResolvedRequested(tmp0, file, md5, chunkIds, transferFails, storeFails);
    var merge := server.ConcatRoute(name, md5, mergeReadFails);
    if merge.MergeError? {
      return Err(MergeFailed);
    }
    r := Ok(Reply(merge.url, UPLOADED));
  }

  /** When no needed transfer fails, every chunk the server did not report is
      attempted, and all but those whose storing fails arrive. */
  lemma PoolResolvedRequested(tmp0: Sessions, file: seq<byte>, md5: string, chunkIds: seq<string>,
                              transferFails: set<nat>, storeFails: set<nat>)
    requires forall i: nat :: IsUploaded(chunkIds, i) <==> Held(tmp0, md5, i)
    requires forall i | 0 <= i < ChunkCount(|file|, UPLOAD_CHUNK_SIZE) :: IsUploaded(chunkIds, i) || i !in transferFails
    ensures Requested(tmp0, file, md5, Transferred(chunkIds, {}, ChunkCount(|file|, UPLOAD_CHUNK_SIZE)), storeFails,
                      Transferred(chunkIds, transferFails + storeFails, ChunkCount(|file|, UPLOAD_CHUNK_SIZE)))
  {
    var n := ChunkCount(|file|, UPLOAD_CHUNK_SIZE);
    var attempted := Transferred(chunkIds, {}, n);
    var sent := Transferred(chunkIds, transferFails + storeFails, n);
    TransferredSpec(chunkIds, {}, n);
    TransferredSpec(chunkIds, transferFails + storeFails, n);
    forall k | 0 <= k < |attempted| ensures attempted[k] < n {
      assert attempted[k] in attempted;
    }
    forall k | 0 <= k < |sent| ensures sent[k] < n {
      assert sent[k] in sent;
    }
  }

  /** `uploadSingleFile(file)`: one request with the whole file; the reply's
      URL names the stored file. */
  method UploadSingleFile(server: UploadServer, file: seq<byte>, name: string, uuid: string)
    returns (reply: Reply)
    modifies server
    ensures server.upload == old(server.upload)[SingleName(uuid, name) := file]
    ensures server.tmp == old(server.tmp)
    ensures reply == Reply(FileUrl(SingleName(uuid, name)), UPLOADED)
  {
    var url := server.Single(uuid, name, file);
    reply := Reply(url, UPLOADED);
  }
}
