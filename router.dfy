/** The upload server: the chunk store (one directory per fingerprint under
    the temporary root, one file per chunk index), the public upload
    directory, and the routes over them. Both directory trees are in-memory
    maps from names to contents. */
module Router {
  import opened Common
  import opened Ordering

  /** The files of one session directory, by name. */
  type Session = map<string, seq<byte>>

  /** The temporary root: session directories by fingerprint. */
  type Sessions = map<string, Session>

  /** The public upload directory: finished files by name. */
  type PublicFiles = map<string, seq<byte>>

  /** Housekeeping entries that are never chunks. */
  const IGNORES: seq<string> := [".DS_Store"]

  const URL_PREFIX: string := "http://localhost:3000/upload/"

  const GENERIC_ERROR: string := "Something went wrong on file uploading. Please try again later"

  /** `http://localhost:3000/upload/${name}` */
  function FileUrl(name: string): string {
    URL_PREFIX + name
  }

  // ---------------------------------------------------------------------
  // Chunk storage (multer disk storage for /chunk)

  /** `destination`: the session directory is the part before the first '-'. */
  function ChunkDir(originalname: string): (dir: string)
    ensures '-' !in dir
    ensures originalname == dir || (|dir| < |originalname| && originalname[|dir|] == '-' && originalname[..|dir|] == dir)
  {
    SplitJoin(originalname, '-');
    var parts := Split(originalname, '-');
    assert |parts| > 1 ==> originalname == parts[0] + ['-'] + Join(parts[1..], '-');
    parts[0]
  }

  /** `filename`: the part after the first '-', or the text of `undefined`
      when there is none. */
  function ChunkFileName(originalname: string): (name: string)
    ensures '-' !in name
  {
    var parts := Split(originalname, '-');
    if |parts| >= 2 then parts[1] else "undefined"
  }

  /** For a fingerprint and an index both free of '-', the server recovers
      exactly the directory and the file name the client encoded. */
  lemma ChunkNameRoundTrip(md5: string, index: string)
    requires '-' !in md5 && '-' !in index
    ensures ChunkDir(md5 + "-" + index) == md5
    ensures ChunkFileName(md5 + "-" + index) == index
  {
    SplitPair(md5, index, '-');
    assert md5 + "-" + index == md5 + ['-'] + index;
  }

  /** The session directory of `dir`, or an empty one when there is none
      (`fse.ensureDir`). */
  function SessionOf(tmp: Sessions, dir: string): Session {
    if dir in tmp then tmp[dir] else map[]
  }

  /** Storing an uploaded chunk: the session directory is created if needed
      and the chunk file is written, replacing any file of that name. */
  function PutChunk(tmp: Sessions, originalname: string, data: seq<byte>): Sessions {
    var dir := ChunkDir(originalname);
    tmp[dir := SessionOf(tmp, dir)[ChunkFileName(originalname) := data]]
  }

  /** A stored chunk changes that one chunk file and nothing else. */
  lemma PutChunkChangesOneEntry(tmp: Sessions, originalname: string, data: seq<byte>)
    ensures var t := PutChunk(tmp, originalname, data);
      var dir := ChunkDir(originalname);
      && t.Keys == tmp.Keys + {dir}
      && (forall d | d in tmp && d != dir :: t[d] == tmp[d])
      && t[dir].Keys == SessionOf(tmp, dir).Keys + {ChunkFileName(originalname)}
      && t[dir][ChunkFileName(originalname)] == data
      && (forall f | f in SessionOf(tmp, dir) && f != ChunkFileName(originalname) :: t[dir][f] == SessionOf(tmp, dir)[f])
  {
  }

  /** Re-sending a chunk under the same name replaces it: the second upload
      wins and the first leaves no trace. */
  lemma {:induction false} PutChunkResend(tmp: Sessions, originalname: string, first: seq<byte>, second: seq<byte>)
    ensures PutChunk(PutChunk(tmp, originalname, first), originalname, second) == PutChunk(tmp, originalname, second)
  {
    var dir := ChunkDir(originalname);
    var t1 := PutChunk(tmp, originalname, first);
    assert SessionOf(t1, dir)[ChunkFileName(originalname) := second]
        == SessionOf(tmp, dir)[ChunkFileName(originalname) := second];
  }

  // ---------------------------------------------------------------------
  // Single upload (multer disk storage for /single)

  /** `${randomUUID()}-${originalname}` */
  function SingleName(uuid: string, originalname: string): string {
    uuid + "-" + originalname
  }

  /** Two single uploads of the same name get different stored names as long
      as their identifiers differ and have the same length (as UUIDs do). */
  lemma SingleNamesDiffer(uuid1: string, uuid2: string, originalname: string)
    requires |uuid1| == |uuid2| && uuid1 != uuid2
    ensures SingleName(uuid1, originalname) != SingleName(uuid2, originalname)
  {
    assert SingleName(uuid1, originalname)[..|uuid1|] == uuid1;
    assert SingleName(uuid2, originalname)[..|uuid2|] == uuid2;
  }

  /** The stored name ends with the original name, after the identifier and
      the separator. */
  lemma SingleNameKeepsOriginal(uuid: string, originalname: string)
    ensures |SingleName(uuid, originalname)| == |uuid| + 1 + |originalname|
    ensures SingleName(uuid, originalname)[|uuid| + 1..] == originalname
    ensures SingleName(uuid, originalname)[|uuid|] == '-'
  {
  }

  // ---------------------------------------------------------------------
  // Listing and merging

  /** `files.filter((file) => IGNORES.indexOf(file) === -1)` */
  function DropIgnored(files: seq<string>): seq<string>
    decreases |files|
  {
    if files == [] then []
    else
      DropIgnored(files[..|files| - 1])
      + (if files[|files| - 1] in IGNORES then [] else [files[|files| - 1]])
  }

  /** The chunk names of a directory: its entries without the housekeeping
      ones. */
  function Listed(entries: set<string>): set<string> {
    set x | x in entries && x !in IGNORES
  }

  /** Filtering keeps exactly the non-ignored names, each as often as before:
      a listing of a directory becomes a listing of its chunk names. */
  lemma {:induction false} DropIgnoredListing(files: seq<string>, entries: set<string>)
    requires IsListing(files, entries)
    ensures IsListing(DropIgnored(files), Listed(entries))
    decreases |files|
  {
    DropIgnoredMembers(files);
    DropIgnoredDistinct(files);
  }

  lemma {:induction false} DropIgnoredMembers(files: seq<string>)
    ensures forall x :: x in DropIgnored(files) <==> x in files && x !in IGNORES
    decreases |files|
  {
    if files != [] {
      var init := files[..|files| - 1];
      DropIgnoredMembers(init);
      assert files == init + [files[|files| - 1]];
    }
  }

  lemma {:induction false} DropIgnoredDistinct(files: seq<string>)
    requires Distinct(files)
    ensures Distinct(DropIgnored(files))
    decreases |files|
  {
    if files != [] {
      var init := files[..|files| - 1];
      var last := files[|files| - 1];
      assert Distinct(init);
      DropIgnoredDistinct(init);
      DropIgnoredMembers(init);
      assert last !in init;
    }
  }

  /** The bytes of the chunk files in `order`, appended one after another. */
  function Merged(chunks: Session, order: seq<string>): seq<byte>
    requires forall k | 0 <= k < |order| :: order[k] in chunks
    decreases |order|
  {
    if order == [] then []
    else Merged(chunks, order[..|order| - 1]) + chunks[order[|order| - 1]]
  }

  /** `f` is the first chunk file of `order` whose read fails. */
  predicate FirstFailing(order: seq<string>, readFails: set<string>, f: string) {
    exists k | 0 <= k < |order| :: order[k] == f && f in readFails && forall j | 0 <= j < k :: order[j] !in readFails
  }

  /** The sum of the chunk files' lengths. */
  function TotalLength(chunks: Session, order: seq<string>): nat
    requires forall k | 0 <= k < |order| :: order[k] in chunks
    decreases |order|
  {
    if order == [] then 0
    else TotalLength(chunks, order[..|order| - 1]) + |chunks[order[|order| - 1]]|
  }

  /** A merged file is as long as its chunks together, and chunk `k` sits
      right after the chunks before it. */
  lemma MergedLayout(chunks: Session, order: seq<string>)
    requires forall k | 0 <= k < |order| :: order[k] in chunks
    ensures |Merged(chunks, order)| == TotalLength(chunks, order)
    ensures forall k | 0 <= k < |order| ::
      TotalLength(chunks, order[..k]) + |chunks[order[k]]| <= |Merged(chunks, order)|
      && Merged(chunks, order)[TotalLength(chunks, order[..k])..TotalLength(chunks, order[..k]) + |chunks[order[k]]|]
         == chunks[order[k]]
  {
    MergedLength(chunks, order);
    forall k | 0 <= k < |order|
      ensures TotalLength(chunks, order[..k]) + |chunks[order[k]]| <= |Merged(chunks, order)|
      ensures Merged(chunks, order)[TotalLength(chunks, order[..k])..TotalLength(chunks, order[..k]) + |chunks[order[k]]|]
              == chunks[order[k]]
    {
      MergedChunkAt(chunks, order, k);
    }
  }

  lemma {:induction false} MergedLength(chunks: Session, order: seq<string>)
    requires forall k | 0 <= k < |order| :: order[k] in chunks
    ensures |Merged(chunks, order)| == TotalLength(chunks, order)
    decreases |order|
  {
    if order != [] {
      MergedLength(chunks, order[..|order| - 1]);
    }
  }

  /** Chunk `k` of a merged file starts where the chunks before it end. */
  lemma {:induction false} MergedChunkAt(chunks: Session, order: seq<string>, k: nat)
    requires forall j | 0 <= j < |order| :: order[j] in chunks
    requires k < |order|
    ensures TotalLength(chunks, order[..k]) + |chunks[order[k]]| <= |Merged(chunks, order)|
    ensures Merged(chunks, order)[TotalLength(chunks, order[..k])..TotalLength(chunks, order[..k]) + |chunks[order[k]]|]
            == chunks[order[k]]
    decreases |order|
  {
    var init := order[..|order| - 1];
    var x, y := Merged(chunks, init), chunks[order[|order| - 1]];
    assert Merged(chunks, order) == x + y;
    MergedLength(chunks, init);
    if k < |order| - 1 {
      MergedChunkAt(chunks, init, k);
      assert order[..k] == init[..k];
      assert order[k] == init[k];
      var a := TotalLength(chunks, order[..k]);
      AppendSlice(x, y, a, a + |y|);
    } else {
      assert order[..k] == init;
      AppendSlice(x, y, |x|, |x| + |y|);
    }
  }

  /** A slice of `x + y` that lies inside `x`, and `y` itself. */
  lemma AppendSlice(x: seq<byte>, y: seq<byte>, a: nat, b: nat)
    requires a <= b
    ensures b <= |x| ==> (x + y)[a..b] == x[a..b]
    ensures a == |x| && b == |x| + |y| ==> (x + y)[a..b] == y
  {
  }

  // ---------------------------------------------------------------------
  // Replies

  /** The data of an `/exists` reply. */
  datatype ExistsReply = Found(url: string) | Missing(chunkIds: seq<string>)

  /** The outcome of `concatChunkFiles`: done, `readdir` failed because the
      session directory is missing, or reading a chunk file failed. */
  datatype MergeOutcome = Done | NoSessionDir | ChunkReadFailed(file: string)

  /** A JSON reply with its HTTP status. */
  datatype MergeReply = MergeOk(url: string) | MergeError(status: nat, error: string)

  /** What reaches the router's error handler. */
  datatype RouteError = OtherError | MulterError(code: string)

  datatype ErrorReply = ErrorReply(status: nat, error: string)

  /** The upload limits multer reports with their own message. */
  const KNOWN_CODES: set<string> := {"LIMIT_FILE_SIZE", "LIMIT_FILE_COUNT", "LIMIT_UNEXPECTED_FILE"}

  /** The error handler: always status 400; the three limit codes get their
      own message, anything else the generic one. */
  function HandleError(e: RouteError): (reply: ErrorReply)
    ensures reply.status == 400
    ensures reply.error == GENERIC_ERROR <==> !(e.MulterError? && e.code in KNOWN_CODES)
    ensures e == MulterError("LIMIT_FILE_SIZE") ==> reply.error == "file is too large"
    ensures e == MulterError("LIMIT_FILE_COUNT") ==> reply.error == "File limit reached"
    ensures e == MulterError("LIMIT_UNEXPECTED_FILE") ==> reply.error == "File must be an image"
  {
    if !e.MulterError? then ErrorReply(400, GENERIC_ERROR)
    else if e.code == "LIMIT_FILE_SIZE" then ErrorReply(400, "file is too large")
    else if e.code == "LIMIT_FILE_COUNT" then ErrorReply(400, "File limit reached")
    else if e.code == "LIMIT_UNEXPECTED_FILE" then ErrorReply(400, "File must be an image")
    else ErrorReply(400, GENERIC_ERROR)
  }

  /** Different limit codes never share a message. */
  lemma HandleErrorDistinguishesCodes(c1: string, c2: string)
    requires c1 in KNOWN_CODES && c2 in KNOWN_CODES && c1 != c2
    ensures HandleError(MulterError(c1)).error != HandleError(MulterError(c2)).error
  {
  }

  // ---------------------------------------------------------------------
  // The server state and its routes

  class UploadServer {
    /** The temporary root `tmp/`. */
    var tmp: Sessions
    /** The public directory `public/upload/`. */
    var upload: PublicFiles
    /** The comparator of the merge's `sort()`: `Lexicographic` as the
        repository has it, `Numeric` for the corrected server. */
    const mergeOrder: Order

    constructor (sessions: Sessions, files: PublicFiles, order: Order)
      ensures tmp == sessions && upload == files && mergeOrder == order
    {
      tmp := sessions;
      upload := files;
      mergeOrder := order;
    }

    /** `fsp.readdir(dir)`: the entries in an order the file system chooses;
        `None` when the directory does not exist. */
    method ReadDir(dir: string) returns (files: Option<seq<string>>)
      ensures dir !in tmp ==> files == None
      ensures dir in tmp ==> files.Some? && IsListing(files.value, tmp[dir].Keys)
    {
      if dir !in tmp {
        return None;
      }
      var rest := tmp[dir].Keys;
      var acc: seq<string> := [];
      while rest != {}
        invariant rest <= tmp[dir].Keys
        invariant Distinct(acc)
        invariant forall x :: x in acc <==> x in tmp[dir].Keys && x !in rest
        decreases rest
      {
        var f :| f in rest;
        acc := acc + [f];
        rest := rest - {f};
      }
      files := Some(acc);
    }

    /** GET /exists: a finished file of that name wins; otherwise the chunk
        names of the session directory, or none when there is none. */
    method Exists(name: string, md5: string) returns (reply: ExistsReply)
      ensures name in upload ==> reply == Found(FileUrl(name))
      ensures name !in upload && md5 !in tmp ==> reply == Missing([])
      ensures name !in upload && md5 in tmp ==>
        reply.Missing? && IsListing(reply.chunkIds, Listed(tmp[md5].Keys))
    {
      if name in upload {
        return Found(FileUrl(name));
      }
      var chunkIds: seq<string> := [];
      if md5 in tmp {
        var files := ReadDir(md5);
        DropIgnoredListing(files.value, tmp[md5].Keys);
        chunkIds := DropIgnored(files.value);
      }
      reply := Missing(chunkIds);
    }

    /** POST /chunk: stores the chunk and echoes its name. `failure` is the
        error multer raises while storing the part, if any (the disk write
        failing, a limit exceeded); it reaches the error handler, which
        answers 400 and leaves the sessions as they were. */
    method Chunk(originalname: string, data: seq<byte>, failure: Option<RouteError>)
      returns (reply: Result<string, ErrorReply>)
      modifies this
      ensures failure.None? ==> reply == Ok(originalname) && tmp == PutChunk(old(tmp), originalname, data)
      ensures failure.Some? ==> reply == Err(HandleError(failure.value)) && reply.error.status == 400 && tmp == old(tmp)
      ensures upload == old(upload)
    {
      if failure.Some? {
        return Err(HandleError(failure.value));
      }
      tmp := PutChunk(tmp, originalname, data);
      reply := Ok(originalname);
    }

    /** POST /single: stores the file under a fresh identifier prefix and
        returns its URL. */
    method Single(uuid: string, originalname: string, data: seq<byte>) returns (url: string)
      modifies this
      ensures upload == old(upload)[SingleName(uuid, originalname) := data]
      ensures tmp == old(tmp)
      ensures url == FileUrl(SingleName(uuid, originalname))
    {
      var filename := SingleName(uuid, originalname);
      upload := upload[filename := data];
      url := FileUrl(filename);
    }

    /** The `try` block of `concatChunkFiles`: the write stream creates (or
        truncates) the target, each chunk file of `order` is read and
        appended in turn, and the first read that fails removes the target. */
    method AppendChunks(targetPath: string, session: Session, order: seq<string>, readFails: set<string>)
      returns (failed: Option<string>)
      requires forall k | 0 <= k < |order| :: order[k] in session
      modifies this`upload
      ensures failed.None? <==> forall k | 0 <= k < |order| :: order[k] !in readFails
      ensures failed.None? ==> upload == old(upload)[targetPath := Merged(session, order)]
      ensures failed.Some? ==>
        (FirstFailing(order, readFails, failed.value) && upload == old(upload) - {targetPath})
    {
      // fs.createWriteStream(targetPath)
      upload := upload[targetPath := []];
      var k := 0;
      while k < |order|
        invariant k <= |order|
        invariant forall j | 0 <= j < k :: order[j] !in readFails
        invariant upload == old(upload)[targetPath := Merged(session, order[..k])]
      {
        if order[k] in readFails {
          // catch: fse.remove(targetPath), then rethrow
          upload := upload - {targetPath};
          assert FirstFailing(order, readFails, order[k]) by { assert order[k] == order[k]; }
          return Some(order[k]);
        }
        assert order[..k + 1][..k] == order[..k];
        upload := upload[targetPath := upload[targetPath] + session[order[k]]];
        k := k + 1;
      }
      assert order[..k] == order;
      failed := None;
    }

    /** The chunk files of a directory listing in merge order: the
        housekeeping entries dropped, the rest sorted with `mergeOrder`. */
    method SortedChunks(files: seq<string>, entries: set<string>) returns (order: seq<string>)
      requires IsListing(files, entries)
      ensures order == SortedListing(Listed(entries), mergeOrder)
      ensures forall k | 0 <= k < |order| :: order[k] in entries
    {
      var kept := DropIgnored(files);
      DropIgnoredListing(files, entries);
      SortListing(kept, Listed(entries), mergeOrder);
      order := Sort(kept, mergeOrder);
    }

    /** `concatChunkFiles(sourceDir, targetPath)`: appends the chunk files of
        `sourceDir` in sorted order to the target, then removes the session
        directory; if reading a chunk file fails the target is removed and
        the session is left as it was. `readFails` are the chunk files whose
        read fails. `order` is the merge order used. */
    method ConcatChunkFiles(sourceDir: string, targetPath: string, readFails: set<string>)
      returns (outcome: MergeOutcome, order: seq<string>)
      modifies this
      ensures sourceDir !in old(tmp) ==> outcome == NoSessionDir && tmp == old(tmp) && upload == old(upload)
      ensures sourceDir in old(tmp) ==> order == SortedListing(Listed(old(tmp)[sourceDir].Keys), mergeOrder)
      ensures outcome == Done <==> sourceDir in old(tmp) && forall k | 0 <= k < |order| :: order[k] !in readFails
      ensures outcome == Done ==>
        (upload == old(upload)[targetPath := Merged(old(tmp)[sourceDir], order)]
         && tmp == old(tmp) - {sourceDir})
      ensures sourceDir in old(tmp) && outcome != Done ==>
        (outcome.ChunkReadFailed? && FirstFailing(order, readFails, outcome.file)
         && upload == old(upload) - {targetPath} && tmp == old(tmp))
    {
      var listing := ReadDir(sourceDir);
      if listing.None? {
        return NoSessionDir, [];
      }
      var session := tmp[sourceDir];
      order := SortedChunks(listing.value, session.Keys);
      var failed := AppendChunks(targetPath, session, order, readFails);
      if failed.Some? {
        return ChunkReadFailed(failed.value), order;
      }
      // fse.remove(sourceDir)
      tmp := tmp - {sourceDir};
      outcome := Done;
    }

    /** GET /concatChunkFiles: merges the session of `md5` into the public
        file `name` in the server's merge order, answering the file's
        URL, or 400 with the generic message when the merge throws. */
    method ConcatRoute(name: string, md5: string, readFails: set<string>) returns (reply: MergeReply)
      modifies this
      ensures md5 !in old(tmp) ==> reply == MergeError(400, GENERIC_ERROR) && tmp == old(tmp) && upload == old(upload)
      ensures md5 in old(tmp) ==>
        var order := SortedListing(Listed(old(tmp)[md5].Keys), mergeOrder);
        if forall k | 0 <= k < |order| :: order[k] !in readFails then
          reply == MergeOk(FileUrl(name))
          && upload == old(upload)[name := Merged(old(tmp)[md5], order)]
          && tmp == old(tmp) - {md5}
        else
          reply == MergeError(400, GENERIC_ERROR)
          && upload == old(upload) - {name}
          && tmp == old(tmp)
    {
      var outcome, order := ConcatChunkFiles(md5, name, readFails);
      if outcome == Done {
        reply := MergeOk(FileUrl(name));
      } else {
        reply := MergeError(400, GENERIC_ERROR);
      }
    }
  }
}
