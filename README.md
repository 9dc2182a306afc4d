# Resumable chunked upload, modelled in Dafny

This project models the resumable chunked-upload protocol of a small
Remix/Express application.

The **client** (`app/utils/uploadFile.ts`) works in four steps:
- It fingerprints a file by feeding 2 MiB windows, in order, into one
  incremental MD5 state.
- It asks the server whether the file, or some of its chunks, is already
  there.
- It sends the missing 1 MiB chunks through a bounded promise pool. Each
  chunk travels as the part `md5-index`.
- It asks the server to merge the chunks.

The **server** (`file-upload-router.ts`) has four parts:
- It stores each part as file `index` in the session directory `tmp/md5`.
- It answers the existence check from the public upload directory and the
  session directory.
- It concatenates the session's chunk files, after sorting their names, into
  the public file. It removes the session on success and the target on
  failure.
- It maps upload errors to messages.

How the model is organised:
- Both directory trees are in-memory maps.
- The server is a class, `Router.UploadServer`. Its routes are methods that
  update those maps.
- The client's loops are methods with loop invariants: the windowed read in
  `calcFileMD5`, the `for` loop of `asyncPool`, and the chunk transfers.
- The chunk plan, the naming, the listing filter, the comparator and the
  error mapping are functions, with lemmas about them.

Modules:
- `Common`: bytes, results, the decimal rendering of indices, and
  `String.prototype.split`.
- `Ordering`: JavaScript string comparison, the merge comparator, a sort, and
  the uniqueness of a sorted listing.
- `ChunkPlan`: chunk count, byte ranges, the skip rule and part names.
- `Fingerprint`: the `calcFileMD5` read loop and the MD5 accumulator.
- `Pool`: `asyncPool`.
- `Router`: the server.
- `Client`: `uploadFileConcurrently`, `uploadChunkFile` and
  `uploadSingleFile`.
- `Resume`: end-to-end properties of a complete upload, resumed or not, and
  the merge-order finding below.

The model takes some things as parameters:
- The environment's choices are parameters or nondeterministic choices:
  - which window reads fail;
  - which chunk transfers fail;
  - which chunk-file reads fail during the merge;
  - the order `readdir` returns entries in;
  - which in-flight task settles first.
- The MD5 digest is a function parameter `digest` of the appended bytes.
- The UUID of a single upload is a parameter.

The server's comparator is the field `UploadServer.mergeOrder`:
- `Lexicographic` is the code as written: `(a, b) => (a > b ? 1 : a < b ? -1 : 0)` on strings.
- `Numeric` is the corrected merge order.

Two facts about the promise pool shape the model of its error path:
- A rejection seen by `Promise.race` ends the loop, and `Promise.all` rejects
  when any task rejects. A failing transfer therefore stops the pool from
  starting further tasks (`Pool.AsyncPool`).
- The concurrency limit is not checked. With a limit of 0 or less one task
  runs at a time.

A chunk can fail in two ways:
- Its transfer fails (`transferFails`). `fetch` rejects, and so does the pool.
  The model takes such a chunk as never stored. A transfer that rejects only
  after the server stored the part is listed under "## Left out".
- The server fails to store it (`storeFails`): the disk write fails or a
  limit is exceeded. Multer's error reaches the router's error handler,
  which answers 400. `fetch` resolves with that
  reply and the client never reads its status (uploadFile.ts:127-133,
  :155-158), so the pool resolves and the merge runs on a session without
  that chunk. `Resume.LostChunkNotMerged` shows that the chunk is then
  missing from the merged file. The success properties of `uploadChunkFile`
  are stated for uploads in which no needed chunk was lost.

## Model

| member | source | states |
|---|---|---|
| Common.NatToStringDigits | app/utils/uploadFile.ts:120 | `i.toString()` is a non-empty string of decimal digits, so it never contains the separator '-'; it starts with '0' if and only if the index is zero, so it has no leading zero |
| Common.NatToString | app/utils/uploadFile.ts:120 | `i.toString()` for an index; its partner lemmas `Common.NatToStringDigits`, `Common.DecimalRoundTrip` and `Common.NatToStringInjective` show it is a non-empty digit string that reads back as `i` and that differs for different indices |
| Common.DecimalRoundTrip | app/utils/uploadFile.ts:120 | reading the decimal rendering of an index back gives the index |
| Common.NatToStringInjective | app/utils/uploadFile.ts:120 | two indices have the same decimal name if and only if they are equal |
| Common.SmallNatToString | app/utils/uploadFile.ts:120 | an index below ten is rendered as a single digit |
| Common.Split | file-upload-router.ts:18 | `split` yields at least one piece and no piece contains the separator |
| Common.SplitJoin | file-upload-router.ts:18 | joining the pieces of `split` with the separator gives back the original name |
| Common.SplitWithoutSeparator | file-upload-router.ts:24 | a name without the separator splits into itself alone |
| Common.SplitPair | file-upload-router.ts:18-25 | `a + "-" + b`, with neither part containing '-', splits into exactly `[a, b]` |
| Ordering.LexIrreflexive | file-upload-router.ts:109 | no name is less than itself under JavaScript string `<` |
| Ordering.LexTransitive | file-upload-router.ts:109 | string `<` is transitive |
| Ordering.LexTotal | file-upload-router.ts:109 | of two different names one is less than the other |
| Ordering.LexLess | file-upload-router.ts:109 | JavaScript string `<`; its partner lemmas `Ordering.LexIrreflexive`, `Ordering.LexTransitive` and `Ordering.LexTotal` show it is a strict total order |
| Ordering.Compare | file-upload-router.ts:109 | the merge's comparator; its partner lemmas `Ordering.CompareConsistent` and `Ordering.LexLessIsCompare` show it answers -1, 0 or 1, 0 only for equal names, negative exactly when the first name is less |
| Ordering.CompareConsistent | file-upload-router.ts:109 | the comparator answers 0 exactly on equal names, is antisymmetric in sign, and answers only -1, 0 or 1 |
| Ordering.LexLessIsCompare | file-upload-router.ts:109 | the comparator is negative exactly when the first name is less as a string |
| Ordering.LessStrictTotal | file-upload-router.ts:109 | the lexicographic and the numeric merge orders are both strict total orders |
| Ordering.TenBeforeTwo | file-upload-router.ts:109 | the comparator puts "10" before "2"; the numeric order puts "2" before "10" |
| Ordering.Sort | file-upload-router.ts:105-109 | the sorted names are a permutation of the input, ascending, and strictly ascending when the names are distinct |
| Ordering.SortedListingUnique | file-upload-router.ts:105-109 | a set of names has only one strictly ascending listing, so the merge order depends neither on `readdir`'s order nor on the sort algorithm |
| Ordering.SortedListing | file-upload-router.ts:105-109 | the merge order of a set of names lists each name once and is strictly ascending |
| Ordering.SortListing | file-upload-router.ts:104-109 | sorting any listing of a directory gives that unique sorted listing |
| ChunkPlan.ChunkCountIsCeiling | app/utils/uploadFile.ts:116-117 | the chunk count is the ceiling of size over chunk size: `n` chunks cover the file, `n - 1` do not, and only the empty file has none |
| ChunkPlan.ChunkCount | app/utils/uploadFile.ts:116-117 | `Math.ceil(fileSize / chunkSize)` on integers; its partner `ChunkPlan.ChunkCountIsCeiling` shows it is the least number of chunks that covers the file |
| ChunkPlan.ChunkIndices | app/utils/uploadFile.ts:118 | the pool's task list; its partners `ChunkPlan.IndicesAt` and `ChunkPlan.TaskList` show it holds 0 .. n-1 in order |
| ChunkPlan.ChunkStart | app/utils/uploadFile.ts:124 | the first byte of chunk `i`; `ChunkPlan.ChunkRange` shows where each chunk lies |
| ChunkPlan.ChunkEnd | app/utils/uploadFile.ts:125 | the end of chunk `i`, the file size for the last one; `ChunkPlan.ChunkRange` shows each chunk ends where the next starts |
| ChunkPlan.ChunkBytes | app/utils/uploadFile.ts:126 | `file.slice(start, end)`; `ChunkPlan.ChunksReassemble` shows the chunks concatenated in index order are the file |
| ChunkPlan.IsUploaded | app/utils/uploadFile.ts:120 | the skip rule; `ChunkPlan.ResumeSendsMissing` shows exactly the unreported indices are sent |
| ChunkPlan.PartName | app/utils/uploadFile.ts:151 | `fileMd5 + "-" + chunkIndex`; `Client.PartNameInjective` and `Router.ChunkNameRoundTrip` show distinct indices get distinct names and the server recovers the fingerprint and the index |
| ChunkPlan.Transferred | app/utils/uploadFile.ts:119-133 | the indices a pool run sends or stores; `ChunkPlan.TransferredSpec` characterises them |
| ChunkPlan.TaskList | app/utils/uploadFile.ts:116-118 | the pool gets exactly the indices 0 .. n-1 in ascending order, and nothing for a zero-byte file |
| ChunkPlan.IndicesAt | app/utils/uploadFile.ts:118 | `Array.from({ length: n }, (_, i) => i)` has length `n` and `i` at position `i` |
| ChunkPlan.ChunkRange | app/utils/uploadFile.ts:124-125 | each chunk is a non-empty range inside the file; all but the last are `chunkSize` long, the last is `fileSize - (n-1) * chunkSize` and at most `chunkSize`; each ends where the next starts, and the last ends at the end of the file |
| ChunkPlan.FiveMegabyteExample | app/utils/uploadFile.ts:59 | 5,000,000 bytes in 1 MiB chunks give 5 chunks, the last 805,696 bytes long |
| ChunkPlan.ChunksTile | app/utils/uploadFile.ts:124-126 | the first `k` chunks are exactly the file's prefix up to chunk `k`, and all of them are the whole file |
| ChunkPlan.ChunkStep | app/utils/uploadFile.ts:124-126 | appending chunk `i` to the prefix before it extends the prefix to the start of chunk `i + 1`, or to the end of the file |
| ChunkPlan.ChunksReassemble | app/utils/uploadFile.ts:124-126 | the chunk slices concatenated in index order give back the file: no gap, no overlap |
| ChunkPlan.TransferredSpec | app/utils/uploadFile.ts:119-133 | the transferred indices are those not reported by the server and not failing, each once, in ascending order |
| ChunkPlan.ResumeSendsMissing | app/utils/uploadFile.ts:120-123 | when the server reports the names of a set of indices, exactly the other indices are sent |
| Fingerprint.WindowsNeededBounds | app/utils/uploadFile.ts:8 | `Math.ceil(size / 2097152)` windows cover the file and one fewer do not |
| Fingerprint.WindowsNeeded | app/utils/uploadFile.ts:8 | `Math.ceil(file.size / chunkSize)` for 2 MiB windows; `Fingerprint.WindowsNeededBounds` shows it is the least number of windows that covers the file |
| Fingerprint.WindowEnd | app/utils/uploadFile.ts:33-34 | the end of window `k`, clipped to the file size; `Fingerprint.WindowsTile` shows the windows tile the file |
| Fingerprint.Windows | app/utils/uploadFile.ts:31-35 | the windows `loadNext` reads, in order; `Fingerprint.WindowsTile` and `Fingerprint.AppendedWindowsAreFile` show they cover the file once |
| Fingerprint.WindowsTile | app/utils/uploadFile.ts:31-36 | the read windows start at 0 and end at the file's end; each is at most 2 MiB and starts where the previous ended; there are `ceil(size / 2 MiB)` of them, and one empty window for an empty file |
| Fingerprint.WindowIsChunk | app/utils/uploadFile.ts:32-34 | for a non-empty file, window `k` is the range of chunk `k` with a 2 MiB chunk size |
| Fingerprint.AppendedIsReassembled | app/utils/uploadFile.ts:13-35 | the bytes of the first `k` windows are the first `k` 2 MiB chunks |
| Fingerprint.AppendedWindowsAreFile | app/utils/uploadFile.ts:7-37 | all windows appended in reading order give back the whole file, every byte exactly once |
| Fingerprint.Md5Accumulator.constructor | app/utils/uploadFile.ts:10 | a new accumulator has been fed nothing |
| Fingerprint.Md5Accumulator.Append | app/utils/uploadFile.ts:16 | appending adds the buffer after everything appended before |
| Fingerprint.Md5Accumulator.End | app/utils/uploadFile.ts:22 | `spark.end(false)`: the digest of everything appended; `Fingerprint.CalcFileMd5` shows it is the digest of the whole file once every window is read |
| Fingerprint.CalcFileMd5 | app/utils/uploadFile.ts:5-38 | reads a prefix of the windows in order; it resolves if and only if no window read fails, with the digest of the whole file after reading all windows; otherwise it rejects at the first failing window |
| Pool.AsyncPool | app/utils/uploadFile.ts:75-97 | starts a prefix of the items, in order; never more than `max(concurrency, 1)` in flight, and at least one when there is work; resolves if and only if every worker fulfils, then with one result per item in input order; a rejection is that of a started worker |
| Router.ChunkNameRoundTrip | file-upload-router.ts:16-27 | for a fingerprint and an index without '-', the server's directory is the fingerprint and its file name is the index |
| Router.FileUrl | file-upload-router.ts:139 | the public URL of a stored name; `Router.UploadServer.Exists`, `Single` and `ConcatRoute` answer it |
| Router.ChunkDir | file-upload-router.ts:18-19 | the session directory of a part is free of '-' and is the whole part name or the part of it before the first '-' |
| Router.ChunkFileName | file-upload-router.ts:24-25 | the chunk file name of a part is free of '-'; `Router.ChunkNameRoundTrip` shows it is the index the client sent |
| Router.PutChunk | file-upload-router.ts:16-27 | storing a part in the disk storage; `Router.PutChunkChangesOneEntry` and `Router.PutChunkResend` show it writes one chunk file and a re-send replaces it |
| Router.PutChunkChangesOneEntry | file-upload-router.ts:16-27 | storing a chunk creates its session directory if needed and writes that one chunk file; every other directory and file is unchanged |
| Router.PutChunkResend | file-upload-router.ts:23-26 | a chunk re-sent under the same name replaces the first copy, which leaves no trace |
| Router.SingleNamesDiffer | file-upload-router.ts:33-36 | two single uploads of one name with different same-length identifiers get different stored names |
| Router.SingleName | file-upload-router.ts:35 | `${randomUUID()}-${originalname}`; `Router.SingleNameKeepsOriginal` and `Router.SingleNamesDiffer` show it keeps the original name and differs for different identifiers |
| Router.SingleNameKeepsOriginal | file-upload-router.ts:33-36 | the stored name is the identifier, '-', then the original name |
| Router.DropIgnoredMembers | file-upload-router.ts:64-66 | the filter keeps exactly the names that are not `.DS_Store` |
| Router.DropIgnored | file-upload-router.ts:64-66 | the `.DS_Store` filter; `Router.DropIgnoredMembers` and `Router.DropIgnoredDistinct` show it keeps exactly the other names, each once |
| Router.DropIgnoredDistinct | file-upload-router.ts:64-66 | filtering distinct names leaves distinct names |
| Router.DropIgnoredListing | file-upload-router.ts:63-66 | filtering a directory listing gives a listing of its chunk names |
| Router.MergedLayout | file-upload-router.ts:110-115 | the merged file's length is the sum of the chunk lengths, and each chunk sits right after the chunks before it |
| Router.Merged | file-upload-router.ts:110-115 | the target after the chunk files are appended in order; `Router.MergedLayout` shows where each chunk lands |
| Router.HandleError | file-upload-router.ts:149-176 | always status 400; the three limit codes get "file is too large", "File limit reached" and "File must be an image"; the generic message is used if and only if the error is not one of them |
| Router.HandleErrorDistinguishesCodes | file-upload-router.ts:155-171 | different limit codes never share a message |
| Router.UploadServer.constructor | file-upload-router.ts:9-11 | the server starts with the given session tree, public directory and merge order |
| Router.UploadServer.ReadDir | file-upload-router.ts:63 | a missing directory gives no listing; an existing one lists each entry once, in an order the file system chooses |
| Router.UploadServer.Exists | file-upload-router.ts:46-76 | an existing public file answers its URL; otherwise the answer is the session's entries without `.DS_Store`, or no entries when there is no session directory |
| Router.UploadServer.Chunk | file-upload-router.ts:78-83 | when storing succeeds, writes the part into its session and echoes its name; when multer's storage fails, answers the error handler's 400 reply and leaves the sessions unchanged; the public directory is never touched |
| Router.UploadServer.Single | file-upload-router.ts:85-92 | stores the file as `uuid-originalname`, leaves the sessions alone, and answers that name's URL |
| Router.UploadServer.AppendChunks | file-upload-router.ts:110-122 | if no chunk read fails, the target holds the chunks' bytes in the given order; otherwise the first failing chunk in that order is reported (every chunk before it was read) and the target is removed |
| Router.UploadServer.SortedChunks | file-upload-router.ts:104-109 | the chunk names of a listing, without `.DS_Store`, in the unique ascending order of the merge comparator |
| Router.UploadServer.ConcatChunkFiles | file-upload-router.ts:103-123 | without a session directory nothing changes; otherwise the chunk names are merged in sorted order; on success the target is the merge and the session is removed; on failure the first failing chunk is reported, the target removed and the session kept |
| Router.UploadServer.ConcatRoute | file-upload-router.ts:125-147 | on success it answers the file's URL, with the target and the session as in the merge; when the merge throws it answers 400 with the generic message, the target removed and the sessions unchanged |
| Client.PartNameInjective | app/utils/uploadFile.ts:151 | two indices travel under the same part name if and only if they are equal |
| Client.ChunkWorker | app/utils/uploadFile.ts:119-134 | the pool's worker for index `i`; `Client.RunChunkPool` shows the pool over it resolves exactly when no unreported index fails |
| Client.RunChunkPool | app/utils/uploadFile.ts:116-134 | the pool over the chunk indices resolves if and only if no needed transfer fails, then with "skipped" for each reported chunk and "sent" for every other; otherwise it rejects with a started, failing, unreported index |
| Client.SendStarted | app/utils/uploadFile.ts:120-133 | every started index the server did not report is attempted once, in index order; those whose transfer and storing both succeed store their chunk's bytes under their part name, and no other part changes the sessions; the public directory is unchanged |
| Client.SendPart | app/utils/uploadFile.ts:119-133 | one worker: the index is attempted exactly when the server did not report it, and stored exactly when its transfer and its storing succeed, which writes its part and nothing else |
| Client.UploadFileConcurrently | app/utils/uploadFile.ts:99-135 | resolves if and only if no needed transfer fails, and then has started every index; a rejection names a started, failing, unreported index; the indices attempted and stored follow the skip rule; the sessions gain exactly the stored parts |
| Client.UploadChunks | app/utils/uploadFile.ts:54-72 | it rejects with a failed transfer if and only if a chunk the server lacks fails in transit, and then sends no merge request, keeps the stored parts and leaves the public directory alone; it resolves if and only if no such transfer fails and the merge of the session after the stored parts succeeds; otherwise the single final merge request fails and the session is kept; success stores the merge, and every missing chunk arrived when none was lost |
| Client.RequestMerge | app/utils/uploadFile.ts:64-72 | once the pool resolved, every missing chunk was attempted and all but the lost ones arrived; it resolves if and only if the server's merge succeeds (the session exists and no chunk read fails), then with the URL and "File uploaded successfully" and the merge of the session stored; otherwise it rejects, keeps the session and removes only the target |
| Client.PoolResolvedRequested | app/utils/uploadFile.ts:119-133 | when no needed transfer fails, the attempted chunks are exactly the missing ones and the stored ones are those not lost, both in ascending order |
| Client.UploadChunkFile | app/utils/uploadFile.ts:41-73 | if and only if a window read fails, it rejects with a fingerprint failure, sends nothing and changes nothing; otherwise it sends the existence check first and keeps every promise of `Client.ChunkedUpload` for the fingerprint of the file |
| Client.CheckAndUpload | app/utils/uploadFile.ts:45-73 | keeps `Client.ChunkedUpload`: "File has been uploaded" is answered if and only if the public file exists, and then nothing else is sent and nothing changes; a merge request is only ever the last request; for a new file it resolves if and only if no needed transfer fails and the server's merge succeeds, and rejects with a failed transfer if and only if a needed transfer fails; any failure leaves the sessions holding exactly the parts stored; a failed merge keeps the session; "File uploaded successfully" follows the chunk requests of the missing chunks and one final merge request, and, when no chunk was lost, stores the merge of the complete session |
| Client.UploadSingleFile | app/utils/uploadFile.ts:161-182 | the whole file is stored as `uuid-name` and the reply is that file's URL with "File uploaded successfully" |
| Resume.NameNotIgnored | file-upload-router.ts:11 | a decimal chunk name is never the ignored `.DS_Store` |
| Resume.ChunkNamesListing | file-upload-router.ts:18-25 | the names of chunks 0 .. n-1 in index order list each chunk name once |
| Resume.SentSessionSpec | file-upload-router.ts:23-26 | the parts that arrive write exactly their own chunk files, each with its chunk's bytes |
| Resume.PutPartSession | file-upload-router.ts:16-27 | storing part `md5-i` writes chunk file `i` of session `md5` |
| Resume.ApplyPartsSession | file-upload-router.ts:16-27 | after the parts arrive, session `md5` is what it held plus their chunk files |
| Resume.ResumeCompletesSession | app/utils/uploadFile.ts:119-133 | if what a session held from an earlier attempt is right, then after the missing chunks arrive it holds exactly the chunks of the file |
| Resume.ApplyPartsKeepsConsistent | file-upload-router.ts:16-27 | storing parts keeps a right session right, so what a failed attempt leaves can be resumed from; a missing session is right trivially |
| Resume.LostChunkNotMerged | app/utils/uploadFile.ts:127-133 | a chunk that was sent but not stored is absent from the session and from every merge order, and the session is not complete |
| Resume.MergeInIndexOrder | file-upload-router.ts:110-115 | merging a complete session in index order gives the chunks reassembled |
| Resume.NamesNumericallyAscending | file-upload-router.ts:109 | chunk names in index order are strictly ascending numerically |
| Resume.NamesLexAscendingUpToTen | file-upload-router.ts:109 | up to ten chunks, names in index order are strictly ascending as strings |
| Resume.MergeRestores | file-upload-router.ts:103-123 | a merge order in which the index order is ascending restores the file from a complete session |
| Resume.NumericMergeRestoresFile | file-upload-router.ts:105-115 | with the numeric comparator, every complete session merges back into its file |
| Resume.LexMergeRestoresUpToTenChunks | file-upload-router.ts:105-115 | the comparator as written restores files of at most ten chunks |
| Resume.ElevenNamesInStringOrder | file-upload-router.ts:105-109 | the names of eleven chunks sort as strings into "0", "1", "10", "2", …, "9" |
| Resume.StringOrderOfElevenChunks | file-upload-router.ts:105-109 | the merge as written takes chunk "10" third |
| Resume.LexMergeScramblesElevenChunks | file-upload-router.ts:105-115 | with the comparator as written, a complete eleven-chunk session whose chunks 2 and 10 start differently does not merge back into its file |
| Resume.CorrectedServerRestoresFile | app/utils/uploadFile.ts:41-73 | with the numeric merge, every successful chunked upload, resumed or fresh, stores exactly the uploaded file, provided that what an earlier attempt left is right |
| Resume.RetryRestoresFile | app/utils/uploadFile.ts:41-73 | after a failed attempt, whose stored parts are what it leaves, a successful retry without lost chunks stores exactly the file on the corrected server |
| Resume.UploadTwice | app/utils/uploadFile.ts:41-73 | two calls of `uploadChunkFile` on the corrected server: when the first fails and the second succeeds losing no chunk, the public file is exactly the uploaded one |
| Resume.SessionExistsAfterParts | file-upload-router.ts:16-27 | once every chunk a session lacks has arrived, a non-empty file has a session directory to merge |
| Resume.FaultFreeUpload | app/utils/uploadFile.ts:41-73 | a new, non-empty file uploaded with nothing failing is answered with its URL and "File uploaded successfully", and the server holds the merge of the session completed by the missing chunks |
| Resume.CorrectedServerStoresFaultFreeUpload | app/utils/uploadFile.ts:41-73 | on the corrected server such an upload succeeds and stores exactly the file, provided that what an earlier attempt left is right |
| Resume.AsWrittenServerRestoresSmallFiles | app/utils/uploadFile.ts:41-73 | the server as written stores exactly the uploaded file when it is at most 10 MiB |
| Resume.AsWrittenServerScramblesElevenMiB | file-upload-router.ts:105-115 | the server as written stores a fresh 11 MiB upload with its last MiB in third place, which is not the uploaded file; `Resume.AsWrittenServerAcceptsScrambledElevenMiB` shows such an upload, with nothing failing, is answered with success |
| Resume.AsWrittenServerAcceptsScrambledElevenMiB | file-upload-router.ts:105-115 | the server as written answers a fresh, fault-free upload of the 11 MiB example with "File uploaded successfully" and stores a file different from it |
| Resume.EmptyFileNeverUploads | app/utils/uploadFile.ts:116-118 | an empty file never completes a fresh chunked upload: no chunk is sent, so there is no session directory and the merge fails |

## Left out

- MD5 itself: spark-md5 is a foreign library. The digest is a parameter `digest` of the appended bytes.
- `randomUUID`, `Date.now` and `console.log`: the UUID is a parameter; timestamps and logging have no effect on the protocol.
- `fetch`, `FormData`, `URLSearchParams`, Express routing, Multer and the fs/fs-extra streams: these are replaced by method calls on `Router.UploadServer` and by in-memory maps.
- The client transport: only what its replies carry is modelled.
- The UI, page routing and build configuration are not part of this model.
- Pool.AsyncPool: the race winner is a choice of the environment, not the JavaScript event loop's timing. Tasks still running after the pool rejects are not followed inside the pool; `Client.SendStarted` accounts for their transfers.
- Client.UploadFileConcurrently: finished parts are applied to the server in index order after the pool, not interleaved in completion order. Each part writes its own chunk file, so the resulting state is the same.
- Client.UploadChunkFile: the existence and merge requests themselves never fail in transit. Only window reads, chunk transfers, the storing of chunks and the merge's chunk reads fail.
- Router.UploadServer.Chunk: a failed store leaves the sessions as they were. A session directory that `ensureDir` created before the disk write failed is not modelled.
- A failing `fse.ensureDir` in the chunk storage's `destination` is not modelled: `destination` is `async` and calls `cb` only after the await, so the request is never answered and the client's `fetch`, and with it the pool, never settles.
- Client.UploadSingleFile: a failure of the single-file route is not modelled; the route always stores the file.
- `Math.ceil(fileSize / chunkSize)` on doubles is integer ceiling division. The `typeof chunkSize === "number"` fallback to one chunk is left out because the caller always passes a number.
- ChunkPlan.ChunkCount: requires `chunkSize > 0`. The caller always passes 1 MiB; a zero chunk size would give an infinite or NaN count in JavaScript.
- Fingerprint.CalcFileMd5: the `!e.target?.result` guard never fires for a successful read, so it is not modelled. The error handler's `fileReader.abort()` has no observable effect here.
- Path handling: `path.join` normalisation and names containing path separators are not modelled. Directory and file names are map keys.
- Strings are sequences of characters, compared character by character. JavaScript compares UTF-16 code units; the model does not represent surrogate pairs.
- Ordering.Sort: an insertion sort stands in for V8's `Array.prototype.sort`. Directory entries are distinct, so `Ordering.SortedListingUnique` makes the result the same for any correct sort.
- Client.SendPart: a transfer that fails after the server stored the part is not modelled. `uploadChunk` returns the bare `fetch` promise, which can reject after Multer wrote the chunk file, for example when the connection drops before the reply. The model calls `Router.UploadServer.Chunk` only for transfers that do not fail, so on the transfer-failure path the sessions hold exactly the parts of `sent`; in the source they may also hold such a part, with the correct bytes.
- Router.UploadServer.ConcatChunkFiles: a failing write to the merge target is not modelled; only chunk reads fail. The write stream has no `'error'` listener and `readFile` listens only on the read stream, so a failed write, such as a full disk, is an unhandled stream error outside both catches. The request is then never answered, and neither the partial target nor the session directory is removed.
- Router.UploadServer.AppendChunks: appending to the target never fails, for the reason in the line above.
- Router.UploadServer.ConcatChunkFiles: a failure of `fse.remove` itself is not modelled. The write stream's `end()` in `finally` has no further effect on the map.
- Concurrent merges for the same fingerprint racing on the file system are not modelled: each route call is atomic here.
- A fingerprint containing '-' is not modelled: hex MD5 digests never contain one. The end-to-end lemmas require `'-' !in md5`.
- `router.get("/")` only answers a fixed text and is not modelled.

## Findings

| source | as written | input that shows it | evidently intended | confidence | as-written member | corrected member |
|---|---|---|---|---|---|---|
| file-upload-router.ts:105-109 | chunk files are merged in string order of their decimal names, so "10" is merged before "2" | a fresh chunked upload of an 11 MiB file (11 chunks of 1 MiB) whose last MiB differs from its third: the stored file has chunk 10 in third place | merge chunk files in numeric index order, which restores every file | not executed | Resume.AsWrittenServerScramblesElevenMiB | Resume.CorrectedServerRestoresFile |
