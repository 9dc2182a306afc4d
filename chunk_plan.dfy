/** The client's chunk plan: how many chunks a file has, which byte range
    each covers, which ones the server already holds, and how each part is
    named on the wire. */
module ChunkPlan {
  import opened Common

  /** `Math.ceil(fileSize / chunkSize)`, on integers. */
  function ChunkCount(fileSize: nat, chunkSize: nat): nat
    requires chunkSize > 0
  {
    (fileSize + chunkSize - 1) / chunkSize
  }

  /** The chunk count is the ceiling of the quotient: `n` chunks cover the
      file and `n - 1` do not; only the empty file has none. */
  lemma ChunkCountIsCeiling(fileSize: nat, chunkSize: nat)
    requires chunkSize > 0
    ensures fileSize <= ChunkCount(fileSize, chunkSize) * chunkSize
    ensures ChunkCount(fileSize, chunkSize) > 0 ==> (ChunkCount(fileSize, chunkSize) - 1) * chunkSize < fileSize
    ensures ChunkCount(fileSize, chunkSize) == 0 <==> fileSize == 0
  {
    var n := ChunkCount(fileSize, chunkSize);
    var t := fileSize + chunkSize - 1;
    assert t == n * chunkSize + t % chunkSize;
    assert 0 <= t % chunkSize < chunkSize;
    if n > 0 {
      assert (n - 1) * chunkSize == n * chunkSize - chunkSize;
    }
  }

  /** `Array.from({ length: n }, (_, i) => i)`. */
  function ChunkIndices(n: nat): seq<nat>
    decreases n
  {
    if n == 0 then [] else ChunkIndices(n - 1) + [n - 1]
  }

  /** The pool is handed the indices 0 .. n-1 in ascending order; an empty
      file gives it nothing to do. */
  lemma {:induction false} TaskList(fileSize: nat, chunkSize: nat)
    requires chunkSize > 0
    ensures |ChunkIndices(ChunkCount(fileSize, chunkSize))| == ChunkCount(fileSize, chunkSize)
    ensures forall i | 0 <= i < ChunkCount(fileSize, chunkSize) :: ChunkIndices(ChunkCount(fileSize, chunkSize))[i] == i
    ensures fileSize == 0 <==> ChunkIndices(ChunkCount(fileSize, chunkSize)) == []
  {
    ChunkCountIsCeiling(fileSize, chunkSize);
    IndicesAt(ChunkCount(fileSize, chunkSize));
  }

  lemma {:induction false} IndicesAt(n: nat)
    ensures |ChunkIndices(n)| == n
    ensures forall i | 0 <= i < n :: ChunkIndices(n)[i] == i
    decreases n
  {
    if n > 0 {
      IndicesAt(n - 1);
    }
  }

  function ChunkStart(i: nat, chunkSize: nat): nat {
    i * chunkSize
  }

  /** `i + 1 == chunks ? fileSize : (i + 1) * chunkSize` */
  function ChunkEnd(i: nat, n: nat, fileSize: nat, chunkSize: nat): nat {
    if i + 1 == n then fileSize else (i + 1) * chunkSize
  }

  /** Every chunk is a non-empty range inside the file; all but the last are
      exactly `chunkSize` long, the last is the remainder, at most
      `chunkSize`; each chunk ends where the next one starts, the first
      starts at 0 and the last ends at the end of the file. */
  lemma ChunkRange(i: nat, fileSize: nat, chunkSize: nat)
    requires chunkSize > 0
    requires i < ChunkCount(fileSize, chunkSize)
    ensures ChunkStart(i, chunkSize) < ChunkEnd(i, ChunkCount(fileSize, chunkSize), fileSize, chunkSize) <= fileSize
    ensures i + 1 < ChunkCount(fileSize, chunkSize) ==>
      ChunkEnd(i, ChunkCount(fileSize, chunkSize), fileSize, chunkSize) - ChunkStart(i, chunkSize) == chunkSize
    ensures i + 1 == ChunkCount(fileSize, chunkSize) ==>
      ChunkEnd(i, ChunkCount(fileSize, chunkSize), fileSize, chunkSize) - ChunkStart(i, chunkSize) == fileSize - i * chunkSize
    ensures ChunkEnd(i, ChunkCount(fileSize, chunkSize), fileSize, chunkSize) - ChunkStart(i, chunkSize) <= chunkSize
    ensures i + 1 < ChunkCount(fileSize, chunkSize) ==>
      ChunkEnd(i, ChunkCount(fileSize, chunkSize), fileSize, chunkSize) == ChunkStart(i + 1, chunkSize)
    ensures i + 1 == ChunkCount(fileSize, chunkSize) ==> ChunkEnd(i, ChunkCount(fileSize, chunkSize), fileSize, chunkSize) == fileSize
  {
    var n := ChunkCount(fileSize, chunkSize);
    ChunkCountIsCeiling(fileSize, chunkSize);
    assert (i + 1) * chunkSize == i * chunkSize + chunkSize;
    if i + 1 < n {
      assert (i + 1) * chunkSize <= (n - 1) * chunkSize;
    } else {
      assert i == n - 1;
    }
  }

  /** Worked example from the upload entry point: a 5,000,000-byte file in
      1 MiB chunks has 5 chunks, the last one 805,696 bytes long. */
  lemma FiveMegabyteExample()
    ensures ChunkCount(5000000, 1048576) == 5
    ensures ChunkEnd(4, 5, 5000000, 1048576) - ChunkStart(4, 1048576) == 805696
  {
  }

  /** The bytes of chunk `i`: `file.slice(start, end)`. */
  function ChunkBytes(file: seq<byte>, chunkSize: nat, i: nat): seq<byte>
    requires chunkSize > 0
    requires i < ChunkCount(|file|, chunkSize)
  {
    ChunkRange(i, |file|, chunkSize);
    file[ChunkStart(i, chunkSize)..ChunkEnd(i, ChunkCount(|file|, chunkSize), |file|, chunkSize)]
  }

  /** The first `k` chunks, concatenated in index order. */
  function Reassembled(file: seq<byte>, chunkSize: nat, k: nat): seq<byte>
    requires chunkSize > 0
    requires k <= ChunkCount(|file|, chunkSize)
    decreases k
  {
    if k == 0 then [] else Reassembled(file, chunkSize, k - 1) + ChunkBytes(file, chunkSize, k - 1)
  }

  /** The chunks tile the file: the first `k` of them are exactly the prefix
      up to the start of chunk `k`, and all of them are the whole file. */
  lemma {:induction false} ChunksTile(file: seq<byte>, chunkSize: nat, k: nat)
    requires chunkSize > 0
    requires k <= ChunkCount(|file|, chunkSize)
    ensures k < ChunkCount(|file|, chunkSize) ==> ChunkStart(k, chunkSize) < |file|
    ensures k < ChunkCount(|file|, chunkSize) ==> Reassembled(file, chunkSize, k) == file[..ChunkStart(k, chunkSize)]
    ensures k == ChunkCount(|file|, chunkSize) ==> Reassembled(file, chunkSize, k) == file
    decreases k
  {
    if k < ChunkCount(|file|, chunkSize) {
      ChunkRange(k, |file|, chunkSize);
    }
    if k == 0 {
      ChunkCountIsCeiling(|file|, chunkSize);
    } else {
      ChunksTile(file, chunkSize, k - 1);
      ChunkStep(file, chunkSize, k - 1);
    }
  }

  /** Appending chunk `i` to the prefix that ends where it starts extends the
      prefix to where the next chunk starts, or to the end of the file. */
  lemma ChunkStep(file: seq<byte>, chunkSize: nat, i: nat)
    requires chunkSize > 0
    requires i < ChunkCount(|file|, chunkSize)
    ensures i + 1 < ChunkCount(|file|, chunkSize) ==> ChunkStart(i + 1, chunkSize) < |file|
    ensures ChunkStart(i, chunkSize) < |file|
    ensures i + 1 < ChunkCount(|file|, chunkSize) ==>
      file[..ChunkStart(i, chunkSize)] + ChunkBytes(file, chunkSize, i) == file[..ChunkStart(i + 1, chunkSize)]
    ensures i + 1 == ChunkCount(|file|, chunkSize) ==>
      file[..ChunkStart(i, chunkSize)] + ChunkBytes(file, chunkSize, i) == file
  {
    var n := ChunkCount(|file|, chunkSize);
    ChunkRange(i, |file|, chunkSize);
    if i + 1 < n {
      ChunkRange(i + 1, |file|, chunkSize);
    }
    var s := ChunkStart(i, chunkSize);
    var e := ChunkEnd(i, n, |file|, chunkSize);
    SlicesJoin(file, s, e);
    assert ChunkBytes(file, chunkSize, i) == file[s..e];
  }

  lemma SlicesJoin(file: seq<byte>, s: nat, e: nat)
    requires s <= e <= |file|
    ensures file[..s] + file[s..e] == file[..e]
  {
  }

  lemma ChunksReassemble(file: seq<byte>, chunkSize: nat)
    requires chunkSize > 0
    ensures Reassembled(file, chunkSize, ChunkCount(|file|, chunkSize)) == file
  {
    ChunksTile(file, chunkSize, ChunkCount(|file|, chunkSize));
  }

  /** `chunkIds.indexOf(i.toString()) !== -1`: the server already holds chunk `i`. */
  predicate IsUploaded(chunkIds: seq<string>, i: nat) {
    NatToString(i) in chunkIds
  }

  /** The name a chunk travels under: `fileMd5 + "-" + chunkIndex`. */
  function PartName(md5: string, i: nat): string {
    md5 + "-" + NatToString(i)
  }

  /** The indices below `upto` whose chunk is transferred and arrives: not
      reported by the server, and not among the transfers that fail. */
  function Transferred(chunkIds: seq<string>, fails: set<nat>, upto: nat): seq<nat>
    decreases upto
  {
    if upto == 0 then []
    else
      Transferred(chunkIds, fails, upto - 1)
      + (if IsUploaded(chunkIds, upto - 1) || upto - 1 in fails then [] else [upto - 1])
  }

  /** `Transferred` holds each index below `upto` that is neither uploaded
      nor failing, once, in ascending order. */
  lemma {:induction false} TransferredSpec(chunkIds: seq<string>, fails: set<nat>, upto: nat)
    ensures forall i: nat :: i in Transferred(chunkIds, fails, upto) <==> i < upto && !IsUploaded(chunkIds, i) && i !in fails
    ensures forall a, b | 0 <= a < b < |Transferred(chunkIds, fails, upto)| ::
      Transferred(chunkIds, fails, upto)[a] < Transferred(chunkIds, fails, upto)[b]
    decreases upto
  {
    if upto > 0 {
      TransferredSpec(chunkIds, fails, upto - 1);
      var t := Transferred(chunkIds, fails, upto - 1);
      assert forall a | 0 <= a < |t| :: t[a] < upto - 1 by {
        forall a | 0 <= a < |t| ensures t[a] < upto - 1 {
          assert t[a] in t;
        }
      }
    }
  }

  /** Resuming is exact: with the server's `chunkIds` being the names of
      some set of indices, the chunks sent are precisely the other ones. */
  lemma ResumeSendsMissing(held: set<nat>, chunkIds: seq<string>, n: nat)
    requires forall x :: x in chunkIds <==> exists i :: i in held && x == NatToString(i)
    ensures forall i: nat :: i in Transferred(chunkIds, {}, n) <==> i < n && i !in held
  {
    TransferredSpec(chunkIds, {}, n);
    forall i: nat ensures IsUploaded(chunkIds, i) <==> i in held {
      if IsUploaded(chunkIds, i) {
        var j :| j in held && NatToString(i) == NatToString(j);
        NatToStringInjective(i, j);
      }
    }
  }
}
