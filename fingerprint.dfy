/** The client's content fingerprint: the file is read in 2 MiB windows,
    strictly in order, and every window is appended to one incremental MD5
    state. The digest itself is a parameter `digest` of the appended byte
    stream. */
module Fingerprint {
  import opened Common
  import opened ChunkPlan

  /** Size of one read window (2 MiB). */
  const WINDOW: nat := 2097152

  /** The read of window `window` failed (`fileReader.onerror`). */
  datatype ReadError = ReadError(window: nat)

  /** `Math.ceil(size / WINDOW)`. */
  function WindowsNeeded(size: nat): nat {
    (size + WINDOW - 1) / WINDOW
  }

  /** The number of windows: the first read happens unconditionally, so an
      empty file is read once (an empty window). */
  function WindowCount(size: nat): nat {
    if size == 0 then 1 else WindowsNeeded(size)
  }

  /** `start + chunkSize >= file.size ? file.size : start + chunkSize` */
  function WindowEnd(k: nat, size: nat): nat {
    if k * WINDOW + WINDOW >= size then size else k * WINDOW + WINDOW
  }

  /** Window `k` as the range `[k * WINDOW, WindowEnd(k))`. */
  function Window(k: nat, size: nat): (nat, nat) {
    (k * WINDOW, WindowEnd(k, size))
  }

  /** The windows in reading order. */
  function Windows(size: nat): seq<(nat, nat)> {
    seq(WindowCount(size), k requires 0 <= k => Window(k, size))
  }

  lemma WindowsNeededBounds(size: nat)
    ensures size <= WindowsNeeded(size) * WINDOW
    ensures WindowsNeeded(size) > 0 ==> (WindowsNeeded(size) - 1) * WINDOW < size
  {
    var n := WindowsNeeded(size);
    var t := size + WINDOW - 1;
    assert t == n * WINDOW + t % WINDOW;
    if n > 0 {
      assert (n - 1) * WINDOW == n * WINDOW - WINDOW;
    }
  }

  /** The windows tile the file: window `k` starts where `k - 1` ended, each
      is at most `WINDOW` long and non-empty unless the file is, and the last
      one ends at the end of the file; there are `ceil(size / WINDOW)` of
      them, and one for the empty file. */
  lemma WindowsTile(size: nat)
    ensures |Windows(size)| == if size == 0 then 1 else WindowsNeeded(size)
    ensures Windows(size)[0].0 == 0
    ensures Windows(size)[|Windows(size)| - 1].1 == size
    ensures forall k | 0 <= k < |Windows(size)| ::
      Windows(size)[k].0 <= Windows(size)[k].1 <= size
      && Windows(size)[k].1 - Windows(size)[k].0 <= WINDOW
      && (size > 0 ==> Windows(size)[k].0 < Windows(size)[k].1)
    ensures forall k | 0 < k < |Windows(size)| :: Windows(size)[k].0 == Windows(size)[k - 1].1
  {
    WindowsNeededBounds(size);
    var n := WindowCount(size);
    forall k | 0 <= k < n
      ensures k * WINDOW <= WindowEnd(k, size) <= size
      ensures size > 0 ==> k * WINDOW < WindowEnd(k, size)
    {
      if size > 0 {
        assert k * WINDOW <= (n - 1) * WINDOW;
      }
    }
    forall k | 0 < k < n ensures k * WINDOW == WindowEnd(k - 1, size) {
      assert (k - 1) * WINDOW + WINDOW == k * WINDOW;
      assert k * WINDOW <= (n - 1) * WINDOW;
    }
    assert WindowEnd(n - 1, size) == size by {
      if size > 0 {
        assert (n - 1) * WINDOW + WINDOW == n * WINDOW;
      }
    }
  }

  /** The bytes of the first `k` windows, appended in reading order. */
  function Appended(file: seq<byte>, k: nat): seq<byte>
    requires k <= WindowCount(|file|)
    decreases k
  {
    if k == 0 then []
    else
      WindowsTile(|file|);
      Appended(file, k - 1) + file[Windows(|file|)[k - 1].0..Windows(|file|)[k - 1].1]
  }

  /** For a non-empty file the windows are the chunks of size `WINDOW`. */
  lemma WindowIsChunk(size: nat, k: nat)
    requires size > 0 && k < WindowCount(size)
    ensures WindowCount(size) == ChunkCount(size, WINDOW)
    ensures Window(k, size) == (ChunkStart(k, WINDOW), ChunkEnd(k, ChunkCount(size, WINDOW), size, WINDOW))
  {
    ChunkRange(k, size, WINDOW);
  }

  lemma {:induction false} AppendedIsReassembled(file: seq<byte>, k: nat)
    requires |file| > 0 && k <= WindowCount(|file|)
    ensures WindowCount(|file|) == ChunkCount(|file|, WINDOW)
    ensures Appended(file, k) == Reassembled(file, WINDOW, k)
    decreases k
  {
    assert WindowCount(|file|) == ChunkCount(|file|, WINDOW);
    if k > 0 {
      AppendedIsReassembled(file, k - 1);
      WindowIsChunk(|file|, k - 1);
    }
  }

  /** What the accumulator is fed is the file: the windows, appended in
      order, give back every byte exactly once. */
  lemma AppendedWindowsAreFile(file: seq<byte>)
    ensures Appended(file, WindowCount(|file|)) == file
  {
    if |file| > 0 {
      AppendedIsReassembled(file, WindowCount(|file|));
      ChunksReassemble(file, WINDOW);
    } else {
      assert Appended(file, 1) == Appended(file, 0) + file[0..0];
    }
  }

  /** The incremental MD5 state (`new sparkMd5.ArrayBuffer()`): it keeps
      what was appended; `End` finalises it. */
  class Md5Accumulator {
    var appended: seq<byte>

    constructor ()
      ensures appended == []
    {
      appended := [];
    }

    /** `spark.append(buffer)` */
    method Append(data: seq<byte>)
      modifies this
      ensures appended == old(appended) + data
    {
      appended := appended + data;
    }

    /** `spark.end(false)` */
    function End(digest: seq<byte> -> string): string
      reads this
    {
      digest(appended)
    }
  }

  /** `calcFileMD5(file)`: reads the windows in order, appending each to the
      accumulator, and resolves with the digest of what was appended after
      the last one. `readFails` are the windows whose read fails; the first
      of them rejects the promise. `windows` are the windows requested, in order. */
  method CalcFileMd5(file: seq<byte>, digest: seq<byte> -> string, readFails: set<nat>)
    returns (r: Result<string, ReadError>, windows: seq<(nat, nat)>)
    ensures 1 <= |windows| <= WindowCount(|file|)
    ensures windows == Windows(|file|)[..|windows|]
    ensures r.Ok? <==> forall k | 0 <= k < WindowCount(|file|) :: k !in readFails
    ensures r.Ok? ==> r.value == digest(file) && windows == Windows(|file|)
    ensures r.Err? ==>
      (r.error == ReadError(|windows| - 1) && |windows| - 1 in readFails
       && forall k | 0 <= k < |windows| - 1 :: k !in readFails)
  {
    var chunks := WindowsNeeded(|file|);
    var currentChunk := 0;
    var spark := new Md5Accumulator();
    WindowsNeededBounds(|file|);
    windows := [];
    var finished := false;
    while !finished
      invariant 0 <= currentChunk <= WindowCount(|file|)
      invariant finished <==> currentChunk == WindowCount(|file|)
      invariant currentChunk * WINDOW <= |file| || currentChunk == WindowCount(|file|)
      invariant spark.appended == file[..if currentChunk == WindowCount(|file|) then |file| else currentChunk * WINDOW]
      invariant windows == Windows(|file|)[..currentChunk]
      invariant forall k | 0 <= k < currentChunk :: k !in readFails
      decreases WindowCount(|file|) - currentChunk
    {
      // loadNext()
      var start := currentChunk * WINDOW;
      var end := if start + WINDOW >= |file| then |file| else start + WINDOW;
      assert Windows(|file|)[currentChunk] == (start, end);
      assert Windows(|file|)[..currentChunk + 1] == windows + [(start, end)];
      windows := windows + [(start, end)];
      if currentChunk in readFails {
        // fileReader.onerror
        return Err(ReadError(currentChunk)), windows;
      }
      // fileReader.onload
      spark.Append(file[start..end]);
      currentChunk := currentChunk + 1;
      if currentChunk < chunks {
        assert currentChunk * WINDOW == start + WINDOW;
      } else {
        assert end == |file| by {
          assert (chunks - 1) * WINDOW + WINDOW == chunks * WINDOW;
          assert currentChunk - 1 >= chunks - 1;
        }
        finished := true;
      }
    }
    assert windows == Windows(|file|);
    assert spark.appended == file;
    r := Ok(spark.End(digest));
  }
}
