/** What a finished chunked upload leaves on the server. The chunk files a
    session ends with are exactly the chunks of the file, whatever an
    interrupted earlier attempt left behind, as long as what it left is
    right. In numeric order they merge back into the file. The server as
    written sorts the names as strings instead: that is right up to ten
    chunks, and from eleven on it can be wrong ("10" sorts before "2"): with
    eleven chunks it is wrong whenever chunks 2 and 10 start differently. */
module Resume {
  import opened Common
  import opened Ordering
  import opened ChunkPlan
  import opened Router
  import opened Client

  /** The names of chunks 0 .. n-1, in index order. */
  function ChunkNames(n: nat): seq<string>
    decreases n
  {
    if n == 0 then [] else ChunkNames(n - 1) + [NatToString(n - 1)]
  }

  /** The set of the names of chunks 0 .. n-1. */
  function NameSet(n: nat): set<string> {
    set i: nat | i < n :: NatToString(i)
  }

  /** The session holds every chunk of `file` under its decimal index and no
      other chunk file (housekeeping entries aside). */
  ghost predicate Complete(s: Session, file: seq<byte>, chunkSize: nat)
    requires chunkSize > 0
  {
    var n := ChunkCount(|file|, chunkSize);
    && Listed(s.Keys) == NameSet(n)
    && forall i: nat | i < n :: NatToString(i) in s && s[NatToString(i)] == ChunkBytes(file, chunkSize, i)
  }

  /** What an earlier, interrupted attempt left is right: every chunk file
      in the session is some chunk of `file`, under its own index. */
  ghost predicate Consistent(s: Session, file: seq<byte>, chunkSize: nat)
    requires chunkSize > 0
  {
    forall f | f in Listed(s.Keys) ::
      exists i: nat | i < ChunkCount(|file|, chunkSize) :: f == NatToString(i) && s[f] == ChunkBytes(file, chunkSize, i)
  }

  /** Decimal names are never housekeeping entries. */
  lemma NameNotIgnored(i: nat)
    ensures NatToString(i) !in IGNORES
  {
    NatToStringDigits(i);
    assert IsDigit(NatToString(i)[0]);
    assert !IsDigit(IGNORES[0][0]);
    assert |IGNORES| == 1;
  }

  lemma {:induction false} ChunkNamesAt(n: nat)
    ensures |ChunkNames(n)| == n
    ensures forall k | 0 <= k < n :: ChunkNames(n)[k] == NatToString(k)
    decreases n
  {
    if n > 0 {
      ChunkNamesAt(n - 1);
    }
  }

  /** The names in index order list `NameSet(n)`. */
  lemma ChunkNamesListing(n: nat)
    ensures IsListing(ChunkNames(n), NameSet(n))
  {
    ChunkNamesAt(n);
    var s := ChunkNames(n);
    forall i, j | 0 <= i < j < |s| ensures s[i] != s[j] {
      NatToStringInjective(i, j);
    }
    forall x ensures x in s <==> x in NameSet(n) {
      if x in NameSet(n) {
        var i: nat :| i < n && x == NatToString(i);
        assert s[i] == x;
      }
    }
  }

  // ---------------------------------------------------------------------
  // The session after the transfers

  /** The names of the chunks in `sent`. */
  function SentNames(sent: seq<nat>): set<string> {
    set i | i in sent :: NatToString(i)
  }

  /** The chunk files the parts `sent` write, on their own. */
  function SentSession(file: seq<byte>, chunkSize: nat, sent: seq<nat>): Session
    requires chunkSize > 0
    requires forall k | 0 <= k < |sent| :: sent[k] < ChunkCount(|file|, chunkSize)
    decreases |sent|
  {
    if sent == [] then map[]
    else
      var i := sent[|sent| - 1];
      SentSession(file, chunkSize, sent[..|sent| - 1])[NatToString(i) := ChunkBytes(file, chunkSize, i)]
  }

  /** The parts `sent` write exactly their own chunk files, each with its
      chunk's bytes. */
  lemma {:induction false} SentSessionSpec(file: seq<byte>, chunkSize: nat, sent: seq<nat>)
    requires chunkSize > 0
    requires forall k | 0 <= k < |sent| :: sent[k] < ChunkCount(|file|, chunkSize)
    ensures SentSession(file, chunkSize, sent).Keys == SentNames(sent)
    ensures forall i | i in sent :: SentSession(file, chunkSize, sent)[NatToString(i)] == ChunkBytes(file, chunkSize, i)
    decreases |sent|
  {
    if sent != [] {
      var init := sent[..|sent| - 1];
      var i := sent[|sent| - 1];
      SentSessionSpec(file, chunkSize, init);
      assert sent == init + [i];
      assert SentNames(sent) == SentNames(init) + {NatToString(i)};
      forall j | j in sent ensures SentSession(file, chunkSize, sent)[NatToString(j)] == ChunkBytes(file, chunkSize, j) {
        if j != i {
          assert j in init;
          NatToStringInjective(i, j);
        }
      }
    }
  }

  /** For a fingerprint without '-', storing the parts `sent` adds their
      chunk files to session `md5`, over what it held. */
  lemma {:induction false} ApplyPartsSession(tmp: Sessions, md5: string, file: seq<byte>, chunkSize: nat, sent: seq<nat>)
    requires chunkSize > 0 && '-' !in md5
    requires forall k | 0 <= k < |sent| :: sent[k] < ChunkCount(|file|, chunkSize)
    ensures SessionOf(ApplyParts(tmp, md5, file, chunkSize, sent), md5)
         == SessionOf(tmp, md5) + SentSession(file, chunkSize, sent)
    decreases |sent|
  {
    if sent != [] {
      var init := sent[..|sent| - 1];
      var i := sent[|sent| - 1];
      ApplyPartsSession(tmp, md5, file, chunkSize, init);
      ApplyPartsStep(tmp, md5, file, chunkSize, sent);
      UnionUpdate(SessionOf(tmp, md5), SentSession(file, chunkSize, init), NatToString(i), ChunkBytes(file, chunkSize, i));
    }
  }

  /** The last part of `sent` writes its chunk file over the session the
      others left. */
  lemma ApplyPartsStep(tmp: Sessions, md5: string, file: seq<byte>, chunkSize: nat, sent: seq<nat>)
    requires chunkSize > 0 && '-' !in md5 && sent != []
    requires forall k | 0 <= k < |sent| :: sent[k] < ChunkCount(|file|, chunkSize)
    ensures md5 in ApplyParts(tmp, md5, file, chunkSize, sent)
    ensures SessionOf(ApplyParts(tmp, md5, file, chunkSize, sent), md5)
         == SessionOf(ApplyParts(tmp, md5, file, chunkSize, sent[..|sent| - 1]), md5)
              [NatToString(sent[|sent| - 1]) := ChunkBytes(file, chunkSize, sent[|sent| - 1])]
  {
    var i := sent[|sent| - 1];
    PutPartSession(ApplyParts(tmp, md5, file, chunkSize, sent[..|sent| - 1]), md5, i, ChunkBytes(file, chunkSize, i));
  }

  lemma UnionUpdate(low: Session, high: Session, name: string, data: seq<byte>)
    ensures (low + high)[name := data] == low + high[name := data]
  {
  }

  /** Storing part `i` of a fingerprint without '-' writes chunk file
      `i` of session `md5`. */
  lemma PutPartSession(tmp: Sessions, md5: string, i: nat, data: seq<byte>)
    requires '-' !in md5
    ensures md5 in PutChunk(tmp, PartName(md5, i), data)
    ensures SessionOf(PutChunk(tmp, PartName(md5, i), data), md5) == SessionOf(tmp, md5)[NatToString(i) := data]
  {
    NatToStringDigits(i);
    ChunkNameRoundTrip(md5, NatToString(i));
  }

  /** Resuming completes the session: if what the session held was right,
      then after the missing chunks arrive it holds exactly the chunks of
      the file. */
  lemma ResumeCompletesSession(tmp: Sessions, md5: string, file: seq<byte>, chunkSize: nat, sent: seq<nat>)
    requires chunkSize > 0 && '-' !in md5
    requires forall k | 0 <= k < |sent| :: sent[k] < ChunkCount(|file|, chunkSize)
    requires forall i: nat :: i in sent <==> i < ChunkCount(|file|, chunkSize) && !Held(tmp, md5, i)
    requires Consistent(SessionOf(tmp, md5), file, chunkSize)
    requires md5 in ApplyParts(tmp, md5, file, chunkSize, sent)
    ensures Complete(ApplyParts(tmp, md5, file, chunkSize, sent)[md5], file, chunkSize)
  {
    var n := ChunkCount(|file|, chunkSize);
    var before := SessionOf(tmp, md5);
    var after := ApplyParts(tmp, md5, file, chunkSize, sent)[md5];
    ApplyPartsSession(tmp, md5, file, chunkSize, sent);
    SentSessionSpec(file, chunkSize, sent);
    assert after == before + SentSession(file, chunkSize, sent);
    forall f ensures f in Listed(after.Keys) <==> f in NameSet(n) {
      if f in Listed(after.Keys) {
        if f in Listed(before.Keys) {
          var i: nat :| i < n && f == NatToString(i) && before[f] == ChunkBytes(file, chunkSize, i);
        } else {
          var i :| i in sent && f == NatToString(i);
        }
      }
      if f in NameSet(n) {
        var i: nat :| i < n && f == NatToString(i);
        NameNotIgnored(i);
        if !(i in sent) {
          assert Held(tmp, md5, i);
        }
      }
    }
    forall i: nat | i < n ensures NatToString(i) in after && after[NatToString(i)] == ChunkBytes(file, chunkSize, i) {
      NameNotIgnored(i);
      if i !in sent {
        assert Held(tmp, md5, i);
        var f := NatToString(i);
        var j: nat :| j < n && f == NatToString(j) && before[f] == ChunkBytes(file, chunkSize, j);
        NatToStringInjective(i, j);
      }
    }
  }

  /** Storing parts keeps a right session right: every part writes its own
      chunk under its own index. */
  lemma ApplyPartsKeepsConsistent(tmp: Sessions, md5: string, file: seq<byte>, chunkSize: nat, sent: seq<nat>)
    requires chunkSize > 0 && '-' !in md5
    requires forall k | 0 <= k < |sent| :: sent[k] < ChunkCount(|file|, chunkSize)
    requires Consistent(SessionOf(tmp, md5), file, chunkSize)
    ensures Consistent(SessionOf(ApplyParts(tmp, md5, file, chunkSize, sent), md5), file, chunkSize)
  {
    var n := ChunkCount(|file|, chunkSize);
    var before, added := SessionOf(tmp, md5), SentSession(file, chunkSize, sent);
    var after := SessionOf(ApplyParts(tmp, md5, file, chunkSize, sent), md5);
    ApplyPartsSession(tmp, md5, file, chunkSize, sent);
    SentSessionSpec(file, chunkSize, sent);
    forall f | f in Listed(after.Keys)
      ensures exists i: nat | i < n :: f == NatToString(i) && after[f] == ChunkBytes(file, chunkSize, i)
    {
      if f in added {
        var i :| i in sent && f == NatToString(i);
        var k :| 0 <= k < |sent| && sent[k] == i;
        assert after[f] == ChunkBytes(file, chunkSize, i);
      } else {
        assert f in Listed(before.Keys);
        var i: nat :| i < n && f == NatToString(i) && before[f] == ChunkBytes(file, chunkSize, i);
        assert after[f] == before[f];
      }
    }
  }

  /** A chunk that was requested but that the server failed to store is
      missing after the transfers: its name is not in the session, not in
      any merge order, and the session is not complete. */
  lemma LostChunkNotMerged(tmp0: Sessions, file: seq<byte>, md5: string, attempted: seq<nat>,
                           storeFails: set<nat>, sent: seq<nat>, i: nat, o: Order)
    requires '-' !in md5
    requires Requested(tmp0, file, md5, attempted, storeFails, sent)
    requires i in attempted && i in storeFails
    requires md5 in ApplyParts(tmp0, md5, file, UPLOAD_CHUNK_SIZE, sent)
    ensures NatToString(i) !in Listed(ApplyParts(tmp0, md5, file, UPLOAD_CHUNK_SIZE, sent)[md5].Keys)
    ensures NatToString(i) !in SortedListing(Listed(ApplyParts(tmp0, md5, file, UPLOAD_CHUNK_SIZE, sent)[md5].Keys), o)
    ensures !Complete(ApplyParts(tmp0, md5, file, UPLOAD_CHUNK_SIZE, sent)[md5], file, UPLOAD_CHUNK_SIZE)
  {
    var after := ApplyParts(tmp0, md5, file, UPLOAD_CHUNK_SIZE, sent)[md5];
    assert i < ChunkCount(|file|, UPLOAD_CHUNK_SIZE) && !Held(tmp0, md5, i) && i !in sent;
    ApplyPartsSession(tmp0, md5, file, UPLOAD_CHUNK_SIZE, sent);
    SentSessionSpec(file, UPLOAD_CHUNK_SIZE, sent);
    if NatToString(i) in SentNames(sent) {
      var j :| j in sent && NatToString(i) == NatToString(j);
      NatToStringInjective(i, j);
      assert false;
    }
    assert NatToString(i) !in Listed(after.Keys);
    NameNotIgnored(i);
  }

  // ---------------------------------------------------------------------
  // Merging a complete session

  /** Merging the chunk files in index order gives back the file. */
  lemma {:induction false} MergeInIndexOrder(s: Session, file: seq<byte>, chunkSize: nat, k: nat)
    requires chunkSize > 0 && Complete(s, file, chunkSize)
    requires k <= ChunkCount(|file|, chunkSize)
    ensures forall j | 0 <= j < |ChunkNames(k)| :: ChunkNames(k)[j] in s
    ensures Merged(s, ChunkNames(k)) == Reassembled(file, chunkSize, k)
    decreases k
  {
    ChunkNamesAt(k);
    if k > 0 {
      MergeInIndexOrder(s, file, chunkSize, k - 1);
      var names, last := ChunkNames(k), NatToString(k - 1);
      assert names[..k - 1] == ChunkNames(k - 1) && names[k - 1] == last;
      assert s[last] == ChunkBytes(file, chunkSize, k - 1);
      assert Merged(s, names) == Merged(s, ChunkNames(k - 1)) + s[last];
    }
  }

  /** The names in index order are strictly ascending numerically. */
  lemma NamesNumericallyAscending(n: nat)
    ensures StrictlyAscending(ChunkNames(n), Numeric)
  {
    ChunkNamesAt(n);
    forall i, j | 0 <= i < j < n ensures Less(Numeric, ChunkNames(n)[i], ChunkNames(n)[j]) {
      DecimalRoundTrip(i);
      DecimalRoundTrip(j);
    }
  }

  /** Up to ten chunks the names are single digits, and string order is
      index order. */
  lemma NamesLexAscendingUpToTen(n: nat)
    requires n <= 10
    ensures StrictlyAscending(ChunkNames(n), Lexicographic)
  {
    ChunkNamesAt(n);
    forall i, j | 0 <= i < j < n ensures Less(Lexicographic, ChunkNames(n)[i], ChunkNames(n)[j]) {
      SmallNatToString(i);
      SmallNatToString(j);
      LexLessIsCompare(NatToString(i), NatToString(j));
    }
  }

  /** When the names in index order are ascending in order `o`, merging a
      complete session in order `o` restores the file. */
  lemma MergeRestores(s: Session, file: seq<byte>, chunkSize: nat, o: Order)
    requires chunkSize > 0 && Complete(s, file, chunkSize)
    requires StrictlyAscending(ChunkNames(ChunkCount(|file|, chunkSize)), o)
    ensures Merged(s, SortedListing(Listed(s.Keys), o)) == file
  {
    var n := ChunkCount(|file|, chunkSize);
    ChunkNamesListing(n);
    SortedListingUnique(SortedListing(Listed(s.Keys), o), ChunkNames(n), NameSet(n), o);
    MergeInIndexOrder(s, file, chunkSize, n);
    ChunksReassemble(file, chunkSize);
  }

  /** The corrected merge: in numeric order every complete session merges
      back into its file. */
  lemma NumericMergeRestoresFile(s: Session, file: seq<byte>, chunkSize: nat)
    requires chunkSize > 0 && Complete(s, file, chunkSize)
    ensures Merged(s, SortedListing(Listed(s.Keys), Numeric)) == file
  {
    NamesNumericallyAscending(ChunkCount(|file|, chunkSize));
    MergeRestores(s, file, chunkSize, Numeric);
  }

  /** The merge as written is right for files of at most ten chunks. */
  lemma LexMergeRestoresUpToTenChunks(s: Session, file: seq<byte>, chunkSize: nat)
    requires chunkSize > 0 && Complete(s, file, chunkSize)
    requires ChunkCount(|file|, chunkSize) <= 10
    ensures Merged(s, SortedListing(Listed(s.Keys), Lexicographic)) == file
  {
    NamesLexAscendingUpToTen(ChunkCount(|file|, chunkSize));
    MergeRestores(s, file, chunkSize, Lexicographic);
  }

  /** The names of eleven chunks in string order: "10" comes third. */
  const ELEVEN_NAMES: seq<string> := ["0", "1", "10", "2", "3", "4", "5", "6", "7", "8", "9"]

  lemma ElevenNamesAreNameSet()
    ensures forall x :: x in ELEVEN_NAMES <==> x in NameSet(11)
  {
    var l := ELEVEN_NAMES;
    assert NatToString(10) == "10";
    forall i: nat | i < 10 ensures NatToString(i) == [DigitChar(i)] {
      SmallNatToString(i);
    }
    assert l == [NatToString(0), NatToString(1), NatToString(10)] + seq(8, k requires 0 <= k < 8 => NatToString(k + 2));
    forall x ensures x in l <==> x in NameSet(11) {
      if x in NameSet(11) {
        var i: nat :| i < 11 && x == NatToString(i);
        if i == 0 { assert x == l[0]; }
        else if i == 1 { assert x == l[1]; }
        else if i == 10 { assert x == l[2]; }
        else { assert x == l[i + 1]; }
      }
    }
  }

  lemma ElevenNamesAscending()
    ensures StrictlyAscending(ELEVEN_NAMES, Lexicographic)
  {
    var l := ELEVEN_NAMES;
    forall i, j | 0 <= i < j < |l| ensures Less(Lexicographic, l[i], l[j]) {
      LexLessIsCompare(l[i], l[j]);
    }
  }

  /** Sorting the names of eleven chunks as strings gives `ELEVEN_NAMES`. */
  lemma ElevenNamesInStringOrder(entries: set<string>)
    requires forall x :: x in ELEVEN_NAMES <==> x in entries
    ensures SortedListing(entries, Lexicographic) == ELEVEN_NAMES
  {
    ElevenNamesAscending();
    StrictIsDistinct(ELEVEN_NAMES, Lexicographic);
    SortedListingUnique(SortedListing(entries, Lexicographic), ELEVEN_NAMES, entries, Lexicographic);
  }

  /** The merge as written takes the names of eleven chunks as "0", "1"
      and then "10". */
  lemma StringOrderOfElevenChunks(entries: set<string>)
    requires forall x :: x in ELEVEN_NAMES <==> x in entries
    ensures |SortedListing(entries, Lexicographic)| == 11
    ensures SortedListing(entries, Lexicographic)[0] == "0"
    ensures SortedListing(entries, Lexicographic)[1] == "1"
    ensures SortedListing(entries, Lexicographic)[2] == "10"
  {
    ElevenNamesInStringOrder(entries);
  }

  /** The third chunk file of a merge sits right after the first two. */
  lemma ThirdChunkAt(s: Session, order: seq<string>)
    requires |order| >= 3
    requires forall k | 0 <= k < |order| :: order[k] in s
    ensures |s[order[0]]| + |s[order[1]]| + |s[order[2]]| <= |Merged(s, order)|
    ensures Merged(s, order)[|s[order[0]]| + |s[order[1]]|..|s[order[0]]| + |s[order[1]]| + |s[order[2]]|] == s[order[2]]
  {
    MergedLayout(s, order);
    assert TotalLength(s, order[..2]) == |s[order[0]]| + |s[order[1]]| by {
      var p := order[..2];
      assert p[..1] == [order[0]];
      assert [order[0]][..0] == [];
    }
    var k := 2;
    assert TotalLength(s, order[..k]) + |s[order[k]]| <= |Merged(s, order)|;
  }

  /** The first two of eleven chunks are full, and chunk 10 starts at
      `10 * chunkSize`. */
  lemma ElevenChunkLayout(file: seq<byte>, chunkSize: nat)
    requires chunkSize > 0
    requires ChunkCount(|file|, chunkSize) == 11
    ensures |ChunkBytes(file, chunkSize, 0)| == chunkSize && |ChunkBytes(file, chunkSize, 1)| == chunkSize
    ensures 2 * chunkSize < 10 * chunkSize < |file|
    ensures |ChunkBytes(file, chunkSize, 10)| > 0
    ensures ChunkBytes(file, chunkSize, 10)[0] == file[10 * chunkSize]
  {
    ChunkRange(0, |file|, chunkSize);
    ChunkRange(1, |file|, chunkSize);
    ChunkRange(10, |file|, chunkSize);
  }

  /** A merge that takes chunks 0, 1 and 10 first does not give back a
      file whose chunks 2 and 10 start differently. */
  lemma MergeOfWrongThird(s: Session, order: seq<string>, file: seq<byte>, chunkSize: nat)
    requires chunkSize > 0 && ChunkCount(|file|, chunkSize) == 11
    requires |order| >= 3 && forall k | 0 <= k < |order| :: order[k] in s
    requires s[order[0]] == ChunkBytes(file, chunkSize, 0)
    requires s[order[1]] == ChunkBytes(file, chunkSize, 1)
    requires s[order[2]] == ChunkBytes(file, chunkSize, 10)
    requires 10 * chunkSize < |file| && file[10 * chunkSize] != file[2 * chunkSize]
    ensures Merged(s, order) != file
  {
    ElevenChunkLayout(file, chunkSize);
    ThirdChunkAt(s, order);
    var m := Merged(s, order);
    assert m[2 * chunkSize..2 * chunkSize + |s[order[2]]|] == s[order[2]];
    assert m[2 * chunkSize] == file[10 * chunkSize];
  }

  /** The merge as written scrambles a file of eleven chunks whose third and
      eleventh chunks start differently: at the offset of chunk 2 it puts
      chunk 10. */
  lemma LexMergeScramblesElevenChunks(s: Session, file: seq<byte>, chunkSize: nat)
    requires chunkSize > 0 && Complete(s, file, chunkSize)
    requires ChunkCount(|file|, chunkSize) == 11
    requires 10 * chunkSize < |file|
    requires file[10 * chunkSize] != file[2 * chunkSize]
    ensures Merged(s, SortedListing(Listed(s.Keys), Lexicographic)) != file
  {
    var order := SortedListing(Listed(s.Keys), Lexicographic);
    assert Listed(s.Keys) == NameSet(11);
    ElevenNamesAreNameSet();
    StringOrderOfElevenChunks(Listed(s.Keys));
    NatToStringTen();
    assert order[0] == NatToString(0) && order[1] == NatToString(1) && order[2] == NatToString(10);
    MergeOfWrongThird(s, order, file, chunkSize);
  }

  lemma NatToStringTen()
    ensures NatToString(10) == "10" && NatToString(0) == "0" && NatToString(1) == "1"
  {
  }

  // ---------------------------------------------------------------------
  // End to end

  /** A fresh 11 MiB file whose last MiB is ones and the rest zeros. */
  function ElevenMiB(): seq<byte> {
    seq(11 * UPLOAD_CHUNK_SIZE, k requires 0 <= k => if k < 10 * UPLOAD_CHUNK_SIZE then 0 as byte else 1 as byte)
  }

  /** The corrected server restores every file the client uploads, resumed
      or not, as long as the chunks held from earlier attempts are right. */
  lemma CorrectedServerRestoresFile(tmp0: Sessions, upload0: PublicFiles, tmp: Sessions, upload: PublicFiles,
                                    file: seq<byte>, name: string, md5: string, sent: seq<nat>)
    requires '-' !in md5
    requires Consistent(SessionOf(tmp0, md5), file, UPLOAD_CHUNK_SIZE)
    requires Uploaded(tmp0, upload0, tmp, upload, Numeric, file, name, md5, sent)
    ensures name in upload && upload[name] == file
  {
    var after := ApplyParts(tmp0, md5, file, UPLOAD_CHUNK_SIZE, sent);
    ResumeCompletesSession(tmp0, md5, file, UPLOAD_CHUNK_SIZE, sent);
    NumericMergeRestoresFile(after[md5], file, UPLOAD_CHUNK_SIZE);
  }

  /** A failed attempt followed by a successful one stores the file on the
      corrected server: the parts the failed attempt stored keep the session
      right, so the retry completes it. */
  lemma RetryRestoresFile(tmp0: Sessions, tmp1: Sessions, upload1: PublicFiles, tmp: Sessions, upload: PublicFiles,
                          file: seq<byte>, name: string, md5: string, sent1: seq<nat>, sent: seq<nat>)
    requires '-' !in md5
    requires md5 !in tmp0 || Consistent(SessionOf(tmp0, md5), file, UPLOAD_CHUNK_SIZE)
    requires forall k | 0 <= k < |sent1| :: sent1[k] < ChunkCount(|file|, UPLOAD_CHUNK_SIZE)
    requires tmp1 == ApplyParts(tmp0, md5, file, UPLOAD_CHUNK_SIZE, sent1)
    requires Uploaded(tmp1, upload1, tmp, upload, Numeric, file, name, md5, sent)
    ensures name in upload && upload[name] == file
  {
    ApplyPartsKeepsConsistent(tmp0, md5, file, UPLOAD_CHUNK_SIZE, sent1);
    CorrectedServerRestoresFile(tmp1, upload1, tmp, upload, file, name, md5, sent);
  }

  /** The user uploads the same file twice with `uploadChunkFile`: when the
      first attempt fails and the second succeeds without losing a chunk,
      the corrected server holds the file. */
  method UploadTwice(server: UploadServer, file: seq<byte>, name: string, digest: seq<byte> -> string,
                     readFails1: set<nat>, transferFails1: set<nat>, storeFails1: set<nat>, mergeReadFails1: set<string>,
                     readFails2: set<nat>, transferFails2: set<nat>, mergeReadFails2: set<string>)
    returns (first: Result<Reply, ClientError>, second: Result<Reply, ClientError>)
    requires server.mergeOrder == Numeric && '-' !in digest(file)
    requires digest(file) !in server.tmp || Consistent(SessionOf(server.tmp, digest(file)), file, UPLOAD_CHUNK_SIZE)
    modifies server
    ensures first.Err? && second == Ok(Reply(FileUrl(name), UPLOADED)) ==>
      name in server.upload && server.upload[name] == file
  {
    ghost var tmp0 := server.tmp;
    var calls, attempted, sent1, sent;
    first, calls, attempted, sent1 :=
      UploadChunkFile(server, file, name, digest, readFails1, transferFails1, storeFails1, mergeReadFails1);
    ghost var tmp1, upload1 := server.tmp, server.upload;
    second, calls, attempted, sent :=
      UploadChunkFile(server, file, name, digest, readFails2, transferFails2, {}, mergeReadFails2);
    if first.Err? && second == Ok(Reply(FileUrl(name), UPLOADED)) {
      assert UPLOADED[5] != ALREADY_UPLOADED[5];
      RetryRestoresFile(tmp0, tmp1, upload1, server.tmp, server.upload, file, name, digest(file), sent1, sent);
    }
  }

  /** The server as written restores what the client uploads for files of at
      most 10 MiB. */
  lemma AsWrittenServerRestoresSmallFiles(tmp0: Sessions, upload0: PublicFiles, tmp: Sessions, upload: PublicFiles,
                                          file: seq<byte>, name: string, md5: string, sent: seq<nat>)
    requires '-' !in md5 && |file| <= 10 * UPLOAD_CHUNK_SIZE
    requires Consistent(SessionOf(tmp0, md5), file, UPLOAD_CHUNK_SIZE)
    requires Uploaded(tmp0, upload0, tmp, upload, Lexicographic, file, name, md5, sent)
    ensures name in upload && upload[name] == file
  {
    var after := ApplyParts(tmp0, md5, file, UPLOAD_CHUNK_SIZE, sent);
    ResumeCompletesSession(tmp0, md5, file, UPLOAD_CHUNK_SIZE, sent);
    assert ChunkCount(|file|, UPLOAD_CHUNK_SIZE) <= 10;
    LexMergeRestoresUpToTenChunks(after[md5], file, UPLOAD_CHUNK_SIZE);
  }

  /** The server as written stores a fresh upload of `ElevenMiB()` with its
      last chunk in third place. */
  lemma AsWrittenServerScramblesElevenMiB(tmp0: Sessions, upload0: PublicFiles, tmp: Sessions, upload: PublicFiles,
                                          name: string, md5: string, sent: seq<nat>)
    requires '-' !in md5 && md5 !in tmp0
    requires Uploaded(tmp0, upload0, tmp, upload, Lexicographic, ElevenMiB(), name, md5, sent)
    ensures name in upload && upload[name] != ElevenMiB()
  {
    var file := ElevenMiB();
    var after := ApplyParts(tmp0, md5, file, UPLOAD_CHUNK_SIZE, sent);
    assert ChunkCount(|file|, UPLOAD_CHUNK_SIZE) == 11;
    ResumeCompletesSession(tmp0, md5, file, UPLOAD_CHUNK_SIZE, sent);
    assert file[10 * UPLOAD_CHUNK_SIZE] != file[2 * UPLOAD_CHUNK_SIZE];
    LexMergeScramblesElevenChunks(after[md5], file, UPLOAD_CHUNK_SIZE);
  }

  /** When every chunk a session lacks arrives, a non-empty file has a
      session directory to merge: it held a chunk already, or one arrived. */
  lemma SessionExistsAfterParts(tmp0: Sessions, md5: string, file: seq<byte>, sent: seq<nat>)
    requires '-' !in md5 && |file| > 0
    requires MissingChunks(tmp0, md5, ChunkCount(|file|, UPLOAD_CHUNK_SIZE), sent, {})
    ensures md5 in ApplyParts(tmp0, md5, file, UPLOAD_CHUNK_SIZE, sent)
  {
    if sent == [] {
      ChunkCountIsCeiling(|file|, UPLOAD_CHUNK_SIZE);
      assert 0 !in sent;
      assert Held(tmp0, md5, 0);
    } else {
      ApplyPartsStep(tmp0, md5, file, UPLOAD_CHUNK_SIZE, sent);
    }
  }

  /** `uploadChunkFile` of a new, non-empty file with nothing failing: it
      resolves with the file's URL and "File uploaded successfully", and the
      server merged the session completed by the missing chunks. */
  method FaultFreeUpload(server: UploadServer, file: seq<byte>, name: string, digest: seq<byte> -> string)
    returns (r: Result<Reply, ClientError>, sent: seq<nat>)
    requires '-' !in digest(file) && |file| > 0 && name !in server.upload
    modifies server
    ensures r == Ok(Reply(FileUrl(name), UPLOADED))
    ensures Uploaded(old(server.tmp), old(server.upload), server.tmp, server.upload, server.mergeOrder,
                     file, name, digest(file), sent)
  {
    ghost var tmp0 := server.tmp;
    var calls, attempted;
    r, calls, attempted, sent := UploadChunkFile(server, file, name, digest, {}, {}, {}, {});
    assert r != Ok(Reply(FileUrl(name), ALREADY_UPLOADED));
    assert !(r.Err? && (r.error.TransferFailed? || r.error.FingerprintFailed?));
    assert Requested(tmp0, file, digest(file), attempted, {}, sent);
    SessionExistsAfterParts(tmp0, digest(file), file, sent);
    assert r.Ok?;
  }

  /** The corrected server stores every new file uploaded without a failure,
      provided that what an earlier attempt left is right. */
  method CorrectedServerStoresFaultFreeUpload(server: UploadServer, file: seq<byte>, name: string,
                                               digest: seq<byte> -> string)
    returns (r: Result<Reply, ClientError>)
    requires server.mergeOrder == Numeric && '-' !in digest(file) && |file| > 0 && name !in server.upload
    requires digest(file) !in server.tmp || Consistent(SessionOf(server.tmp, digest(file)), file, UPLOAD_CHUNK_SIZE)
    modifies server
    ensures r == Ok(Reply(FileUrl(name), UPLOADED))
    ensures name in server.upload && server.upload[name] == file
  {
    ghost var tmp0, upload0 := server.tmp, server.upload;
    var sent;
    r, sent := FaultFreeUpload(server, file, name, digest);
    CorrectedServerRestoresFile(tmp0, upload0, server.tmp, server.upload, file, name, digest(file), sent);
  }

  /** The server as written answers a fresh, fault-free upload of
      `ElevenMiB()` with success, and stores a different file. */
  method AsWrittenServerAcceptsScrambledElevenMiB(server: UploadServer, name: string, digest: seq<byte> -> string)
    returns (r: Result<Reply, ClientError>)
    requires server.mergeOrder == Lexicographic && name !in server.upload
    requires '-' !in digest(ElevenMiB()) && digest(ElevenMiB()) !in server.tmp
    modifies server
    ensures r == Ok(Reply(FileUrl(name), UPLOADED))
    ensures name in server.upload && server.upload[name] != ElevenMiB()
  {
    ghost var tmp0, upload0 := server.tmp, server.upload;
    var sent;
    r, sent := FaultFreeUpload(server, ElevenMiB(), name, digest);
    AsWrittenServerScramblesElevenMiB(tmp0, upload0, server.tmp, server.upload, name, digest(ElevenMiB()), sent);
  }

  /** An empty file cannot be uploaded in chunks: no chunk is sent, no
      session directory exists, and the merge request fails. */
  lemma EmptyFileNeverUploads(tmp0: Sessions, upload0: PublicFiles, tmp: Sessions, upload: PublicFiles,
                              o: Order, name: string, md5: string, sent: seq<nat>)
    requires '-' !in md5 && md5 !in tmp0
    ensures !Uploaded(tmp0, upload0, tmp, upload, o, [], name, md5, sent)
  {
    if Uploaded(tmp0, upload0, tmp, upload, o, [], name, md5, sent) {
      assert ChunkCount(0, UPLOAD_CHUNK_SIZE) == 0;
      ApplyPartsSession(tmp0, md5, [], UPLOAD_CHUNK_SIZE, sent);
    }
  }
}
