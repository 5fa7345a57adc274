/** Sender-side chunk arithmetic of the file-sharing client: how a file of
    `size` bytes is cut into fixed windows, what header each `send-file-chunk`
    message carries, and the message stream a whole selection produces.
    These functions are the specification the imperative sequencer in the
    Client module is proved against. */
module Chunking {

  type Byte = bv8

  /** CHUNK_SIZE: 512 KiB per message. */
  const ChunkSize: nat := 512 * 1024

  /** A selected file: its name and its bytes (`file.size` is `|data|`). */
  datatype File = File(name: string, data: seq<Byte>)

  /** The body of one `send-file-chunk` message. `chunkData` is the byte
      window before it is Base64-encoded for the wire. */
  datatype Chunk = Chunk(
    sessionId: string,
    fileName: string,
    chunkIndex: nat,
    totalChunks: nat,
    chunkData: seq<Byte>,
    totalFiles: nat,
    fileIndex: nat)

  function Min(a: int, b: int): int { if a <= b then a else b }

  /** The ceiling of size / CHUNK_SIZE: the least number of windows that cover
      `size` bytes. (The quotient is exact in a double, since CHUNK_SIZE is a
      power of two and a file size is below 2^53.) */
  function TotalChunks(size: nat): (n: nat)
    ensures size <= n * ChunkSize
    ensures n > 0 ==> (n - 1) * ChunkSize < size
    ensures n == 0 <==> size == 0
  {
    (size + ChunkSize - 1) / ChunkSize
  }

  /** `Blob.slice(start, end)`: both ends are clamped to the blob, and an end
      before the start gives the empty blob. */
  function Slice(data: seq<Byte>, start: nat, end: nat): (w: seq<Byte>)
    ensures start <= end <= |data| ==> w == data[start..end]
    ensures start <= |data| <= end ==> w == data[start..]
    ensures |data| <= start || end <= start ==> w == []
    ensures |w| <= |data|
  {
    var s := Min(start, |data|);
    var e := Min(end, |data|);
    if e <= s then [] else data[s..e]
  }

  /** The window read for chunk `k`: `file.slice(start, end)` with
      `start = k * CHUNK_SIZE` and `end = min(size, start + CHUNK_SIZE)`. */
  function Window(data: seq<Byte>, k: nat): (w: seq<Byte>)
    ensures |w| <= ChunkSize
    ensures |data| <= k * ChunkSize ==> w == []
  {
    Slice(data, k * ChunkSize, Min(|data|, k * ChunkSize + ChunkSize))
  }

  /** How many messages one run of the sequencer emits. The first read is
      issued unconditionally, so an empty file (zero chunks) still emits one. */
  function EmittedCount(size: nat): (n: nat)
    ensures n >= 1
    ensures size <= n * ChunkSize
    ensures size > 0 ==> n == TotalChunks(size)
  {
    if TotalChunks(size) == 0 then 1 else TotalChunks(size)
  }

  /** The messages one run of the sequencer emits for `file`, in order. */
  function FileChunks(file: File, sessionId: string, totalFiles: nat, fileIndex: nat): (r: seq<Chunk>)
    ensures |r| == EmittedCount(|file.data|)
  {
    seq(EmittedCount(|file.data|), k requires 0 <= k =>
      Chunk(sessionId, file.name, k as nat, TotalChunks(|file.data|),
            Window(file.data, k as nat), totalFiles, fileIndex))
  }

  /** The messages the multi-file driver emits: every file of `files`, in
      index order, each file's run complete before the next one starts. */
  function SessionChunks(files: seq<File>, sessionId: string, totalFiles: nat): (r: seq<Chunk>)
    ensures |r| >= |files|
  {
    if files == [] then []
    else SessionChunks(files[..|files| - 1], sessionId, totalFiles)
         + FileChunks(files[|files| - 1], sessionId, totalFiles, |files| - 1)
  }

  /** The bytes carried by `cs`, concatenated in order. */
  function Payloads(cs: seq<Chunk>): seq<Byte>
  {
    if cs == [] then [] else Payloads(cs[..|cs| - 1]) + cs[|cs| - 1].chunkData
  }

  /** The messages of `cs` that belong to file `i`, in order. */
  function OfFile(cs: seq<Chunk>, i: nat): seq<Chunk>
  {
    if cs == [] then []
    else OfFile(cs[..|cs| - 1], i) + (if cs[|cs| - 1].fileIndex == i then [cs[|cs| - 1]] else [])
  }

  /** Strict order of (fileIndex, chunkIndex) pairs. */
  predicate Precedes(a: Chunk, b: Chunk)
  {
    a.fileIndex < b.fileIndex || (a.fileIndex == b.fileIndex && a.chunkIndex < b.chunkIndex)
  }

  // ---------------------------------------------------------------------
  // One file
  // ---------------------------------------------------------------------

  /** The worked example: a 1,500,000-byte file is sent as three chunks of
      524288, 524288 and 451424 bytes. */
  lemma ExampleOneAndAHalfMegabytes(data: seq<Byte>)
    requires |data| == 1500000
    ensures TotalChunks(|data|) == 3
    ensures |Window(data, 0)| == 524288 && |Window(data, 1)| == 524288 && |Window(data, 2)| == 451424
  {
  }

  /** Every chunk a run emits starts inside the file (or at 0 for the empty
      file), so its window is exactly [k*CHUNK_SIZE, min(size, k*CHUNK_SIZE + CHUNK_SIZE)). */
  lemma WindowBounds(data: seq<Byte>, k: nat)
    requires k < EmittedCount(|data|)
    ensures k * ChunkSize <= |data|
    ensures Window(data, k) == data[k * ChunkSize .. Min(|data|, k * ChunkSize + ChunkSize)]
  {
    if k > 0 {
      var n := TotalChunks(|data|);
      assert k <= n - 1;
      assert k * ChunkSize <= (n - 1) * ChunkSize;
    }
  }

  /** Chunk sizes: none exceeds CHUNK_SIZE, every one but the last is exactly
      CHUNK_SIZE, and the last one ends at the end of the file. */
  lemma WindowSizes(data: seq<Byte>, k: nat)
    requires k < EmittedCount(|data|)
    ensures |Window(data, k)| <= ChunkSize
    ensures k + 1 < EmittedCount(|data|) ==> |Window(data, k)| == ChunkSize
    ensures k + 1 == EmittedCount(|data|) ==> k * ChunkSize + |Window(data, k)| == |data|
  {
    WindowBounds(data, k);
    if k + 1 < EmittedCount(|data|) {
      var n := TotalChunks(|data|);
      assert (k + 1) * ChunkSize <= (n - 1) * ChunkSize;
    }
  }

  /** A run over a non-empty file emits exactly `totalChunks` messages, with
      chunk indices 0, 1, ..., totalChunks-1 in increasing order; the last
      message emitted carries `chunkIndex == totalChunks - 1`. */
  lemma FileChunkIndices(file: File, sessionId: string, totalFiles: nat, fileIndex: nat)
    requires |file.data| > 0
    ensures |FileChunks(file, sessionId, totalFiles, fileIndex)| == TotalChunks(|file.data|)
    ensures forall k :: 0 <= k < |FileChunks(file, sessionId, totalFiles, fileIndex)| ==>
              FileChunks(file, sessionId, totalFiles, fileIndex)[k].chunkIndex == k
    ensures FileChunks(file, sessionId, totalFiles, fileIndex)[TotalChunks(|file.data|) - 1].chunkIndex
              == TotalChunks(|file.data|) - 1
  {
  }

  /** The empty-file edge case: zero chunks are announced, yet one message
      with chunkIndex 0, totalChunks 0 and an empty window is emitted. */
  lemma EmptyFileChunks(file: File, sessionId: string, totalFiles: nat, fileIndex: nat)
    requires |file.data| == 0
    ensures FileChunks(file, sessionId, totalFiles, fileIndex)
            == [Chunk(sessionId, file.name, 0, 0, [], totalFiles, fileIndex)]
  {
  }

  /** Every message of one run carries the same session id, file name,
      totalChunks, totalFiles and fileIndex; only chunkIndex and the payload vary. */
  lemma FileChunkHeaders(file: File, sessionId: string, totalFiles: nat, fileIndex: nat)
    ensures forall c :: c in FileChunks(file, sessionId, totalFiles, fileIndex) ==>
              && c.sessionId == sessionId
              && c.fileName == file.name
              && c.totalChunks == TotalChunks(|file.data|)
              && c.totalFiles == totalFiles
              && c.fileIndex == fileIndex
  {
  }

  /** Window j continues the bytes covered by windows 0..j-1. */
  lemma WindowExtends(data: seq<Byte>, j: nat)
    requires j < EmittedCount(|data|)
    ensures data[..Min(|data|, j * ChunkSize)] + Window(data, j) == data[..Min(|data|, (j + 1) * ChunkSize)]
  {
    var lo := j * ChunkSize;
    var hi := Min(|data|, lo + ChunkSize);
    WindowBounds(data, j);
    assert (j + 1) * ChunkSize == lo + ChunkSize;
    assert data[..lo] + data[lo..hi] == data[..hi];
  }

  /** Any stream whose k-th payload is window k of `data` tiles the first
      min(size, n*CHUNK_SIZE) bytes with its first n messages. */
  lemma {:induction false} PrefixPayloads(data: seq<Byte>, cs: seq<Chunk>)
    requires |cs| <= EmittedCount(|data|)
    requires forall k :: 0 <= k < |cs| ==> cs[k].chunkData == Window(data, k)
    ensures Payloads(cs) == data[..Min(|data|, |cs| * ChunkSize)]
  {
    if cs != [] {
      var i := |cs| - 1;
      PrefixPayloads(data, cs[..i]);
      WindowExtends(data, i);
      assert Payloads(cs) == Payloads(cs[..i]) + Window(data, i);
    }
  }

  /** The windows of one run tile the file exactly: concatenating the payloads
      of its messages, in emission order, gives back the file's bytes. */
  lemma FileChunksReassemble(file: File, sessionId: string, totalFiles: nat, fileIndex: nat)
    ensures Payloads(FileChunks(file, sessionId, totalFiles, fileIndex)) == file.data
  {
    var cs := FileChunks(file, sessionId, totalFiles, fileIndex);
    PrefixPayloads(file.data, cs);
    assert file.data[..|file.data|] == file.data;
  }

  // ---------------------------------------------------------------------
  // A whole selection
  // ---------------------------------------------------------------------

  /** Across a whole send, every message names a file of the selection, and
      (fileIndex, chunkIndex) strictly increases: all of file i's messages
      precede all of file i+1's, and within a file the indices increase. */
  lemma {:induction false} SessionChunksOrdered(files: seq<File>, sessionId: string, totalFiles: nat)
    ensures forall c :: c in SessionChunks(files, sessionId, totalFiles) ==> c.fileIndex < |files|
    ensures forall p, q :: 0 <= p < q < |SessionChunks(files, sessionId, totalFiles)| ==>
              Precedes(SessionChunks(files, sessionId, totalFiles)[p], SessionChunks(files, sessionId, totalFiles)[q])
  {
    if files != [] {
      var init := files[..|files| - 1];
      SessionChunksOrdered(init, sessionId, totalFiles);
      var a := SessionChunks(init, sessionId, totalFiles);
      var b := FileChunks(files[|files| - 1], sessionId, totalFiles, |files| - 1);
      var s := SessionChunks(files, sessionId, totalFiles);
      assert s == a + b;
      forall p, q | 0 <= p < q < |s|
        ensures Precedes(s[p], s[q])
      {
        if q < |a| {
          assert s[p] == a[p] && s[q] == a[q];
        } else if p < |a| {
          assert s[p] == a[p] && a[p] in a;
        }
      }
    }
  }

  /** Sending one more file extends the stream by exactly that file's run. */
  lemma SessionChunksStep(files: seq<File>, sessionId: string, totalFiles: nat, k: nat)
    requires k < |files|
    ensures SessionChunks(files[..k + 1], sessionId, totalFiles)
            == SessionChunks(files[..k], sessionId, totalFiles) + FileChunks(files[k], sessionId, totalFiles, k)
  {
    assert files[..k + 1][..k] == files[..k];
  }

  /** The messages of a file within the concatenation of two streams. */
  lemma {:induction false} OfFileAppend(a: seq<Chunk>, b: seq<Chunk>, i: nat)
    ensures OfFile(a + b, i) == OfFile(a, i) + OfFile(b, i)
  {
    if b == [] {
      assert a + b == a;
    } else {
      OfFileAppend(a, b[..|b| - 1], i);
      assert (a + b)[..|a + b| - 1] == a + b[..|b| - 1];
    }
  }

  /** Filtering by a file index keeps a stream whose messages all carry that
      index and drops one whose messages all carry another. */
  lemma {:induction false} OfFileUniform(cs: seq<Chunk>, j: nat, i: nat)
    requires forall c :: c in cs ==> c.fileIndex == j
    ensures OfFile(cs, i) == if i == j then cs else []
  {
    if cs != [] {
      OfFileUniform(cs[..|cs| - 1], j, i);
      assert cs[|cs| - 1] in cs;
      assert cs[..|cs| - 1] + [cs[|cs| - 1]] == cs;
    }
  }

  /** Picking file i's messages out of a whole send gives exactly that file's
      own run. */
  lemma {:induction false} SessionChunksOfFile(files: seq<File>, sessionId: string, totalFiles: nat, i: nat)
    ensures OfFile(SessionChunks(files, sessionId, totalFiles), i)
            == if i < |files| then FileChunks(files[i], sessionId, totalFiles, i) else []
  {
    if files != [] {
      var n := |files| - 1;
      var init := files[..n];
      var a := SessionChunks(init, sessionId, totalFiles);
      var b := FileChunks(files[n], sessionId, totalFiles, n);
      assert SessionChunks(files, sessionId, totalFiles) == a + b;
      assert OfFile(a + b, i) == OfFile(a, i) + OfFile(b, i) by {
        OfFileAppend(a, b, i);
      }
      assert OfFile(a, i) == if i < n then FileChunks(files[i], sessionId, totalFiles, i) else [] by {
        SessionChunksOfFile(init, sessionId, totalFiles, i);
        if i < n { assert init[i] == files[i]; }
      }
      assert OfFile(b, i) == if i == n then b else [] by {
        FileChunkHeaders(files[n], sessionId, totalFiles, n);
        OfFileUniform(b, n, i);
      }
      if i != n {
        assert OfFile(a, i) + [] == OfFile(a, i);
      }
    }
  }

  /** Byte-exact delivery: the payloads of file i's messages, in the order
      they were emitted, are file i's bytes. */
  lemma SessionReassemble(files: seq<File>, sessionId: string, totalFiles: nat, i: nat)
    requires i < |files|
    ensures Payloads(OfFile(SessionChunks(files, sessionId, totalFiles), i)) == files[i].data
  {
    SessionChunksOfFile(files, sessionId, totalFiles, i);
    FileChunksReassemble(files[i], sessionId, totalFiles, i);
  }
}
