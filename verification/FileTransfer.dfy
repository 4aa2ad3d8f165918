/** The sending half of a download: a file cut into chunks, one message each. */
module FileTransfer {
  import opened Bytes
  import opened Wrappers
  import opened Protocol

  const CHUNK_SIZE: nat := 32 * 1024

  /** How many chunks a file needs. */
  function Pieces(file: Buf): nat { (|file| + CHUNK_SIZE - 1) / CHUNK_SIZE }

  /** The chunk count as it is sent: the low 32 bits. */
  function Total(file: Buf): (t: nat)
    ensures t <= Pieces(file)
  {
    Pieces(file) % U32
  }

  /** A file whose chunk count fits the 32 bits it has on the wire, under a name whose length fits one byte. */
  predicate Sendable(name: Buf, file: Buf) { Pieces(file) < U32 && |name| <= 255 }

  /** The bytes of the `idx`-th chunk. */
  function Piece(file: Buf, idx: nat): Buf
    requires idx < Pieces(file)
  {
    var start := idx * CHUNK_SIZE;
    if start + CHUNK_SIZE <= |file| then file[start..start + CHUNK_SIZE] else file[start..]
  }

  function ChunkAt(name: Buf, file: Buf, idx: nat): Chunk
    requires idx < Pieces(file)
  {
    Chunk(idx, Total(file), name, Piece(file, idx))
  }

  /** The single chunk that says there is nothing to send. */
  function NothingChunk(name: Buf): Chunk { Chunk(0, 0, name, []) }

  /** What `sendFile` sends for a file: its chunks in order, or the one chunk that says there is nothing. */
  function Chunks(name: Buf, file: Buf): seq<Chunk> {
    if Total(file) == 0 then [NothingChunk(name)]
    else seq(Total(file), i requires 0 <= i < Total(file) => ChunkAt(name, file, i))
  }

  function ChunkMsg(c: Chunk): Msg { Msg(FILE_DATA, 0, ChunkPayload(c)) }

  lemma TotalIs(file: Buf)
    ensures Total(file) == if file == [] then 0 else (|file| + CHUNK_SIZE - 1) / CHUNK_SIZE % U32
  {
  }

  lemma TotalIsPieces(file: Buf)
    requires Pieces(file) < U32
    ensures Total(file) == Pieces(file)
  {
  }

  lemma SliceIsPiece(file: Buf, idx: nat)
    requires idx < Pieces(file)
    ensures var start := idx * CHUNK_SIZE;
            && start < |file|
            && var n := if CHUNK_SIZE < |file| - start then CHUNK_SIZE else |file| - start;
            file[start..start + n] == Piece(file, idx)
  {
  }

  /** `sendFile`: the messages handed to the connection, up to the first that it
      does not take. `contents` is what reading the file gave; `takes` is how many
      messages the connection takes. */
  method SendFile(name: Buf, contents: Option<Buf>, takes: nat) returns (sent: seq<Msg>)
    ensures |name| > 255 ==> sent == []
    ensures |name| <= 255 ==>
              var all := Chunks(name, if contents.Some? then contents.value else []);
              && |sent| == (if takes + 1 < |all| then takes + 1 else |all|)
              && forall i :: 0 <= i < |sent| ==> sent[i] == ChunkMsg(all[i])
  {
    hide ChunkMsg, Total, Pieces, Piece;
    sent := [];
    if |name| > 255 { return; }
    var bytes: Buf := if contents.Some? then contents.value else [];
    var total := if bytes == [] then 0 else (|bytes| + CHUNK_SIZE - 1) / CHUNK_SIZE % U32;
    TotalIs(bytes);
    if total == 0 {
      sent := [ChunkMsg(NothingChunk(name))];
      return;
    }
    var idx := 0;
    while idx < total
      invariant idx <= total && idx <= takes && |sent| == idx
      invariant forall i :: 0 <= i < idx ==> sent[i] == ChunkMsg(ChunkAt(name, bytes, i))
    {
      var start := idx * CHUNK_SIZE;
      SliceIsPiece(bytes, idx);
      var n := if CHUNK_SIZE < |bytes| - start then CHUNK_SIZE else |bytes| - start;
      sent := sent + [ChunkMsg(Chunk(idx, total, name, bytes[start..start + n]))];
      if idx >= takes { return; }
      idx := idx + 1;
    }
  }

  /** The first `k` pieces of a file, joined. */
  function Joined(file: Buf, k: nat): Buf
    requires k <= Pieces(file)
  {
    if k == 0 then [] else Joined(file, k - 1) + Piece(file, k - 1)
  }

  /** Chunks are consecutive, full except perhaps the last, and together they are the file. */
  lemma {:induction false} JoinedIsPrefix(file: Buf, k: nat)
    requires k <= Pieces(file)
    ensures Joined(file, k) == if k * CHUNK_SIZE <= |file| then file[..k * CHUNK_SIZE] else file
    decreases k
  {
    if k > 0 {
      JoinedIsPrefix(file, k - 1);
      var start := (k - 1) * CHUNK_SIZE;
      assert start < |file|;
      if start + CHUNK_SIZE <= |file| {
        assert file[..start] + file[start..start + CHUNK_SIZE] == file[..start + CHUNK_SIZE];
      } else {
        assert file[..start] + file[start..] == file;
      }
    }
  }

  lemma JoinedIsFile(file: Buf)
    ensures Joined(file, Pieces(file)) == file
    ensures Pieces(file) == 0 <==> file == []
  {
    JoinedIsPrefix(file, Pieces(file));
    assert Pieces(file) * CHUNK_SIZE >= |file|;
    if Pieces(file) * CHUNK_SIZE == |file| { assert file[..|file|] == file; }
  }

  /** A file on the wire: one message per started 32 KiB, of type 0x0033, holding its index, their
      number, the name with its length before it, and that part of the file. */
  lemma FileOnTheWire(name: Buf, file: Buf, k: nat)
    requires Sendable(name, file) && k * 32768 < |file|
    ensures var n, b, start := |Chunks(name, file)|, Build(ChunkMsg(Chunks(name, file)[k])), k * 32768;
            && (n - 1) * 32768 < |file| <= n * 32768
            && b[..8] == [0x53, 0x45, 0x43, 0x31, 0x00, 0x33, 0, 0]
            && |b| > 20 + |name| && Get(b[12..16]) == k && Get(b[16..20]) == n && b[20] as nat == |name|
            && b[21..21 + |name|] == name
            && b[21 + |name|..] == file[start..if start + 32768 < |file| then start + 32768 else |file|]
  {
    hide Put, Get, ChunkPayload, Build, Piece;
    TotalIsPieces(file);
    var c := ChunkAt(name, file, k);
    assert Chunks(name, file)[k] == c;
    ChunkIsSmall(name, file, k);
    BuiltFront(ChunkMsg(c));
    ChunkBytes(c);
    SliceIsPiece(file, k);
    var b, p := Build(ChunkMsg(c)), ChunkPayload(c);
    assert b[12..] == p;
    forall i | 0 <= i < |p| ensures b[12 + i] == p[i] { assert b[12..][i] == b[12 + i]; }
    assert b[12..16] == p[..4] && b[16..20] == p[4..8] && b[20] == p[8] && b[21..21 + |name|] == p[9..9 + |name|];
    assert b[21 + |name|..] == p[9 + |name|..];
  }

  // ---- what a client puts out -------------------------------------------------------

  /** Among the files a client has put out, the contents under one name, in order. */
  function ContentsOf(files: seq<(Buf, Buf)>, name: Buf): seq<Buf> {
    if files == [] then []
    else
      var last := files[|files| - 1];
      ContentsOf(files[..|files| - 1], name) + (if last.0 == name then [last.1] else [])
  }

  lemma ContentsMore(files: seq<(Buf, Buf)>, other: Buf, bytes: Buf, name: Buf)
    ensures ContentsOf(files + [(other, bytes)], name)
            == ContentsOf(files, name) + (if other == name then [bytes] else [])
  {
    assert (files + [(other, bytes)])[..|files|] == files;
  }

  lemma ChunkIsSmall(name: Buf, file: Buf, idx: nat)
    requires Sendable(name, file) && idx < Pieces(file)
    ensures ChunkFits(ChunkAt(name, file, idx))
    ensures 9 + |name| <= |ChunkPayload(ChunkAt(name, file, idx))| <= 9 + 255 + CHUNK_SIZE
    ensures Representable(ChunkMsg(ChunkAt(name, file, idx)))
  {
  }
}
