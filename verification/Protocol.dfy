/** The SEC1 wire protocol: a twelve-byte header and a payload, and the layout of
    the payloads that are not JSON. */
module Protocol {
  import opened Bytes
  import opened Wrappers

  const MAGIC: nat := 0x53454331
  const HEADER_SIZE: nat := 12
  const VIDEO_SUBHEADER_SIZE: nat := 20

  const HELLO: nat := 0x0001
  const VIDEO_FRAME: nat := 0x0010
  const SERVO_CMD: nat := 0x0020
  const MODE_CMD: nat := 0x0021
  const FILE_LIST_REQ: nat := 0x0030
  const FILE_GET_REQ: nat := 0x0032
  const FILE_DATA: nat := 0x0033
  const FILE_DELETE_REQ: nat := 0x0034
  const SNAPSHOT_REQ: nat := 0x0040

  datatype Header = Header(typ: nat, flags: nat, length: nat)

  datatype Msg = Msg(typ: nat, flags: nat, payload: Buf)

  /** The fields fit the widths they have on the wire. */
  predicate Representable(m: Msg) { m.typ < U16 && m.flags < U16 && |m.payload| < U32 }

  /** A message as `buildMessage` lays it out. */
  function Build(m: Msg): Buf {
    Put(MAGIC, 4) + Put(m.typ, 2) + Put(m.flags, 2) + Put(|m.payload|, 4) + m.payload
  }

  /** The header at the front of a buffer; nothing if it is short or the magic is wrong. */
  function DecodeHeader(p: Buf): (h: Option<Header>)
    ensures h.Some? ==> |p| >= HEADER_SIZE
  {
    if |p| < HEADER_SIZE then None
    else if Get(p[..4]) != MAGIC then None
    else Some(Header(Get(p[4..6]), Get(p[6..8]), Get(p[8..12])))
  }

  lemma BuildParts(m: Msg, tail: Buf)
    ensures var p := Build(m) + tail;
            && |p| >= HEADER_SIZE + |m.payload| && |Build(m)| == HEADER_SIZE + |m.payload|
            && p[..4] == Put(MAGIC, 4) && p[4..6] == Put(m.typ, 2) && p[6..8] == Put(m.flags, 2)
            && p[8..12] == Put(|m.payload|, 4) && p[12..12 + |m.payload|] == m.payload
  {
    hide Put;
  }

  /** A header is read back from the message that was built, whatever follows. */
  lemma HeaderRoundTrip(m: Msg, tail: Buf)
    requires Representable(m)
    ensures DecodeHeader(Build(m) + tail) == Some(Header(m.typ, m.flags, |m.payload|))
  {
    hide Put, Get, Build;
    BuildParts(m, tail);
    Widths();
    GetPut(MAGIC, 4);
    GetPut(m.typ, 2);
    GetPut(m.flags, 2);
    GetPut(|m.payload|, 4);
  }

  /** The first bytes of a message: the magic, then type and flags in two bytes each. */
  lemma BuiltFront(m: Msg)
    requires m.typ < U16 && m.flags < U16
    ensures Build(m)[..8] == [0x53, 0x45, 0x43, 0x31, (m.typ / 256) as byte, (m.typ % 256) as byte,
                              (m.flags / 256) as byte, (m.flags % 256) as byte]
    ensures |Build(m)| == 12 + |m.payload| && Build(m)[12..] == m.payload
  {
    var b := Build(m) + [];
    BuildParts(m, []);
    assert Build(m) == b;
    assert Put(MAGIC, 4) == [0x53, 0x45, 0x43, 0x31] by { MagicPut(); }
    TwoBytesOf(m.typ);
    TwoBytesOf(m.flags);
    hide Put, Build;
    assert b[..8] == b[..4] + b[4..6] + b[6..8];
    assert b[12..] == b[12..12 + |m.payload|];
  }

  lemma MagicPut()
    ensures Put(MAGIC, 4) == [0x53, 0x45, 0x43, 0x31]
  {
    OneByteOf(0x53);
    assert Put(0x5345, 2) == Put(0x53, 1) + [0x45];
    assert Put(0x534543, 3) == Put(0x5345, 2) + [0x43];
    assert Put(0x53454331, 4) == Put(0x534543, 3) + [0x31];
  }

  lemma TwoBytesOf(n: nat)
    requires n < U16
    ensures Put(n, 2) == [(n / 256) as byte, (n % 256) as byte]
  {
    OneByteOf(n / 256);
  }

  /** `putU16`: the two low bytes, each shifted down and cut off. */
  method PutU16(b: Buf, v: nat) returns (r: Buf)
    ensures r == b + Put(v, 2)
  {
    r := b + [((v / 0x100) % 256) as byte];
    r := r + [(v % 256) as byte];
    OneByteOf(v / 0x100);
  }

  /** `putU32`. */
  method PutU32(b: Buf, v: nat) returns (r: Buf)
    ensures r == b + Put(v, 4)
  {
    r := b + [((v / 0x100_0000) % 256) as byte];
    r := r + [((v / 0x1_0000) % 256) as byte];
    r := r + [((v / 0x100) % 256) as byte];
    r := r + [(v % 256) as byte];
    OneByteOf(v / 0x100_0000);
    assert v / 0x100 / 0x100 == v / 0x1_0000 && v / 0x1_0000 / 0x100 == v / 0x100_0000;
    assert Put(v, 4) == Put(v / 0x100, 3) + [(v % 256) as byte];
    assert Put(v / 0x100, 3) == Put(v / 0x1_0000, 2) + [((v / 0x100) % 256) as byte];
    assert Put(v / 0x1_0000, 2) == Put(v / 0x100_0000, 1) + [((v / 0x1_0000) % 256) as byte];
  }

  lemma OneByteOf(n: nat)
    ensures Put(n, 1) == [(n % 256) as byte]
  {
    assert Put(n / 256, 0) == [];
  }

  /** `buildMessage`, appending to a vector. */
  method BuildMessage(typ: nat, payload: Buf, flags: nat) returns (b: Buf)
    ensures b == Build(Msg(typ, flags, payload))
  {
    hide Put;
    b := PutU32([], MAGIC);
    b := PutU16(b, typ);
    b := PutU16(b, flags);
    b := PutU32(b, |payload|);
    if |payload| > 0 { b := b + payload; }
  }

  /** The loop of `getU64`. */
  method GetU64(p: Buf) returns (v: nat)
    requires |p| == 8
    ensures v == Get(p)
  {
    v := 0;
    for i := 0 to 8
      invariant v == Get(p[..i])
    {
      GetStep(p, i);
      v := v * 256 + p[i] as nat;
    }
    assert p[..8] == p;
  }

  // ---- video frames ------------------------------------------------------------

  datatype Video = Video(seqNo: nat, width: nat, height: nat, tsMs: nat, jpeg: Buf)

  function VideoPayload(v: Video): Buf {
    Put(v.seqNo, 4) + Put(v.width, 4) + Put(v.height, 4) + Put(v.tsMs, 8) + v.jpeg
  }

  /** `buildVideoFrame`. */
  method BuildVideoFrame(v: Video) returns (b: Buf)
    ensures b == Build(Msg(VIDEO_FRAME, 0, VideoPayload(v)))
    ensures b[..8] == [0x53, 0x45, 0x43, 0x31, 0x00, 0x10, 0, 0] && b[12..] == VideoPayload(v)
  {
    hide Put, Build;
    var sub := PutU32([], v.seqNo);
    sub := PutU32(sub, v.width);
    sub := PutU32(sub, v.height);
    sub := AppendU64(sub, v.tsMs);
    if v.jpeg != [] { sub := sub + v.jpeg; }
    assert sub == VideoPayload(v);
    b := BuildMessage(VIDEO_FRAME, sub, 0);
    BuiltFront(Msg(VIDEO_FRAME, 0, sub));
  }

  /** What both clients read from a video payload. */
  function ParseVideo(p: Buf): Option<Video> {
    if |p| < VIDEO_SUBHEADER_SIZE then None
    else Some(Video(Get(p[..4]), Get(p[4..8]), Get(p[8..12]), Get(p[12..20]), p[20..]))
  }

  lemma VideoRoundTrip(v: Video)
    requires v.seqNo < U32 && v.width < U32 && v.height < U32 && v.tsMs < U64
    ensures ParseVideo(VideoPayload(v)) == Some(v)
  {
    hide Put, Get;
    Widths();
    var p := VideoPayload(v);
    GetPut(v.seqNo, 4);
    GetPut(v.width, 4);
    GetPut(v.height, 4);
    GetPut(v.tsMs, 8);
    assert p[..4] == Put(v.seqNo, 4) && p[4..8] == Put(v.width, 4) && p[8..12] == Put(v.height, 4);
    assert p[12..20] == Put(v.tsMs, 8) && p[20..] == v.jpeg;
  }

  /** What a video payload holds, told by its bytes: frame number, width and height in four
      bytes each, the time in eight, then the picture. */
  lemma VideoInBytes(p: Buf)
    ensures ParseVideo(p).Some? <==> |p| >= 20
    ensures |p| >= 20 ==>
              var v := ParseVideo(p).value;
              && v.seqNo == p[0] as nat * 0x100_0000 + p[1] as nat * 0x1_0000 + p[2] as nat * 0x100 + p[3] as nat
              && v.width == p[4] as nat * 0x100_0000 + p[5] as nat * 0x1_0000 + p[6] as nat * 0x100 + p[7] as nat
              && v.height == p[8] as nat * 0x100_0000 + p[9] as nat * 0x1_0000 + p[10] as nat * 0x100 + p[11] as nat
              && v.tsMs == Get(p[12..16]) * 0x1_0000_0000 + Get(p[16..20])
              && v.jpeg == p[20..]
  {
    hide Get;
    if |p| >= 20 {
      BigEndian(p[..4]);
      BigEndian(p[4..8]);
      BigEndian(p[8..12]);
      EightBytes(p[12..20]);
      assert p[12..20][..4] == p[12..16] && p[12..20][4..] == p[16..20];
    }
  }

  // ---- file chunks -------------------------------------------------------------

  datatype Chunk = Chunk(idx: nat, total: nat, name: Buf, bytes: Buf)

  predicate ChunkFits(c: Chunk) { c.idx < U32 && c.total < U32 && |c.name| < 256 }

  function ChunkPayload(c: Chunk): Buf {
    Put(c.idx, 4) + Put(c.total, 4) + Put(|c.name|, 1) + c.name + c.bytes
  }

  /** What both clients read from a file chunk; nothing if it is cut short. */
  function ParseFileData(p: Buf): Option<Chunk> {
    if |p| < 9 then None
    else
      var nameEnd := 9 + p[8] as nat;
      if |p| < nameEnd then None
      else Some(Chunk(Get(p[..4]), Get(p[4..8]), p[9..nameEnd], p[nameEnd..]))
  }

  /** What a chunk holds, told by its bytes: index and total in four bytes each, the length
      of the name in one, the name, and the rest; nothing if it is cut short. */
  lemma ChunkInBytes(p: Buf)
    ensures ParseFileData(p).Some? <==> |p| >= 9 && |p| >= 9 + p[8] as nat
    ensures ParseFileData(p).Some? ==>
              var c := ParseFileData(p).value;
              && c.idx == p[0] as nat * 0x100_0000 + p[1] as nat * 0x1_0000 + p[2] as nat * 0x100 + p[3] as nat
              && c.total == p[4] as nat * 0x100_0000 + p[5] as nat * 0x1_0000 + p[6] as nat * 0x100 + p[7] as nat
              && c.name == p[9..9 + p[8] as nat] && c.bytes == p[9 + p[8] as nat..]
  {
    hide Get;
    if |p| >= 9 {
      BigEndian(p[..4]);
      BigEndian(p[4..8]);
    }
  }

  lemma ChunkBytes(c: Chunk)
    requires ChunkFits(c)
    ensures var p := ChunkPayload(c);
            && |p| == 9 + |c.name| + |c.bytes| && Get(p[..4]) == c.idx && Get(p[4..8]) == c.total
            && p[8] as nat == |c.name| && p[9..9 + |c.name|] == c.name && p[9 + |c.name|..] == c.bytes
  {
    Widths();
    var p := ChunkPayload(c);
    OneByteOf(|c.name|);
    hide Put, Get;
    GetPut(c.idx, 4);
    GetPut(c.total, 4);
    assert p[..4] == Put(c.idx, 4) && p[4..8] == Put(c.total, 4) && p[8] == |c.name| as byte;
  }

  lemma ChunkRoundTrip(c: Chunk)
    requires ChunkFits(c)
    ensures ParseFileData(ChunkPayload(c)) == Some(c)
  {
    hide Get, ChunkPayload;
    ChunkBytes(c);
  }
}
