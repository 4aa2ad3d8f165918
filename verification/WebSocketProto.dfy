/** The WebSocket frame codec (sections 5.2, 5.3 and 5.5 of RFC 6455).

    `Wire` and `Serialize` are the frame grammar of the RFC; `Decode` is the
    decoder of the program. The main results say that the decoder accepts exactly
    the acceptable sentences of the grammar, never changes its mind when more bytes
    arrive, and asks for more on every proper prefix of a frame. */
module WebSocketProto {
  import opened Bytes
  import opened Wrappers

  const OP_CONTINUATION: byte := 0x0
  const OP_TEXT: byte := 0x1
  const OP_BINARY: byte := 0x2
  const OP_CLOSE: byte := 0x8
  const OP_PING: byte := 0x9
  const OP_PONG: byte := 0xA

  /** The decoder's default payload limit, 16 MiB. */
  const MAX_PAYLOAD: nat := 16 * 1024 * 1024

  datatype Frame = Frame(opcode: byte, fin: bool, payload: Buf)

  datatype Parse = Ok(frame: Frame, consumed: nat) | NeedMore | Error

  predicate IsControl(opcode: byte) { opcode / 8 % 2 == 1 }

  /** Exclusive-or with the four-byte key, repeated (section 5.3 of RFC 6455). */
  function Masked(data: Buf, key: Buf): (r: Buf)
    requires |key| == 4
    ensures |r| == |data|
  {
    seq(|data|, k requires 0 <= k < |data| => Xor(data[k], key[k % 4]))
  }

  lemma MaskedTwice(data: Buf, key: Buf)
    requires |key| == 4
    ensures Masked(Masked(data, key), key) == data
  {
    forall k | 0 <= k < |data|
      ensures Masked(Masked(data, key), key)[k] == data[k]
    {
      XorTwice(data[k], key[k % 4]);
    }
  }

  // ---- the grammar -------------------------------------------------------

  /** How the payload length is written: in the second byte, in two more bytes, or in eight more. */
  datatype Form = Short | Medium | Long

  /** One frame as RFC 6455 describes it; `key` is the mask, if any, and `payload` is unmasked. */
  datatype Wire = Wire(fin: bool, rsv: byte, opcode: byte, form: Form, key: Option<Buf>, payload: Buf)

  predicate Fits(form: Form, len: nat) {
    match form
    case Short => len < 126
    case Medium => len < U16
    case Long => len < U64
  }

  predicate WellFormed(w: Wire) {
    && w.rsv < 8
    && w.opcode < 16
    && Fits(w.form, |w.payload|)
    && (w.key.Some? ==> |w.key.value| == 4)
  }

  /** The sentences the decoder is meant to accept: within the limit, control
      frames whole and short (section 5.5), and masked if masking is required (section 5.1). */
  predicate Acceptable(w: Wire, maxPayload: nat, requireMasked: bool) {
    && WellFormed(w)
    && |w.payload| <= maxPayload
    && (IsControl(w.opcode) ==> w.fin && |w.payload| <= 125)
    && (requireMasked ==> w.key.Some?)
  }

  function FirstByte(fin: bool, rsv: byte, opcode: byte): byte
    requires rsv < 8 && opcode < 16
  {
    (if fin then 128 else 0) + rsv * 16 + opcode
  }

  function SecondByte(masked: bool, len7: byte): byte
    requires len7 < 128
  {
    (if masked then 128 else 0) + len7
  }

  function LengthField(form: Form, len: nat): (r: (byte, Buf))
    requires Fits(form, len)
    ensures r.0 < 128
  {
    match form
    case Short => (len as byte, [])
    case Medium => (126, Put(len, 2))
    case Long => (127, Put(len, 8))
  }

  function SerializeHead(w: Wire): Buf
    requires WellFormed(w)
  {
    var (len7, ext) := LengthField(w.form, |w.payload|);
    [FirstByte(w.fin, w.rsv, w.opcode), SecondByte(w.key.Some?, len7)] + ext
  }

  function SerializeBody(w: Wire): Buf
    requires WellFormed(w)
  {
    match w.key
    case Some(key) => key + Masked(w.payload, key)
    case None => w.payload
  }

  function Serialize(w: Wire): Buf
    requires WellFormed(w)
  {
    SerializeHead(w) + SerializeBody(w)
  }

  function FrameOf(w: Wire): Frame { Frame(w.opcode, w.fin, w.payload) }

  lemma FirstByteBits(fin: bool, rsv: byte, opcode: byte)
    requires rsv < 8 && opcode < 16
    ensures var b := FirstByte(fin, rsv, opcode); (b / 128 == 1) == fin && b % 16 == opcode
  {
  }

  lemma BitsFirstByte(b: byte)
    ensures b % 16 < 16 && b / 16 % 8 < 8
    ensures FirstByte(b / 128 == 1, b / 16 % 8, b % 16) == b
  {
  }

  lemma SecondByteBits(masked: bool, len7: byte)
    requires len7 < 128
    ensures var b := SecondByte(masked, len7); (b / 128 == 1) == masked && b % 128 == len7
  {
  }

  lemma BitsSecondByte(b: byte)
    ensures b % 128 < 128 && SecondByte(b / 128 == 1, b % 128) == b
  {
  }

  // ---- the decoder -------------------------------------------------------

  /** What the bytes before the mask say: `len` is the payload length and `at` the place after the length field. */
  datatype Head = Head(fin: bool, opcode: byte, masked: bool, len7: byte, len: nat, at: nat)

  /** Where the length field ends, given the low seven bits of the second byte. */
  function LengthEnd(len7: byte): (at: nat)
    ensures at == 2 || at == 4 || at == 10
  {
    if len7 == 126 then 4 else if len7 == 127 then 10 else 2
  }

  /** The first two bytes and the length field, once they are there. */
  function HeadOf(p: Buf): (h: Option<Head>)
    ensures h.Some? ==> 2 <= h.value.at <= |p| && h.value.at == LengthEnd(h.value.len7)
  {
    if |p| < 2 then None else
    var len7 := p[1] % 128;
    var at := LengthEnd(len7);
    if |p| < at then None else
    Some(Head(p[0] / 128 == 1, p[0] % 16, p[1] / 128 == 1, len7,
              if at == 2 then len7 as nat else Get(p[2..at]), at))
  }

  /** Whether the frame that `h` announces must be refused. */
  predicate Refused(h: Head, maxPayload: nat, requireMasked: bool) {
    || h.len > maxPayload
    || (IsControl(h.opcode) && (!h.fin || h.len > 125))
    || (requireMasked && !h.masked)
  }

  /** Where the payload of the frame that `h` announces begins. */
  function BodyAt(h: Head): nat { if h.masked then h.at + 4 else h.at }

  /** What the decoder makes of the bytes once their head is known. */
  function Judge(h: Head, p: Buf, maxPayload: nat, requireMasked: bool): (r: Parse)
    ensures r.Ok? ==> BodyAt(h) <= r.consumed == BodyAt(h) + h.len <= |p|
  {
    if Refused(h, maxPayload, requireMasked) then Error
    else if |p| < BodyAt(h) + h.len then NeedMore
    else
      var data := p[BodyAt(h)..BodyAt(h) + h.len];
      Ok(Frame(h.opcode, h.fin, if h.masked then Masked(data, p[h.at..h.at + 4]) else data), BodyAt(h) + h.len)
  }

  /** The decoder, as a function of the bytes at hand. */
  function Decode(p: Buf, maxPayload: nat, requireMasked: bool): (r: Parse)
    ensures r.Ok? ==> 2 <= r.consumed <= |p|
  {
    match HeadOf(p)
    case None => NeedMore
    case Some(h) => Judge(h, p, maxPayload, requireMasked)
  }

  /** An accepted control frame is whole and short (section 5.5 of RFC 6455). */
  lemma ControlFramesAreShort(p: Buf, maxPayload: nat, requireMasked: bool)
    requires Decode(p, maxPayload, requireMasked).Ok?
    ensures var f := Decode(p, maxPayload, requireMasked).frame;
            f.opcode < 16 && (IsControl(f.opcode) ==> f.fin && |f.payload| <= 125)
  {
    var h := HeadOf(p).value;
    assert !Refused(h, maxPayload, requireMasked);
  }

  lemma HeadStable(p: Buf, more: Buf)
    requires HeadOf(p).Some?
    ensures HeadOf(p + more) == HeadOf(p)
  {
    var q, at := p + more, HeadOf(p).value.at;
    assert q[0] == p[0] && q[1] == p[1];
    assert q[2..at] == p[2..at];
  }

  lemma HeadOfPrefix(p: Buf, k: nat)
    requires k <= |p| && HeadOf(p).Some?
    ensures HeadOf(p[..k]) == if HeadOf(p).value.at <= k then HeadOf(p) else None
  {
    if HeadOf(p).value.at <= k {
      HeadStable(p[..k], p[k..]);
      assert p[..k] + p[k..] == p;
    }
  }

  lemma SliceOfFront(p: Buf, more: Buf, a: nat, b: nat)
    requires a <= b <= |p|
    ensures (p + more)[a..b] == p[a..b]
  {
  }

  lemma JudgeStable(h: Head, p: Buf, more: Buf, maxPayload: nat, requireMasked: bool)
    requires !Judge(h, p, maxPayload, requireMasked).NeedMore?
    ensures Judge(h, p + more, maxPayload, requireMasked) == Judge(h, p, maxPayload, requireMasked)
  {
    hide Masked, Refused;
    if Judge(h, p, maxPayload, requireMasked).Ok? {
      SliceOfFront(p, more, BodyAt(h), BodyAt(h) + h.len);
      if h.masked { SliceOfFront(p, more, h.at, h.at + 4); }
    }
  }

  /** More bytes never change a verdict. */
  lemma DecodeStable(p: Buf, more: Buf, maxPayload: nat, requireMasked: bool)
    requires !Decode(p, maxPayload, requireMasked).NeedMore?
    ensures Decode(p + more, maxPayload, requireMasked) == Decode(p, maxPayload, requireMasked)
  {
    HeadStable(p, more);
    JudgeStable(HeadOf(p).value, p, more, maxPayload, requireMasked);
  }

  /** Every proper prefix of a frame asks for more, so no frame is a prefix of another. */
  lemma DecodePrefixFree(p: Buf, k: nat, maxPayload: nat, requireMasked: bool)
    requires Decode(p, maxPayload, requireMasked).Ok?
    requires k < Decode(p, maxPayload, requireMasked).consumed
    ensures Decode(p[..k], maxPayload, requireMasked).NeedMore?
  {
    HeadOfPrefix(p, k);
  }

  /** The head that a sentence of the grammar announces. */
  function HeadOfWire(w: Wire): Head
    requires WellFormed(w)
  {
    var (len7, ext) := LengthField(w.form, |w.payload|);
    Head(w.fin, w.opcode, w.key.Some?, len7, |w.payload|, 2 + |ext|)
  }

  lemma LengthFieldRead(form: Form, len: nat)
    requires Fits(form, len)
    ensures var (len7, ext) := LengthField(form, len);
            && len7 < 128
            && LengthEnd(len7) == 2 + |ext|
            && (form.Short? ==> len7 as nat == len)
            && (!form.Short? ==> Get(ext) == len)
  {
    match form
    case Short => ShortFieldRead(len);
    case Medium => Widths(); GetPut(len, 2);
    case Long => Widths(); GetPut(len, 8);
  }

  lemma ShortFieldRead(len: nat)
    requires len < 126
    ensures var b := len as byte; b < 126 && b as nat == len
  {
  }

  lemma SerializedBytes(w: Wire, p: Buf)
    requires WellFormed(w)
    requires Serialize(w) <= p
    ensures var (len7, ext) := LengthField(w.form, |w.payload|);
            && |p| >= 2 + |ext|
            && p[0] == FirstByte(w.fin, w.rsv, w.opcode)
            && p[1] == SecondByte(w.key.Some?, len7)
            && p[2..2 + |ext|] == ext
  {
    var n := |SerializeHead(w)|;
    assert p[..n] == Serialize(w)[..n] == SerializeHead(w);
    assert p[2..n] == p[..n][2..];
  }

  lemma HeadSerialized(w: Wire, p: Buf)
    requires WellFormed(w)
    requires Serialize(w) <= p
    ensures HeadOf(p) == Some(HeadOfWire(w))
  {
    SerializedBytes(w, p);
    LengthFieldRead(w.form, |w.payload|);
    FirstByteBits(w.fin, w.rsv, w.opcode);
    SecondByteBits(w.key.Some?, LengthField(w.form, |w.payload|).0);
  }

  lemma BodySerialized(w: Wire, tail: Buf, maxPayload: nat, requireMasked: bool)
    requires Acceptable(w, maxPayload, requireMasked)
    ensures Judge(HeadOfWire(w), Serialize(w) + tail, maxPayload, requireMasked) == Ok(FrameOf(w), |Serialize(w)|)
  {
    var p, at, end := Serialize(w) + tail, |SerializeHead(w)|, |Serialize(w)|;
    assert p[at..end] == SerializeBody(w);
    match w.key
    case Some(key) =>
      assert p[at..at + 4] == p[at..end][..4] == key;
      assert p[at + 4..end] == p[at..end][4..] == Masked(w.payload, key);
      MaskedTwice(w.payload, key);
    case None =>
  }

  /** Completeness: the decoder reads back every acceptable sentence of the
      grammar, whatever follows it. */
  lemma DecodeSerialize(w: Wire, tail: Buf, maxPayload: nat, requireMasked: bool)
    requires Acceptable(w, maxPayload, requireMasked)
    ensures Decode(Serialize(w) + tail, maxPayload, requireMasked) == Ok(FrameOf(w), |Serialize(w)|)
  {
    HeadSerialized(w, Serialize(w) + tail);
    BodySerialized(w, tail, maxPayload, requireMasked);
  }

  /** The sentence the decoder has read at the front of `p`. */
  function Recovered(p: Buf, maxPayload: nat, requireMasked: bool): Wire
    requires Decode(p, maxPayload, requireMasked).Ok?
  {
    var f, h := Decode(p, maxPayload, requireMasked).frame, HeadOf(p).value;
    Wire(f.fin, p[0] / 16 % 8, f.opcode,
         if h.at == 2 then Short else if h.at == 4 then Medium else Long,
         if h.masked then Some(p[h.at..h.at + 4]) else None, f.payload)
  }

  lemma LengthFieldWritten(p: Buf)
    requires HeadOf(p).Some?
    ensures var h := HeadOf(p).value;
            var form := if h.at == 2 then Short else if h.at == 4 then Medium else Long;
            Fits(form, h.len) && LengthField(form, h.len) == (h.len7, p[2..h.at])
  {
    var h := HeadOf(p).value;
    Widths();
    PutGet(p[2..h.at]);
  }

  lemma RecoveredAcceptable(p: Buf, maxPayload: nat, requireMasked: bool)
    requires Decode(p, maxPayload, requireMasked).Ok?
    ensures Acceptable(Recovered(p, maxPayload, requireMasked), maxPayload, requireMasked)
  {
    BitsFirstByte(p[0]);
    LengthFieldWritten(p);
  }

  lemma HeadBytes(p: Buf)
    requires HeadOf(p).Some?
    ensures var h := HeadOf(p).value;
            p[..h.at] == [FirstByte(h.fin, p[0] / 16 % 8, h.opcode), SecondByte(h.masked, h.len7)] + p[2..h.at]
  {
    BitsFirstByte(p[0]);
    BitsSecondByte(p[1]);
  }

  lemma RecoveredHead(p: Buf, maxPayload: nat, requireMasked: bool)
    requires Decode(p, maxPayload, requireMasked).Ok?
    requires WellFormed(Recovered(p, maxPayload, requireMasked))
    ensures SerializeHead(Recovered(p, maxPayload, requireMasked)) == p[..HeadOf(p).value.at]
  {
    HeadBytes(p);
    LengthFieldWritten(p);
  }

  lemma RecoveredBody(p: Buf, maxPayload: nat, requireMasked: bool)
    requires Decode(p, maxPayload, requireMasked).Ok?
    requires WellFormed(Recovered(p, maxPayload, requireMasked))
    ensures SerializeBody(Recovered(p, maxPayload, requireMasked))
            == p[HeadOf(p).value.at..Decode(p, maxPayload, requireMasked).consumed]
  {
    hide HeadOf, Masked, IsControl, WellFormed;
    var h := HeadOf(p).value;
    if h.masked {
      var end := BodyAt(h) + h.len;
      MaskedTwice(p[BodyAt(h)..end], p[h.at..h.at + 4]);
      SplitSlice(p, h.at, BodyAt(h), end);
    }
  }

  lemma SplitSlice(p: Buf, a: nat, b: nat, c: nat)
    requires a <= b <= c <= |p|
    ensures p[a..c] == p[a..b] + p[b..c]
  {
  }

  /** Soundness: what the decoder accepts is an acceptable sentence of the
      grammar, byte for byte, and the frame it reports is that sentence's. */
  lemma SerializeDecode(p: Buf, maxPayload: nat, requireMasked: bool)
    requires Decode(p, maxPayload, requireMasked).Ok?
    ensures var w, r := Recovered(p, maxPayload, requireMasked), Decode(p, maxPayload, requireMasked);
            && Acceptable(w, maxPayload, requireMasked)
            && Serialize(w) == p[..r.consumed]
            && FrameOf(w) == r.frame
  {
    var at, end := HeadOf(p).value.at, Decode(p, maxPayload, requireMasked).consumed;
    RecoveredAcceptable(p, maxPayload, requireMasked);
    RecoveredHead(p, maxPayload, requireMasked);
    RecoveredBody(p, maxPayload, requireMasked);
    assert p[..end] == p[..at] + p[at..end];
  }

  /** A buffer starts with this sentence, and `f` is its frame. */
  predicate Reads(p: Buf, w: Wire, f: Frame, consumed: nat)
    requires WellFormed(w)
  {
    FrameOf(w) == f && consumed == |Serialize(w)| && Serialize(w) <= p
  }

  lemma ReadsDecode(p: Buf, w: Wire, f: Frame, consumed: nat, maxPayload: nat, requireMasked: bool)
    requires Acceptable(w, maxPayload, requireMasked) && Reads(p, w, f, consumed)
    ensures Decode(p, maxPayload, requireMasked) == Ok(f, consumed)
  {
    DecodeSerialize(w, p[consumed..], maxPayload, requireMasked);
    assert p == Serialize(w) + p[consumed..];
  }

  /** The decoder says Ok exactly on buffers that start with an acceptable
      sentence, and then reports that sentence and no other. */
  lemma DecodeIffGrammar(p: Buf, f: Frame, consumed: nat, maxPayload: nat, requireMasked: bool)
    ensures Decode(p, maxPayload, requireMasked) == Ok(f, consumed) <==>
            exists w :: Acceptable(w, maxPayload, requireMasked) && Reads(p, w, f, consumed)
  {
    if Decode(p, maxPayload, requireMasked) == Ok(f, consumed) {
      SerializeDecode(p, maxPayload, requireMasked);
      assert Reads(p, Recovered(p, maxPayload, requireMasked), f, consumed);
    }
    forall w | Acceptable(w, maxPayload, requireMasked) && Reads(p, w, f, consumed)
      ensures Decode(p, maxPayload, requireMasked) == Ok(f, consumed)
    {
      ReadsDecode(p, w, f, consumed, maxPayload, requireMasked);
    }
  }

  /** An error is final: no continuation of the buffer starts with an acceptable sentence. */
  lemma ErrorMeansHopeless(p: Buf, w: Wire, more: Buf, maxPayload: nat, requireMasked: bool)
    requires Decode(p, maxPayload, requireMasked).Error?
    requires Acceptable(w, maxPayload, requireMasked)
    ensures !(Serialize(w) <= p + more)
  {
    DecodeStable(p, more, maxPayload, requireMasked);
    if Serialize(w) <= p + more {
      var tail := (p + more)[|Serialize(w)|..];
      assert p + more == Serialize(w) + tail;
      DecodeSerialize(w, tail, maxPayload, requireMasked);
    }
  }

  function SerializeAll(ws: seq<Wire>): Buf
    requires forall w :: w in ws ==> WellFormed(w)
  {
    if ws == [] then []
    else
      assert ws[0] in ws;
      Serialize(ws[0]) + SerializeAll(ws[1..])
  }

  lemma FirstFrame(ws: seq<Wire>, maxPayload: nat, requireMasked: bool)
    requires ws != [] && forall w :: w in ws ==> WellFormed(w) && Acceptable(w, maxPayload, requireMasked)
    ensures ws[0] in ws && Decode(SerializeAll(ws), maxPayload, requireMasked) == Ok(FrameOf(ws[0]), |Serialize(ws[0])|)
    ensures SerializeAll(ws)[|Serialize(ws[0])|..] == SerializeAll(ws[1..])
  {
    hide Decode, Serialize;
    assert ws[0] in ws;
    DecodeSerialize(ws[0], SerializeAll(ws[1..]), maxPayload, requireMasked);
  }

  /** A concatenation of sentences can be read in one way only: two lists of
      acceptable sentences with the same bytes have the same frames, cut at the same places. */
  lemma {:induction false} UniqueDecoding(ws: seq<Wire>, vs: seq<Wire>, maxPayload: nat, requireMasked: bool)
    requires forall w :: w in ws ==> WellFormed(w) && Acceptable(w, maxPayload, requireMasked)
    requires forall v :: v in vs ==> WellFormed(v) && Acceptable(v, maxPayload, requireMasked)
    requires SerializeAll(ws) == SerializeAll(vs)
    ensures |ws| == |vs|
    ensures forall i :: 0 <= i < |ws| ==>
              ws[i] in ws && vs[i] in vs && FrameOf(ws[i]) == FrameOf(vs[i]) && |Serialize(ws[i])| == |Serialize(vs[i])|
    decreases |ws|
  {
    hide Decode, Serialize, Acceptable, WellFormed;
    if ws != [] { FirstFrame(ws, maxPayload, requireMasked); }
    if vs != [] { FirstFrame(vs, maxPayload, requireMasked); }
    if ws == [] || vs == [] {
      assert Decode([], maxPayload, requireMasked).NeedMore? by { EmptyNeedsMore(maxPayload, requireMasked); }
    } else {
      UniqueDecoding(ws[1..], vs[1..], maxPayload, requireMasked);
      forall i | 0 <= i < |ws|
        ensures ws[i] in ws && vs[i] in vs && FrameOf(ws[i]) == FrameOf(vs[i]) && |Serialize(ws[i])| == |Serialize(vs[i])|
      {
        if i > 0 { assert ws[i] == ws[1..][i - 1] && vs[i] == vs[1..][i - 1]; }
      }
    }
  }

  lemma EmptyNeedsMore(maxPayload: nat, requireMasked: bool)
    ensures Decode([], maxPayload, requireMasked).NeedMore?
  {
  }

  // ---- the encoders ------------------------------------------------------

  /** The shortest form for a length, as both encoders choose it. */
  function Minimal(len: nat): Form {
    if len < 126 then Short else if len < U16 then Medium else Long
  }

  /** A server-to-client frame: whole and unmasked. */
  function ServerWire(opcode: byte, data: Buf): Wire {
    Wire(true, 0, opcode % 16, Minimal(|data|), None, data)
  }

  /** A client-to-server frame: masked. */
  function ClientWire(opcode: byte, payload: Buf, fin: bool, key: Buf): Wire {
    Wire(fin, 0, opcode % 16, Minimal(|payload|), Some(key), payload)
  }

  lemma LowNibble(opcode: byte)
    ensures opcode % 16 < 16
    ensures opcode < 16 ==> opcode % 16 == opcode
    ensures 128 + opcode % 16 == FirstByte(true, 0, opcode % 16)
  {
  }

  /** The bytes of a server-to-client frame. */
  function Encoded(opcode: byte, data: Buf): Buf
    requires |data| < U64
  {
    LowNibble(opcode);
    Serialize(ServerWire(opcode, data))
  }

  /** Appends one server-to-client frame to `out`. */
  method EncodeFrame(out: Buf, opcode: byte, data: Buf) returns (r: Buf)
    requires |data| < U64
    ensures r == out + Encoded(opcode, data)
  {
    LowNibble(opcode);
    r := out + [128 + opcode % 16];
    r := AppendLength(r, |data|);
    r := r + data;
  }

  /** The second byte of an unmasked frame and the length field after it. */
  function LengthBytes(len: nat): Buf
    requires len < U64
  {
    var (len7, ext) := LengthField(Minimal(len), len);
    [SecondByte(false, len7)] + ext
  }

  /** The branches of `EncodeFrame` that write the length. */
  method AppendLength(out: Buf, len: nat) returns (r: Buf)
    requires len < U64
    ensures r == out + LengthBytes(len)
  {
    if len < 126 {
      r := out + [len as byte];
      ShortLength(len);
    } else if len <= 0xFFFF {
      r := out + [126] + [((len / 256) % 256) as byte] + [(len % 256) as byte];
      assert Put(len, 2) == Put(len / 256, 1) + [(len % 256) as byte];
      assert Put(len / 256, 1) == Put(len / 256 / 256, 0) + [((len / 256) % 256) as byte];
    } else {
      r := AppendU64(out + [127], len);
    }
  }

  lemma ShortLength(len: nat)
    requires len < 126
    ensures SecondByte(false, len as byte) == len as byte
  {
  }

  /** Reads the first two bytes and the length field, as the first half of the decoder does. */
  method ReadHead(p: Buf) returns (h: Option<Head>)
    ensures h == HeadOf(p)
  {
    if |p| < 2 { return None; }
    var b0, b1 := p[0], p[1];
    var len: nat := (b1 % 128) as nat;
    var i := 2;
    if b1 % 128 == 126 {
      if |p| < 4 { return None; }
      len := p[2] as nat * 256 + p[3] as nat;
      GetStep(p[2..4], 0);
      GetStep(p[2..4], 1);
      i := 4;
    } else if b1 % 128 == 127 {
      if |p| < 10 { return None; }
      len := 0;
      for k := 0 to 8
        invariant len == Get(p[2..10][..k])
      {
        GetStep(p[2..10], k);
        len := len * 256 + p[2 + k] as nat;
      }
      i := 10;
    }
    assert i > 2 ==> p[2..i][..i - 2] == p[2..i];
    return Some(Head(b0 / 128 == 1, b0 % 16, b1 / 128 == 1, b1 % 128, len, i));
  }

  /** Takes the mask off `len` bytes from `body` on; the mask is the four bytes before them. */
  method Unmask(p: Buf, body: nat, len: nat) returns (payload: Buf)
    requires 4 <= body && body + len <= |p|
    ensures payload == Masked(p[body..body + len], p[body - 4..body])
  {
    var out := new byte[len];
    for k := 0 to len
      invariant forall j :: 0 <= j < k ==> out[j] == Xor(p[body + j], p[body - 4 + j % 4])
    {
      out[k] := Xor(p[body + k], p[body - 4 + k % 4]);
    }
    payload := out[..];
  }

  /** Decodes one frame at the front of `p`, following the steps of the program. */
  method DecodeFrame(p: Buf, maxPayload: nat, requireMasked: bool) returns (r: Parse)
    ensures r == Decode(p, maxPayload, requireMasked)
  {
    hide HeadOf, Masked, IsControl;
    var head := ReadHead(p);
    if head.None? { return NeedMore; }
    var h := head.value;
    if h.len > maxPayload { return Error; }
    if IsControl(h.opcode) && (!h.fin || h.len > 125) { return Error; }
    if requireMasked && !h.masked { return Error; }
    var i := h.at;
    if h.masked {
      if |p| < i + 4 { return NeedMore; }
      i := i + 4;
    }
    if |p| < i + h.len { return NeedMore; }
    var payload := p[i..i + h.len];
    if h.masked {
      payload := Unmask(p, i, h.len);
    }
    return Ok(Frame(h.opcode, h.fin, payload), i + h.len);
  }

  /** Frame round trip, server to client: a decoder that does not ask for masks
      reads back what the encoder wrote, in each of the three length forms. */
  lemma ServerFrameRoundTrip(opcode: byte, data: Buf, tail: Buf)
    requires opcode < 16
    requires |data| <= if IsControl(opcode) then 125 else MAX_PAYLOAD
    ensures Decode(Encoded(opcode, data) + tail, MAX_PAYLOAD, false)
            == Ok(Frame(opcode, true, data), |Encoded(opcode, data)|)
  {
    LowNibble(opcode);
    DecodeSerialize(ServerWire(opcode, data), tail, MAX_PAYLOAD, false);
  }

  /** A frame the terminal's peer may send: what a browser puts on the wire. */
  predicate LegalClientFrame(f: Frame, key: Buf) {
    && f.opcode < 16
    && |key| == 4
    && |f.payload| <= MAX_PAYLOAD
    && (IsControl(f.opcode) ==> f.fin && |f.payload| <= 125)
  }

  /** The bytes of a masked client-to-server frame. */
  function ClientEncoded(f: Frame, key: Buf): Buf
    requires LegalClientFrame(f, key)
  {
    LowNibble(f.opcode);
    Serialize(ClientWire(f.opcode, f.payload, f.fin, key))
  }

  /** Frame round trip, client to server: the terminal's decoder undoes the mask
      for every key and every length form. */
  lemma ClientFrameRoundTrip(f: Frame, key: Buf, tail: Buf)
    requires LegalClientFrame(f, key)
    ensures Decode(ClientEncoded(f, key) + tail, MAX_PAYLOAD, true) == Ok(f, |ClientEncoded(f, key)|)
  {
    LowNibble(f.opcode);
    DecodeSerialize(ClientWire(f.opcode, f.payload, f.fin, key), tail, MAX_PAYLOAD, true);
  }

  // ---- the same in plain bytes ----------------------------------------------------------

  /** Where the length field ends, read off the second byte. */
  function MaskAt(p: Buf): nat
    requires |p| >= 2
  {
    if p[1] % 128 == 126 then 4 else if p[1] % 128 == 127 then 10 else 2
  }

  /** The payload length, read off the bytes. */
  function LengthIn(p: Buf): nat
    requires |p| >= 2 && |p| >= MaskAt(p)
  {
    if p[1] % 128 == 126 then p[2] as nat * 256 + p[3] as nat
    else if p[1] % 128 == 127 then
      (p[2] as nat * 0x100_0000 + p[3] as nat * 0x1_0000 + p[4] as nat * 0x100 + p[5] as nat) * 0x1_0000_0000
      + (p[6] as nat * 0x100_0000 + p[7] as nat * 0x1_0000 + p[8] as nat * 0x100 + p[9] as nat)
    else (p[1] % 128) as nat
  }

  /** What the program must refuse, whatever follows: too long a payload, a control frame
      that is not whole or not short, a frame without a mask where one is demanded. */
  predicate MustFail(p: Buf, maxPayload: nat, requireMasked: bool)
    requires |p| >= 2 && |p| >= MaskAt(p)
  {
    || LengthIn(p) > maxPayload
    || (p[0] % 16 >= 8 && (p[0] < 128 || LengthIn(p) > 125))
    || (requireMasked && p[1] < 128)
  }

  /** Where the frame ends. */
  function FrameEnd(p: Buf): nat
    requires |p| >= 2 && |p| >= MaskAt(p)
  {
    MaskAt(p) + (if p[1] >= 128 then 4 else 0) + LengthIn(p)
  }

  lemma LengthInIs(p: Buf)
    requires |p| >= 2 && |p| >= MaskAt(p)
    ensures HeadOf(p) == Some(Head(p[0] >= 128, p[0] % 16, p[1] >= 128, p[1] % 128, LengthIn(p), MaskAt(p)))
  {
    hide Get;
    if p[1] % 128 == 126 {
      BigEndian2(p[2..4]);
    } else if p[1] % 128 == 127 {
      EightBytes(p[2..10]);
      BigEndian(p[2..10][..4]);
      BigEndian(p[2..10][4..]);
    }
  }

  lemma ControlNumbers(opcode: byte)
    requires opcode < 16
    ensures IsControl(opcode) <==> opcode >= 8
  {
  }

  /** The verdict of the decoder, told by the bytes. */
  lemma VerdictInBytes(p: Buf, maxPayload: nat, requireMasked: bool)
    ensures var r, headed := Decode(p, maxPayload, requireMasked), |p| >= 2 && |p| >= MaskAt(p);
            && (r.Error? <==> headed && MustFail(p, maxPayload, requireMasked))
            && (r.Ok? <==> headed && !MustFail(p, maxPayload, requireMasked) && |p| >= FrameEnd(p))
  {
    if |p| >= 2 && |p| >= MaskAt(p) {
      hide HeadOf, Masked, LengthIn;
      LengthInIs(p);
      ControlNumbers(p[0] % 16);
    }
  }

  /** What the decoder reports, told by the bytes: FIN and opcode are those of the first
      byte, and each payload byte is the byte on the wire, exclusive-or'ed with one of the
      four bytes before the payload, in turn, if the frame is masked. */
  lemma FrameInBytes(p: Buf, maxPayload: nat, requireMasked: bool)
    requires Decode(p, maxPayload, requireMasked).Ok?
    ensures |p| >= 2 && |p| >= MaskAt(p) && |p| >= FrameEnd(p)
    ensures var r, at := Decode(p, maxPayload, requireMasked), MaskAt(p);
            && r.consumed == FrameEnd(p) && |r.frame.payload| == LengthIn(p)
            && r.frame.fin == (p[0] >= 128) && r.frame.opcode == p[0] % 16
            && (p[1] < 128 ==> r.frame.payload == p[at..FrameEnd(p)])
            && (p[1] >= 128 ==>
                  forall k :: 0 <= k < LengthIn(p) ==> Xor(r.frame.payload[k], p[at + k % 4]) == p[at + 4 + k])
  {
    VerdictInBytes(p, maxPayload, requireMasked);
    hide HeadOf, LengthIn, MustFail;
    LengthInIs(p);
    var at, payload := MaskAt(p), Decode(p, maxPayload, requireMasked).frame.payload;
    if p[1] >= 128 {
      forall k | 0 <= k < LengthIn(p)
        ensures Xor(payload[k], p[at + k % 4]) == p[at + 4 + k]
      {
        XorTwice(p[at + 4 + k], p[at + k % 4]);
      }
    }
  }

  lemma ExampleH()
    ensures XorBits(0x7f, 0x37, 8) == 0x48
  {
    hide XorBits;
    XorOfNothing();
    XorUp(0, 0, 0, 0, 0, 0); XorUp(0, 1, 0, 0, 1, 0); XorUp(1, 1, 0, 1, 2, 1); XorUp(3, 1, 1, 1, 3, 2);
    XorUp(7, 1, 3, 0, 4, 4); XorUp(15, 1, 6, 1, 5, 9); XorUp(31, 1, 13, 1, 6, 18); XorUp(63, 1, 27, 1, 7, 36);
  }

  lemma ExampleE()
    ensures XorBits(0x9f, 0xfa, 8) == 0x65
  {
    hide XorBits;
    XorOfNothing();
    XorUp(0, 1, 0, 1, 0, 0); XorUp(1, 0, 1, 1, 1, 0); XorUp(2, 0, 3, 1, 2, 1); XorUp(4, 1, 7, 1, 3, 3);
    XorUp(9, 1, 15, 1, 4, 6); XorUp(19, 1, 31, 0, 5, 12); XorUp(39, 1, 62, 1, 6, 25); XorUp(79, 1, 125, 0, 7, 50);
  }

  lemma ExampleL1()
    ensures XorBits(0x4d, 0x21, 8) == 0x6c
  {
    hide XorBits;
    XorOfNothing();
    XorUp(0, 0, 0, 0, 0, 0); XorUp(0, 1, 0, 0, 1, 0); XorUp(1, 0, 0, 1, 2, 1); XorUp(2, 0, 1, 0, 3, 3);
    XorUp(4, 1, 2, 0, 4, 6); XorUp(9, 1, 4, 0, 5, 13); XorUp(19, 0, 8, 0, 6, 27); XorUp(38, 1, 16, 1, 7, 54);
  }

  lemma ExampleL2()
    ensures XorBits(0x51, 0x3d, 8) == 0x6c
  {
    hide XorBits;
    XorOfNothing();
    XorUp(0, 0, 0, 0, 0, 0); XorUp(0, 1, 0, 0, 1, 0); XorUp(1, 0, 0, 1, 2, 1); XorUp(2, 1, 1, 1, 3, 3);
    XorUp(5, 0, 3, 1, 4, 6); XorUp(10, 0, 7, 1, 5, 13); XorUp(20, 0, 15, 0, 6, 27); XorUp(40, 1, 30, 1, 7, 54);
  }

  lemma ExampleO()
    ensures XorBits(0x58, 0x37, 8) == 0x6f
  {
    hide XorBits;
    XorOfNothing();
    XorUp(0, 0, 0, 0, 0, 0); XorUp(0, 1, 0, 0, 1, 0); XorUp(1, 0, 0, 1, 2, 1); XorUp(2, 1, 1, 1, 3, 3);
    XorUp(5, 1, 3, 0, 4, 6); XorUp(11, 0, 6, 1, 5, 13); XorUp(22, 0, 13, 1, 6, 27); XorUp(44, 0, 27, 1, 7, 55);
  }

  lemma XorOfNothing()
    ensures XorBits(0, 0, 0) == 0
  {
  }

  lemma ExampleBytes()
    ensures Xor(0x7f, 0x37) == 0x48 && Xor(0x9f, 0xfa) == 0x65 && Xor(0x4d, 0x21) == 0x6c
    ensures Xor(0x51, 0x3d) == 0x6c && Xor(0x58, 0x37) == 0x6f
  {
    hide Xor, XorBits;
    ExampleH();
    XorIs(0x7f, 0x37, 0x48);
    ExampleE();
    XorIs(0x9f, 0xfa, 0x65);
    ExampleL1();
    XorIs(0x4d, 0x21, 0x6c);
    ExampleL2();
    XorIs(0x51, 0x3d, 0x6c);
    ExampleO();
    XorIs(0x58, 0x37, 0x6f);
  }

  /** The masked example of section 5.7 of RFC 6455. */
  lemma MaskedExample()
    ensures Decode([0x81, 0x85, 0x37, 0xfa, 0x21, 0x3d, 0x7f, 0x9f, 0x4d, 0x51, 0x58], MAX_PAYLOAD, true)
            == Ok(Frame(1, true, [0x48, 0x65, 0x6c, 0x6c, 0x6f]), 11)
  {
    hide Decode, Xor;
    var p: Buf := [0x81, 0x85, 0x37, 0xfa, 0x21, 0x3d, 0x7f, 0x9f, 0x4d, 0x51, 0x58];
    VerdictInBytes(p, MAX_PAYLOAD, true);
    FrameInBytes(p, MAX_PAYLOAD, true);
    var payload := Decode(p, MAX_PAYLOAD, true).frame.payload;
    assert |payload| == 5;
    ExampleBytes();
    XorTwice(payload[0], p[2]);
    XorTwice(payload[1], p[3]);
    XorTwice(payload[2], p[4]);
    XorTwice(payload[3], p[5]);
    XorTwice(payload[4], p[2]);
    assert payload == [0x48, 0x65, 0x6c, 0x6c, 0x6f];
  }

  lemma EncodedParts(opcode: byte, data: Buf)
    requires opcode < 16 && |data| < U64
    ensures Encoded(opcode, data) == [0x80 + opcode] + LengthBytes(|data|) + data
  {
    hide Put, LengthField, SecondByte;
    LowNibble(opcode);
    var w := ServerWire(opcode, data);
    assert SerializeHead(w) == [0x80 + opcode] + LengthBytes(|data|);
  }

  /** The bytes of a frame that the terminal sends: 0x80 and the opcode, the length in the
      shortest of the three forms, no mask, and the payload as it is. */
  lemma EncodedBytes(opcode: byte, data: Buf)
    requires opcode < 16 && |data| < U64
    ensures Encoded(opcode, data)
            == [0x80 + opcode]
               + (if |data| < 126 then [|data| as byte]
                  else if |data| < 0x1_0000 then [126, (|data| / 256) as byte, (|data| % 256) as byte]
                  else [127] + Put(|data|, 8))
               + data
  {
    hide Put, LengthBytes, Encoded;
    EncodedParts(opcode, data);
    LengthBytesAre(|data|);
  }

  lemma LengthBytesAre(len: nat)
    requires len < U64
    ensures LengthBytes(len)
            == if len < 126 then [len as byte]
               else if len < 0x1_0000 then [126, (len / 256) as byte, (len % 256) as byte]
               else [127] + Put(len, 8)
  {
    if len < 126 {
      ShortLength(len);
    } else if len < 0x1_0000 {
      assert Put(len, 2) == Put(len / 256, 1) + [(len % 256) as byte];
      assert Put(len / 256, 1) == Put(len / 256 / 256, 0) + [(len / 256) as byte];
    }
  }
}
