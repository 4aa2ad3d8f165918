/** Cutting a byte stream into SEC1 messages, as the terminal and the PC client do. */
module Sec1 {
  import opened Bytes
  import opened Protocol

  /** The sanity caps of the terminal and of the PC client. */
  const TERMINAL_CAP: nat := 32 * 1024 * 1024
  const PC_CAP: nat := 64 * 1024 * 1024

  /** What is at the front of a buffer. */
  datatype Front = Partial | BadMagic | Oversize | Whole(m: Msg, used: nat)

  function FrontOf(buf: Buf, cap: nat): (f: Front)
    ensures f.Whole? ==> HEADER_SIZE <= f.used <= |buf|
  {
    if |buf| < HEADER_SIZE then Partial
    else
      match DecodeHeader(buf)
      case None => BadMagic
      case Some(h) =>
        if h.length > cap then Oversize
        else if |buf| < HEADER_SIZE + h.length then Partial
        else Whole(Msg(h.typ, h.flags, buf[HEADER_SIZE..HEADER_SIZE + h.length]), HEADER_SIZE + h.length)
  }

  lemma HeaderStable(buf: Buf, more: Buf)
    requires |buf| >= HEADER_SIZE
    ensures DecodeHeader(buf + more) == DecodeHeader(buf)
  {
    hide Get;
    assert (buf + more)[..4] == buf[..4] && (buf + more)[4..6] == buf[4..6];
    assert (buf + more)[6..8] == buf[6..8] && (buf + more)[8..12] == buf[8..12];
  }

  /** More bytes never change what is at the front, once that is decided. */
  lemma FrontStable(buf: Buf, more: Buf, cap: nat)
    requires !FrontOf(buf, cap).Partial?
    ensures FrontOf(buf + more, cap) == FrontOf(buf, cap)
  {
    hide DecodeHeader;
    HeaderStable(buf, more);
    if FrontOf(buf, cap).Whole? {
      var end := FrontOf(buf, cap).used;
      assert (buf + more)[HEADER_SIZE..end] == buf[HEADER_SIZE..end];
    }
  }

  lemma FrontBuilt(m: Msg, tail: Buf, cap: nat)
    requires Representable(m) && |m.payload| <= cap
    ensures FrontOf(Build(m) + tail, cap) == Whole(m, |Build(m)|)
  {
    hide DecodeHeader, Build;
    HeaderRoundTrip(m, tail);
    BuildParts(m, tail);
  }

  // ---- the batch reading -----------------------------------------------------

  /** The whole messages at the front of a stream. */
  function Messages(buf: Buf, cap: nat): seq<Msg>
    decreases |buf|
  {
    match FrontOf(buf, cap)
    case Whole(m, used) => [m] + Messages(buf[used..], cap)
    case _ => []
  }

  /** What comes after the last of them: an incomplete message, or the reason to give up. */
  function After(buf: Buf, cap: nat): (f: Front)
    ensures !f.Whole?
    decreases |buf|
  {
    match FrontOf(buf, cap)
    case Whole(m, used) => After(buf[used..], cap)
    case f => f
  }

  /** A list of messages as one stream. */
  function BuildAll(ms: seq<Msg>): Buf {
    if ms == [] then [] else Build(ms[0]) + BuildAll(ms[1..])
  }

  /** Messages within the cap are read back, all of them and in order. */
  lemma {:induction false} MessagesBuilt(ms: seq<Msg>, cap: nat)
    requires forall m :: m in ms ==> Representable(m) && |m.payload| <= cap
    ensures Messages(BuildAll(ms), cap) == ms && After(BuildAll(ms), cap) == Partial
    decreases |ms|
  {
    hide Build, Representable;
    if ms != [] {
      var m, rest := ms[0], BuildAll(ms[1..]);
      assert m in ms;
      FrontBuilt(m, rest, cap);
      assert (Build(m) + rest)[|Build(m)|..] == rest;
      MessagesBuilt(ms[1..], cap);
      assert ms == [m] + ms[1..];
    }
  }

  /** The messages of a stream fit into it. */
  lemma {:induction false} MessagesFit(buf: Buf, cap: nat)
    ensures |BuildAll(Messages(buf, cap))| <= |buf|
    decreases |buf|
  {
    hide DecodeHeader, Build;
    var f := FrontOf(buf, cap);
    if f.Whole? {
      MessagesFit(buf[f.used..], cap);
      BuildParts(f.m, []);
      assert |f.m.payload| == f.used - HEADER_SIZE;
      assert ([f.m] + Messages(buf[f.used..], cap))[1..] == Messages(buf[f.used..], cap);
    }
  }

  /** Two readers with different caps see the same messages, and the same ending,
      on every stream in which the stricter one meets no oversize message. */
  lemma {:induction false} CapsAgree(buf: Buf, cap1: nat, cap2: nat)
    requires cap1 <= cap2 && After(buf, cap1) != Oversize
    ensures Messages(buf, cap1) == Messages(buf, cap2) && After(buf, cap1) == After(buf, cap2)
    decreases |buf|
  {
    hide DecodeHeader;
    var f := FrontOf(buf, cap1);
    if f.Whole? {
      CapsAgree(buf[f.used..], cap1, cap2);
    }
  }

  // ---- the same in plain bytes -------------------------------------------------------

  /** The bytes `SEC1`, with which every message begins. */
  predicate MagicRight(t: Buf) { |t| >= 12 && t[..4] == [0x53, 0x45, 0x43, 0x31] }

  /** The payload length that a header announces in its last four bytes. */
  function Announced(t: Buf): nat
    requires |t| >= 12
  {
    t[8] as nat * 0x100_0000 + t[9] as nat * 0x1_0000 + t[10] as nat * 0x100 + t[11] as nat
  }

  /** A whole header that no reader may go past: not the magic, or too long a payload. */
  predicate MustRefuse(t: Buf, cap: nat) { |t| >= 12 && (MagicRight(t) ==> Announced(t) > cap) }

  lemma MagicBytes(t: Buf)
    requires |t| >= 12
    ensures Get(t[..4]) == MAGIC <==> MagicRight(t)
  {
    BigEndian(t[..4]);
    PutGet(t[..4]);
    assert Get([0x53, 0x45, 0x43, 0x31]) == MAGIC by { BigEndian([0x53, 0x45, 0x43, 0x31]); }
    if Get(t[..4]) == MAGIC { PutGet([0x53, 0x45, 0x43, 0x31]); }
  }

  /** What is at the front of a buffer, told by its bytes. */
  lemma FrontInBytes(t: Buf, cap: nat)
    ensures FrontOf(t, cap).BadMagic? <==> |t| >= 12 && t[..4] != [0x53, 0x45, 0x43, 0x31]
    ensures FrontOf(t, cap).Oversize? <==> MagicRight(t) && Announced(t) > cap
    ensures FrontOf(t, cap).Partial? <==> |t| < 12 || (!MustRefuse(t, cap) && |t| < 12 + Announced(t))
    ensures FrontOf(t, cap).Whole? ==>
              var m := FrontOf(t, cap).m;
              && FrontOf(t, cap).used == 12 + Announced(t)
              && m.typ == t[4] as nat * 256 + t[5] as nat && m.flags == t[6] as nat * 256 + t[7] as nat
              && m.payload == t[12..12 + Announced(t)]
  {
    hide Get;
    if |t| >= 12 {
      MagicBytes(t);
      BigEndian(t[8..12]);
      BigEndian2(t[4..6]);
      BigEndian2(t[6..8]);
    }
  }

  /** A whole message at the front is, byte for byte, that message as it is built. */
  lemma WholeIsBuilt(buf: Buf, cap: nat)
    requires FrontOf(buf, cap).Whole?
    ensures var f := FrontOf(buf, cap); Build(f.m) == buf[..f.used] && Representable(f.m) && |f.m.payload| <= cap
  {
    hide Put, Get;
    PutGet(buf[..4]);
    PutGet(buf[4..6]);
    PutGet(buf[6..8]);
    PutGet(buf[8..12]);
    Widths();
    var f := FrontOf(buf, cap);
    assert buf[..f.used] == buf[..4] + buf[4..6] + buf[6..8] + buf[8..12] + buf[12..f.used];
  }

  /** The bytes after the whole messages of a stream. */
  function Leftover(buf: Buf, cap: nat): Buf {
    MessagesFit(buf, cap);
    buf[|BuildAll(Messages(buf, cap))|..]
  }

  lemma BuildAllCons(m: Msg, ms: seq<Msg>)
    ensures BuildAll([m] + ms) == Build(m) + BuildAll(ms)
  {
    hide Build;
    assert ([m] + ms)[1..] == ms;
  }

  lemma MessagesOne(buf: Buf, cap: nat)
    requires FrontOf(buf, cap).Whole?
    ensures var f := FrontOf(buf, cap); Messages(buf, cap) == [f.m] + Messages(buf[f.used..], cap)
  {
    hide FrontOf;
  }

  lemma DropDrop(buf: Buf, a: nat, b: nat)
    requires a + b <= |buf|
    ensures buf[a..][b..] == buf[a + b..]
  {
  }

  lemma LeftoverOfRest(buf: Buf, cap: nat)
    requires FrontOf(buf, cap).Whole?
    ensures var f := FrontOf(buf, cap);
            && BuildAll(Messages(buf, cap)) == Build(f.m) + BuildAll(Messages(buf[f.used..], cap))
            && Leftover(buf, cap) == Leftover(buf[f.used..], cap)
  {
    var f := FrontOf(buf, cap);
    var rest := buf[f.used..];
    WholeIsBuilt(buf, cap);
    hide Build, FrontOf, BuildAll, Messages;
    MessagesFit(buf, cap);
    MessagesFit(rest, cap);
    MessagesOne(buf, cap);
    BuildAllCons(f.m, Messages(rest, cap));
    DropDrop(buf, f.used, |BuildAll(Messages(rest, cap))|);
  }

  lemma LeftoverIsAll(buf: Buf, cap: nat)
    requires !FrontOf(buf, cap).Whole?
    ensures Messages(buf, cap) == [] && Leftover(buf, cap) == buf && After(buf, cap) == FrontOf(buf, cap)
  {
    hide FrontOf;
    assert buf[0..] == buf;
  }

  /** Every stream is its whole messages, built, and the bytes left over; and what comes
      after the messages is what is at the front of the bytes left over. */
  lemma {:induction false} StreamSplits(buf: Buf, cap: nat)
    ensures buf == BuildAll(Messages(buf, cap)) + Leftover(buf, cap)
    ensures After(buf, cap) == FrontOf(Leftover(buf, cap), cap)
    decreases |buf|
  {
    var f := FrontOf(buf, cap);
    hide Build, FrontOf, Messages, Leftover, BuildAll;
    if f.Whole? {
      var rest := buf[f.used..];
      StreamSplits(rest, cap);
      WholeIsBuilt(buf, cap);
      LeftoverOfRest(buf, cap);
      Regroup(buf, f.used, BuildAll(Messages(rest, cap)), Leftover(rest, cap));
    } else {
      LeftoverIsAll(buf, cap);
      NothingBuilt(buf);
    }
  }

  lemma Regroup(buf: Buf, n: nat, a: Buf, b: Buf)
    requires n <= |buf| && buf[n..] == a + b
    ensures buf == (buf[..n] + a) + b
  {
    var front := buf[..n];
    assert buf == front + buf[n..];
    assert front + (a + b) == (front + a) + b;
  }

  lemma NothingBuilt(buf: Buf)
    ensures BuildAll([]) + buf == buf
  {
  }

  /** The whole messages of a stream are followed by a header that must be refused. */
  predicate Stops(buf: Buf, cap: nat) { MustRefuse(Leftover(buf, cap), cap) }

  lemma StopsIff(buf: Buf, cap: nat)
    ensures After(buf, cap).Partial? <==> !Stops(buf, cap)
    ensures After(buf, cap) == Oversize <==> MagicRight(Leftover(buf, cap)) && Announced(Leftover(buf, cap)) > cap
  {
    hide FrontOf, Messages, Leftover;
    StreamSplits(buf, cap);
    FrontInBytes(Leftover(buf, cap), cap);
  }

  /** Messages within the cap and then any bytes: the messages are read first, and then
      what those bytes hold. */
  lemma {:induction false} MessagesThen(ms: seq<Msg>, t: Buf, cap: nat)
    requires forall m :: m in ms ==> Representable(m) && |m.payload| <= cap
    ensures Messages(BuildAll(ms) + t, cap) == ms + Messages(t, cap) && After(BuildAll(ms) + t, cap) == After(t, cap)
    decreases |ms|
  {
    hide Build, Representable, FrontOf;
    if ms == [] {
      assert BuildAll(ms) + t == t && ms + Messages(t, cap) == Messages(t, cap);
    } else {
      var m, rest := ms[0], BuildAll(ms[1..]) + t;
      assert m in ms;
      FrontBuilt(m, rest, cap);
      assert BuildAll(ms) + t == Build(m) + rest;
      assert (Build(m) + rest)[|Build(m)|..] == rest;
      MessagesThen(ms[1..], t, cap);
      assert ms + Messages(t, cap) == [m] + (ms[1..] + Messages(t, cap));
    }
  }

  /** After messages within the cap, a tail that holds no whole message is refused for
      its magic, refused for its length, or waited for, as its bytes say. */
  lemma TailDecides(ms: seq<Msg>, t: Buf, cap: nat)
    requires forall m :: m in ms ==> Representable(m) && |m.payload| <= cap
    requires |t| < 12 || MustRefuse(t, cap) || |t| < 12 + Announced(t)
    ensures Messages(BuildAll(ms) + t, cap) == ms && (Stops(BuildAll(ms) + t, cap) <==> MustRefuse(t, cap))
    ensures var after := After(BuildAll(ms) + t, cap);
            && (after == BadMagic <==> |t| >= 12 && t[..4] != [0x53, 0x45, 0x43, 0x31])
            && (after == Oversize <==> |t| >= 12 && t[..4] == [0x53, 0x45, 0x43, 0x31] && Announced(t) > cap)
            && (after == Partial <==> |t| < 12 || (!MustRefuse(t, cap) && |t| < 12 + Announced(t)))
  {
    hide FrontOf;
    MessagesThen(ms, t, cap);
    FrontInBytes(t, cap);
    StopsIff(BuildAll(ms) + t, cap);
    assert ms + [] == ms;
  }
}
