/** What a WebSocket connection turns a byte stream into: the pure model that
    `WebSocketConn` is proved against, and the results about whole runs of it. */
module WebSocketStream {
  import opened Bytes
  import opened WebSocketProto
  import opened Streaming

  // ---- the drain loop ----------------------------------------------------

  /** What de-framing has produced so far: application bytes and control frames to send back. */
  datatype Inbound = Inbound(app: Buf, replies: seq<Frame>)

  const NOTHING := Inbound([], [])

  predicate IsData(opcode: byte) {
    opcode == OP_CONTINUATION || opcode == OP_TEXT || opcode == OP_BINARY
  }

  /** One decoded frame, dealt with as the switch of `drainFrames` does. */
  function Handle(s: Inbound, f: Frame): Inbound {
    if IsData(f.opcode) then s.(app := s.app + f.payload)
    else if f.opcode == OP_PING then s.(replies := s.replies + [Frame(OP_PONG, true, f.payload)])
    else if f.opcode == OP_CLOSE then s.(replies := s.replies + [Frame(OP_CLOSE, true, f.payload)])
    else s
  }

  /** One turn of the loop in `drainFrames`. */
  function WsNext(s: Inbound, buf: Buf): Next<Inbound> {
    match Decode(buf, MAX_PAYLOAD, true)
    case NeedMore => Wait
    case Error => Halt(s, 0)
    case Ok(f, used) => if f.opcode == OP_CLOSE then Halt(Handle(s, f), used) else Go(Handle(s, f), used)
  }

  lemma WsIncremental()
    ensures Incremental(WsNext)
  {
    forall s, a: Buf, b: Buf | !WsNext(s, a).Wait?
      ensures WsNext(s, a + b) == WsNext(s, a)
    {
      DecodeStable(a, b, MAX_PAYLOAD, true);
    }
  }

  /** `drainFrames`, run to its end on a buffer. */
  ghost function Drain(s: Inbound, buf: Buf): Outcome<Inbound> {
    WsIncremental();
    Run(WsNext, s, buf)
  }

  // ---- the batch reading of a stream --------------------------------------

  // The batch reading names opcodes by their numbers (section 5.2 of RFC 6455): 0, 1
  // and 2 carry data, 8 closes, 9 is a ping and 10 a pong.

  /** The frames of a stream, up to and including a close, up to a violation, or up to an incomplete frame. */
  function Frames(buf: Buf): seq<Frame>
    decreases |buf|
  {
    match Decode(buf, MAX_PAYLOAD, true)
    case Ok(f, used) => if f.opcode == 8 then [f] else [f] + Frames(buf[used..])
    case _ => []
  }

  /** The payloads of the data frames, joined. */
  function Payloads(fs: seq<Frame>): Buf {
    if fs == [] then []
    else (if fs[0].opcode < 3 then fs[0].payload else []) + Payloads(fs[1..])
  }

  /** The payloads of the pings. */
  function Pings(fs: seq<Frame>): seq<Buf> {
    if fs == [] then []
    else (if fs[0].opcode == 9 then [fs[0].payload] else []) + Pings(fs[1..])
  }

  function Pongs(payloads: seq<Buf>): seq<Frame> {
    seq(|payloads|, i requires 0 <= i < |payloads| => Frame(10, true, payloads[i]))
  }

  /** What must be answered: one pong for each ping, then the echo of a close if there is one. */
  function Answers(fs: seq<Frame>): seq<Frame> {
    Pongs(Pings(fs)) +
    (if fs != [] && fs[|fs| - 1].opcode == 8 then [Frame(8, true, fs[|fs| - 1].payload)] else [])
  }

  /** One turn of the drain loop and of the batch reading, side by side. */
  lemma DrainOne(s: Inbound, buf: Buf)
    ensures var r := Decode(buf, MAX_PAYLOAD, true);
            && (r.NeedMore? ==> Drain(s, buf) == Outcome(s, buf, false) && Frames(buf) == [])
            && (r.Error? ==> Drain(s, buf) == Outcome(s, buf, true) && Frames(buf) == [])
            && (r.Ok? ==>
                  if r.frame.opcode == OP_CLOSE then
                    Drain(s, buf) == Outcome(Handle(s, r.frame), buf[r.consumed..], true) && Frames(buf) == [r.frame]
                  else
                    && Drain(s, buf) == Drain(Handle(s, r.frame), buf[r.consumed..])
                    && Frames(buf) == [r.frame] + Frames(buf[r.consumed..]))
  {
    WsIncremental();
    assert buf[0..] == buf;
  }

  lemma PayloadsCons(f: Frame, rest: seq<Frame>)
    ensures Payloads([f] + rest) == (if IsData(f.opcode) then f.payload else []) + Payloads(rest)
  {
    assert ([f] + rest)[1..] == rest;
  }

  lemma HandleData(s: Inbound, f: Frame, rest: seq<Frame>)
    requires f.opcode != OP_CLOSE
    ensures Handle(s, f).app + Payloads(rest) == s.app + Payloads([f] + rest)
  {
    hide Payloads;
    PayloadsCons(f, rest);
    var p := Payloads(rest);
    assert (s.app + f.payload) + p == s.app + (f.payload + p);
    assert [] + p == p;
  }

  lemma HandleControl(s: Inbound, f: Frame, rest: seq<Frame>)
    requires f.opcode != OP_CLOSE
    ensures Handle(s, f).replies + Answers(rest) == s.replies + Answers([f] + rest)
  {
    var answers := Answers(rest);
    AnswersCons(f, rest);
  }

  /** The drain loop produces the batch reading: the data payloads in order, one
      pong for each ping in order, and after them at most one close echo. */
  lemma {:induction false} DrainIsBatch(s: Inbound, buf: Buf)
    ensures Drain(s, buf).s == Inbound(s.app + Payloads(Frames(buf)), s.replies + Answers(Frames(buf)))
    decreases |buf|
  {
    DrainOne(s, buf);
    var r := Decode(buf, MAX_PAYLOAD, true);
    if r.Ok? {
      if r.frame.opcode == OP_CLOSE {
        JustClose(r.frame);
      } else {
        DrainIsBatch(Handle(s, r.frame), buf[r.consumed..]);
        HandleData(s, r.frame, Frames(buf[r.consumed..]));
        HandleControl(s, r.frame, Frames(buf[r.consumed..]));
      }
    }
  }

  lemma NoAnswers()
    ensures Answers([]) == []
  {
  }

  /** The same, from the start. */
  lemma DrainFromNothing(buf: Buf)
    ensures Drain(NOTHING, buf).s == Inbound(Payloads(Frames(buf)), Answers(Frames(buf)))
  {
    hide Drain, Frames, Payloads, Answers;
    DrainIsBatch(NOTHING, buf);
    assert [] + Payloads(Frames(buf)) == Payloads(Frames(buf));
    assert [] + Answers(Frames(buf)) == Answers(Frames(buf));
  }

  lemma JustClose(f: Frame)
    requires f.opcode == OP_CLOSE
    ensures Payloads([f]) == [] && Answers([f]) == [Frame(OP_CLOSE, true, f.payload)]
  {
    assert [f][1..] == [];
    assert Pings([f]) == [];
  }

  lemma AnswersCons(f: Frame, rest: seq<Frame>)
    requires f.opcode != OP_CLOSE
    ensures Answers([f] + rest) == (if f.opcode == OP_PING then [Frame(OP_PONG, true, f.payload)] else []) + Answers(rest)
  {
    var fs := [f] + rest;
    assert fs[1..] == rest;
    assert Pongs(Pings(fs))
           == (if f.opcode == OP_PING then [Frame(OP_PONG, true, f.payload)] else []) + Pongs(Pings(rest));
  }

  /** Control frames as section 5.5 of RFC 6455 wants them: whole and short, pongs
      only, except that the last may be a close. */
  predicate LegalAnswers(rs: seq<Frame>) {
    forall i :: 0 <= i < |rs| ==>
      && rs[i].fin
      && |rs[i].payload| <= 125
      && (rs[i].opcode == 10 || (rs[i].opcode == 8 && i == |rs| - 1))
  }

  lemma LegalCons(r: Frame, rs: seq<Frame>)
    requires LegalAnswers(rs) && r.fin && |r.payload| <= 125 && r.opcode == OP_PONG
    ensures LegalAnswers([r] + rs)
  {
    forall i | 0 <= i < |[r] + rs|
      ensures ([r] + rs)[i].fin && |([r] + rs)[i].payload| <= 125
      ensures ([r] + rs)[i].opcode == OP_PONG || (([r] + rs)[i].opcode == OP_CLOSE && i == |[r] + rs| - 1)
    {
      if i > 0 { assert ([r] + rs)[i] == rs[i - 1]; }
    }
  }

  /** Every control frame the connection sends is whole and short; a close is sent
      at most once and nothing after it. */
  lemma {:induction false} AnswersAreLegal(buf: Buf)
    ensures LegalAnswers(Answers(Frames(buf)))
    decreases |buf|
  {
    hide Decode, Frames, Drain, Answers, Handle;
    DrainOne(NOTHING, buf);
    var r := Decode(buf, MAX_PAYLOAD, true);
    if r.Ok? {
      ControlFramesAreShort(buf, MAX_PAYLOAD, true);
      if r.frame.opcode == OP_CLOSE {
        JustClose(r.frame);
      } else {
        AnswersAreLegal(buf[r.consumed..]);
        AnswersCons(r.frame, Frames(buf[r.consumed..]));
        if r.frame.opcode == OP_PING {
          LegalCons(Frame(OP_PONG, true, r.frame.payload), Answers(Frames(buf[r.consumed..])));
        }
      }
    } else {
      NoAnswers();
    }
  }

  // ---- one call of recv ---------------------------------------------------

  datatype Errno = Eagain | Eintr | OtherErrno

  /** What the socket answers to one read. */
  datatype SocketRead = Data(bytes: Buf) | Eof | Fail(errno: Errno)

  /** A read that returns bytes returns at least one. */
  predicate PossibleRead(ev: SocketRead) { ev.Data? ==> ev.bytes != [] }

  /** The fields of `WebSocketConn`. */
  datatype Conn = Conn(rx: Buf, app: Buf, closed: bool)

  /** What `recv` reports: bytes, the end of the stream, or an error code. */
  datatype Received = Got(bytes: Buf) | End | Err(errno: Errno)

  predicate AsksSocket(c: Conn) { c.app == [] && !c.closed }

  /** Hands out at most `cap` of the de-framed bytes. */
  function Serve(c: Conn, cap: nat): (Conn, Received)
    requires c.app != []
  {
    var k := if cap < |c.app| then cap else |c.app|;
    (c.(app := c.app[k..]), Got(c.app[..k]))
  }

  /** The connection after a positive read has been drained, and the control frames sent meanwhile. */
  ghost function Absorb(c: Conn, bytes: Buf): (Conn, seq<Frame>) {
    var o := Drain(NOTHING, c.rx + bytes);
    (Conn(o.rest, o.s.app, o.halted), o.s.replies)
  }

  /** One call of `recv`; `ev` is what the socket answers if it is asked. */
  ghost function Recv(c: Conn, ev: SocketRead, cap: nat): (Conn, Received, seq<Frame>) {
    if c.app != [] then
      var (c', r) := Serve(c, cap);
      (c', r, [])
    else if c.closed then (c, End, [])
    else
      match ev
      case Eof => (c, End, [])
      case Fail(e) => (c, Err(e), [])
      case Data(bytes) =>
        var (d, sent) := Absorb(c, bytes);
        if d.app != [] then
          var (c', r) := Serve(d, cap);
          (c', r, sent)
        else if d.closed then (d, End, sent)
        else (d, Err(Eagain), sent)
  }

  // ---- whole runs ----------------------------------------------------------

  /** A connection and its past: every byte read since the handshake, whether any
      read came after the handshake, every byte delivered, every control frame sent. */
  datatype History = History(c: Conn, read: Buf, pulled: bool, delivered: Buf, sent: seq<Frame>)

  /** Just after the handshake; `early` are the bytes that came with the request. */
  function Opened(early: Buf): History {
    History(Conn(early, [], false), early, false, [], [])
  }

  function BytesOf(r: Received): Buf { if r.Got? then r.bytes else [] }

  ghost function Call(h: History, ev: SocketRead, cap: nat): History {
    var after := Recv(h.c, ev, cap);
    var pulls := AsksSocket(h.c) && ev.Data?;
    History(after.0, if pulls then h.read + ev.bytes else h.read, h.pulled || pulls,
            h.delivered + BytesOf(after.1), h.sent + after.2)
  }

  /** A run: any number of calls, any answers of the socket, any capacities. */
  ghost function Calls(h: History, calls: seq<(SocketRead, nat)>): History
    decreases |calls|
  {
    if calls == [] then h else Calls(Call(h, calls[0].0, calls[0].1), calls[1..])
  }

  /** The refinement: before the first read nothing has been looked at; from then on
      the connection is where the drain of everything read so far would be, less what
      has been delivered. */
  ghost predicate Refines(h: History) {
    if !h.pulled then h == Opened(h.read)
    else
      var o := Drain(NOTHING, h.read);
      && h.delivered + h.c.app == o.s.app
      && h.sent == o.s.replies
      && h.c.rx == o.rest
      && h.c.closed == o.halted
  }

  /** Draining from a state that already holds output only puts that output in front. */
  lemma DrainShift(s: Inbound, buf: Buf)
    ensures var o, z := Drain(s, buf), Drain(NOTHING, buf);
            && o.s == Inbound(s.app + z.s.app, s.replies + z.s.replies)
            && o.rest == z.rest && o.halted == z.halted
  {
    hide Decode, Frames, Drain, Answers, Payloads;
    DrainIsBatch(s, buf);
    DrainIsBatch(NOTHING, buf);
    DrainRest(s, NOTHING, buf);
  }

  lemma {:induction false} DrainRest(s: Inbound, t: Inbound, buf: Buf)
    ensures Drain(s, buf).rest == Drain(t, buf).rest && Drain(s, buf).halted == Drain(t, buf).halted
    decreases |buf|
  {
    hide Decode, Frames, Drain, Handle;
    DrainOne(s, buf);
    DrainOne(t, buf);
    var r := Decode(buf, MAX_PAYLOAD, true);
    if r.Ok? && r.frame.opcode != OP_CLOSE {
      DrainRest(Handle(s, r.frame), Handle(t, r.frame), buf[r.consumed..]);
    }
  }

  lemma AbsorbRefines(h: History, bytes: Buf)
    requires Refines(h) && AsksSocket(h.c)
    ensures var (d, sent) := Absorb(h.c, bytes);
            Refines(History(d, h.read + bytes, true, h.delivered, h.sent + sent))
  {
    hide Decode, Frames, Payloads, Answers, Handle;
    WsIncremental();
    if h.pulled {
      var o := Drain(NOTHING, h.read);
      RunSplit(WsNext, NOTHING, h.read, bytes);
      DrainShift(o.s, o.rest + bytes);
      assert h.delivered + [] == h.delivered;
    }
  }

  lemma ServeRefines(h: History, cap: nat)
    requires Refines(h) && h.c.app != []
    ensures var (c, r) := Serve(h.c, cap); Refines(h.(c := c, delivered := h.delivered + BytesOf(r)))
  {
    hide Drain;
    var k := if cap < |h.c.app| then cap else |h.c.app|;
    assert (h.delivered + h.c.app[..k]) + h.c.app[k..] == h.delivered + h.c.app;
  }

  /** Every call of `recv` keeps the refinement. */
  lemma CallRefines(h: History, ev: SocketRead, cap: nat)
    requires Refines(h)
    ensures Refines(Call(h, ev, cap))
  {
    hide Drain;
    assert h.delivered + [] == h.delivered && h.sent + [] == h.sent;
    if h.c.app != [] {
      ServeRefines(h, cap);
    } else if !h.c.closed && ev.Data? {
      var (d, sent) := Absorb(h.c, ev.bytes);
      var h' := History(d, h.read + ev.bytes, true, h.delivered, h.sent + sent);
      AbsorbRefines(h, ev.bytes);
      if d.app != [] { ServeRefines(h', cap); }
    }
  }

  lemma {:induction false} RunRefines(h: History, calls: seq<(SocketRead, nat)>)
    requires Refines(h)
    ensures Refines(Calls(h, calls))
    decreases |calls|
  {
    if calls != [] {
      CallRefines(h, calls[0].0, calls[0].1);
      RunRefines(Call(h, calls[0].0, calls[0].1), calls[1..]);
    }
  }

  /** The stream holds a close or a violation after zero or more whole frames. */
  predicate Ends(buf: Buf)
    decreases |buf|
  {
    match Decode(buf, MAX_PAYLOAD, true)
    case NeedMore => false
    case Error => true
    case Ok(f, used) => f.opcode == 8 || Ends(buf[used..])
  }

  lemma {:induction false} DrainEnds(s: Inbound, buf: Buf)
    ensures Drain(s, buf).halted == Ends(buf)
    decreases |buf|
  {
    hide Drain, Handle, Frames;
    DrainOne(s, buf);
    var r := Decode(buf, MAX_PAYLOAD, true);
    if r.Ok? && r.frame.opcode != OP_CLOSE {
      DrainEnds(Handle(s, r.frame), buf[r.consumed..]);
    }
  }

  /** The refinement theorem, for every run of a connection: whatever the cuts, the
      capacities and the interleaved control frames, what has been delivered is a
      prefix of the batch reading of the bytes read, and so are the control frames
      sent. Once a read has come after the handshake, delivered and pending bytes
      are the whole batch reading, every answer has been sent, the raw buffer is a
      suffix of what was read that holds no whole frame unless the connection is
      closed, and it is closed exactly when the stream held a close or a violation. */
  lemma RunIsBatch(early: Buf, calls: seq<(SocketRead, nat)>)
    ensures var h := Calls(Opened(early), calls); h.delivered <= Payloads(Frames(h.read))
    ensures var h := Calls(Opened(early), calls); h.sent <= Answers(Frames(h.read)) && LegalAnswers(h.sent)
    ensures var h := Calls(Opened(early), calls); |h.c.rx| <= |h.read| && h.c.rx == h.read[|h.read| - |h.c.rx|..]
    ensures var h := Calls(Opened(early), calls);
            h.pulled ==>
              && h.delivered + h.c.app == Payloads(Frames(h.read))
              && h.sent == Answers(Frames(h.read))
              && h.c.closed == Ends(h.read)
              && (!h.c.closed ==> Decode(h.c.rx, MAX_PAYLOAD, true).NeedMore?)
  {
    hide Decode, Frames, Payloads, Answers, Ends, Calls;
    var h := Calls(Opened(early), calls);
    RunRefines(Opened(early), calls);
    DrainFromNothing(h.read);
    DrainEnds(NOTHING, h.read);
    AnswersAreLegal(h.read);
    WsIncremental();
    var o := Run(WsNext, NOTHING, h.read);
    assert o == Drain(NOTHING, h.read);
    if h.pulled { assert h.delivered == (h.delivered + h.c.app)[..|h.delivered|]; }
    assert !o.halted ==> WsNext(o.s, o.rest).Wait?;
  }

  /** While de-framed bytes are pending, `recv` serves them without asking the
      socket, at least one byte at a time. */
  lemma PendingIsServed(h: History, ev: SocketRead, cap: nat)
    requires h.c.app != [] && cap >= 1
    ensures var h' := Call(h, ev, cap);
            && h'.read == h.read && h'.pulled == h.pulled && h'.sent == h.sent
            && h'.delivered + h'.c.app == h.delivered + h.c.app
            && |h'.c.app| < |h.c.app|
  {
    var k := if cap < |h.c.app| then cap else |h.c.app|;
    assert (h.delivered + h.c.app[..k]) + h.c.app[k..] == h.delivered + h.c.app;
  }

  /** Some call is answered with bytes, should it ask. */
  predicate SomeRead(calls: seq<(SocketRead, nat)>) { exists i :: 0 <= i < |calls| && calls[i].0.Data? }

  /** Until bytes come the connection is as it was opened, so every call asks the
      socket, and the first answer with bytes is a read. */
  lemma {:induction false} PulledIff(h: History, calls: seq<(SocketRead, nat)>)
    requires Refines(h)
    ensures var h' := Calls(h, calls);
            (h'.pulled <==> h.pulled || SomeRead(calls)) && (!h'.pulled ==> h'.read == h.read)
    decreases |calls|
  {
    hide Decode, Drain;
    if calls != [] {
      CallRefines(h, calls[0].0, calls[0].1);
      PulledIff(Call(h, calls[0].0, calls[0].1), calls[1..]);
      assert forall i :: 0 < i < |calls| ==> calls[i] == calls[1..][i - 1];
    }
  }

  /** Bytes that arrive together with the handshake are looked at only when a later
      read brings more. So a run that has nothing pending has delivered the whole
      batch reading if and only if the socket answered some call with bytes, or the
      early bytes held no data. */
  lemma AllDeliveredIff(early: Buf, calls: seq<(SocketRead, nat)>)
    requires Calls(Opened(early), calls).c.app == []
    ensures var h := Calls(Opened(early), calls);
            h.delivered == Payloads(Frames(h.read)) <==> SomeRead(calls) || Payloads(Frames(early)) == []
  {
    hide Decode, Frames, Payloads, Answers, Ends, Calls, SomeRead;
    RunIsBatch(early, calls);
    RunRefines(Opened(early), calls);
    PulledIff(Opened(early), calls);
  }

  lemma NoBytes()
    ensures Decode([], MAX_PAYLOAD, true).NeedMore? && Frames([]) == [] && !Ends([])
  {
  }

  lemma OneFrame(f: Frame, key: Buf, tail: Buf)
    requires LegalClientFrame(f, key) && f.opcode != OP_CLOSE
    ensures Frames(ClientEncoded(f, key) + tail) == [f] + Frames(tail)
  {
    hide ClientEncoded, Decode;
    var bytes := ClientEncoded(f, key);
    ClientFrameRoundTrip(f, key, tail);
    assert (bytes + tail)[|bytes|..] == tail;
    DrainOne(NOTHING, bytes + tail);
  }

  /** A concrete loss: a whole data frame that comes with the handshake, then the
      end of the stream. The frame is never delivered. */
  lemma EarlyFrameLost()
    ensures var early := ClientEncoded(Frame(OP_BINARY, true, [65]), [0, 0, 0, 0]);
            var h := Calls(Opened(early), [(Eof, 8192)]);
            Payloads(Frames(h.read)) == [65] && h.delivered == []
  {
    hide ClientEncoded, Decode, Frames;
    var f := Frame(OP_BINARY, true, [65]);
    var early := ClientEncoded(f, [0, 0, 0, 0]);
    OneFrame(f, [0, 0, 0, 0], []);
    assert early + [] == early;
    NoBytes();
    assert Payloads([f] + []) == [65];
    assert [(Eof, 8192)][1..] == [];
    assert Calls(Opened(early), [(Eof, 8192)]) == Call(Opened(early), Eof, 8192);
  }
}
