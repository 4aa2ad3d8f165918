/** The two layers together: the session loop above a WebSocket connection. */
module EndToEnd {
  import opened Bytes
  import opened Protocol
  import opened Sec1
  import opened Streaming
  import opened WebSocketProto
  import opened WebSocketStream
  import opened SessionStream
  import opened SessionLoop
  import opened SessionRuns

  /** A connection with its past, and the session loop above it. */
  datatype Stack = Stack(h: History, loop: Loop)

  /** After the handshake; `early` are the bytes that came with the request. */
  function Start(begin: Loop, early: Buf): Stack { Stack(Opened(early), begin) }

  /** What one turn meets: the loop's own surroundings, what the socket answers if it is
      asked, and the capacity of the buffer. What `recv` reports is not given: it is
      what the connection makes of the answer. */
  datatype Round = Round(t: Tick, ev: SocketRead, cap: nat)

  /** One turn of the loop over the connection. */
  ghost function Step(st: Stack, r: Round): Stack {
    if Receives(st.loop, r.t) then
      var got := Recv(st.h.c, r.ev, r.cap).1;
      Stack(Call(st.h, r.ev, r.cap), Turn(st.loop, r.t.(polled := Readable(got, r.t.polled.pictures))))
    else Stack(st.h, Turn(st.loop, r.t))
  }

  ghost function RunStack(st: Stack, rounds: seq<Round>): Stack
    decreases |rounds|
  {
    if rounds == [] then st else RunStack(Step(st, rounds[0]), rounds[1..])
  }

  /** The loop has handled what parsing everything delivered so far gives, and goes on from there. */
  ghost predicate InStep(st: Stack, token: Buf) {
    Refines(st.h) && Agrees(st.loop, token, st.h.delivered)
  }

  /** Every turn keeps the loop in step with the connection. */
  lemma StepInStep(st: Stack, r: Round, token: Buf)
    requires InStep(st, token)
    ensures InStep(Step(st, r), token) && Step(st, r).loop.startMs == st.loop.startMs
  {
    hide Agrees, Refines, Recv, Turn;
    assert st.h.delivered + [] == st.h.delivered;
    if Receives(st.loop, r.t) {
      var got := Recv(st.h.c, r.ev, r.cap).1;
      CallRefines(st.h, r.ev, r.cap);
      TurnAgrees(st.loop, r.t.(polled := Readable(got, r.t.polled.pictures)), token, st.h.delivered);
    } else {
      TurnAgrees(st.loop, r.t, token, st.h.delivered);
    }
  }

  lemma {:induction false} RunInStep(st: Stack, rounds: seq<Round>, token: Buf)
    requires InStep(st, token)
    ensures InStep(RunStack(st, rounds), token)
    decreases |rounds|
  {
    hide InStep, Step;
    if rounds != [] {
      StepInStep(st, rounds[0], token);
      RunInStep(Step(st, rounds[0]), rounds[1..], token);
    }
  }

  lemma StartInStep(token: Buf, startMs: nat, interval: nat, early: Buf)
    ensures InStep(Start(Begin(token, startMs, interval), early), token)
  {
    hide Drain, Agrees;
    BeginAgrees(token, startMs, interval);
  }

  // ---- the client's side ---------------------------------------------------------

  /** What a client puts on the wire, with opcodes by their numbers (section 5.2 of
      RFC 6455): a fragment, text or binary if it is the first of a message and a
      continuation if not, with any FIN bit; a ping; a pong; or a reserved opcode. */
  datatype Sent =
    | Fragment(first: bool, binary: bool, fin: bool, bytes: Buf)
    | Ping(bytes: Buf)
    | Pong(bytes: Buf)
    | Reserved(opcode: byte, fin: bool, bytes: Buf)

  function AsFrame(x: Sent): Frame {
    match x
    case Fragment(first, binary, fin, bytes) => Frame(if !first then 0 else if binary then 2 else 1, fin, bytes)
    case Ping(bytes) => Frame(9, true, bytes)
    case Pong(bytes) => Frame(10, true, bytes)
    case Reserved(opcode, fin, bytes) => Frame(opcode, fin, bytes)
  }

  /** What is sent, and the key it is masked with. */
  type Masking = (Sent, Buf)

  /** Traffic that keeps to the limits and holds no close. */
  predicate LegalTraffic(xs: seq<Masking>) {
    forall x :: x in xs ==>
      && LegalClientFrame(AsFrame(x.0), x.1)
      && (x.0.Reserved? ==> 3 <= x.0.opcode <= 7 || 11 <= x.0.opcode <= 15)
  }

  function WireAll(xs: seq<Masking>): Buf
    requires LegalTraffic(xs)
  {
    if xs == [] then []
    else
      assert xs[0] in xs;
      ClientEncoded(AsFrame(xs[0].0), xs[0].1) + WireAll(xs[1..])
  }

  function Plain(xs: seq<Masking>): seq<Frame> {
    if xs == [] then [] else [AsFrame(xs[0].0)] + Plain(xs[1..])
  }

  /** The fragments of all messages, in order. */
  function Fragments(xs: seq<Masking>): seq<Buf> {
    if xs == [] then [] else (if xs[0].0.Fragment? then [xs[0].0.bytes] else []) + Fragments(xs[1..])
  }

  /** One pong for each ping, with its payload. */
  function PongsDue(xs: seq<Masking>): seq<Frame> {
    if xs == [] then [] else (if xs[0].0.Ping? then [Frame(10, true, xs[0].0.bytes)] else []) + PongsDue(xs[1..])
  }

  /** The terminal decodes exactly the frames the client sent, and finds no close and no violation. */
  lemma {:induction false} TrafficDecoded(xs: seq<Masking>, tail: Buf)
    requires LegalTraffic(xs)
    ensures Frames(WireAll(xs) + tail) == Plain(xs) + Frames(tail) && Ends(WireAll(xs) + tail) == Ends(tail)
    decreases |xs|
  {
    hide ClientEncoded, Decode, LegalClientFrame, Frames;
    if xs == [] {
      assert WireAll(xs) + tail == tail && Plain(xs) + Frames(tail) == Frames(tail);
    } else {
      assert xs[0] in xs;
      var f := AsFrame(xs[0].0);
      var bytes, rest := ClientEncoded(f, xs[0].1), WireAll(xs[1..]) + tail;
      TrafficDecoded(xs[1..], tail);
      assert WireAll(xs) + tail == bytes + rest;
      OneFrame(f, xs[0].1, rest);
      ClientFrameRoundTrip(f, xs[0].1, rest);
      assert (bytes + rest)[|bytes|..] == rest;
      assert [f] + (Plain(xs[1..]) + Frames(tail)) == Plain(xs) + Frames(tail);
    }
  }

  lemma PlainCons(xs: seq<Masking>, rest: seq<Frame>)
    ensures xs == [] ==> Plain(xs) + rest == rest
    ensures xs != [] ==> Plain(xs) + rest == [AsFrame(xs[0].0)] + (Plain(xs[1..]) + rest)
  {
    hide AsFrame;
  }

  /** What the frames carry, in terms of what was sent. */
  lemma {:induction false} PlainCarries(xs: seq<Masking>, rest: seq<Frame>)
    requires LegalTraffic(xs)
    ensures Payloads(Plain(xs) + rest) == Flatten(Fragments(xs)) + Payloads(rest)
    decreases |xs|
  {
    hide LegalClientFrame, Payloads, Plain, Fragments, Flatten;
    PlainCons(xs, rest);
    FragmentsCons(xs);
    if xs == [] {
      assert [] + Payloads(rest) == Payloads(rest);
    } else {
      assert xs[0] in xs;
      var x, later := xs[0].0, Plain(xs[1..]) + rest;
      PlainCarries(xs[1..], rest);
      PayloadsCons(AsFrame(x), later);
      var first := if x.Fragment? then x.bytes else [];
      var others := Flatten(Fragments(xs[1..]));
      assert first + (others + Payloads(rest)) == (first + others) + Payloads(rest);
    }
  }

  /** What must be answered, in terms of what was sent. */
  lemma {:induction false} PlainAnswers(xs: seq<Masking>, rest: seq<Frame>)
    requires LegalTraffic(xs)
    ensures Answers(Plain(xs) + rest) == PongsDue(xs) + Answers(rest)
    decreases |xs|
  {
    hide LegalClientFrame, Answers, Plain;
    PlainCons(xs, rest);
    if xs == [] {
      assert [] + Answers(rest) == Answers(rest);
    } else {
      assert xs[0] in xs;
      var x, later := xs[0].0, Plain(xs[1..]) + rest;
      PlainAnswers(xs[1..], rest);
      AnswersCons(AsFrame(x), later);
      var first := if x.Ping? then [Frame(10, true, x.bytes)] else [];
      assert first + (PongsDue(xs[1..]) + Answers(rest)) == (first + PongsDue(xs[1..])) + Answers(rest);
    }
  }

  lemma FragmentsCons(xs: seq<Masking>)
    ensures xs == [] ==> Flatten(Fragments(xs)) == []
    ensures xs != [] ==>
              Flatten(Fragments(xs)) == (if xs[0].0.Fragment? then xs[0].0.bytes else []) + Flatten(Fragments(xs[1..]))
  {
    if xs == [] { return; }
    var rest := Fragments(xs[1..]);
    if xs[0].0.Fragment? {
      assert ([xs[0].0.bytes] + rest)[1..] == rest;
    } else {
      assert [] + rest == rest && [] + Flatten(rest) == Flatten(rest);
    }
  }

  lemma TrafficCarries(xs: seq<Masking>)
    requires LegalTraffic(xs)
    ensures Frames(WireAll(xs)) == Plain(xs) && !Ends(WireAll(xs))
    ensures Payloads(Plain(xs)) == Flatten(Fragments(xs)) && Answers(Plain(xs)) == PongsDue(xs)
  {
    hide Frames, Answers, Payloads, LegalTraffic, Ends, WireAll, Plain;
    TrafficDecoded(xs, []);
    PlainCarries(xs, []);
    PlainAnswers(xs, []);
    NoBytes();
    NoAnswers();
    assert WireAll(xs) + [] == WireAll(xs) && Plain(xs) + [] == Plain(xs);
    assert Payloads([]) == [] by { NoPayloads(); }
    assert Flatten(Fragments(xs)) + [] == Flatten(Fragments(xs)) && PongsDue(xs) + [] == PongsDue(xs);
  }

  lemma NoPayloads()
    ensures Payloads([]) == []
  {
  }

  /** De-framing, from the wire up: whatever is sent, with any keys, the connection
      delivers the fragments joined and nothing else, and answers each ping with a pong
      that carries its payload. */
  lemma FragmentsDelivered(xs: seq<Masking>)
    requires LegalTraffic(xs)
    ensures Drain(NOTHING, WireAll(xs)).s == Inbound(Flatten(Fragments(xs)), PongsDue(xs))
    ensures !Drain(NOTHING, WireAll(xs)).halted
  {
    hide Drain, Frames, Answers, Payloads, LegalTraffic, Ends, WireAll, Plain;
    TrafficCarries(xs);
    DrainFromNothing(WireAll(xs));
    DrainEnds(NOTHING, WireAll(xs));
  }

  /** And a close ends it: it is echoed with its payload, once, after the pongs, and
      whatever follows it is neither delivered nor answered. */
  lemma CloseEndsTraffic(xs: seq<Masking>, reason: Buf, key: Buf, after: Buf)
    requires LegalTraffic(xs) && |key| == 4 && |reason| <= 125
    ensures LegalClientFrame(Frame(8, true, reason), key)
    ensures var o := Drain(NOTHING, WireAll(xs) + (ClientEncoded(Frame(8, true, reason), key) + after));
            && o.s == Inbound(Flatten(Fragments(xs)), PongsDue(xs) + [Frame(8, true, reason)])
            && o.halted && o.rest == after
  {
    hide Drain, Frames, Answers, Payloads, LegalTraffic, Ends, WireAll, Plain, ClientEncoded, Decode;
    var close := Frame(8, true, reason);
    var bytes := ClientEncoded(close, key);
    var tail := bytes + after;
    ClientFrameRoundTrip(close, key, after);
    assert tail[|bytes|..] == after;
    TrafficDecoded(xs, tail);
    PlainCarries(xs, [close]);
    PlainAnswers(xs, [close]);
    DrainOne(NOTHING, tail);
    JustClose(close);
    DrainFromNothing(WireAll(xs) + tail);
    DrainEnds(NOTHING, tail);
    DrainEnds(NOTHING, WireAll(xs) + tail);
    assert Flatten(Fragments(xs)) + [] == Flatten(Fragments(xs));
    WsIncremental();
    TrafficCarries(xs);
    DrainEnds(NOTHING, WireAll(xs));
    RestOfTraffic(xs);
    DrainSplit(WireAll(xs), tail);
  }

  /** And so does a violation - a payload over 16 MiB, a control frame that is not whole or
      not short, a frame without a mask - but without an answer. */
  lemma ViolationEndsTraffic(xs: seq<Masking>, p: Buf)
    requires LegalTraffic(xs) && |p| >= 2 && |p| >= MaskAt(p) && MustFail(p, 0x100_0000, true)
    ensures var o := Drain(NOTHING, WireAll(xs) + p);
            o.s == Inbound(Flatten(Fragments(xs)), PongsDue(xs)) && o.halted && o.rest == p
  {
    hide Drain, Frames, Answers, Payloads, LegalTraffic, Ends, WireAll, Plain, Decode, MustFail;
    VerdictInBytes(p, MAX_PAYLOAD, true);
    TrafficDecoded(xs, p);
    PlainCarries(xs, []);
    PlainAnswers(xs, []);
    DrainOne(NOTHING, p);
    NoAnswers();
    NoPayloads();
    DrainFromNothing(WireAll(xs) + p);
    DrainEnds(NOTHING, p);
    DrainEnds(NOTHING, WireAll(xs) + p);
    assert Flatten(Fragments(xs)) + [] == Flatten(Fragments(xs)) && PongsDue(xs) + [] == PongsDue(xs);
    TrafficCarries(xs);
    DrainEnds(NOTHING, WireAll(xs));
    RestOfTraffic(xs);
    DrainSplit(WireAll(xs), p);
  }

  lemma DrainSplit(a: Buf, b: Buf)
    ensures var o, r := Drain(NOTHING, a), Drain(NOTHING, a + b);
            !o.halted && o.rest == [] ==> r.rest == Drain(NOTHING, b).rest
  {
    WsIncremental();
    RunSplit(WsNext, NOTHING, a, b);
    var o := Drain(NOTHING, a);
    if !o.halted && o.rest == [] {
      assert [] + b == b;
      DrainRest(o.s, NOTHING, b);
    }
  }

  lemma {:induction false} RestOf(s: Inbound, xs: seq<Masking>)
    requires LegalTraffic(xs)
    ensures Drain(s, WireAll(xs)).rest == []
    decreases |xs|
  {
    hide Drain, Decode, Frames, Handle, ClientEncoded, LegalClientFrame;
    DrainOne(s, WireAll(xs));
    if xs == [] {
      NoBytes();
    } else {
      assert xs[0] in xs;
      var f := AsFrame(xs[0].0);
      var bytes, rest := ClientEncoded(f, xs[0].1), WireAll(xs[1..]);
      ClientFrameRoundTrip(f, xs[0].1, rest);
      assert (bytes + rest)[|bytes|..] == rest;
      RestOf(Handle(s, f), xs[1..]);
    }
  }

  lemma RestOfTraffic(xs: seq<Masking>)
    requires LegalTraffic(xs)
    ensures Drain(NOTHING, WireAll(xs)).rest == []
  {
    RestOf(NOTHING, xs);
  }

  // ---- the theorems ----------------------------------------------------------------

  /** A client's messages, carried by what it sends: the fragments joined are the
      messages built one after the other, however they are cut into fragments and
      whatever pings, pongs and reserved frames come between. */
  ghost predicate Carries(xs: seq<Masking>, ms: seq<Msg>, token: Buf) {
    && LegalTraffic(xs)
    && Flatten(Fragments(xs)) == BuildAll(ms)
    && (forall m :: m in ms ==> Representable(m) && |m.payload| <= TERMINAL_CAP)
    && (token == [] || ms == [] || Opens(token, ms[0]))
  }

  /** End to end: cut the client's bytes into any reads, let the buffer have any
      capacity, let reads fail and be retried, let frames be sent in between. Once all
      the client's bytes have been read, some of them after the handshake, and nothing is
      pending, the session loop has handled exactly the client's messages, in order and
      once each, and every ping has been answered. */
  lemma AllMessagesHandled(token: Buf, startMs: nat, interval: nat, early: Buf, rounds: seq<Round>,
                           xs: seq<Masking>, ms: seq<Msg>)
    requires Carries(xs, ms, token)
    requires var st := RunStack(Start(Begin(token, startMs, interval), early), rounds);
             st.h.read == WireAll(xs) && st.h.c.app == [] && st.h.pulled
    ensures var st := RunStack(Start(Begin(token, startMs, interval), early), rounds);
            HandledIn(st.loop.log) == ms && st.h.sent == PongsDue(xs)
    ensures (forall r :: r in rounds ==> Gentle(r, startMs)) ==>
              RunStack(Start(Begin(token, startMs, interval), early), rounds).loop.running
  {
    hide Drain, ParseFrom, RunStack, Frames, Ends, WireAll, LegalTraffic, Answers, Payloads, BuildAll, Plain, Fragments,
         PongsDue, Flatten, HandledIn, Gentle;
    var start := Start(Begin(token, startMs, interval), early);
    var st := RunStack(start, rounds);
    StartInStep(token, startMs, interval, early);
    RunInStep(start, rounds, token);
    DrainFromNothing(st.h.read);
    TrafficCarries(xs);
    assert st.h.delivered == st.h.delivered + st.h.c.app;
    BuiltIsHandled(token, ms);
    if forall r :: r in rounds ==> Gentle(r, startMs) { GentleRun(start, rounds, token); }
  }

  /** A turn in which nothing goes wrong outside the client's bytes. */
  predicate Gentle(r: Round, startMs: nat) {
    && !r.t.stop && r.t.authMs <= startMs + 5000 && r.t.sendOk && r.cap >= 1
    && !r.t.polled.HungUp? && r.t.polled != PollFailed(false)
    && !r.ev.Eof? && r.ev != Fail(OtherErrno)
  }

  /** The loop runs, or the client's bytes give a reason why not. */
  ghost predicate Explained(st: Stack, token: Buf) {
    st.loop.running || ParseFrom(Fresh(token), st.h.delivered).halted || Ends(st.h.read)
  }

  /** What a call reports while the connection stays open. */
  lemma Reports(c: Conn, ev: SocketRead, cap: nat)
    requires cap >= 1 && !ev.Eof? && ev != Fail(OtherErrno)
    ensures var (c', r, sent) := Recv(c, ev, cap);
            && (!c'.closed ==> !r.End?)
            && (r.Err? ==> r.errno != OtherErrno)
            && (r.Got? ==> r.bytes != [])
            && (AsksSocket(c) && !ev.Data? ==> c' == c && r.Err? && sent == [])
            && (c.app != [] ==> r.Got?)
  {
    hide Drain;
  }

  lemma GentleStep(st: Stack, r: Round, token: Buf)
    requires InStep(st, token) && st.loop.running && Gentle(r, st.loop.startMs)
    ensures Explained(Step(st, r), token)
  {
    hide ParseFrom, Refines, Recv, Read, PushFrame, HandledIn, Ends;
    assert st.h.delivered + [] == st.h.delivered;
    PushAgrees(st.loop, r.t, token, st.h.delivered);
    if Receives(st.loop, r.t) {
      var got, pictures := Recv(st.h.c, r.ev, r.cap).1, r.t.polled.pictures;
      var t := r.t.(polled := Readable(got, pictures));
      Reports(st.h.c, r.ev, r.cap);
      CallRefines(st.h, r.ev, r.cap);
      var h := Call(st.h, r.ev, r.cap);
      if got.End? {
        ClosedEnds(h);
      } else {
        var next := Read(st.loop, got, pictures);
        if got.Got? {
          ReadAgrees(st.loop, got.bytes, pictures, token, st.h.delivered);
        } else {
          ReadNothing(st.loop, got, pictures);
        }
        PushAgrees(next, t, token, h.delivered);
      }
    }
  }

  lemma ClosedEnds(h: History)
    requires Refines(h) && h.c.closed
    ensures Ends(h.read)
  {
    hide Drain;
    DrainEnds(NOTHING, h.read);
  }

  lemma {:induction false} GentleRun(st: Stack, rounds: seq<Round>, token: Buf)
    requires InStep(st, token) && forall r :: r in rounds ==> Gentle(r, st.loop.startMs)
    requires Explained(st, token)
    ensures Explained(RunStack(st, rounds), token)
    decreases |rounds|
  {
    hide InStep, Gentle, Step, Explained;
    if rounds != [] {
      assert rounds[0] in rounds;
      StepInStep(st, rounds[0], token);
      if st.loop.running { GentleStep(st, rounds[0], token); } else { EndedStays(st, rounds[0]); }
      GentleRun(Step(st, rounds[0]), rounds[1..], token);
    }
  }

  lemma EndedStays(st: Stack, r: Round)
    requires !st.loop.running
    ensures Step(st, r) == st
  {
  }

  /** Safety, at every moment of every run, disturbed or not, and whatever part of the
      client's bytes has arrived: the messages handled are a prefix of the client's. */
  lemma OnlyPrefixesHandled(token: Buf, startMs: nat, interval: nat, early: Buf, rounds: seq<Round>,
                            xs: seq<Masking>, ms: seq<Msg>)
    requires Carries(xs, ms, token)
    requires RunStack(Start(Begin(token, startMs, interval), early), rounds).h.read <= WireAll(xs)
    ensures HandledIn(RunStack(Start(Begin(token, startMs, interval), early), rounds).loop.log) <= ms
  {
    hide Drain, ParseFrom, RunStack, Frames, Ends, WireAll, LegalTraffic, Answers, Payloads, BuildAll, Plain, Refines,
         Fragments, Flatten, HandledIn;
    var start := Start(Begin(token, startMs, interval), early);
    var st := RunStack(start, rounds);
    StartInStep(token, startMs, interval, early);
    RunInStep(start, rounds, token);
    DeliveredIsPrefix(st.h);
    TrafficCarries(xs);
    PayloadsMonotone(st.h.read, WireAll(xs)[|st.h.read|..]);
    assert st.h.read + WireAll(xs)[|st.h.read|..] == WireAll(xs);
    var rest := BuildAll(ms)[|st.h.delivered|..];
    assert st.h.delivered + rest == BuildAll(ms);
    HandledMonotone(token, st.h.delivered, rest);
    BuiltIsHandled(token, ms);
  }

  lemma DeliveredIsPrefix(h: History)
    requires Refines(h)
    ensures h.delivered <= Payloads(Frames(h.read))
  {
    hide Drain, Frames, Payloads, Answers;
    DrainFromNothing(h.read);
    if h.pulled { assert h.delivered == (h.delivered + h.c.app)[..|h.delivered|]; }
  }

  lemma PayloadsMonotone(a: Buf, b: Buf)
    ensures Payloads(Frames(a)) <= Payloads(Frames(a + b))
  {
    hide Decode, Frames, Payloads, Answers;
    WsIncremental();
    RunSplit(WsNext, NOTHING, a, b);
    var o := Drain(NOTHING, a);
    DrainFromNothing(a);
    DrainFromNothing(a + b);
    DrainIsBatch(o.s, o.rest + b);
  }

  lemma HandledMonotone(token: Buf, a: Buf, b: Buf)
    ensures ParseFrom(Fresh(token), a).s.handled <= ParseFrom(Fresh(token), a + b).s.handled
  {
    hide FrontOf, Messages, After, Opens;
    SessIncremental();
    RunSplit(SessNext, Fresh(token), a, b);
    var o := ParseFrom(Fresh(token), a);
    if !o.halted { HandledGrows(o.s, o.rest + b); }
  }

  lemma {:induction false} HandledGrows(s: Sess, buf: Buf)
    ensures s.handled <= ParseFrom(s, buf).s.handled
    decreases |buf|
  {
    hide FrontOf, Messages, After, Opens, ParseFrom;
    ParseOne(s, buf);
    var f := FrontOf(buf, TERMINAL_CAP);
    if f.Whole? && (s.authed || Opens(s.token, f.m)) {
      HandledGrows(Sess(s.token, true, s.handled + [f.m]), buf[f.used..]);
    }
  }
}
