/** A WebSocket client from the first byte of its socket: the upgrade, and then the
    session loop, which reads only when `poll` reports the socket readable. */
module WholeConnection {
  import opened Bytes
  import opened Wrappers
  import opened Protocol
  import opened Sec1
  import opened Streaming
  import opened WebSocketProto
  import opened WebSocketStream
  import opened HttpHeaders
  import opened Handshake
  import opened SessionStream
  import opened SessionLoop
  import opened SessionRuns
  import opened EndToEnd
  import opened PollDriven

  /** The size of one read of `recv`. */
  const RECV_SIZE: nat := 8192

  /** The answers that the reads of `recv` get, one after the other. */
  function Reads(script: seq<SocketRead>): seq<SocketRead>
    decreases Size(script)
  {
    if script == [] then []
    else
      var (ev, left) := NextRead(script, RECV_SIZE);
      [ev] + Reads(left)
  }

  lemma {:induction false} ReadsKeepStream(script: seq<SocketRead>)
    requires Patient(script)
    ensures Patient(Reads(script)) && Stream(Reads(script)) == Stream(script)
    decreases Size(script)
  {
    hide Stream, NextRead, Size;
    if script != [] {
      NextUndisturbed(script, RECV_SIZE);
      var (ev, left) := NextRead(script, RECV_SIZE);
      assert Size(left) < Size(script);
      ReadsKeepStream(left);
      StreamCons(ev, Reads(left));
    }
  }

  // ---- the loop under poll ----------------------------------------------------------------

  /** The poll reports a readable socket only as long as the socket has an answer. */
  function Seen(t: Tick, answers: seq<SocketRead>): Tick {
    if answers == [] && t.polled.Readable? then t.(polled := Quiet) else t
  }

  /** One turn of the session loop; `recv`, if it is called, takes at most `cap` bytes. */
  ghost function PollTurn(st: Stack, answers: seq<SocketRead>, t: Tick, cap: nat): (Stack, seq<SocketRead>) {
    var seen := Seen(t, answers);
    var r := Round(seen, if answers == [] then Fail(Eagain) else answers[0], cap);
    (Step(st, r), if Receives(st.loop, seen) && AsksSocket(st.h.c) then answers[1..] else answers)
  }

  /** The session loop over the connection: some turns, and the answers not taken by then. */
  ghost function PollStack(st: Stack, answers: seq<SocketRead>, ts: seq<Tick>, cap: nat): (Stack, seq<SocketRead>)
    decreases |ts|
  {
    if ts == [] then (st, answers)
    else
      var (next, left) := PollTurn(st, answers, ts[0], cap);
      PollStack(next, left, ts[1..], cap)
  }

  /** Nothing goes wrong outside the client's bytes: no request to stop, no time-out, no
      failure of the poll, and a socket that takes frames. (The clock of the time-out is
      read only as long as the gate is closed.) */
  predicate Untroubled(t: Tick, startMs: nat) {
    !t.stop && t.authMs <= startMs + 5000 && t.sendOk && !t.polled.HungUp? && t.polled != PollFailed(false)
  }

  /** How many turns find the socket readable, should it have an answer. */
  function Readables(ts: seq<Tick>): nat {
    if ts == [] then 0 else (if ts[0].polled.Readable? then 1 else 0) + Readables(ts[1..])
  }

  /** The bytes of the stream, the part of them that came with the request, and what they carry. */
  datatype Plan = Plan(token: Buf, early: Buf, wire: Buf, ms: seq<Msg>)

  /** The stream holds no close and no violation, and carries messages that the terminal accepts. */
  ghost predicate Sound(p: Plan) {
    && !Ends(p.wire)
    && Payloads(Frames(p.wire)) == BuildAll(p.ms)
    && (forall m :: m in p.ms ==> Representable(m) && |m.payload| <= TERMINAL_CAP)
    && (p.token == [] || p.ms == [] || Opens(p.token, p.ms[0]))
  }

  /** Bytes read and bytes to come are the stream, and nothing has gone wrong. */
  ghost predicate OnCourse(st: Stack, answers: seq<SocketRead>, p: Plan) {
    && InStep(st, p.token) && st.loop.running
    && Patient(answers)
    && st.h.read + Stream(answers) == p.wire
    && p.early <= st.h.read
    && (st.h.pulled <==> st.h.read != p.early)
  }

  /** What there is still to do: answers to take, bytes to hand out. */
  ghost function Work(st: Stack, answers: seq<SocketRead>, p: Plan): int {
    |answers| + |BuildAll(p.ms)| - |st.h.delivered|
  }

  // ---- nothing goes wrong ----------------------------------------------------------------

  lemma EndsMonotone(a: Buf, b: Buf)
    requires Ends(a)
    ensures Ends(a + b)
  {
    hide Decode, Ends;
    WsIncremental();
    RunSplit(WsNext, NOTHING, a, b);
    DrainEnds(NOTHING, a);
    DrainEnds(NOTHING, a + b);
  }

  /** As long as only bytes of the stream have been read, the connection is open and
      what it has delivered is a part of the messages. */
  lemma StaysSound(h: History, rest: Buf, p: Plan)
    requires Refines(h) && Sound(p) && h.read + rest == p.wire
    ensures !h.c.closed && h.delivered <= BuildAll(p.ms) && |h.delivered| + |h.c.app| <= |BuildAll(p.ms)|
  {
    hide Drain, Frames, Payloads, Answers, Ends, BuildAll;
    DeliveredIsPrefix(h);
    PayloadsMonotone(h.read, rest);
    DrainFromNothing(h.read);
    DrainEnds(NOTHING, h.read);
    if Ends(h.read) { EndsMonotone(h.read, rest); }
  }

  /** A part of the messages leaves the parser running. */
  lemma PartParses(p: Plan, part: Buf)
    requires Sound(p) && part <= BuildAll(p.ms)
    ensures !ParseFrom(Fresh(p.token), part).halted
  {
    hide ParseFrom, BuildAll, Opens;
    BuiltIsHandled(p.token, p.ms);
    SessIncremental();
    var rest := BuildAll(p.ms)[|part|..];
    assert part + rest == BuildAll(p.ms);
    ParseSplit(p.token, part, rest);
  }

  lemma ParseSplit(token: Buf, a: Buf, b: Buf)
    ensures ParseFrom(Fresh(token), a).halted ==> ParseFrom(Fresh(token), a + b).halted
  {
    SessIncremental();
    RunSplit(SessNext, Fresh(token), a, b);
  }

  // ---- one turn -----------------------------------------------------------------------------

  lemma PatientParts(answers: seq<SocketRead>)
    requires Patient(answers) && answers != []
    ensures Patient(answers[1..])
    ensures var ev := answers[0]; (ev.Data? && ev.bytes != []) || ev == Fail(Eintr) || ev == Fail(Eagain)
  {
  }

  /** Whatever has been read of the stream, the loop that has been running runs on. */
  lemma RunsOn(st: Stack, r: Round, rest: Buf, p: Plan)
    requires InStep(st, p.token) && st.loop.running && Gentle(r, st.loop.startMs) && Sound(p)
    requires Step(st, r).h.read + rest == p.wire
    ensures Step(st, r).loop.running
  {
    hide ParseFrom, Stream, Refines, Recv, BuildAll, Sound, Agrees, Ends, Gentle, Turn;
    GentleStep(st, r, p.token);
    StepInStep(st, r, p.token);
    var h := Step(st, r).h;
    StaysSound(h, rest, p);
    PartParses(p, h.delivered);
    if Ends(h.read) { EndsMonotone(h.read, rest); assert p.wire == h.read + rest; SoundIsOpen(p); }
  }

  lemma SoundIsOpen(p: Plan)
    requires Sound(p)
    ensures !Ends(p.wire)
  {
  }

  /** A turn that calls `recv`. */
  lemma ReceivingTurn(st: Stack, answers: seq<SocketRead>, t: Tick, p: Plan, cap: nat)
    requires OnCourse(st, answers, p) && Sound(p) && cap >= 1 && Untroubled(t, st.loop.startMs)
    requires answers != [] && t.polled.Readable?
    ensures var (next, left) := PollTurn(st, answers, t, cap);
            && OnCourse(next, left, p) && next.loop.startMs == st.loop.startMs
            && PollRun(next.h, left, cap) == PollRun(st.h, answers, cap)
            && Work(next, left, p) < Work(st, answers, p)
  {
    hide ParseFrom, Stream, Patient, Refines, Drain, BuildAll, Sound, Agrees, Turn;
    var r := Round(t, answers[0], cap);
    var (next, left) := PollTurn(st, answers, t, cap);
    PatientParts(answers);
    TakeOne(st.h.read, answers);
    StaysSound(st.h, Stream(answers), p);
    StepInStep(st, r, p.token);
    assert next.h == Call(st.h, answers[0], cap);
    if st.h.c.app != [] {
      PendingIsServed(st.h, answers[0], cap);
      assert |next.h.delivered| + |next.h.c.app| == |next.h.delivered + next.h.c.app| == |st.h.delivered + st.h.c.app|;
    } else {
      assert next.h.read == st.h.read + Brought(answers[0]);
      assert |next.h.delivered| >= |st.h.delivered|;
    }
    RunsOn(st, r, Stream(left), p);
  }

  /** A turn that does not call `recv`. */
  lemma IdleTurn(st: Stack, answers: seq<SocketRead>, t: Tick, p: Plan, cap: nat)
    requires OnCourse(st, answers, p) && Sound(p) && cap >= 1 && Untroubled(t, st.loop.startMs)
    requires answers == [] || !t.polled.Readable?
    ensures var (next, left) := PollTurn(st, answers, t, cap);
            OnCourse(next, left, p) && next.loop.startMs == st.loop.startMs && next.h == st.h && left == answers
  {
    hide ParseFrom, Stream, Patient, Refines, Drain, BuildAll, Sound, Agrees, Turn;
    var r := Round(Seen(t, answers), if answers == [] then Fail(Eagain) else answers[0], cap);
    if answers != [] { PatientParts(answers); }
    StepInStep(st, r, p.token);
    RunsOn(st, r, Stream(answers), p);
  }

  /** The session loop does not end, and the connection below it is that of the poll
      loop; with enough readable turns it takes every answer. */
  lemma {:induction false} PollStackRuns(st: Stack, answers: seq<SocketRead>, ts: seq<Tick>, p: Plan, cap: nat)
    requires OnCourse(st, answers, p) && Sound(p) && cap >= 1
    requires forall t :: t in ts ==> Untroubled(t, st.loop.startMs)
    ensures var (r, left) := PollStack(st, answers, ts, cap);
            && OnCourse(r, left, p) && PollRun(r.h, left, cap) == PollRun(st.h, answers, cap)
            && (answers == [] || Readables(ts) >= Work(st, answers, p) ==> left == [])
    decreases |ts|
  {
    hide Sound, PollTurn, PollRun, OnCourse, Untroubled, BuildAll;
    if ts == [] {
      if answers != [] { WorkLeft(st, answers, p); }
    } else {
      var t := ts[0];
      assert t in ts;
      var (next, left) := PollTurn(st, answers, t, cap);
      if answers != [] && t.polled.Readable? {
        ReceivingTurn(st, answers, t, p, cap);
      } else {
        IdleTurn(st, answers, t, p, cap);
      }
      PollStackRuns(next, left, ts[1..], p, cap);
    }
  }

  lemma WorkLeft(st: Stack, answers: seq<SocketRead>, p: Plan)
    requires OnCourse(st, answers, p) && Sound(p) && answers != []
    ensures Work(st, answers, p) > 0
  {
    hide Sound, Agrees, Refines, Stream, BuildAll;
    StaysSound(st.h, Stream(answers), p);
  }

  // ---- what part of the messages is handled -----------------------------------------------------

  /** A session that has been given a part of the messages has handled those that are whole in it. */
  lemma HandledIs(p: Plan, part: Buf)
    requires Sound(p) && part <= BuildAll(p.ms)
    ensures ParseFrom(Fresh(p.token), part).s.handled == Messages(part, TERMINAL_CAP)
  {
    hide ParseFrom, BuildAll, Opens, Messages, After;
    PartParses(p, part);
    assert [] + Messages(part, TERMINAL_CAP) == Messages(part, TERMINAL_CAP);
    if p.token == [] { OpenGate(Fresh(p.token), part); } else { ClosedGate(Fresh(p.token), part); }
  }

  /** It has handled all of them exactly when it has been given all. */
  lemma AllHandledIff(p: Plan, part: Buf)
    requires Sound(p) && part <= BuildAll(p.ms)
    ensures Messages(part, TERMINAL_CAP) == p.ms <==> part == BuildAll(p.ms)
  {
    hide ParseFrom, BuildAll, Opens, Messages, After;
    MessagesFit(part, TERMINAL_CAP);
    MessagesBuilt(p.ms, TERMINAL_CAP);
    if |BuildAll(p.ms)| <= |part| { assert part == BuildAll(p.ms); }
  }

  // ---- the theorem ----------------------------------------------------------------------------

  lemma AtTheStart(begin: Loop, p: Plan, answers: seq<SocketRead>)
    requires Patient(answers) && p.early + Stream(answers) == p.wire
    requires begin == Begin(p.token, begin.startMs, begin.interval)
    ensures OnCourse(Start(begin, p.early), answers, p)
    ensures Work(Start(begin, p.early), answers, p) == |answers| + |BuildAll(p.ms)|
  {
    hide Refines, Agrees, Stream, Patient;
    StartInStep(p.token, begin.startMs, begin.interval, p.early);
  }

  lemma BringsIff(answers: seq<SocketRead>)
    requires Patient(answers)
    ensures Brings(answers) <==> Stream(answers) != []
  {
    if answers != [] {
      hide Stream, Patient;
      PatientParts(answers);
      TakeOne([], answers);
      BringsIff(answers[1..]);
      assert [] + Stream(answers) == Stream(answers);
    }
  }

  /** When the last answer has been taken in. */
  lemma AtTheEnd(st: Stack, p: Plan)
    requires OnCourse(st, [], p) && Sound(p)
    ensures st.h.read == p.wire && (st.h.pulled <==> p.wire != p.early)
    ensures HandledIn(st.loop.log) == ParseFrom(Fresh(p.token), st.h.delivered).s.handled
    ensures st.h.delivered <= BuildAll(p.ms)
    ensures st.h.sent == (if st.h.pulled then Answers(Frames(p.wire)) else [])
    ensures !st.h.pulled ==> st.h.delivered == []
  {
    hide Drain, ParseFrom, Frames, Payloads, Answers, BuildAll, Opens, Ends, HandledIn;
    assert Stream([]) == [] && st.h.read + [] == st.h.read;
    DrainFromNothing(st.h.read);
    StaysSound(st.h, [], p);
  }

  /** What has been looked at before the last answer of the socket. */
  function Heard(up: Upgrade): Buf
    requires Reads(up.left) != []
  {
    BeforeLast(Opened(up.early), Reads(up.left))
  }

  /** How much of what the client's frames carry reaches the session before the client
      falls silent: nothing when all frames came in the reads that brought the request;
      otherwise everything carried before the last read, and one buffer more. */
  function Reach(up: Upgrade, cap: nat): nat {
    if Stream(up.left) == [] || Reads(up.left) == [] then 0 else |Carried(Heard(up))| + cap
  }

  /** What has become of the session once every answer has been taken. */
  lemma SessionReaches(up: Upgrade, begin: Loop, ts: seq<Tick>, p: Plan, cap: nat)
    requires Sound(p) && cap >= 1 && p.early == up.early && Patient(up.left)
    requires up.early + Stream(up.left) == p.wire && begin == Begin(p.token, begin.startMs, begin.interval)
    requires forall t :: t in ts ==> Untroubled(t, begin.startMs)
    requires Readables(ts) >= |Reads(up.left)| + |BuildAll(p.ms)|
    ensures var st, all := PollStack(Start(begin, up.early), Reads(up.left), ts, cap).0, BuildAll(p.ms);
            && st.loop.running && st.h.read == p.wire
            && st.h.delivered == all[..Min(|all|, Reach(up, cap))]
            && HandledIn(st.loop.log) == ParseFrom(Fresh(p.token), st.h.delivered).s.handled
            && st.h.sent == (if Stream(up.left) != [] then Answers(Frames(p.wire)) else [])
  {
    hide Stream, Patient, Frames, Payloads, Answers, BuildAll, PollStack, ParseFrom, BeforeLast, Brings, Ends, HandledIn,
         Untroubled, Readables, InStep, Work;
    var answers, st0 := Reads(up.left), Start(begin, up.early);
    ReadsKeepStream(up.left);
    BringsIff(answers);
    AtTheStart(begin, p, answers);
    PollStackRuns(st0, answers, ts, p, cap);
    var st := PollStack(st0, answers, ts, cap).0;
    AtTheEnd(st, p);
    assert st.h == PollRun(st.h, [], cap) == PollRun(st0.h, answers, cap);
    if Stream(up.left) != [] {
      assert answers != [] by { NothingBrought(); }
      hide PollRun;
      StallsIff(up.early, answers, cap);
      assert p.wire != p.early;
    } else {
      assert p.wire == up.early;
    }
  }

  /** A whole connection. A client sends an upgrade request with a key and after it the
      fragments of its messages, pings, pongs and reserved frames in between; the network
      cuts the bytes anywhere, inside the request too, reads are interrupted or find
      nothing, frames are sent in between, and then the client falls silent while the
      session loop goes on. The upgrade is accepted; the loop has not ended; it has
      handled, in order and once each, exactly the messages that are whole in the part of
      the stream that reached it. So it has handled all of them if and only if that part
      is all: not when every frame came with the request, and not when the last read
      completed more than one buffer holds. Every ping has been answered, unless every
      frame came with the request. */
  lemma FromTheFirstByte(token: Buf, startMs: nat, interval: nat, first: seq<SocketRead>, later: seq<SocketRead>,
                         request: Buf, xs: seq<Masking>, ms: seq<Msg>, ts: seq<Tick>, cap: nat)
    requires Undisturbed(first) && Patient(later) && Carries(xs, ms, token) && cap >= 1
    requires Stream(first) + Stream(later) == request + WireAll(xs) && |request| <= |Stream(first)|
    requires HeadersEnd(request) == Some(|request|) && |request| <= 16385
    requires HeaderValue(HeaderBlock(request), KEY_HEADER) != []
    requires forall t :: t in ts ==> Untroubled(t, startMs)
    ensures UpgradeOf(first + later).Some?
    ensures var up := UpgradeOf(first + later).value;
            Readables(ts) >= |Reads(up.left)| + |BuildAll(ms)| ==>
              var st := PollStack(Start(Begin(token, startMs, interval), up.early), Reads(up.left), ts, cap).0;
              var all := BuildAll(ms);
              && st.loop.running && st.h.read == WireAll(xs)
              && HandledIn(st.loop.log) == Messages(all[..Min(|all|, Reach(up, cap))], TERMINAL_CAP)
              && (HandledIn(st.loop.log) == ms <==> |all| <= Reach(up, cap))
              && st.h.sent == (if Stream(up.left) != [] then PongsDue(xs) else [])
  {
    hide UpgradeOf, Stream, HeaderValue, WireAll, Undisturbed, Patient, Frames, Ends, Payloads, BuildAll, PollStack,
         Flatten, LegalTraffic, Plain, Answers, Opens, HeadersEnd, HeaderBlock, Reach, Messages, ParseFrom, Reads,
         HandledIn, Fragments, PongsDue, Untroubled, Readables;
    UpgradeSplitsStream(first, later, request, WireAll(xs));
    var up := UpgradeOf(first + later).value;
    var p, all := Plan(token, up.early, WireAll(xs), ms), BuildAll(ms);
    TrafficCarries(xs);
    assert Sound(p);
    if Readables(ts) >= |Reads(up.left)| + |BuildAll(ms)| {
      SessionReaches(up, Begin(token, startMs, interval), ts, p, cap);
      var part := all[..Min(|all|, Reach(up, cap))];
      HandledIs(p, part);
      AllHandledIff(p, part);
      assert part == all <==> |all| <= Reach(up, cap);
    }
  }
}
