/** A connection under a loop that asks for bytes only when `poll` reports the socket
    readable: what such a loop leaves behind when the peer falls silent. */
module PollDriven {
  import opened Bytes
  import opened WebSocketProto
  import opened Streaming
  import opened WebSocketStream
  import opened Handshake

  /** The socket answers some reads and is then never readable again. As long as an
      answer is left the socket is readable, and each time `recv` is called once, for at
      most `cap` bytes; the loop ends when `recv` reports the end. */
  ghost function PollRun(h: History, answers: seq<SocketRead>, cap: nat): History
    requires cap >= 1
    decreases |answers|, |h.c.app|
  {
    if answers == [] then h
    else
      var next := Call(h, answers[0], cap);
      if h.c.app != [] then
        PendingIsServed(h, answers[0], cap);
        PollRun(next, answers, cap)
      else if h.c.closed then h
      else PollRun(next, answers[1..], cap)
  }

  /** What a stream carries. */
  function Carried(buf: Buf): Buf { Payloads(Frames(buf)) }

  function Min(a: nat, b: nat): nat { if a < b then a else b }

  /** After a close or a violation nothing more is carried. */
  lemma NothingAfterEnd(a: Buf, b: Buf)
    requires Ends(a)
    ensures Carried(a + b) == Carried(a)
  {
    hide Decode, Frames, Payloads, Answers, Ends;
    WsIncremental();
    RunSplit(WsNext, NOTHING, a, b);
    DrainEnds(NOTHING, a);
    DrainFromNothing(a);
    DrainFromNothing(a + b);
  }

  lemma NothingCarried()
    ensures Carried([]) == []
  {
    NoBytes();
  }

  /** One call that asks: of all that has been carried and not delivered, `cap` bytes at most. */
  lemma AskDelivers(h: History, bytes: Buf, cap: nat)
    requires Refines(h) && AsksSocket(h.c) && cap >= 1
    ensures var h', all := Call(h, Data(bytes), cap), Carried(h.read + bytes);
            && Refines(h') && h'.pulled && h'.read == h.read + bytes
            && h'.delivered == all[..Min(|all|, |h.delivered| + cap)]
  {
    hide Drain, Frames, Payloads, Answers;
    CallRefines(h, Data(bytes), cap);
    var h', all := Call(h, Data(bytes), cap), Carried(h.read + bytes);
    DrainFromNothing(h.read + bytes);
    assert h'.delivered + h'.c.app == all;
    var (d, sent) := Absorb(h.c, bytes);
    if d.app == [] { assert h'.c.app == []; }
    assert |h'.delivered| == Min(|all|, |h.delivered| + cap);
    assert h'.delivered == (h'.delivered + h'.c.app)[..|h'.delivered|];
  }

  /** Some answer brings bytes. */
  predicate Brings(answers: seq<SocketRead>) { exists i :: 0 <= i < |answers| && answers[i].Data? }

  /** Everything looked at before the last answer; nothing if no answer before it brings bytes. */
  function BeforeLast(h: History, answers: seq<SocketRead>): Buf
    requires answers != []
  {
    var front := answers[..|answers| - 1];
    if h.pulled || Brings(front) then h.read + Stream(front) else []
  }

  /** The bytes of one answer. */
  function Brought(ev: SocketRead): Buf { if ev.Data? then ev.bytes else [] }

  lemma TakeOne(read: Buf, answers: seq<SocketRead>)
    requires answers != []
    ensures read + Stream(answers) == (read + Brought(answers[0])) + Stream(answers[1..])
    ensures Brings(answers) <==> answers[0].Data? || Brings(answers[1..])
  {
    var first, rest := Brought(answers[0]), Stream(answers[1..]);
    assert Stream(answers) == first + rest;
    assert answers[0].Data? || Brings(answers[1..]) ==> Brings(answers) by {
      if Brings(answers[1..]) {
        var i :| 0 <= i < |answers[1..]| && answers[1..][i].Data?;
        assert answers[i + 1].Data?;
      }
    }
    assert forall i :: 0 < i < |answers| ==> answers[i] == answers[1..][i - 1];
    hide Stream;
    assert read + (first + rest) == (read + first) + rest;
  }

  lemma BeforeLastOfRest(h: History, next: History, answers: seq<SocketRead>)
    requires |answers| >= 2 && next.read == h.read + Brought(answers[0])
    requires next.pulled == (h.pulled || answers[0].Data?)
    ensures BeforeLast(next, answers[1..]) == BeforeLast(h, answers)
  {
    hide Stream, Brings;
    assert answers[1..][..|answers| - 2] == answers[..|answers| - 1][1..];
    TakeOne(h.read, answers[..|answers| - 1]);
  }

  /** A call that finds nothing changes nothing. */
  lemma AskInVain(h: History, ev: SocketRead, cap: nat)
    requires AsksSocket(h.c) && ev.Fail?
    ensures Call(h, ev, cap) == h
  {
    assert h.delivered + [] == h.delivered && h.sent + [] == h.sent;
  }

  /** A loop about to ask when only one answer is left. */
  lemma LastAsk(h: History, ev: SocketRead, cap: nat)
    requires Refines(h) && AsksSocket(h.c) && Patient([ev]) && cap >= 1 && (h.pulled || ev.Data?)
    ensures var all := Carried(h.read + Stream([ev]));
            PollRun(h, [ev], cap).delivered == all[..Min(|all|, |Carried(BeforeLast(h, [ev]))| + cap)]
  {
    hide Drain, Frames, Payloads, Answers, Call, Ends, Refines, Patient;
    assert [ev][..0] == [] && [ev][1..] == [];
    assert !Brings([]);
    assert Stream([]) == [] && Stream([ev]) == Brought(ev) + [] == Brought(ev);
    assert h.read + [] == h.read;
    if h.pulled { WholeWhenServed(h); } else { NothingBeforeRead(h); }
    NothingCarried();
    assert PollRun(h, [ev], cap) == Call(h, ev, cap);
    if ev.Data? { AskDelivers(h, ev.bytes, cap); } else { PatientOne(ev); AskInVain(h, ev, cap); }
  }

  lemma PatientOne(ev: SocketRead)
    requires Patient([ev])
    ensures ev.Data? || ev.Fail?
  {
    assert [ev][0] == ev;
  }

  lemma WholeWhenServed(h: History)
    requires Refines(h) && h.pulled && h.c.app == []
    ensures h.delivered == Carried(h.read)
  {
    hide Drain, Frames, Payloads, Answers;
    DrainFromNothing(h.read);
    assert h.delivered == h.delivered + h.c.app;
  }

  lemma NothingBeforeRead(h: History)
    requires Refines(h) && !h.pulled
    ensures h.delivered == [] && h.sent == [] && h.c.app == [] && !h.c.closed
  {
  }

  lemma ClosedDelivers(h: History, answers: seq<SocketRead>, cap: nat)
    requires Refines(h) && h.c.app == [] && h.c.closed && answers != []
    ensures var all := Carried(h.read + Stream(answers));
            h.delivered == all[..Min(|all|, |Carried(BeforeLast(h, answers))| + cap)]
  {
    hide Drain, Frames, Payloads, Answers, Ends, Stream;
    assert h.pulled;
    WholeWhenServed(h);
    DrainEnds(NOTHING, h.read);
    NothingAfterEnd(h.read, Stream(answers));
    NothingAfterEnd(h.read, Stream(answers[..|answers| - 1]));
    var all := Carried(h.read + Stream(answers));
    assert all[..|all|] == all;
  }

  lemma {:induction false} PollRunDelivers(h: History, answers: seq<SocketRead>, cap: nat)
    requires Refines(h) && Patient(answers) && answers != [] && cap >= 1
    requires h.pulled || Brings(answers)
    ensures var all := Carried(h.read + Stream(answers));
            PollRun(h, answers, cap).delivered == all[..Min(|all|, |Carried(BeforeLast(h, answers))| + cap)]
    decreases |answers|, |h.c.app|
  {
    hide Call, Refines, Carried, Stream, BeforeLast, Brings;
    var next := Call(h, answers[0], cap);
    TakeOne(h.read, answers);
    if h.c.app != [] {
      CallRefines(h, answers[0], cap);
      PendingIsServed(h, answers[0], cap);
      assert h.pulled by { if !h.pulled { NothingBeforeRead(h); } }
      assert BeforeLast(next, answers) == BeforeLast(h, answers) by { SameBefore(h, next, answers); }
      PollRunDelivers(next, answers, cap);
    } else if h.c.closed {
      ClosedDelivers(h, answers, cap);
    } else if |answers| == 1 {
      assert answers == [answers[0]] && answers[1..] == [];
      NothingBrought();
      LastAsk(h, answers[0], cap);
    } else {
      if answers[0].Data? { AskDelivers(h, answers[0].bytes, cap); } else { AskInVain(h, answers[0], cap); }
      assert h.read + [] == h.read;
      BeforeLastOfRest(h, next, answers);
      PollRunDelivers(next, answers[1..], cap);
    }
  }

  lemma NothingBrought()
    ensures !Brings([])
  {
  }

  lemma SameBefore(h: History, next: History, answers: seq<SocketRead>)
    requires answers != [] && next.read == h.read && next.pulled == h.pulled
    ensures BeforeLast(next, answers) == BeforeLast(h, answers)
  {
  }

  /** What a poll loop delivers when the peer falls silent, exactly: everything carried
      before the last answer of the socket, and `cap` bytes at most of what that answer
      completed. The rest stays in the connection, where `poll` cannot see it. So
      everything has been delivered if and only if the last answer completed no more
      than one call hands out. */
  lemma StallsIff(early: Buf, answers: seq<SocketRead>, cap: nat)
    requires Patient(answers) && Brings(answers) && cap >= 1
    ensures var all, before := Carried(early + Stream(answers)), Carried(BeforeLast(Opened(early), answers));
            var delivered := PollRun(Opened(early), answers, cap).delivered;
            && delivered == all[..Min(|all|, |before| + cap)]
            && (delivered == all <==> |all| <= |before| + cap)
  {
    hide Carried, Stream;
    PollRunDelivers(Opened(early), answers, cap);
  }

  /** Part of a frame carries nothing. */
  lemma PartCarriesNothing(f: Frame, key: Buf, part: Buf)
    requires LegalClientFrame(f, key) && part < ClientEncoded(f, key)
    ensures Carried(part) == []
  {
    hide ClientEncoded, Decode, LegalClientFrame;
    var bytes := ClientEncoded(f, key);
    ClientFrameRoundTrip(f, key, []);
    assert bytes + [] == bytes && bytes[..|part|] == part;
    DecodePrefixFree(bytes, |part|, MAX_PAYLOAD, true);
  }

  /** It happens for every frame that carries more than one call hands out, however it
      is cut, when its last byte is the last thing the socket brings: the end of it is
      not delivered until the client sends something else. */
  lemma LongFrameStalls(f: Frame, key: Buf, answers: seq<SocketRead>, cap: nat)
    requires LegalClientFrame(f, key) && IsData(f.opcode) && |f.payload| > cap >= 1
    requires Patient(answers) && answers != [] && answers[|answers| - 1].Data?
    requires Stream(answers) == ClientEncoded(f, key)
    ensures PollRun(Opened([]), answers, cap).delivered == f.payload[..cap]
  {
    hide ClientEncoded, Frames, Decode, LegalClientFrame, Stream;
    var bytes, front := ClientEncoded(f, key), answers[..|answers| - 1];
    LastBrings(answers);
    OneFrame(f, key, []);
    NoBytes();
    assert bytes + [] == bytes && [] + bytes == bytes && [] + Stream(front) == Stream(front);
    assert Payloads([f] + []) == f.payload by { assert ([f] + [])[1..] == []; assert Payloads([]) == []; }
    NothingCarried();
    PartCarriesNothing(f, key, Stream(front));
    StallsIff([], answers, cap);
  }

  lemma LastBrings(answers: seq<SocketRead>)
    requires Patient(answers) && answers != [] && answers[|answers| - 1].Data?
    ensures Brings(answers) && Stream(answers[..|answers| - 1]) < Stream(answers)
  {
    hide Stream;
    var front, last := answers[..|answers| - 1], answers[|answers| - 1];
    assert answers == front + [last];
    StreamAppend(front, [last]);
    StreamCons(last, []);
    assert [last] + [] == [last];
    assert |Stream([last])| > 0;
  }

  // ---- what recv reports ------------------------------------------------------------------

  /** Everything that has been looked at has been handed out. */
  predicate AllHandedOut(h: History) { h.pulled ==> h.delivered == Carried(h.read) }

  /** The end is reported exactly when nothing is left to hand out and either a close or a
      violation has been read before, or the socket ends, or what it brings ends the stream
      without carrying anything new. */
  lemma EndReportedIff(h: History, ev: SocketRead, cap: nat)
    requires Refines(h) && cap >= 1
    ensures Recv(h.c, ev, cap).1.End? <==>
            && AllHandedOut(h)
            && (|| (h.pulled && Ends(h.read))
                || ev.Eof?
                || (ev.Data? && Ends(h.read + ev.bytes) && Carried(h.read + ev.bytes) == h.delivered))
  {
    hide Drain, Frames, Payloads, Answers, Ends;
    HandedOutIff(h);
    DrainEnds(NOTHING, h.read);
    if AsksSocket(h.c) && ev.Data? { Afterwards(h, ev.bytes); }
    if h.c.app == [] && h.c.closed { assert Recv(h.c, ev, cap).1.End?; }
  }

  /** An error is reported exactly when nothing is left to hand out, nothing has ended, and
      the socket reports that error, or brings bytes that carry nothing new yet. */
  lemma ErrorReportedIff(h: History, ev: SocketRead, cap: nat, e: Errno)
    requires Refines(h) && cap >= 1
    ensures Recv(h.c, ev, cap).1 == Err(e) <==>
            && AllHandedOut(h) && !(h.pulled && Ends(h.read))
            && (|| ev == Fail(e)
                || (ev.Data? && e == Eagain && !Ends(h.read + ev.bytes) && Carried(h.read + ev.bytes) == h.delivered))
  {
    hide Drain, Frames, Payloads, Answers, Ends;
    HandedOutIff(h);
    DrainEnds(NOTHING, h.read);
    if AsksSocket(h.c) && ev.Data? { Afterwards(h, ev.bytes); }
  }

  lemma HandedOutIff(h: History)
    requires Refines(h)
    ensures AllHandedOut(h) <==> h.c.app == []
    ensures h.c.closed <==> h.pulled && Ends(h.read)
  {
    hide Drain, Frames, Payloads, Answers, Ends;
    DrainFromNothing(h.read);
    DrainEnds(NOTHING, h.read);
    if h.pulled {
      assert |h.delivered + h.c.app| == |h.delivered| + |h.c.app|;
      if h.c.app == [] { assert h.delivered + h.c.app == h.delivered; }
    }
  }

  /** After bytes have been read and drained. */
  lemma Afterwards(h: History, bytes: Buf)
    requires Refines(h) && AsksSocket(h.c)
    ensures var d := Absorb(h.c, bytes).0;
            && (d.app == [] <==> Carried(h.read + bytes) == h.delivered)
            && (d.closed <==> Ends(h.read + bytes))
  {
    hide Drain, Frames, Payloads, Answers, Ends;
    var (d, sent) := Absorb(h.c, bytes);
    AbsorbRefines(h, bytes);
    DrainFromNothing(h.read + bytes);
    DrainEnds(NOTHING, h.read + bytes);
    assert |h.delivered + d.app| == |h.delivered| + |d.app|;
    if d.app == [] { assert h.delivered + d.app == h.delivered; }
  }
}
