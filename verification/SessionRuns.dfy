/** What whole runs of the session loop do with the client's messages, however the
    bytes of the messages are cut into reads. */
module SessionRuns {
  import opened Bytes
  import opened Wrappers
  import opened Protocol
  import opened Sec1
  import opened Streaming
  import opened SessionStream
  import opened SessionLoop
  import opened WebSocketStream

  /** The messages handled, in order. */
  function HandledIn(log: seq<Event>): seq<Msg> {
    if log == [] then []
    else
      var e := log[|log| - 1];
      HandledIn(log[..|log| - 1]) + (if e.Handled? then [e.m] else [])
  }

  lemma {:induction false} HandledAppend(a: seq<Event>, b: seq<Event>)
    ensures HandledIn(a + b) == HandledIn(a) + HandledIn(b)
    decreases |b|
  {
    if b == [] {
      assert a + b == a;
    } else {
      var front, e := b[..|b| - 1], b[|b| - 1];
      assert (a + b)[..|a + b| - 1] == a + front;
      HandledAppend(a, front);
    }
  }

  lemma {:induction false} NoneHandled(es: seq<Event>)
    requires forall e :: e in es ==> !e.Handled?
    ensures HandledIn(es) == []
    decreases |es|
  {
    if es != [] {
      assert es[|es| - 1] in es;
      NoneHandled(es[..|es| - 1]);
    }
  }

  lemma OneHandled(m: Msg, picture: bool)
    ensures HandledIn(Happened(m, picture)) == [m]
  {
    hide EffectsOf, HandledIn;
    var es := EffectsOf(m, picture);
    var did := seq(|es|, i requires 0 <= i < |es| => Did(es[i]));
    NoneHandled(did);
    HandledAppend([Handled(m)], did);
    JustOne(m);
  }

  lemma JustOne(m: Msg)
    ensures HandledIn([Handled(m)]) == [m]
  {
    assert [Handled(m)][..0] == [];
  }

  lemma {:induction false} HandledInAll(ms: seq<Msg>, pictures: nat -> bool)
    ensures HandledIn(HappenedAll(ms, pictures)) == ms
    decreases |ms|
  {
    hide Happened;
    if ms != [] {
      var front, m := ms[..|ms| - 1], ms[|ms| - 1];
      HandledInAll(front, pictures);
      OneHandled(m, pictures(|front|));
      hide HandledIn;
      HandledAppend(HappenedAll(front, pictures), Happened(m, pictures(|front|)));
      assert front + [m] == ms;
    }
  }

  // ---- the loop and the parser, side by side ----------------------------------------------

  /** What has been handled before makes no difference to the parser. */
  lemma {:induction false} ParseShift(token: Buf, authed: bool, before: seq<Msg>, buf: Buf)
    ensures var o, z := ParseFrom(Sess(token, authed, before), buf), ParseFrom(Sess(token, authed, []), buf);
            && o.s == Sess(token, z.s.authed, before + z.s.handled) && z.s.token == token
            && o.rest == z.rest && o.halted == z.halted
    decreases |buf|
  {
    hide FrontOf, Messages, After, ParseFrom, Opens;
    ParseOne(Sess(token, authed, before), buf);
    ParseOne(Sess(token, authed, []), buf);
    assert before + [] == before;
    var f := FrontOf(buf, TERMINAL_CAP);
    if f.Whole? && (authed || Opens(token, f.m)) {
      var later := ParseFrom(Sess(token, true, []), buf[f.used..]).s.handled;
      ParseShift(token, true, before + [f.m], buf[f.used..]);
      ParseShift(token, true, [] + [f.m], buf[f.used..]);
      assert (before + [f.m]) + later == before + (([] + [f.m]) + later);
    }
  }

  /** The loop has handled what the parser makes of all bytes taken in; as long as it
      runs the parser has not stopped, and the gate and the bytes kept are the parser's. */
  ghost predicate Agrees(s: Loop, token: Buf, whole: Buf) {
    var o := ParseFrom(Fresh(token), whole);
    && s.token == token
    && HandledIn(s.log) == o.s.handled
    && (s.running ==> !o.halted && s.authed == o.s.authed && s.rx == o.rest)
  }

  /** The turn gets as far as `readAndDispatch`. */
  predicate Receives(s: Loop, t: Tick) {
    s.running && !t.stop && (s.authed || t.authMs <= s.startMs + 5000) && t.polled.Readable?
  }

  /** The bytes a turn takes in. */
  function TakenIn(s: Loop, t: Tick): Buf {
    if Receives(s, t) && t.polled.got.Got? then t.polled.got.bytes else []
  }

  lemma PushAgrees(s: Loop, t: Tick, token: Buf, whole: Buf)
    requires Agrees(s, token, whole)
    ensures Agrees(PushFrame(s, t), token, whole)
    ensures s.running && t.sendOk ==> PushFrame(s, t).running
  {
    hide ParseFrom, HandledIn;
    HandledAppend(s.log, [Attempt(t.frameMs)]);
    NoneHandled([Attempt(t.frameMs)]);
    assert HandledIn(s.log) + [] == HandledIn(s.log);
    if IsNew(s, t.hub) {
      HandledAppend(s.log + [Attempt(t.frameMs)], [Pushed(t.hub.value)]);
      NoneHandled([Pushed(t.hub.value)]);
    }
  }

  /** Taking in more bytes. */
  lemma ReadAgrees(s: Loop, bytes: Buf, pictures: nat -> bool, token: Buf, whole: Buf)
    requires Agrees(s, token, whole) && s.running && bytes != []
    ensures Agrees(Read(s, Got(bytes), pictures), token, whole + bytes)
    ensures Read(s, Got(bytes), pictures).running <==> !ParseFrom(Fresh(token), whole + bytes).halted
  {
    hide ParseFrom, HandledIn, HappenedAll;
    var o := ParseFrom(Fresh(token), whole);
    assert o.s.token == token by { ParseShift(token, token == [], [], whole); }
    ParseOn(token, whole, bytes);
    ParseShift(token, s.authed, o.s.handled, s.rx + bytes);
    var more := ParseFrom(Sess(token, s.authed, []), s.rx + bytes).s.handled;
    HandledAppend(s.log, HappenedAll(more, pictures));
    HandledInAll(more, pictures);
  }

  lemma ParseOn(token: Buf, whole: Buf, more: Buf)
    ensures var o := ParseFrom(Fresh(token), whole);
            && (!o.halted ==> ParseFrom(o.s, o.rest + more) == ParseFrom(Fresh(token), whole + more))
            && (o.halted ==>
                  ParseFrom(Fresh(token), whole + more).s == o.s && ParseFrom(Fresh(token), whole + more).halted)
  {
    SessIncremental();
    RunSplit(SessNext, Fresh(token), whole, more);
  }

  /** Every turn keeps the loop in step with the parser of the bytes taken in. */
  lemma TurnAgrees(s: Loop, t: Tick, token: Buf, whole: Buf)
    requires Agrees(s, token, whole)
    ensures Agrees(Turn(s, t), token, whole + TakenIn(s, t))
    ensures Turn(s, t).startMs == s.startMs
  {
    hide ParseFrom, HandledIn, PushFrame, Agrees, Read;
    assert whole + [] == whole;
    Quieter(s, token, whole);
    PushAgrees(s, t, token, whole);
    PushKeepsStart(s, t);
    if Receives(s, t) {
      var got, pictures := t.polled.got, t.polled.pictures;
      var r := Read(s, got, pictures);
      ReadKeeps(s, got, pictures);
      if got.Got? && got.bytes != [] {
        ReadAgrees(s, got.bytes, pictures, token, whole);
      } else {
        ReadNothing(s, got, pictures);
      }
      PushAgrees(r, t, token, whole + TakenIn(s, t));
      PushKeepsStart(r, t);
    }
  }

  lemma Quieter(s: Loop, token: Buf, whole: Buf)
    requires Agrees(s, token, whole)
    ensures Agrees(s.(running := false), token, whole)
  {
  }

  lemma PushKeepsStart(s: Loop, t: Tick)
    ensures PushFrame(s, t).startMs == s.startMs && PushFrame(s, t).token == s.token
  {
  }

  lemma ReadNothing(s: Loop, got: Received, pictures: nat -> bool)
    requires s.running && !(got.Got? && got.bytes != [])
    ensures Read(s, got, pictures) == if got.Err? && got.errno != OtherErrno then s else s.(running := false)
  {
  }

  lemma BeginAgrees(token: Buf, startMs: nat, interval: nat)
    ensures Agrees(Begin(token, startMs, interval), token, [])
  {
    SessIncremental();
    NothingYet();
  }

  // ---- undisturbed runs ---------------------------------------------------------------------

  /** A turn in which nothing is wrong but perhaps the messages: no request to stop, no
      time-out, no failure of the poll, and a socket that takes frames and has not ended.
      (The clock of the time-out is read only as long as the gate is closed.) */
  predicate Calm(t: Tick, startMs: nat) {
    && !t.stop && t.authMs <= startMs + 5000 && t.sendOk
    && match t.polled
       case PollFailed(interrupted) => interrupted
       case Quiet => true
       case HungUp => false
       case Readable(got, _) =>
         match got
         case Got(bytes) => bytes != []
         case Err(e) => e != OtherErrno
         case End => false
  }

  /** The pieces that the reads of some turns bring. */
  function PiecesOf(ts: seq<Tick>): seq<Buf> {
    if ts == [] then []
    else
      var p := ts[0].polled;
      (if p.Readable? && p.got.Got? then [p.got.bytes] else []) + PiecesOf(ts[1..])
  }

  lemma CalmTurn(s: Loop, t: Tick, token: Buf, whole: Buf)
    requires Agrees(s, token, whole) && Calm(t, s.startMs)
    requires s.running <==> !ParseFrom(Fresh(token), whole).halted
    ensures var whole' := whole + Flatten(PiecesOf([t]));
            Agrees(Turn(s, t), token, whole') && (Turn(s, t).running <==> !ParseFrom(Fresh(token), whole').halted)
  {
    hide ParseFrom, HandledIn, PushFrame, Read;
    var taken := Flatten(PiecesOf([t]));
    OnePiece(t);
    assert whole + [] == whole;
    if s.running {
      TurnAgrees(s, t, token, whole);
      PushAgrees(s, t, token, whole);
      if t.polled.Readable? {
        var got, pictures := t.polled.got, t.polled.pictures;
        if got.Got? { ReadAgrees(s, got.bytes, pictures, token, whole); } else { ReadNothing(s, got, pictures); }
        PushAgrees(Read(s, got, pictures), t, token, whole + taken);
      }
    } else {
      ParseOn(token, whole, taken);
    }
  }

  lemma OnePiece(t: Tick)
    ensures Flatten(PiecesOf([t])) == if t.polled.Readable? && t.polled.got.Got? then t.polled.got.bytes else []
  {
    assert [t][1..] == [];
    assert PiecesOf([]) == [];
    if t.polled.Readable? && t.polled.got.Got? {
      var b := t.polled.got.bytes;
      assert PiecesOf([t]) == [b] && [b][1..] == [] && b + [] == b;
    }
  }

  lemma PiecesCons(ts: seq<Tick>)
    requires ts != []
    ensures Flatten(PiecesOf(ts)) == Flatten(PiecesOf([ts[0]])) + Flatten(PiecesOf(ts[1..]))
  {
    OnePiece(ts[0]);
    var rest := PiecesOf(ts[1..]);
    if ts[0].polled.Readable? && ts[0].polled.got.Got? {
      assert ([ts[0].polled.got.bytes] + rest)[1..] == rest;
    } else {
      assert [] + rest == rest && [] + Flatten(rest) == Flatten(rest);
    }
  }

  lemma {:induction false} CalmTurns(s: Loop, ts: seq<Tick>, token: Buf, whole: Buf)
    requires Agrees(s, token, whole) && forall t :: t in ts ==> Calm(t, s.startMs)
    requires s.running <==> !ParseFrom(Fresh(token), whole).halted
    ensures var all := whole + Flatten(PiecesOf(ts));
            Agrees(Turns(s, ts), token, all) && (Turns(s, ts).running <==> !ParseFrom(Fresh(token), all).halted)
    decreases |ts|
  {
    hide ParseFrom, Turn, Agrees, Calm, PiecesOf, Flatten;
    if ts == [] {
      assert Flatten(PiecesOf([])) == [] by { NoPieces(); }
      assert whole + [] == whole;
    } else {
      assert ts[0] in ts;
      var taken, rest := Flatten(PiecesOf([ts[0]])), Flatten(PiecesOf(ts[1..]));
      PiecesCons(ts);
      assert (whole + taken) + rest == whole + (taken + rest);
      TurnAgrees(s, ts[0], token, whole);
      CalmTurn(s, ts[0], token, whole);
      CalmTurns(Turn(s, ts[0]), ts[1..], token, whole + taken);
    }
  }

  lemma NoPieces()
    ensures Flatten(PiecesOf([])) == []
  {
  }

  /** The session loop over whole runs in which nothing goes wrong but perhaps the
      messages, frames being sent in between: what it has handled is the client's
      messages as they stand in all the bytes read, behind the gate, however the reads
      cut them; and it has ended exactly when the bytes that follow the whole messages
      must be refused, or the first message does not open the gate. */
  lemma HandlesAnyCut(token: Buf, startMs: nat, interval: nat, ts: seq<Tick>)
    requires forall t :: t in ts ==> Calm(t, startMs)
    ensures var s, whole := Turns(Begin(token, startMs, interval), ts), Flatten(PiecesOf(ts));
            && HandledIn(s.log) == Admitted(token, Messages(whole, 0x200_0000))
            && (!s.running <==> Stops(whole, 0x200_0000)
                                || Admitted(token, Messages(whole, 0x200_0000)) != Messages(whole, 0x200_0000))
  {
    hide ParseFrom, Turns, Messages, Stops, Opens, Calm, PiecesOf, Flatten;
    var whole := Flatten(PiecesOf(ts));
    BeginAgrees(token, startMs, interval);
    NothingParsed(token);
    CalmTurns(Begin(token, startMs, interval), ts, token, []);
    assert [] + whole == whole;
    WholeParse(token, whole);
  }

  lemma NothingParsed(token: Buf)
    ensures ParseFrom(Fresh(token), []) == Outcome(Fresh(token), [], false)
  {
    SessIncremental();
    NothingYet();
  }

  // ---- what a turn leaves alone ------------------------------------------------------------

  /** A turn whose poll was interrupted does nothing; nor does a quiet one as long as the
      gate is closed. */
  lemma IdleTurn(s: Loop, t: Tick)
    requires s.running && !t.stop && (s.authed || t.authMs <= s.startMs + 5000)
    requires t.polled == PollFailed(true) || (t.polled.Quiet? && !s.authed)
    ensures Turn(s, t) == s
  {
  }

  // ---- when the loop ends -----------------------------------------------------------------

  /** Exactly when a turn is the last: on a request to stop, a time-out before the gate is
      open, a poll that fails without having been interrupted, a socket that has hung up,
      a `recv` that reports the end or an error other than a retry, bytes that make the
      parser stop, or a frame that the socket does not take. */
  lemma LastTurnIff(s: Loop, t: Tick, token: Buf, whole: Buf)
    requires Agrees(s, token, whole) && s.running
    ensures !Turn(s, t).running <==>
            || t.stop
            || (!s.authed && t.authMs > s.startMs + 5000)
            || t.polled == PollFailed(false) || t.polled.HungUp?
            || (t.polled.Readable? && (
                  || t.polled.got.End? || t.polled.got == Err(OtherErrno) || t.polled.got == Got([])
                  || ParseFrom(Fresh(token), whole + TakenIn(s, t)).halted))
            || (Videos(Turn(s, t).log) != Videos(s.log) && !t.sendOk)
  {
    hide ParseFrom, HandledIn, Videos, Agrees, Read;
    assert whole + [] == whole;
    AgreesRunning(s, token, whole);
    if t.polled.Readable? {
      var got, pictures := t.polled.got, t.polled.pictures;
      if got.Got? && got.bytes != [] {
        ReadAgrees(s, got.bytes, pictures, token, whole);
      } else {
        ReadNothing(s, got, pictures);
      }
      ReadQuiet(s, got, pictures);
      PushEndsIff(Read(s, got, pictures), t);
    }
    PushEndsIff(s, t);
    hide PushFrame;
  }

  lemma AgreesRunning(s: Loop, token: Buf, whole: Buf)
    requires Agrees(s, token, whole) && s.running
    ensures !ParseFrom(Fresh(token), whole).halted
  {
  }

  lemma PushEndsIff(s: Loop, t: Tick)
    ensures s.running ==> (!PushFrame(s, t).running <==> Videos(PushFrame(s, t).log) != Videos(s.log) && !t.sendOk)
  {
    hide Videos;
    LogEvent(s.log, Attempt(t.frameMs));
    assert Videos(s.log) + [] == Videos(s.log);
    if IsNew(s, t.hub) { LogEvent(s.log + [Attempt(t.frameMs)], Pushed(t.hub.value)); }
  }
}
