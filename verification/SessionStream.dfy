/** The receiving half of a client session: cutting the stream into messages behind
    the authentication gate. */
module SessionStream {
  import opened Bytes
  import opened Protocol
  import opened Sec1
  import opened Streaming
  import opened Auth

  /** The configured token, whether the gate is open, and the messages handled so far. */
  datatype Sess = Sess(token: Buf, authed: bool, handled: seq<Msg>)

  function Fresh(token: Buf): Sess { Sess(token, token == [], []) }

  /** The one kind of message that opens the gate. */
  predicate Opens(token: Buf, m: Msg) { m.typ == HELLO && Authorized(token, m.payload) }

  /** One turn of the loop in `readAndDispatch`. */
  function SessNext(s: Sess, buf: Buf): Next<Sess> {
    match FrontOf(buf, TERMINAL_CAP)
    case Partial => Wait
    case BadMagic => Halt(s, 0)
    case Oversize => Halt(s, 0)
    case Whole(m, used) =>
      if !s.authed && !Opens(s.token, m) then Halt(s, 0)
      else Go(Sess(s.token, true, s.handled + [m]), used)
  }

  lemma SessIncremental()
    ensures Incremental(SessNext)
  {
    hide FrontOf, Opens;
    forall s, a: Buf, b: Buf | !SessNext(s, a).Wait?
      ensures SessNext(s, a + b) == SessNext(s, a)
    {
      FrontStable(a, b, TERMINAL_CAP);
    }
  }

  ghost function ParseFrom(s: Sess, buf: Buf): Outcome<Sess> {
    SessIncremental();
    Run(SessNext, s, buf)
  }

  /** One turn of the loop, of the batch reading and of its ending, side by side. */
  lemma ParseOne(s: Sess, buf: Buf)
    ensures var f := FrontOf(buf, TERMINAL_CAP);
            && (f.Partial? ==> ParseFrom(s, buf) == Outcome(s, buf, false))
            && (f.BadMagic? || f.Oversize? ==> ParseFrom(s, buf) == Outcome(s, buf, true))
            && (f.Whole? && !s.authed && !Opens(s.token, f.m) ==> ParseFrom(s, buf) == Outcome(s, buf, true))
            && (f.Whole? && (s.authed || Opens(s.token, f.m)) ==>
                  ParseFrom(s, buf) == ParseFrom(Sess(s.token, true, s.handled + [f.m]), buf[f.used..]))
    ensures var f := FrontOf(buf, TERMINAL_CAP);
            && (f.Whole? ==>
                  && Messages(buf, TERMINAL_CAP) == [f.m] + Messages(buf[f.used..], TERMINAL_CAP)
                  && After(buf, TERMINAL_CAP) == After(buf[f.used..], TERMINAL_CAP))
            && (!f.Whole? ==> Messages(buf, TERMINAL_CAP) == [] && After(buf, TERMINAL_CAP) == f)
  {
    hide FrontOf, Opens;
    SessIncremental();
    assert buf[0..] == buf;
  }

  /** Behind an open gate the loop handles every whole message of the stream, in
      order and once each, and stops exactly when the bytes left over begin with a header
      whose magic is wrong or whose length is over the cap. */
  lemma {:induction false} OpenGate(s: Sess, buf: Buf)
    requires s.authed
    ensures ParseFrom(s, buf).s == Sess(s.token, true, s.handled + Messages(buf, TERMINAL_CAP))
    ensures ParseFrom(s, buf).halted <==> Stops(buf, TERMINAL_CAP)
    decreases |buf|
  {
    hide FrontOf, Messages, After, ParseFrom, Opens, Stops;
    ParseOne(s, buf);
    StopsIff(buf, TERMINAL_CAP);
    var f := FrontOf(buf, TERMINAL_CAP);
    if f.Whole? {
      StopsIff(buf[f.used..], TERMINAL_CAP);
      var rest := Messages(buf[f.used..], TERMINAL_CAP);
      OpenGate(Sess(s.token, true, s.handled + [f.m]), buf[f.used..]);
      assert (s.handled + [f.m]) + rest == s.handled + ([f.m] + rest);
    } else {
      assert s.handled + [] == s.handled;
    }
  }

  /** Before a closed gate the first message decides: if it opens the gate the
      session goes on as if the gate had been open, itself handling that message; if
      it does not, the session ends with nothing handled. */
  lemma ClosedGate(s: Sess, buf: Buf)
    requires !s.authed
    ensures var ms := Messages(buf, TERMINAL_CAP);
            if ms == [] then
              ParseFrom(s, buf).s == s && (ParseFrom(s, buf).halted <==> Stops(buf, TERMINAL_CAP))
            else if Opens(s.token, ms[0]) then
              && ParseFrom(s, buf).s == Sess(s.token, true, s.handled + ms)
              && (ParseFrom(s, buf).halted <==> Stops(buf, TERMINAL_CAP))
            else
              ParseFrom(s, buf).s == s && ParseFrom(s, buf).halted
  {
    hide FrontOf, Messages, After, ParseFrom, Opens, Stops;
    ParseOne(s, buf);
    StopsIff(buf, TERMINAL_CAP);
    var f := FrontOf(buf, TERMINAL_CAP);
    if f.Whole? && Opens(s.token, f.m) {
      StopsIff(buf[f.used..], TERMINAL_CAP);
      var rest := Messages(buf[f.used..], TERMINAL_CAP);
      OpenGate(Sess(s.token, true, s.handled + [f.m]), buf[f.used..]);
      assert (s.handled + [f.m]) + rest == s.handled + ([f.m] + rest);
    }
  }

  /** The messages a session with this token will handle out of a stream. */
  function Admitted(token: Buf, ms: seq<Msg>): seq<Msg> {
    if token == [] || ms == [] || Opens(token, ms[0]) then ms else []
  }

  /** A session reading a stream piece by piece. */
  ghost function ReceiveFrom(s: Sess, pieces: seq<Buf>): Outcome<Sess> {
    SessIncremental();
    Feed(SessNext, Outcome(s, [], false), pieces)
  }

  ghost function Receive(token: Buf, pieces: seq<Buf>): Outcome<Sess> { ReceiveFrom(Fresh(token), pieces) }

  lemma AnyCutFrom(s: Sess, pieces: seq<Buf>)
    ensures var fed, o := ReceiveFrom(s, pieces), ParseFrom(s, Flatten(pieces)); fed.s == o.s && fed.halted == o.halted
  {
    hide FrontOf, Opens;
    SessIncremental();
    assert [] + Flatten(pieces) == Flatten(pieces);
    assert SessNext(s, []).Wait? by { NothingYet(); }
    FeedIsRun(SessNext, s, [], pieces);
  }

  /** What a fresh session makes of a stream. */
  lemma WholeParse(token: Buf, whole: Buf)
    ensures var o, ms := ParseFrom(Fresh(token), whole), Messages(whole, TERMINAL_CAP);
            && o.s.handled == Admitted(token, ms)
            && (o.halted <==> Stops(whole, TERMINAL_CAP) || Admitted(token, ms) != ms)
  {
    hide FrontOf, Messages, Stops, Opens, ParseFrom;
    if token == [] { OpenGate(Fresh(token), whole); } else { ClosedGate(Fresh(token), whole); }
  }

  /** What a fresh session handles, and whether it stops, depends only on the bytes
      it has been given, not on how they were cut. */
  lemma AnyCut(token: Buf, pieces: seq<Buf>)
    ensures var fed, whole := Receive(token, pieces), Flatten(pieces);
            && fed.s.handled == Admitted(token, Messages(whole, TERMINAL_CAP))
            && (fed.halted <==> Stops(whole, TERMINAL_CAP)
                                || Admitted(token, Messages(whole, TERMINAL_CAP)) != Messages(whole, TERMINAL_CAP))
  {
    hide Messages, Stops, Opens, ParseFrom, ReceiveFrom;
    AnyCutFrom(Fresh(token), pieces);
    WholeParse(token, Flatten(pieces));
  }

  lemma NothingYet()
    ensures FrontOf([], TERMINAL_CAP).Partial?
  {
  }

  /** A stream of messages that the terminal accepts is handled whole. */
  lemma BuiltIsHandled(token: Buf, ms: seq<Msg>)
    requires forall m :: m in ms ==> Representable(m) && |m.payload| <= TERMINAL_CAP
    requires token == [] || ms == [] || Opens(token, ms[0])
    ensures var o := ParseFrom(Fresh(token), BuildAll(ms));
            o.s.handled == ms && !o.halted
  {
    hide FrontOf, Messages, After, ParseFrom, Opens, BuildAll, Stops;
    MessagesBuilt(ms, TERMINAL_CAP);
    StopsIff(BuildAll(ms), TERMINAL_CAP);
    if token == [] {
      OpenGate(Fresh(token), BuildAll(ms));
    } else {
      ClosedGate(Fresh(token), BuildAll(ms));
    }
  }

  /** Over plain TCP: however the bytes of a client's messages are cut, a session
      that admits the first of them handles exactly these messages, in order and once each. */
  lemma MessagesOverTcp(token: Buf, pieces: seq<Buf>, ms: seq<Msg>)
    requires Flatten(pieces) == BuildAll(ms)
    requires forall m :: m in ms ==> Representable(m) && |m.payload| <= TERMINAL_CAP
    requires token == [] || ms == [] || Opens(token, ms[0])
    ensures Receive(token, pieces).s.handled == ms && !Receive(token, pieces).halted
  {
    hide Messages, After, Receive, Opens, BuildAll, Stops;
    AnyCut(token, pieces);
    MessagesBuilt(ms, TERMINAL_CAP);
    StopsIff(BuildAll(ms), TERMINAL_CAP);
  }
}
