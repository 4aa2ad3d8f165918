/** The session object, proved against the pure model of `SessionLoop`. */
module ClientSession {
  import opened Bytes
  import opened Wrappers
  import opened Text
  import opened MiniJson
  import opened Protocol
  import opened Sec1
  import opened SessionStream
  import opened SessionLoop
  import opened SessionRuns
  import opened WebSocketStream
  import Auth

  class ClientSession {
    const authToken: Buf
    const startMs: nat
    const frameIntervalMs: nat
    var authed: bool
    var rx: Buf
    var lastSentSeq: nat
    var nextFrameAt: nat
    var finished: bool
    var closed: bool

    /** Every HELLO the terminal has sent. */
    var greetings: seq<Msg>

    /** Everything the session has done to the rest of the program, in order. */
    var log: seq<Event>

    constructor (authToken: Buf, startMs: nat, frameIntervalMs: nat)
      ensures State() == Begin(authToken, startMs, frameIntervalMs) && !closed && greetings == []
    {
      this.authToken, this.startMs, this.frameIntervalMs := authToken, startMs, frameIntervalMs;
      authed, rx, lastSentSeq, nextFrameAt, log := authToken == [], [], NOTHING_SENT, 0, [];
      finished, closed, greetings := false, false, [];
    }

    function State(): Loop
      reads this
    {
      Loop(authToken, startMs, frameIntervalMs, authed, rx, lastSentSeq, nextFrameAt, log, !finished)
    }

    /** Deals with one message; `picture` says whether the hub holds a frame with a picture. */
    method HandleMessage(m: Msg, picture: bool)
      modifies this`log
      ensures log == old(log) + Happened(m, picture)
    {
      hide Ascii, GetString, GetBool;
      log := log + [Handled(m)];
      ghost var before := log;
      if m.typ == SERVO_CMD {
        var mode := Ascii("step");
        var found, s := ReadString(m.payload, Ascii("mode"));
        if found { mode := s; }
        log := log + [Did(PushServo(mode == Ascii("abs"), m.payload))];
      } else if m.typ == MODE_CMD {
        var a := true;
        var b := GetBool(m.payload, Ascii("autoTrack"));
        if b.Some? { a := b.value; }
        log := log + [Did(PushMode(a))];
      } else if m.typ == FILE_LIST_REQ {
        log := log + [Did(SendFileList)];
      } else if m.typ == FILE_GET_REQ {
        var found, name := ReadString(m.payload, Ascii("name"));
        if found { log := log + [Did(SendFile(name))]; }
      } else if m.typ == FILE_DELETE_REQ {
        var found, name := ReadString(m.payload, Ascii("name"));
        log := log + [Did(Delete(if found then Some(name) else None))];
      } else if m.typ == SNAPSHOT_REQ {
        if picture { log := log + [Did(TakeSnapshot)]; }
        log := log + [Did(SendFileList)];
      }
      ghost var es := EffectsOf(m, picture);
      assert log == before + seq(|es|, i requires 0 <= i < |es| => Did(es[i]));
    }

    /** The gate: before it is open only a HELLO with the expected token passes, and opens it. */
    method Admit(m: Msg) returns (ok: bool)
      modifies this`authed
      ensures ok == authed == (old(authed) || Opens(authToken, m))
    {
      hide Auth.Authorized;
      if authed { return true; }
      if m.typ != HELLO { return false; }
      var authorized := Auth.HelloAuthorized(authToken, m.payload);
      if !authorized { return false; }
      authed := true;
      return true;
    }

    /** The loop over buffered messages: deals with every whole one; false ends the session. */
    method DispatchBuffered(pictures: nat -> bool) returns (ok: bool)
      modifies this`authed, this`rx, this`log
      ensures var o := ParseFrom(Sess(authToken, old(authed), []), old(rx));
              && authed == o.s.authed && log == old(log) + HappenedAll(o.s.handled, pictures)
              && ok == !o.halted && (ok ==> rx == o.rest)
    {
      hide FrontOf, Opens, Happened, ParseFrom, HappenedAll;
      var off, count := 0, 0;
      ghost var s := Sess(authToken, authed, []);
      ghost var whole := ParseFrom(s, rx);
      assert rx[0..] == rx;
      NothingHappened(pictures);
      assert log == old(log) + HappenedAll(s.handled, pictures);
      while true
        invariant off <= |rx| && rx == old(rx)
        invariant s.token == authToken && s.authed == authed && count == |s.handled|
        invariant log == old(log) + HappenedAll(s.handled, pictures)
        invariant whole == ParseFrom(s, rx[off..])
        decreases |rx| - off
      {
        var f := FrontOf(rx[off..], TERMINAL_CAP);
        ParseOne(s, rx[off..]);
        if f.Partial? { break; }
        if f.BadMagic? || f.Oversize? { return false; }
        var admitted := Admit(f.m);
        if !admitted { return false; }
        HandleMessage(f.m, pictures(count));
        HappenedMore(s.handled, f.m, pictures);
        count := count + 1;
        assert rx[off..][f.used..] == rx[off + f.used..];
        s := Sess(s.token, true, s.handled + [f.m]);
        off := off + f.used;
      }
      if off > 0 { rx := rx[off..]; }
      return true;
    }

    /** Takes in what one `recv` brought and deals with every message it completes;
        false ends the session. */
    method ReadAndDispatch(got: Received, pictures: nat -> bool) returns (ok: bool)
      modifies this`authed, this`rx, this`log
      ensures var r := Read(old(State()), got, pictures);
              State().(rx := r.rx, running := r.running) == r && ok == r.running && (ok ==> rx == r.rx)
    {
      hide ParseFrom, HappenedAll;
      if got.End? { return false; }
      if got.Err? { return got.errno == Eintr || got.errno == Eagain; }
      if got.bytes == [] { return false; }
      rx := rx + got.bytes;
      ok := DispatchBuffered(pictures);
    }

    /** Sends the latest frame unless it has been sent already; false if the socket is dead. */
    method SendFrameIfNew(hub: Option<HubFrame>, sendOk: bool) returns (ok: bool)
      modifies this`lastSentSeq, this`log
      ensures if IsNew(old(State()), hub) then
                lastSentSeq == hub.value.seqNo && log == old(log) + [Pushed(hub.value)] && ok == sendOk
              else
                lastSentSeq == old(lastSentSeq) && log == old(log) && ok
    {
      if hub.None? || hub.value.jpeg == [] { return true; }
      if hub.value.seqNo == lastSentSeq { return true; }
      lastSentSeq := hub.value.seqNo;
      log := log + [Pushed(hub.value)];
      return sendOk;
    }

    /** One turn of the loop; afterwards `finished` says whether it was the last. */
    method TakeTurn(t: Tick)
      requires !finished
      modifies this`authed, this`rx, this`log, this`lastSentSeq, this`nextFrameAt, this`finished
      ensures var r := Turn(old(State()), t); State().(rx := r.rx) == r && (!finished ==> rx == r.rx)
    {
      hide Read;
      if t.stop {
        finished := true;
        return;
      }
      if !authed && t.authMs > startMs + AUTH_TIMEOUT_MS {
        finished := true;
        return;
      }
      match t.polled {
        case PollFailed(interrupted) =>
          finished := !interrupted;
          return;
        case HungUp =>
          finished := true;
          return;
        case Quiet =>
        case Readable(got, pictures) =>
          var ok := ReadAndDispatch(got, pictures);
          if !ok {
            finished := true;
            return;
          }
      }
      if authed && t.frameMs >= nextFrameAt {
        log := log + [Attempt(t.frameMs)];
        var ok := SendFrameIfNew(t.hub, t.sendOk);
        if !ok {
          finished := true;
          return;
        }
        nextFrameAt := t.sentMs + frameIntervalMs;
      }
    }

    /** The whole of a session. Without a handshake nothing is sent or done; with one
        the terminal first says whether it wants a token, and then the loop runs until
        it ends by itself or, at the end of the script, is asked to stop. Either way
        the connection is closed. In a new session where nothing goes wrong but perhaps
        the messages, what has been handled is what the gate admits of the messages in
        all the bytes read. */
    method Run(handshakeOk: bool, ticks: seq<Tick>)
      requires !finished
      modifies this
      ensures finished && closed
      ensures !handshakeOk ==> greetings == old(greetings) && log == old(log) && authed == old(authed)
      ensures handshakeOk ==>
                && greetings == old(greetings) + [Greeting(authToken)]
                && log == Turns(old(State()), ticks).log && authed == Turns(old(State()), ticks).authed
      ensures handshakeOk && old(State()) == Begin(authToken, startMs, frameIntervalMs) ==>
                (forall t :: t in ticks ==> Calm(t, startMs)) ==>
                HandledIn(log) == Admitted(authToken, Messages(Flatten(PiecesOf(ticks)), TERMINAL_CAP))
    {
      hide Turn, Greeting, Calm, Messages, Flatten, PiecesOf, HandledIn, Stops;
      if forall t :: t in ticks ==> Calm(t, startMs) { HandlesAnyCut(authToken, startMs, frameIntervalMs, ticks); }
      if !handshakeOk {
        closed, finished := true, true;
        return;
      }
      greetings := greetings + [Greeting(authToken)];
      var i := 0;
      assert ticks[0..] == ticks;
      while i < |ticks| && !finished
        invariant i <= |ticks| && greetings == old(greetings) + [Greeting(authToken)]
        invariant !finished ==> Turns(State(), ticks[i..]) == Turns(old(State()), ticks)
        invariant finished ==> log == Turns(old(State()), ticks).log && authed == Turns(old(State()), ticks).authed
      {
        ghost var r := Turn(State(), ticks[i]);
        assert ticks[i..][1..] == ticks[i + 1..];
        if !r.running { Ended(r, ticks[i + 1..]); }
        TakeTurn(ticks[i]);
        i := i + 1;
      }
      closed, finished := true, true;
    }
  }

  /** The terminal's own HELLO: it says whether a token is wanted. */
  function Greeting(token: Buf): Msg {
    Msg(HELLO, 0, Ascii("{\"role\":\"terminal\",\"ver\":1,\"auth\":")
                  + Ascii(if token == [] then "false" else "true") + Ascii("}"))
  }

  lemma GreetingText()
    ensures Ascii("{\"role\":\"terminal\",\"ver\":1,\"auth\":")
            == Ascii("{\"role\":\"terminal\",\"ver\":1,") + Quoted(Ascii("auth")) + [58]
    ensures var front := Ascii("{\"role\":\"terminal\",\"ver\":1,");
            |front| == 27 && forall i :: 0 <= i < 26 ==> !(front[i] == 34 && front[i + 1] == 97)
  {
  }

  /** A client that reads the terminal's HELLO learns whether a token is wanted. */
  lemma GreetingTells(token: Buf)
    ensures Greeting(token).typ == 0x0001
    ensures GetBool(Greeting(token).payload, Ascii("auth")) == Some(token != [])
  {
    GreetingText();
    TruthText();
    var front, key := Ascii("{\"role\":\"terminal\",\"ver\":1,"), Ascii("auth");
    assert Quoted(key)[0] == 34 && Quoted(key)[1] == 97;
    var value := Ascii(if token == [] then "false" else "true") + Ascii("}");
    assert front[26] == 44;
    hide Ascii, GetBool, Find;
    var body := Greeting(token).payload;
    assert body == front + Written(key, [], [], value);
    assert forall i :: 0 <= i < 27 ==> body[i] == front[i];
    assert body[27] == 34;
    forall i: nat | i < 27
      ensures !At(body, Quoted(key), i)
    {
      assert !(body[i] == 34 && body[i + 1] == 97);
      AtTwo(body, Quoted(key), i);
    }
    assert body[27..27 + |Quoted(key)|] == Quoted(key);
    FindIs(body, Quoted(key), 0, 27);
    assert value[0] == if token == [] then 102 else 116;
    WrittenBoolRead(front, key, [], [], value);
  }

  lemma AtTwo(hay: Buf, needle: Buf, i: nat)
    requires |needle| >= 2 && i + 1 < |hay|
    ensures At(hay, needle, i) ==> hay[i] == needle[0] && hay[i + 1] == needle[1]
  {
    if At(hay, needle, i) {
      var here := hay[i..i + |needle|];
      assert here[0] == hay[i] && here[1] == hay[i + 1];
    }
  }

  lemma {:induction false} Ended(s: Loop, ts: seq<Tick>)
    requires !s.running
    ensures Turns(s, ts) == s
    decreases |ts|
  {
    if ts != [] { Ended(s, ts[1..]); }
  }

  lemma NothingHappened(pictures: nat -> bool)
    ensures HappenedAll([], pictures) == []
  {
  }

  lemma HappenedMore(ms: seq<Msg>, m: Msg, pictures: nat -> bool)
    ensures HappenedAll(ms + [m], pictures) == HappenedAll(ms, pictures) + Happened(m, pictures(|ms|))
  {
    hide Happened;
    assert (ms + [m])[..|ms|] == ms;
  }
}
