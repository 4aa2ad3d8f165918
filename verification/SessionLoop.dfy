/** The loop of a client session: the pure model that `ClientSession` is proved
    against, and what holds over its whole runs. */
module SessionLoop {
  import opened Bytes
  import opened Wrappers
  import opened Text
  import opened MiniJson
  import opened Protocol
  import opened Sec1
  import opened SessionStream
  import opened WebSocketStream
  import Auth

  const AUTH_TIMEOUT_MS: nat := 5000

  /** `lastSentSeq_` before anything has been sent. */
  const NOTHING_SENT: nat := U32 - 1

  /** One published camera frame, as far as a session looks at it. */
  datatype HubFrame = HubFrame(seqNo: nat, width: nat, height: nat, tsMs: nat, jpeg: Buf)

  /** What a session does on behalf of its client. The numbers of a servo command are left inside its body. */
  datatype Effect =
    | PushServo(absolute: bool, body: Buf)
    | PushMode(autoTrack: bool)
    | SendFileList
    | SendFile(name: Buf)
    | Delete(named: Option<Buf>)
    | TakeSnapshot

  datatype Event =
    | Handled(m: Msg)
    | Did(what: Effect)
    | Attempt(at: nat)
    | Pushed(frame: HubFrame)

  /** The switch of `handleMessage`; `picture` says whether the hub holds a frame with a picture. */
  function EffectsOf(m: Msg, picture: bool): seq<Effect> {
    if m.typ == SERVO_CMD then
      var mode := match GetString(m.payload, Ascii("mode")) case Some(s) => s case None => Ascii("step");
      [PushServo(mode == Ascii("abs"), m.payload)]
    else if m.typ == MODE_CMD then
      [PushMode(match GetBool(m.payload, Ascii("autoTrack")) case Some(b) => b case None => true)]
    else if m.typ == FILE_LIST_REQ then [SendFileList]
    else if m.typ == FILE_GET_REQ then
      match GetString(m.payload, Ascii("name")) case Some(s) => [SendFile(s)] case None => []
    else if m.typ == FILE_DELETE_REQ then [Delete(GetString(m.payload, Ascii("name")))]
    else if m.typ == SNAPSHOT_REQ then (if picture then [TakeSnapshot] else []) + [SendFileList]
    else []
  }

  function Happened(m: Msg, picture: bool): seq<Event> {
    var es := EffectsOf(m, picture);
    [Handled(m)] + seq(|es|, i requires 0 <= i < |es| => Did(es[i]))
  }

  /** What handling some messages does; `pictures(i)` is what the hub holds at the `i`-th one. */
  function HappenedAll(ms: seq<Msg>, pictures: nat -> bool): seq<Event> {
    if ms == [] then []
    else HappenedAll(ms[..|ms| - 1], pictures) + Happened(ms[|ms| - 1], pictures(|ms| - 1))
  }

  /** The variables of the loop, and everything it has done. */
  datatype Loop = Loop(
    token: Buf, startMs: nat, interval: nat,
    authed: bool, rx: Buf, lastSent: nat, nextFrameAt: nat, log: seq<Event>, running: bool)

  function Begin(token: Buf, startMs: nat, interval: nat): Loop {
    Loop(token, startMs, interval, token == [], [], NOTHING_SENT, 0, [], true)
  }

  datatype Polled = PollFailed(interrupted: bool) | Quiet | HungUp | Readable(got: Received, pictures: nat -> bool)

  /** What one turn of the loop meets: the stop flag, the clock at the three places
      where it is read, the poll, the latest frame, and whether a send succeeds. */
  datatype Tick = Tick(
    stop: bool, authMs: nat, polled: Polled, frameMs: nat, hub: Option<HubFrame>, sendOk: bool, sentMs: nat)

  /** `readAndDispatch`. */
  ghost function Read(s: Loop, got: Received, pictures: nat -> bool): Loop {
    match got
    case End => s.(running := false)
    case Err(e) => s.(running := e != OtherErrno)
    case Got(bytes) =>
      if bytes == [] then s.(running := false)
      else
        var o := ParseFrom(Sess(s.token, s.authed, []), s.rx + bytes);
        s.(authed := o.s.authed, rx := o.rest, log := s.log + HappenedAll(o.s.handled, pictures), running := !o.halted)
  }

  /** `sendFrameIfNew` sends this frame. */
  predicate IsNew(s: Loop, hub: Option<HubFrame>) {
    hub.Some? && hub.value.jpeg != [] && hub.value.seqNo != s.lastSent
  }

  /** The end of a turn: a frame if one is due. */
  function PushFrame(s: Loop, t: Tick): Loop {
    if !s.authed || t.frameMs < s.nextFrameAt then s
    else
      var tried := s.(log := s.log + [Attempt(t.frameMs)]);
      if IsNew(s, t.hub) then
        var sent := tried.(lastSent := t.hub.value.seqNo, log := tried.log + [Pushed(t.hub.value)]);
        if t.sendOk then sent.(nextFrameAt := t.sentMs + s.interval) else sent.(running := false)
      else tried.(nextFrameAt := t.sentMs + s.interval)
  }

  /** One turn of the loop in `run`. */
  ghost function Turn(s: Loop, t: Tick): Loop {
    if !s.running then s
    else if t.stop then s.(running := false)
    else if !s.authed && t.authMs > s.startMs + AUTH_TIMEOUT_MS then s.(running := false)
    else
      match t.polled
      case PollFailed(interrupted) => s.(running := interrupted)
      case HungUp => s.(running := false)
      case Quiet => PushFrame(s, t)
      case Readable(got, pictures) =>
        var r := Read(s, got, pictures);
        if r.running then PushFrame(r, t) else r
  }

  ghost function Turns(s: Loop, ts: seq<Tick>): Loop
    decreases |ts|
  {
    if ts == [] then s else Turns(Turn(s, ts[0]), ts[1..])
  }

  // ---- the authentication gate ------------------------------------------------------

  /** With a token configured, nothing has happened before the gate was opened, and
      the first thing that ever happened is the message that opened it. */
  predicate Gated(s: Loop) {
    s.token != [] ==>
      if s.authed then s.log != [] && s.log[0].Handled? && Opens(s.token, s.log[0].m) else s.log == []
  }

  lemma {:induction false} HappenedFirst(ms: seq<Msg>, pictures: nat -> bool)
    ensures var es := HappenedAll(ms, pictures); if ms == [] then es == [] else es != [] && es[0] == Handled(ms[0])
    decreases |ms|
  {
    hide EffectsOf;
    if |ms| > 1 { HappenedFirst(ms[..|ms| - 1], pictures); }
  }

  lemma ReadOpen(s: Loop, bytes: Buf, pictures: nat -> bool)
    requires Gated(s) && s.authed && bytes != []
    ensures Gated(Read(s, Got(bytes), pictures)) && Read(s, Got(bytes), pictures).authed
  {
    hide ParseFrom, Messages, After, Opens, HappenedAll;
    OpenGate(Sess(s.token, true, []), s.rx + bytes);
  }

  lemma ReadClosed(s: Loop, bytes: Buf, pictures: nat -> bool)
    requires Gated(s) && !s.authed && bytes != []
    ensures Gated(Read(s, Got(bytes), pictures))
  {
    hide ParseFrom, Messages, After, Opens, HappenedAll;
    var ms := Messages(s.rx + bytes, TERMINAL_CAP);
    assert [] + ms == ms;
    ClosedGate(Sess(s.token, false, []), s.rx + bytes);
    HappenedFirst(ms, pictures);
    HappenedFirst([], pictures);
  }

  lemma ReadGated(s: Loop, got: Received, pictures: nat -> bool)
    requires Gated(s)
    ensures Gated(Read(s, got, pictures)) && (s.authed ==> Read(s, got, pictures).authed)
  {
    hide ParseFrom, Opens, HappenedAll;
    if got.Got? && got.bytes != [] {
      hide Read, Gated;
      if s.authed { ReadOpen(s, got.bytes, pictures); } else { ReadClosed(s, got.bytes, pictures); }
    }
  }

  lemma TurnGated(s: Loop, t: Tick)
    requires Gated(s)
    ensures Gated(Turn(s, t)) && (s.authed ==> Turn(s, t).authed)
    ensures Turn(s, t).token == s.token && Turn(s, t).interval == s.interval && Turn(s, t).startMs == s.startMs
  {
    hide Opens, Read;
    if t.polled.Readable? {
      ReadGated(s, t.polled.got, t.polled.pictures);
      ReadKeeps(s, t.polled.got, t.polled.pictures);
    }
  }

  lemma ReadKeeps(s: Loop, got: Received, pictures: nat -> bool)
    ensures var r := Read(s, got, pictures); r.token == s.token && r.interval == s.interval && r.startMs == s.startMs
    ensures var r := Read(s, got, pictures); r.lastSent == s.lastSent && r.nextFrameAt == s.nextFrameAt && s.log <= r.log
  {
    hide ParseFrom;
  }

  lemma {:induction false} TurnsGated(s: Loop, ts: seq<Tick>)
    requires Gated(s)
    ensures Gated(Turns(s, ts)) && (s.authed ==> Turns(s, ts).authed) && Turns(s, ts).token == s.token
    decreases |ts|
  {
    hide Turn, Gated;
    if ts != [] {
      TurnGated(s, ts[0]);
      TurnsGated(Turn(s, ts[0]), ts[1..]);
    }
  }

  /** The gate over whole runs: with a token configured, whatever the client sends
      and however it is cut, no message is handled, no command pushed, no file
      touched, no snapshot taken and no frame sent or even attempted before a HELLO
      that carries the token; and that HELLO is the first message ever handled. */
  lemma NothingBeforeHello(token: Buf, startMs: nat, interval: nat, ts: seq<Tick>)
    requires token != []
    ensures var s := Turns(Begin(token, startMs, interval), ts);
            && (s.log != [] <==> s.authed)
            && (s.log != [] ==>
                  s.log[0].Handled? && s.log[0].m.typ == 0x0001 && Auth.Authorized(token, s.log[0].m.payload))
  {
    hide Turns;
    TurnsGated(Begin(token, startMs, interval), ts);
  }

  /** Any other first message ends the session, and nothing has been done. */
  lemma WrongFirstMessage(s: Loop, t: Tick)
    requires Gated(s) && s.token != [] && !s.authed && s.running
    requires t.polled.Readable? && t.polled.got.Got? && t.polled.got.bytes != []
    requires var ms := Messages(s.rx + t.polled.got.bytes, TERMINAL_CAP); ms != [] && !Opens(s.token, ms[0])
    ensures !Turn(s, t).running && Turn(s, t).log == []
  {
    hide ParseFrom, Messages, After, Opens;
    ClosedGate(Sess(s.token, s.authed, []), s.rx + t.polled.got.bytes);
  }

  lemma TurnWaits(s: Loop, t: Tick)
    requires Gated(s) && Turn(s, t).running && !Turn(s, t).authed
    ensures s.running && !s.authed && t.authMs <= s.startMs + AUTH_TIMEOUT_MS
  {
    hide Gated;
    TurnGated(s, t);
    hide Read, PushFrame;
  }

  lemma {:induction false} TurnsWait(s: Loop, ts: seq<Tick>)
    requires Gated(s) && Turns(s, ts).running && !Turns(s, ts).authed
    ensures s.running && !s.authed && forall i :: 0 <= i < |ts| ==> ts[i].authMs <= s.startMs + AUTH_TIMEOUT_MS
    decreases |ts|
  {
    hide Turn, Gated;
    if ts != [] {
      TurnGated(s, ts[0]);
      TurnsWait(Turn(s, ts[0]), ts[1..]);
      TurnWaits(s, ts[0]);
      assert forall i :: 0 < i < |ts| ==> ts[i] == ts[1..][i - 1];
    }
  }

  /** Over whole runs: a session that is still waiting for its HELLO has done nothing
      and has not seen its clock more than five seconds past the start, at any turn. */
  lemma WaitsAtMostFiveSeconds(token: Buf, startMs: nat, interval: nat, ts: seq<Tick>)
    ensures var s := Turns(Begin(token, startMs, interval), ts);
            s.running && !s.authed ==>
              s.log == [] && forall i :: 0 <= i < |ts| ==> ts[i].authMs <= startMs + AUTH_TIMEOUT_MS
  {
    hide Turns;
    var begin := Begin(token, startMs, interval);
    var s := Turns(begin, ts);
    TurnsGated(begin, ts);
    if s.running && !s.authed { TurnsWait(begin, ts); }
  }

  // ---- freshness of frames -----------------------------------------------------------

  function Videos(log: seq<Event>): seq<HubFrame> {
    if log == [] then []
    else
      var e := log[|log| - 1];
      Videos(log[..|log| - 1]) + (if e.Pushed? then [e.frame] else [])
  }

  function Attempts(log: seq<Event>): seq<nat> {
    if log == [] then []
    else
      var e := log[|log| - 1];
      Attempts(log[..|log| - 1]) + (if e.Attempt? then [e.at] else [])
  }

  /** The frames published so far, numbered from zero as the vision thread numbers them. */
  predicate Numbered(published: seq<HubFrame>) {
    |published| < U32 && forall k :: 0 <= k < |published| ==> published[k].seqNo == k
  }

  /** What the hub shows after `n` publishes. */
  function Latest(published: seq<HubFrame>, n: nat): Option<HubFrame>
    requires n <= |published|
  {
    if n == 0 then None else Some(published[n - 1])
  }

  /** The hub: one writer replaces the latest frame, any number of readers look at it. */
  class FrameHub {
    var latest: Option<HubFrame>

    /** Everything ever published. */
    ghost var published: seq<HubFrame>

    ghost predicate Valid()
      reads this
    {
      latest == Latest(published, |published|)
    }

    constructor ()
      ensures Valid() && published == []
    {
      latest, published := None, [];
    }

    method Publish(f: HubFrame)
      requires Valid()
      modifies this
      ensures Valid() && published == old(published) + [f]
    {
      latest := Some(f);
      published := published + [f];
    }

    method TakeLatest() returns (f: Option<HubFrame>)
      requires Valid()
      ensures f == Latest(published, |published|)
    {
      f := latest;
    }
  }

  /** The vision thread, as far as it numbers and publishes frames. */
  class VisionThread {
    const hub: FrameHub
    var nextSeq: nat

    ghost predicate Valid()
      reads this, hub
    {
      hub.Valid() && nextSeq == |hub.published| % U32 && (|hub.published| < U32 ==> Numbered(hub.published))
    }

    constructor (hub: FrameHub)
      requires hub.Valid() && hub.published == []
      ensures this.hub == hub && Valid()
    {
      this.hub, nextSeq := hub, 0;
    }

    /** One captured frame: it gets the next number, modulo 2 to the 32, and is published. */
    method Capture(width: nat, height: nat, tsMs: nat, jpeg: Buf)
      requires Valid()
      modifies this`nextSeq, hub
      ensures Valid()
      ensures hub.published
              == old(hub.published) + [HubFrame(|old(hub.published)| % U32, width, height, tsMs, jpeg)]
    {
      var f := HubFrame(nextSeq, width, height, tsMs, jpeg);
      nextSeq := (nextSeq + 1) % U32;
      hub.Publish(f);
    }
  }

  /** Published frames in strictly increasing order, all before the `n`-th; `last` is the number of the last. */
  predicate Increasing(vs: seq<HubFrame>, last: nat, published: seq<HubFrame>, n: nat) {
    && n <= |published|
    && (forall i :: 0 <= i < |vs| ==> vs[i].seqNo < n && vs[i] == published[vs[i].seqNo])
    && (forall i, j :: 0 <= i < j < |vs| ==> vs[i].seqNo < vs[j].seqNo)
    && last == (if vs == [] then NOTHING_SENT else vs[|vs| - 1].seqNo)
  }

  /** The frames sent so far are such frames. */
  predicate InOrder(s: Loop, published: seq<HubFrame>, n: nat) {
    Increasing(Videos(s.log), s.lastSent, published, n)
  }

  /** Tries to send are at least the frame interval apart, and the next one is not due before that. */
  predicate Spaced(s: Loop) {
    var a := Attempts(s.log);
    && (forall i :: 0 < i < |a| ==> a[i] >= a[i - 1] + s.interval)
    && (a != [] && s.running ==> s.nextFrameAt >= a[|a| - 1] + s.interval)
  }

  lemma LogEvent(log: seq<Event>, e: Event)
    ensures Videos(log + [e]) == Videos(log) + (if e.Pushed? then [e.frame] else [])
    ensures Attempts(log + [e]) == Attempts(log) + (if e.Attempt? then [e.at] else [])
  {
    assert (log + [e])[..|log|] == log;
  }

  lemma {:induction false} LogQuiet(log: seq<Event>, es: seq<Event>)
    requires forall e :: e in es ==> !e.Pushed? && !e.Attempt?
    ensures Videos(log + es) == Videos(log) && Attempts(log + es) == Attempts(log)
    decreases |es|
  {
    if es == [] {
      assert log + es == log;
    } else {
      var front, e := es[..|es| - 1], es[|es| - 1];
      assert e in es;
      LogQuiet(log, front);
      LogEvent(log + front, e);
      assert (log + front) + [e] == log + es;
    }
  }

  lemma {:induction false} HappenedQuiet(ms: seq<Msg>, pictures: nat -> bool)
    ensures forall e :: e in HappenedAll(ms, pictures) ==> !e.Pushed? && !e.Attempt?
    decreases |ms|
  {
    hide EffectsOf;
    if ms != [] { HappenedQuiet(ms[..|ms| - 1], pictures); }
  }

  lemma ReadQuiet(s: Loop, got: Received, pictures: nat -> bool)
    ensures Videos(Read(s, got, pictures).log) == Videos(s.log) && Attempts(Read(s, got, pictures).log) == Attempts(s.log)
  {
    hide ParseFrom, Videos, Attempts, HappenedAll;
    if got.Got? && got.bytes != [] {
      var o := ParseFrom(Sess(s.token, s.authed, []), s.rx + got.bytes);
      HappenedQuiet(o.s.handled, pictures);
      LogQuiet(s.log, HappenedAll(o.s.handled, pictures));
    }
  }

  lemma OneMore(vs: seq<HubFrame>, last: nat, published: seq<HubFrame>, n: nat, m: nat)
    requires Numbered(published) && Increasing(vs, last, published, n) && n <= m <= |published|
    ensures Increasing(vs, last, published, m)
    ensures m > 0 && m - 1 != last ==> Increasing(vs + [published[m - 1]], m - 1, published, m)
  {
  }

  lemma ViewsGrow(s: Loop, published: seq<HubFrame>, n: nat, m: nat)
    requires InOrder(s, published, n) && n <= m <= |published|
    ensures InOrder(s, published, m)
  {
  }

  lemma NumberedLatest(published: seq<HubFrame>, m: nat)
    requires Numbered(published) && 0 < m <= |published|
    ensures Latest(published, m) == Some(published[m - 1]) && published[m - 1].seqNo == m - 1
  {
  }

  lemma PushInOrder(s: Loop, t: Tick, published: seq<HubFrame>, n: nat, m: nat)
    requires Numbered(published) && InOrder(s, published, n) && n <= m <= |published|
    requires t.hub == Latest(published, m)
    ensures InOrder(PushFrame(s, t), published, m)
  {
    hide Videos, Increasing, Numbered;
    OneMore(Videos(s.log), s.lastSent, published, n, m);
    LogEvent(s.log, Attempt(t.frameMs));
    assert Videos(s.log) + [] == Videos(s.log);
    if IsNew(s, t.hub) {
      NumberedLatest(published, m);
      LogEvent(s.log + [Attempt(t.frameMs)], Pushed(t.hub.value));
    }
  }

  lemma PushSpaced(s: Loop, t: Tick)
    requires Spaced(s) && s.running && t.frameMs <= t.sentMs
    ensures Spaced(PushFrame(s, t))
  {
    hide Attempts;
    LogEvent(s.log, Attempt(t.frameMs));
    if IsNew(s, t.hub) { LogEvent(s.log + [Attempt(t.frameMs)], Pushed(t.hub.value)); }
  }

  lemma TurnInOrder(s: Loop, t: Tick, published: seq<HubFrame>, n: nat, m: nat)
    requires Numbered(published) && InOrder(s, published, n) && n <= m <= |published|
    requires t.hub == Latest(published, m)
    ensures InOrder(Turn(s, t), published, m)
  {
    hide Videos, Increasing, Read, PushFrame, Latest, Numbered;
    ViewsGrow(s, published, n, m);
    if t.polled.Readable? {
      var r := Read(s, t.polled.got, t.polled.pictures);
      ReadKeeps(s, t.polled.got, t.polled.pictures);
      ReadQuiet(s, t.polled.got, t.polled.pictures);
      PushInOrder(r, t, published, n, m);
    } else {
      PushInOrder(s, t, published, n, m);
    }
  }

  lemma TurnSpaced(s: Loop, t: Tick)
    requires Spaced(s) && t.frameMs <= t.sentMs
    ensures Spaced(Turn(s, t))
  {
    hide Attempts, Read, PushFrame;
    if t.polled.Readable? {
      var r := Read(s, t.polled.got, t.polled.pictures);
      ReadKeeps(s, t.polled.got, t.polled.pictures);
      ReadQuiet(s, t.polled.got, t.polled.pictures);
      if r.running && s.running { PushSpaced(r, t); }
    } else if s.running {
      PushSpaced(s, t);
    }
  }

  /** A run of the loop while the vision thread publishes: turn `i` looks at the hub
      after `views[i]` publishes. */
  predicate Watches(ts: seq<Tick>, published: seq<HubFrame>, views: seq<nat>) {
    && |views| == |ts|
    && (forall i :: 0 <= i < |ts| ==> views[i] <= |published| && ts[i].hub == Latest(published, views[i]))
    && (forall i, j :: 0 <= i < j < |ts| ==> views[i] <= views[j])
    && (forall i :: 0 <= i < |ts| ==> ts[i].frameMs <= ts[i].sentMs)
  }

  lemma {:induction false} TurnsFresh(s: Loop, ts: seq<Tick>, published: seq<HubFrame>, views: seq<nat>, n: nat)
    requires Numbered(published) && Watches(ts, published, views)
    requires InOrder(s, published, n) && Spaced(s) && (ts != [] ==> n <= views[0])
    ensures exists m :: InOrder(Turns(s, ts), published, m)
    ensures Spaced(Turns(s, ts))
    decreases |ts|
  {
    hide Turn, InOrder, Spaced, Latest, Numbered;
    if ts == [] {
      assert InOrder(Turns(s, ts), published, n);
    } else {
      TurnInOrder(s, ts[0], published, n, views[0]);
      TurnSpaced(s, ts[0]);
      var rest := Turns(Turn(s, ts[0]), ts[1..]);
      TurnsFresh(Turn(s, ts[0]), ts[1..], published, views[1..], views[0]);
      var m: nat :| InOrder(rest, published, m);
      assert InOrder(Turns(s, ts), published, m);
    }
  }

  /** An attempt leaves the client with the latest picture: if the hub shows a frame with a
      picture, the last frame sent is that frame, sent now or before. */
  lemma AttemptShowsLatest(s: Loop, t: Tick, published: seq<HubFrame>, n: nat, m: nat)
    requires Numbered(published) && InOrder(s, published, n) && n <= m <= |published| && t.hub == Latest(published, m)
    requires s.authed && t.frameMs >= s.nextFrameAt && t.hub.Some? && t.hub.value.jpeg != []
    ensures var vs := Videos(PushFrame(s, t).log); vs != [] && vs[|vs| - 1] == t.hub.value
    ensures t.sendOk ==> PushFrame(s, t).running == s.running && PushFrame(s, t).nextFrameAt == t.sentMs + s.interval
  {
    hide Videos, Increasing, Numbered, Latest;
    PushedVideo(s, t);
    if !IsNew(s, t.hub) { LastIsSent(Videos(s.log), s.lastSent, published, n, m, t.hub.value); }
  }

  lemma PushLogs(s: Loop, t: Tick)
    requires s.authed && t.frameMs >= s.nextFrameAt
    ensures PushFrame(s, t).log
            == if IsNew(s, t.hub) then (s.log + [Attempt(t.frameMs)]) + [Pushed(t.hub.value)] else s.log + [Attempt(t.frameMs)]
  {
  }

  lemma PushedVideo(s: Loop, t: Tick)
    requires s.authed && t.frameMs >= s.nextFrameAt
    ensures Videos(PushFrame(s, t).log) == Videos(s.log) + (if IsNew(s, t.hub) then [t.hub.value] else [])
  {
    PushLogs(s, t);
    hide Videos, Attempts, PushFrame, IsNew;
    LogEvent(s.log, Attempt(t.frameMs));
    if IsNew(s, t.hub) { LogEvent(s.log + [Attempt(t.frameMs)], Pushed(t.hub.value)); }
  }

  lemma LastIsSent(vs: seq<HubFrame>, last: nat, published: seq<HubFrame>, n: nat, m: nat, f: HubFrame)
    requires Numbered(published) && Increasing(vs, last, published, n) && n <= m <= |published|
    requires Latest(published, m) == Some(f) && f.seqNo == last
    ensures vs != [] && vs[|vs| - 1] == f
  {
    NumberedLatest(published, m);
  }

  /** Frames do get sent, over whole runs: whenever, after any turns, a turn in which the
      client sends nothing finds the session authenticated, the next frame due and a picture
      in the hub, the last frame sent is that picture's. */
  lemma LatestIsShown(token: Buf, startMs: nat, interval: nat, ts: seq<Tick>, t: Tick, published: seq<HubFrame>,
                      views: seq<nat>, m: nat)
    requires Numbered(published) && Watches(ts, published, views) && m <= |published| && t.hub == Latest(published, m)
    requires forall v :: v in views ==> v <= m
    requires var s := Turns(Begin(token, startMs, interval), ts);
             && s.running && s.authed && t.frameMs >= s.nextFrameAt && !t.stop
             && (t.polled.Quiet? || (t.polled.Readable? && t.polled.got.Err? && t.polled.got.errno != OtherErrno))
    requires t.hub.Some? && t.hub.value.jpeg != []
    ensures var vs := Videos(Turn(Turns(Begin(token, startMs, interval), ts), t).log);
            vs != [] && vs[|vs| - 1] == t.hub.value
  {
    hide Turns, Latest, Numbered, InOrder, Spaced, PushFrame;
    var s := Turns(Begin(token, startMs, interval), ts);
    assert InOrder(Begin(token, startMs, interval), published, 0) by { NothingSent(token, startMs, interval, published); }
    assert Spaced(Begin(token, startMs, interval)) by { NothingSent(token, startMs, interval, published); }
    var n := TurnsFreshBy(Begin(token, startMs, interval), ts, published, views, 0, m);
    AttemptShowsLatest(s, t, published, n, m);
  }

  lemma NothingSent(token: Buf, startMs: nat, interval: nat, published: seq<HubFrame>)
    ensures InOrder(Begin(token, startMs, interval), published, 0) && Spaced(Begin(token, startMs, interval))
  {
  }

  lemma {:induction false} TurnsFreshBy(s: Loop, ts: seq<Tick>, published: seq<HubFrame>, views: seq<nat>, n: nat, m: nat)
    returns (k: nat)
    requires Numbered(published) && Watches(ts, published, views) && (forall v :: v in views ==> v <= m) && n <= m
    requires InOrder(s, published, n) && Spaced(s) && (ts != [] ==> n <= views[0])
    ensures InOrder(Turns(s, ts), published, k) && k <= m
    decreases |ts|
  {
    hide Turn, InOrder, Spaced, Latest, Numbered;
    if ts == [] {
      k := n;
    } else {
      TurnInOrder(s, ts[0], published, n, views[0]);
      TurnSpaced(s, ts[0]);
      assert views[0] in views && forall v :: v in views[1..] ==> v in views;
      k := TurnsFreshBy(Turn(s, ts[0]), ts[1..], published, views[1..], views[0], m);
    }
  }

  /** Freshness over whole runs: for any interleaving of fewer than 2 to the 32
      publishes with the turns of a session, the frames it sends are published frames
      in strictly increasing order, so none is sent twice, and tries to send are at
      least the frame interval apart. */
  lemma FramesAreFresh(token: Buf, startMs: nat, interval: nat, ts: seq<Tick>, published: seq<HubFrame>, views: seq<nat>)
    requires Numbered(published) && Watches(ts, published, views)
    ensures var s := Turns(Begin(token, startMs, interval), ts);
            var vs, a := Videos(s.log), Attempts(s.log);
            && (forall i :: 0 <= i < |vs| ==> vs[i].seqNo < |published| && vs[i] == published[vs[i].seqNo])
            && (forall i, j :: 0 <= i < j < |vs| ==> vs[i].seqNo < vs[j].seqNo)
            && (forall i :: 0 < i < |a| ==> a[i] >= a[i - 1] + s.interval)
  {
    hide Turns, Latest, Numbered;
    TurnsFresh(Begin(token, startMs, interval), ts, published, views, 0);
  }
}
