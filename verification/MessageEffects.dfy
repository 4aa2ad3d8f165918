/** What each message of a client makes a session do, with message types by their
    numbers and the bodies as the clients write them. */
module MessageEffects {
  import opened Bytes
  import opened Wrappers
  import opened Text
  import opened MiniJson
  import opened Protocol
  import opened SessionLoop
  import opened SessionRuns
  import opened SessionStream

  // What stands in the bodies, in ASCII: mode, abs, autoTrack, false, name.
  const MODE: Buf := [109, 111, 100, 101]
  const ABS: Buf := [97, 98, 115]
  const AUTO_TRACK: Buf := [97, 117, 116, 111, 84, 114, 97, 99, 107]
  const FALSE_TEXT: Buf := [102, 97, 108, 115, 101]
  const NAME: Buf := [110, 97, 109, 101]

  lemma KeysAre()
    ensures Ascii("mode") == MODE && Ascii("abs") == ABS && Ascii("autoTrack") == AUTO_TRACK && Ascii("name") == NAME
    ensures Ascii("step") != ABS
  {
    assert |Ascii("step")| == 4;
  }

  /** A body in which the first place where the key stands in quotes is followed by a
      colon, blanks, and then `value` to the end of the body. */
  predicate ValueAt(body: Buf, front: Buf, key: Buf, gap: Buf, blanks: Buf, value: Buf) {
    && Spacing(gap, blanks) && (value == [] || (value[0] != 32 && value[0] != 9))
    && body == front + Written(key, gap, blanks, value)
    && Find(body, Quoted(key), 0) == Some(|front|)
  }

  ghost predicate Holds(body: Buf, key: Buf, value: Buf) {
    exists front, gap, blanks :: ValueAt(body, front, key, gap, blanks, value)
  }

  /** The value is this string, escaped and quoted, with other fields after it. */
  ghost predicate HoldsString(body: Buf, key: Buf, s: Buf) {
    exists tail :: Holds(body, key, [34] + Escape(s) + [34] + tail)
  }

  predicate Lacks(body: Buf, key: Buf) { Find(body, [34] + key + [34], 0).None? }

  lemma StringHeld(body: Buf, key: Buf, s: Buf)
    requires HoldsString(body, key, s)
    ensures GetString(body, key) == Some(Soften(s))
  {
    hide Escape, GetString, Find, Quoted, Soften;
    var tail :| Holds(body, key, [34] + Escape(s) + [34] + tail);
    var front, gap, blanks :| ValueAt(body, front, key, gap, blanks, [34] + Escape(s) + [34] + tail);
    WrittenStringRead(front, key, gap, blanks, s, tail);
  }

  lemma BoolHeld(body: Buf, key: Buf, value: Buf)
    requires Holds(body, key, value)
    ensures GetBool(body, key) == Some(true) <==> [116, 114, 117, 101] <= value
    ensures GetBool(body, key) == Some(false) <==> FALSE_TEXT <= value
  {
    hide GetBool, Find, Quoted;
    var front, gap, blanks :| ValueAt(body, front, key, gap, blanks, value);
    WrittenBoolRead(front, key, gap, blanks, value);
  }

  /** One message and one thing done. */
  function Does(m: Msg, what: Effect): seq<Event> { [Handled(m), Did(what)] }

  /** SERVO_CMD (0x0020): the command is absolute if and only if the mode that is read is
      "abs"; so it is when the client writes that mode, and a step with any other or none. */
  lemma ServoEffect(m: Msg, picture: bool)
    requires m.typ == 0x0020
    ensures Happened(m, picture) == Does(m, PushServo(GetString(m.payload, MODE) == Some(ABS), m.payload))
    ensures forall mode {:trigger HoldsString(m.payload, MODE, mode)} :: HoldsString(m.payload, MODE, mode) ==>
              Happened(m, picture) == Does(m, PushServo(Soften(mode) == ABS, m.payload))
    ensures Lacks(m.payload, MODE) ==> Happened(m, picture) == Does(m, PushServo(false, m.payload))
  {
    KeysAre();
    hide Ascii, GetString, GetBool, Find, HoldsString, Soften;
    forall mode | HoldsString(m.payload, MODE, mode)
      ensures GetString(m.payload, MODE) == Some(Soften(mode))
    {
      StringHeld(m.payload, MODE, mode);
    }
    if Lacks(m.payload, MODE) { AbsentRead(m.payload, MODE); }
    assert Happened(m, picture) == Does(m, PushServo(GetString(m.payload, MODE) == Some(ABS), m.payload));
  }

  /** MODE_CMD (0x0021): tracking is switched on by true, off by false, and on if the value is absent. */
  lemma ModeEffect(m: Msg, picture: bool)
    requires m.typ == 0x0021
    ensures forall value: Buf {:trigger Holds(m.payload, AUTO_TRACK, value)} :: Holds(m.payload, AUTO_TRACK, value) ==>
              Happened(m, picture) == Does(m, PushMode(!(FALSE_TEXT <= value)))
    ensures Lacks(m.payload, AUTO_TRACK) ==> Happened(m, picture) == Does(m, PushMode(true))
  {
    KeysAre();
    hide Ascii, GetString, GetBool, Find, Holds;
    var on := GetBool(m.payload, AUTO_TRACK) != Some(false);
    assert Happened(m, picture) == Does(m, PushMode(on));
    forall value: Buf | Holds(m.payload, AUTO_TRACK, value)
      ensures on == !(FALSE_TEXT <= value)
    {
      BoolHeld(m.payload, AUTO_TRACK, value);
    }
    if Lacks(m.payload, AUTO_TRACK) { AbsentRead(m.payload, AUTO_TRACK); }
  }

  /** FILE_GET_REQ (0x0032): the named file is sent; without a name nothing is. */
  lemma FileGetEffect(m: Msg, picture: bool)
    requires m.typ == 0x0032
    ensures forall name {:trigger HoldsString(m.payload, NAME, name)} :: HoldsString(m.payload, NAME, name) ==>
              Happened(m, picture) == Does(m, SendFile(Soften(name)))
    ensures Lacks(m.payload, NAME) ==> Happened(m, picture) == [Handled(m)]
  {
    KeysAre();
    hide Ascii, GetString, GetBool, Find, HoldsString, Soften;
    var got := GetString(m.payload, NAME);
    assert got.Some? ==> Happened(m, picture) == Does(m, SendFile(got.value));
    forall name | HoldsString(m.payload, NAME, name)
      ensures got == Some(Soften(name))
    {
      StringHeld(m.payload, NAME, name);
    }
    if Lacks(m.payload, NAME) { AbsentRead(m.payload, NAME); }
  }

  /** FILE_DELETE_REQ (0x0034): the named file is to go; without a name none is. */
  lemma FileDeleteEffect(m: Msg, picture: bool)
    requires m.typ == 0x0034
    ensures forall name {:trigger HoldsString(m.payload, NAME, name)} :: HoldsString(m.payload, NAME, name) ==>
              Happened(m, picture) == Does(m, Delete(Some(Soften(name))))
    ensures Lacks(m.payload, NAME) ==> Happened(m, picture) == Does(m, Delete(None))
  {
    KeysAre();
    hide Ascii, GetString, GetBool, Find, HoldsString, Soften;
    var got := GetString(m.payload, NAME);
    assert Happened(m, picture) == Does(m, Delete(got));
    forall name | HoldsString(m.payload, NAME, name)
      ensures got == Some(Soften(name))
    {
      StringHeld(m.payload, NAME, name);
    }
    if Lacks(m.payload, NAME) { AbsentRead(m.payload, NAME); }
  }

  /** FILE_LIST_REQ (0x0030) is answered with the list; SNAPSHOT_REQ (0x0040) too, after a
      snapshot if there is a picture; a message of any other type does nothing. */
  lemma OtherEffects(m: Msg, picture: bool)
    ensures m.typ == 0x0030 ==> Happened(m, picture) == Does(m, SendFileList)
    ensures m.typ == 0x0040 && picture ==> Happened(m, picture) == [Handled(m), Did(TakeSnapshot), Did(SendFileList)]
    ensures m.typ == 0x0040 && !picture ==> Happened(m, picture) == Does(m, SendFileList)
    ensures m.typ !in {0x0020, 0x0021, 0x0030, 0x0032, 0x0034, 0x0040} ==> Happened(m, picture) == [Handled(m)]
  {
    hide Ascii, GetString, GetBool, Find;
  }

  // ---- over whole runs ----------------------------------------------------------------------

  /** The log without what concerns frames. */
  function Story(log: seq<Event>): seq<Event> {
    if log == [] then []
    else
      var e := log[|log| - 1];
      Story(log[..|log| - 1]) + (if e.Handled? || e.Did? then [e] else [])
  }

  /** Some messages, each followed by all that it makes a session do; `held[i]` says
      whether the hub holds a picture at the `i`-th. */
  function Told(ms: seq<Msg>, held: seq<bool>): seq<Event>
    requires |held| == |ms|
  {
    if ms == [] then []
    else Told(ms[..|ms| - 1], held[..|ms| - 1]) + Happened(ms[|ms| - 1], held[|ms| - 1])
  }

  /** The log is the story of the messages handled. */
  ghost predicate Faithful(log: seq<Event>) {
    exists held: seq<bool> :: |held| == |HandledIn(log)| && Story(log) == Told(HandledIn(log), held)
  }

  lemma {:induction false} StoryAppend(a: seq<Event>, b: seq<Event>)
    ensures Story(a + b) == Story(a) + Story(b)
    decreases |b|
  {
    if b == [] {
      assert a + b == a;
    } else {
      assert (a + b)[..|a + b| - 1] == a + b[..|b| - 1];
      StoryAppend(a, b[..|b| - 1]);
    }
  }

  lemma {:induction false} NoFrames(es: seq<Event>)
    requires forall e :: e in es ==> e.Handled? || e.Did?
    ensures Story(es) == es
    decreases |es|
  {
    if es != [] {
      assert es[|es| - 1] in es;
      NoFrames(es[..|es| - 1]);
    }
  }

  lemma {:induction false} AllHappened(ms: seq<Msg>, pictures: nat -> bool)
    ensures forall e :: e in HappenedAll(ms, pictures) ==> e.Handled? || e.Did?
    ensures HappenedAll(ms, pictures) == Told(ms, seq(|ms|, i requires 0 <= i < |ms| => pictures(i)))
    decreases |ms|
  {
    hide EffectsOf;
    if ms != [] {
      var n := |ms| - 1;
      AllHappened(ms[..n], pictures);
      assert seq(|ms|, i requires 0 <= i < |ms| => pictures(i))[..n] == seq(n, i requires 0 <= i < n => pictures(i));
    }
  }

  lemma {:induction false} ToldAppend(a: seq<Msg>, heldA: seq<bool>, b: seq<Msg>, heldB: seq<bool>)
    requires |heldA| == |a| && |heldB| == |b|
    ensures Told(a + b, heldA + heldB) == Told(a, heldA) + Told(b, heldB)
    decreases |b|
  {
    hide Happened;
    if b == [] {
      assert a + b == a && heldA + heldB == heldA;
    } else {
      var n, m := |a + b| - 1, |b| - 1;
      assert (a + b)[..n] == a + b[..m] && (heldA + heldB)[..n] == heldA + heldB[..m];
      ToldAppend(a, heldA, b[..m], heldB[..m]);
    }
  }

  lemma FrameEvent(log: seq<Event>, e: Event)
    requires Faithful(log) && (e.Attempt? || e.Pushed?)
    ensures Faithful(log + [e])
  {
    hide Told;
    var held: seq<bool> :| |held| == |HandledIn(log)| && Story(log) == Told(HandledIn(log), held);
    assert (log + [e])[..|log|] == log;
    assert HandledIn(log + [e]) == HandledIn(log) && Story(log + [e]) == Story(log);
  }

  lemma PushFaithful(s: Loop, t: Tick)
    requires Faithful(s.log)
    ensures Faithful(PushFrame(s, t).log)
  {
    hide Faithful;
    FrameEvent(s.log, Attempt(t.frameMs));
    if IsNew(s, t.hub) { FrameEvent(s.log + [Attempt(t.frameMs)], Pushed(t.hub.value)); }
  }

  lemma MoreHappened(log: seq<Event>, ms: seq<Msg>, pictures: nat -> bool)
    requires Faithful(log)
    ensures Faithful(log + HappenedAll(ms, pictures))
  {
    hide Told, Story, HandledIn, HappenedAll;
    var held: seq<bool> :| |held| == |HandledIn(log)| && Story(log) == Told(HandledIn(log), held);
    var more := seq(|ms|, i requires 0 <= i < |ms| => pictures(i));
    HandledAppend(log, HappenedAll(ms, pictures));
    HandledInAll(ms, pictures);
    StoryAppend(log, HappenedAll(ms, pictures));
    AllHappened(ms, pictures);
    NoFrames(HappenedAll(ms, pictures));
    ToldAppend(HandledIn(log), held, ms, more);
    assert |held + more| == |HandledIn(log + HappenedAll(ms, pictures))|;
  }

  lemma TurnFaithful(s: Loop, t: Tick)
    requires Faithful(s.log)
    ensures Faithful(Turn(s, t).log)
  {
    hide Faithful, PushFrame, HappenedAll, ParseFrom;
    PushFaithful(s, t);
    if t.polled.Readable? {
      var got, pictures := t.polled.got, t.polled.pictures;
      if got.Got? { MoreHappened(s.log, ParseFrom(Sess(s.token, s.authed, []), s.rx + got.bytes).s.handled, pictures); }
      PushFaithful(Read(s, got, pictures), t);
    }
  }

  lemma {:induction false} TurnsFaithful(s: Loop, ts: seq<Tick>)
    requires Faithful(s.log)
    ensures Faithful(Turns(s, ts).log)
    decreases |ts|
  {
    hide Faithful, Turn;
    if ts != [] {
      TurnFaithful(s, ts[0]);
      TurnsFaithful(Turn(s, ts[0]), ts[1..]);
    }
  }

  /** In every run, whatever its reads, polls, clocks and sockets do, the session does exactly
      what the messages it has handled make it do, each at its place and nothing else. */
  lemma EffectsFollow(token: Buf, startMs: nat, interval: nat, ts: seq<Tick>) returns (held: seq<bool>)
    ensures var log := Turns(Begin(token, startMs, interval), ts).log;
            |held| == |HandledIn(log)| && Story(log) == Told(HandledIn(log), held)
  {
    hide Turns, HandledIn, Story, Told;
    var log := Turns(Begin(token, startMs, interval), ts).log;
    assert Faithful([]) by { NothingTold(); }
    TurnsFaithful(Begin(token, startMs, interval), ts);
    held :| |held| == |HandledIn(log)| && Story(log) == Told(HandledIn(log), held);
  }

  lemma NothingTold()
    ensures Faithful([])
  {
    assert Told([], []) == [] && |HandledIn([])| == 0;
  }
}
