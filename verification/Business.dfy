/** The business loop: commands from the clients, manual override, and automatic
    tracking, while sessions go on pushing commands. */
module Business {
  import opened Tracker

  /** A command on its way from a session to the loop. */
  datatype Command = ServoStep(pan: real, tilt: real) | ServoAbs(pan: real, tilt: real) | SetMode(autoTrack: bool)

  /** The queue between sessions and the loop; each operation is one step under its lock. */
  class CommandQueue {
    var q: seq<Command>

    /** Everything ever pushed, in order. */
    ghost var pushed: seq<Command>

    constructor ()
      ensures q == [] && pushed == []
    {
      q, pushed := [], [];
    }

    method Push(c: Command)
      modifies this
      ensures q == old(q) + [c] && pushed == old(pushed) + [c]
    {
      q := q + [c];
      pushed := pushed + [c];
    }

    /** Takes the oldest command, if there is one. */
    method TryPop() returns (ok: bool, c: Command)
      modifies this`q
      ensures ok == (old(q) != [])
      ensures ok ==> old(q) == [c] + q
      ensures !ok ==> q == old(q)
    {
      if q == [] { return false, SetMode(true); }
      ok, c := true, q[0];
      q := q[1..];
    }
  }

  /** The variables of the loop and the tracker's angles. */
  datatype Control = Control(autoEnabled: bool, manualUntil: nat, angles: Angles)

  /** A command and the time at which the loop applied it. */
  datatype Applied = Applied(c: Command, at: nat)

  /** One command applied; only servo commands read the clock. */
  function Apply(s: Control, a: Applied, overrideMs: nat, p: Params): Control
    requires Proper(p)
  {
    match a.c
    case ServoStep(pan, tilt) => Control(s.autoEnabled, a.at + overrideMs, AfterNudge(s.angles, pan, tilt, p))
    case ServoAbs(pan, tilt) => Control(s.autoEnabled, a.at + overrideMs, AfterSet(pan, tilt, p))
    case SetMode(on) => Control(on, if on then 0 else s.manualUntil, s.angles)
  }

  function ApplyAll(s: Control, h: seq<Applied>, overrideMs: nat, p: Params): Control
    requires Proper(p)
  {
    if h == [] then s else Apply(ApplyAll(s, h[..|h| - 1], overrideMs, p), h[|h| - 1], overrideMs, p)
  }

  predicate EffectiveAuto(s: Control, now: nat) { s.autoEnabled && now >= s.manualUntil }

  // ---- sessions and the loop, interleaved ------------------------------------------------

  /** The queue, the loop's variables, whether the loop is draining the queue or about
      to decide, the published tracking status; and the past: everything pushed,
      everything applied, and how much had been pushed when the queue was last found empty. */
  datatype System = System(
    q: seq<Command>, control: Control, draining: bool, autoTrack: bool,
    pushed: seq<Command>, applied: seq<Applied>, seen: nat)

  /** The atomic steps: some session pushes; the loop pops and applies what it popped,
      or finds the queue empty; the loop decides whether to track. */
  datatype Step = Push(c: Command) | Pop(at: nat) | Decide(now: nat, s: Snapshot)

  function Take(s: System, a: Step, overrideMs: nat, p: Params): System
    requires Proper(p)
  {
    match a
    case Push(c) => s.(q := s.q + [c], pushed := s.pushed + [c])
    case Pop(at) =>
      if !s.draining then s
      else if s.q == [] then s.(draining := false, seen := |s.pushed|)
      else
        var one := Applied(s.q[0], at);
        s.(q := s.q[1..], control := Apply(s.control, one, overrideMs, p), applied := s.applied + [one])
    case Decide(now, snapshot) =>
      if s.draining then s
      else
        var auto := EffectiveAuto(s.control, now);
        var after := if auto then s.control.(angles := AfterAuto(s.control.angles, snapshot, p)) else s.control;
        s.(control := after, draining := true, autoTrack := auto)
  }

  function TakeAll(s: System, steps: seq<Step>, overrideMs: nat, p: Params): System
    requires Proper(p)
  {
    if steps == [] then s else Take(TakeAll(s, steps[..|steps| - 1], overrideMs, p), steps[|steps| - 1], overrideMs, p)
  }

  /** When the loop begins: the queue is empty and tracking is on. */
  function Boot(start: Angles): System { System([], Control(true, 0, start), true, true, [], [], 0) }

  /** The commands pushed by some steps, in order. */
  function Pushes(steps: seq<Step>): seq<Command> {
    if steps == [] then []
    else
      var last := steps[|steps| - 1];
      Pushes(steps[..|steps| - 1]) + (if last.Push? then [last.c] else [])
  }

  /** The loop's readings of the clock, in order. */
  function Readings(steps: seq<Step>): seq<nat> {
    if steps == [] then []
    else
      var last := steps[|steps| - 1];
      Readings(steps[..|steps| - 1]) + (match last case Push(_) => [] case Pop(at) => [at] case Decide(now, _) => [now])
  }

  /** A clock that never goes back. */
  predicate Monotone(ts: seq<nat>) { forall i, j :: 0 <= i < j < |ts| ==> ts[i] <= ts[j] }

  function Commands(h: seq<Applied>): seq<Command> { seq(|h|, i requires 0 <= i < |h| => h[i].c) }

  lemma TakeMore(s: System, steps: seq<Step>, a: Step, overrideMs: nat, p: Params)
    requires Proper(p)
    ensures TakeAll(s, steps + [a], overrideMs, p) == Take(TakeAll(s, steps, overrideMs, p), a, overrideMs, p)
  {
    assert (steps + [a])[..|steps|] == steps;
  }

  lemma {:induction false} TakeAllAppend(s: System, a: seq<Step>, b: seq<Step>, overrideMs: nat, p: Params)
    requires Proper(p)
    ensures TakeAll(s, a + b, overrideMs, p) == TakeAll(TakeAll(s, a, overrideMs, p), b, overrideMs, p)
    decreases |b|
  {
    hide Take;
    if b == [] {
      assert a + b == a;
    } else {
      assert (a + b)[..|a + b| - 1] == a + b[..|b| - 1];
      TakeAllAppend(s, a, b[..|b| - 1], overrideMs, p);
    }
  }

  // ---- the loop's object --------------------------------------------------------------------

  function PushSteps(cs: seq<Command>): seq<Step> { seq(|cs|, i requires 0 <= i < |cs| => Push(cs[i])) }

  /** What sessions push just before the `i`-th pop of a drain. */
  function Batch(pushes: seq<seq<Command>>, i: nat): seq<Command> { if i < |pushes| then pushes[i] else [] }

  /** How many commands sessions will still push from the `i`-th pop on. */
  function Coming(pushes: seq<seq<Command>>, i: nat): nat
    decreases |pushes| - i
  {
    if i >= |pushes| then 0 else |pushes[i]| + Coming(pushes, i + 1)
  }

  /** The steps of a drain with `n` pops, the `i`-th one at time `clock(i)`. */
  function DrainSteps(pushes: seq<seq<Command>>, clock: nat -> nat, n: nat): seq<Step> {
    if n == 0 then [] else DrainSteps(pushes, clock, n - 1) + PushSteps(Batch(pushes, n - 1)) + [Pop(clock(n - 1))]
  }

  lemma {:induction false} PushStepsTaken(s: System, cs: seq<Command>, overrideMs: nat, p: Params)
    requires Proper(p)
    ensures TakeAll(s, PushSteps(cs), overrideMs, p) == s.(q := s.q + cs, pushed := s.pushed + cs)
    decreases |cs|
  {
    if cs == [] {
      assert s.q + cs == s.q && s.pushed + cs == s.pushed;
    } else {
      var front, c := cs[..|cs| - 1], cs[|cs| - 1];
      assert PushSteps(cs)[..|cs| - 1] == PushSteps(front);
      PushStepsTaken(s, front, overrideMs, p);
      assert (s.q + front) + [c] == s.q + cs && (s.pushed + front) + [c] == s.pushed + cs;
    }
  }

  /** One more turn of the drain. */
  lemma DrainStep(s: System, pushes: seq<seq<Command>>, clock: nat -> nat, n: nat, overrideMs: nat, p: Params)
    requires Proper(p)
    ensures var t, cs := TakeAll(s, DrainSteps(pushes, clock, n), overrideMs, p), Batch(pushes, n);
            TakeAll(s, DrainSteps(pushes, clock, n + 1), overrideMs, p)
            == Take(t.(q := t.q + cs, pushed := t.pushed + cs), Pop(clock(n)), overrideMs, p)
  {
    hide Take;
    var before, cs := DrainSteps(pushes, clock, n), Batch(pushes, n);
    TakeMore(s, before + PushSteps(cs), Pop(clock(n)), overrideMs, p);
    TakeAllAppend(s, before, PushSteps(cs), overrideMs, p);
    PushStepsTaken(TakeAll(s, before, overrideMs, p), cs, overrideMs, p);
  }

  lemma PopTaken(s: System, at: nat, overrideMs: nat, p: Params)
    requires Proper(p) && s.draining
    ensures s.q == [] ==> Take(s, Pop(at), overrideMs, p) == s.(draining := false, seen := |s.pushed|)
    ensures s.q != [] ==>
              var one := Applied(s.q[0], at);
              Take(s, Pop(at), overrideMs, p)
              == s.(q := s.q[1..], control := Apply(s.control, one, overrideMs, p), applied := s.applied + [one])
  {
  }

  /** The loop's object. The clock is a script of readings; the other threads are a
      script of what they push between its steps. */
  class BusinessThread {
    const tracker: PanTiltTracker
    const cmds: CommandQueue
    const manualOverrideMs: nat
    var autoEnabled: bool
    var manualUntil: nat
    var autoTrackStatus: bool
    ghost var draining: bool
    ghost var applied: seq<Applied>
    ghost var seen: nat

    constructor (tracker: PanTiltTracker, cmds: CommandQueue, manualOverrideMs: nat)
      requires cmds.q == cmds.pushed == []
      ensures this.tracker == tracker && this.cmds == cmds && this.manualOverrideMs == manualOverrideMs
      ensures View() == Boot(tracker.At())
    {
      this.tracker, this.cmds, this.manualOverrideMs := tracker, cmds, manualOverrideMs;
      autoEnabled, manualUntil, autoTrackStatus := true, 0, true;
      draining, applied, seen := true, [], 0;
    }

    ghost function View(): System
      reads this, tracker, cmds
    {
      System(cmds.q, Control(autoEnabled, manualUntil, tracker.At()), draining, autoTrackStatus,
             cmds.pushed, applied, seen)
    }

    /** What other threads push before the next step of this one. */
    method OthersPush(cs: seq<Command>)
      modifies cmds
      ensures cmds.q == old(cmds.q) + cs && cmds.pushed == old(cmds.pushed) + cs
    {
      for i := 0 to |cs|
        invariant cmds.q == old(cmds.q) + cs[..i] && cmds.pushed == old(cmds.pushed) + cs[..i]
      {
        cmds.Push(cs[i]);
      }
      assert cs[..|cs|] == cs;
    }

    /** One command applied. */
    method ApplyCommand(c: Command, now: nat)
      requires Proper(tracker.p)
      modifies this`autoEnabled, this`manualUntil, tracker
      ensures View().control == Apply(old(View()).control, Applied(c, now), manualOverrideMs, tracker.p)
    {
      match c {
        case ServoStep(pan, tilt) =>
          tracker.Nudge(pan, tilt);
          manualUntil := now + manualOverrideMs;
        case ServoAbs(pan, tilt) =>
          tracker.SetAbs(pan, tilt);
          manualUntil := now + manualOverrideMs;
        case SetMode(on) =>
          autoEnabled := on;
          if autoEnabled { manualUntil := 0; }
      }
    }

    /** Pops and applies commands until a pop finds the queue empty, while sessions
        push `pushes[i]` just before the `i`-th pop. */
    method DrainCommands(pushes: seq<seq<Command>>, clock: nat -> nat) returns (ghost pops: nat)
      requires Proper(tracker.p) && draining
      modifies this`autoEnabled, this`manualUntil, this`draining, this`applied, this`seen, tracker, cmds
      ensures View() == TakeAll(old(View()), DrainSteps(pushes, clock, pops), manualOverrideMs, tracker.p)
      ensures !draining && cmds.q == [] && seen == |cmds.pushed|
    {
      hide Apply, Take, TakeAll, DrainSteps, PushSteps;
      ghost var was, p := View(), tracker.p;
      var i := 0;
      NothingDrained(was, pushes, clock, manualOverrideMs, p);
      while true
        invariant draining && View() == TakeAll(was, DrainSteps(pushes, clock, i), manualOverrideMs, p)
        decreases |cmds.q| + Coming(pushes, i)
      {
        ghost var loop := View();
        DrainStep(was, pushes, clock, i, manualOverrideMs, p);
        if i < |pushes| { OthersPush(pushes[i]); }
        assert cmds.q == loop.q + Batch(pushes, i) && cmds.pushed == loop.pushed + Batch(pushes, i);
        PopTaken(View(), clock(i), manualOverrideMs, p);
        var more, c := cmds.TryPop();
        if !more {
          draining, seen := false, |cmds.pushed|;
          pops := i + 1;
          break;
        }
        ApplyCommand(c, clock(i));
        applied := applied + [Applied(c, clock(i))];
        i := i + 1;
      }
    }

    /** One turn of the loop; `late` is pushed after the drain and before the decision. */
    method TakeTurn(pushes: seq<seq<Command>>, late: seq<Command>, clock: nat -> nat, now: nat, s: Snapshot)
      returns (ghost pops: nat)
      requires Proper(tracker.p) && draining
      modifies this, tracker, cmds
      ensures View() == TakeAll(old(View()), DrainSteps(pushes, clock, pops) + PushSteps(late) + [Decide(now, s)],
                                manualOverrideMs, tracker.p)
      ensures draining && cmds.q == late
    {
      hide TakeAll, DrainSteps, PushSteps;
      ghost var was, p := View(), tracker.p;
      pops := DrainCommands(pushes, clock);
      ghost var drained := View();
      OthersPush(late);
      PushStepsTaken(drained, late, manualOverrideMs, p);
      TakeAllAppend(was, DrainSteps(pushes, clock, pops), PushSteps(late), manualOverrideMs, p);
      TakeMore(was, DrainSteps(pushes, clock, pops) + PushSteps(late), Decide(now, s), manualOverrideMs, p);
      var effectiveAuto := autoEnabled && now >= manualUntil;
      if effectiveAuto { tracker.UpdateAuto(s); }
      autoTrackStatus := effectiveAuto;
      draining := true;
    }
  }

  lemma NothingDrained(s: System, pushes: seq<seq<Command>>, clock: nat -> nat, overrideMs: nat, p: Params)
    requires Proper(p)
    ensures TakeAll(s, DrainSteps(pushes, clock, 0), overrideMs, p) == s
  {
  }

  // ---- commands in queue order ------------------------------------------------------------------

  /** Nothing is lost, doubled or overtaken; and between drain and decision everything
      that had been pushed when the queue was found empty has been applied. */
  predicate Accounted(s: System) {
    && Commands(s.applied) + s.q == s.pushed
    && s.seen <= |s.pushed|
    && (!s.draining ==> Commands(s.applied) == s.pushed[..s.seen])
  }

  lemma TakeAccounted(s: System, a: Step, overrideMs: nat, p: Params)
    requires Proper(p) && Accounted(s)
    ensures Accounted(Take(s, a, overrideMs, p))
    ensures Take(s, a, overrideMs, p).pushed == s.pushed + (if a.Push? then [a.c] else [])
  {
    hide Apply, AfterAuto;
    match a
    case Push(c) =>
      assert Commands(s.applied) + (s.q + [c]) == (Commands(s.applied) + s.q) + [c];
      assert (s.pushed + [c])[..s.seen] == s.pushed[..s.seen];
    case Pop(at) =>
      if s.draining && s.q != [] {
        var c, rest := s.q[0], s.q[1..];
        assert s.q == [c] + rest;
        assert Commands(s.applied + [Applied(c, at)]) == Commands(s.applied) + [c];
        assert (Commands(s.applied) + [c]) + rest == Commands(s.applied) + ([c] + rest);
      }
    case Decide(now, snapshot) =>
  }

  /** Queue order, for every interleaving of sessions and loop: the commands applied so
      far followed by those in the queue are exactly the commands pushed, in order. When
      the loop is about to decide, those applied are exactly the ones that had been
      pushed when it last found the queue empty. */
  lemma {:induction false} AppliedInOrder(start: Angles, steps: seq<Step>, overrideMs: nat, p: Params)
    requires Proper(p)
    ensures var s := TakeAll(Boot(start), steps, overrideMs, p);
            && Commands(s.applied) + s.q == s.pushed == Pushes(steps)
            && s.seen <= |s.pushed|
            && (!s.draining ==> Commands(s.applied) == s.pushed[..s.seen])
    decreases |steps|
  {
    hide Take, Commands;
    if steps == [] {
      assert Commands([]) == [] by { NoCommands(); }
    } else {
      AppliedInOrder(start, steps[..|steps| - 1], overrideMs, p);
      TakeAccounted(TakeAll(Boot(start), steps[..|steps| - 1], overrideMs, p), steps[|steps| - 1], overrideMs, p);
    }
  }

  lemma NoCommands()
    ensures Commands([]) == []
  {
  }

  // ---- the override history ----------------------------------------------------------

  predicate IsServo(c: Command) { c.ServoStep? || c.ServoAbs? }

  /** Commands were applied at times that never decrease, all by `now`. */
  predicate Timely(h: seq<Applied>, now: nat) {
    && (forall i :: 0 <= i < |h| ==> h[i].at <= now)
    && (forall i, j :: 0 <= i < j < |h| ==> h[i].at <= h[j].at)
  }

  /** The last mode command, if any, switched tracking on. */
  predicate LastModeIsOn(h: seq<Applied>) {
    h != [] ==> if h[|h| - 1].c.SetMode? then h[|h| - 1].c.autoTrack else LastModeIsOn(h[..|h| - 1])
  }

  /** Every servo command since tracking was last switched on is at least the override time old. */
  predicate ManualIsOver(h: seq<Applied>, now: nat, overrideMs: nat) {
    if h == [] then true
    else
      var last := h[|h| - 1];
      if last.c == SetMode(true) then true
      else (IsServo(last.c) ==> now >= last.at + overrideMs) && ManualIsOver(h[..|h| - 1], now, overrideMs)
  }

  /** Older servo commands are over when the newest one is. */
  lemma {:induction false} OlderIsOver(h: seq<Applied>, at: nat, now: nat, overrideMs: nat)
    requires (forall i :: 0 <= i < |h| ==> h[i].at <= at) && now >= at + overrideMs
    ensures ManualIsOver(h, now, overrideMs)
    decreases |h|
  {
    if h != [] { OlderIsOver(h[..|h| - 1], at, now, overrideMs); }
  }

  lemma {:induction false} AutoEnabledIs(s: Control, h: seq<Applied>, overrideMs: nat, p: Params)
    requires Proper(p) && s.autoEnabled
    ensures ApplyAll(s, h, overrideMs, p).autoEnabled == LastModeIsOn(h)
    decreases |h|
  {
    hide AfterNudge, AfterSet;
    if h != [] { AutoEnabledIs(s, h[..|h| - 1], overrideMs, p); }
  }

  lemma {:induction false} ManualUntilIs(s: Control, h: seq<Applied>, now: nat, overrideMs: nat, p: Params)
    requires Proper(p) && s.manualUntil == 0 && Timely(h, now)
    ensures now >= ApplyAll(s, h, overrideMs, p).manualUntil <==> ManualIsOver(h, now, overrideMs)
    decreases |h|
  {
    hide AfterNudge, AfterSet;
    if h != [] {
      var front, last := h[..|h| - 1], h[|h| - 1];
      ManualUntilIs(s, front, now, overrideMs, p);
      if IsServo(last.c) && now >= last.at + overrideMs {
        OlderIsOver(front, last.at, now, overrideMs);
      }
    }
  }

  predicate SameMode(a: Control, b: Control) { a.autoEnabled == b.autoEnabled && a.manualUntil == b.manualUntil }

  lemma TakeKeepsMode(s: System, a: Step, init: Control, overrideMs: nat, p: Params)
    requires Proper(p) && SameMode(s.control, ApplyAll(init, s.applied, overrideMs, p))
    ensures var t := Take(s, a, overrideMs, p); SameMode(t.control, ApplyAll(init, t.applied, overrideMs, p))
  {
    hide AfterAuto, AfterNudge, AfterSet;
    var t := Take(s, a, overrideMs, p);
    if t.applied != s.applied { assert t.applied[..|t.applied| - 1] == s.applied; }
  }

  /** Mode and override time are those of the commands applied, whatever was decided in between. */
  lemma {:induction false} ModeIsHistory(start: Angles, steps: seq<Step>, overrideMs: nat, p: Params)
    requires Proper(p)
    ensures var s := TakeAll(Boot(start), steps, overrideMs, p);
            SameMode(s.control, ApplyAll(Control(true, 0, start), s.applied, overrideMs, p))
    decreases |steps|
  {
    hide Take, Apply, SameMode;
    if steps == [] {
      assert SameMode(Control(true, 0, start), Control(true, 0, start)) by { SameAsItself(Control(true, 0, start)); }
    } else {
      var front, last := steps[..|steps| - 1], steps[|steps| - 1];
      ModeIsHistory(start, front, overrideMs, p);
      TakeKeepsMode(TakeAll(Boot(start), front, overrideMs, p), last, Control(true, 0, start), overrideMs, p);
    }
  }

  lemma SameAsItself(a: Control)
    ensures SameMode(a, a)
  {
  }

  /** With a clock that never goes back, commands were applied at times that never decrease. */
  lemma {:induction false} RunIsTimely(start: Angles, steps: seq<Step>, now: nat, overrideMs: nat, p: Params)
    requires Proper(p) && Monotone(Readings(steps) + [now])
    ensures Timely(TakeAll(Boot(start), steps, overrideMs, p).applied, now)
    decreases |steps|
  {
    hide Apply, AfterAuto;
    if steps != [] {
      var front, last := steps[..|steps| - 1], steps[|steps| - 1];
      var earlier, all := Readings(front), Readings(steps) + [now];
      var at := match last case Push(_) => now case Pop(at) => at case Decide(at, _) => at;
      forall i, j | 0 <= i < j < |earlier + [at]|
        ensures (earlier + [at])[i] <= (earlier + [at])[j]
      {
        assert (earlier + [at])[i] == all[i] && (earlier + [at])[j] == all[j];
      }
      assert at <= now by { assert all[|earlier|] == at && all[|all| - 1] == now; }
      RunIsTimely(start, front, at, overrideMs, p);
    }
  }

  /** The override history, for every interleaving of sessions and loop and with a
      clock that never goes back: the loop's decision is to track automatically if and
      only if the last mode command applied, if any, switched tracking on, and every
      servo command applied since tracking was last switched on is at least the override
      time old. The commands applied are, in order, exactly those that had been pushed
      when the queue was last found empty. */
  lemma TracksIff(start: Angles, steps: seq<Step>, now: nat, snapshot: Snapshot, overrideMs: nat, p: Params)
    requires Proper(p) && Monotone(Readings(steps) + [now])
    requires !TakeAll(Boot(start), steps, overrideMs, p).draining
    ensures var s := TakeAll(Boot(start), steps, overrideMs, p);
            var t := TakeAll(Boot(start), steps + [Decide(now, snapshot)], overrideMs, p);
            && s.seen <= |Pushes(steps)| && Commands(s.applied) == Pushes(steps)[..s.seen]
            && (t.autoTrack <==> LastModeIsOn(s.applied) && ManualIsOver(s.applied, now, overrideMs))
            && t.control.angles == (if t.autoTrack then AfterAuto(s.control.angles, snapshot, p) else s.control.angles)
  {
    hide Apply, AfterAuto, LastModeIsOn, ManualIsOver, Timely, TakeAll, Commands, Pushes;
    var s, init := TakeAll(Boot(start), steps, overrideMs, p), Control(true, 0, start);
    TakeMore(Boot(start), steps, Decide(now, snapshot), overrideMs, p);
    AppliedInOrder(start, steps, overrideMs, p);
    ModeIsHistory(start, steps, overrideMs, p);
    RunIsTimely(start, steps, now, overrideMs, p);
    AutoEnabledIs(init, s.applied, overrideMs, p);
    ManualUntilIs(init, s.applied, now, overrideMs, p);
  }

  /** What each command does when it is its turn: a step moves both axes by its amounts, an
      absolute command takes them there, each as near as the range allows, and both hold
      automatic tracking off for the override time; a mode command moves nothing. */
  lemma CommandDoes(s: System, at: nat, overrideMs: nat, p: Params)
    requires Proper(p) && s.draining && s.q != []
    ensures var c, was, now := s.q[0], s.control, Take(s, Pop(at), overrideMs, p).control;
            && (c.ServoStep? ==>
                  && Nearest(was.angles.pan + c.pan, p.panMin, p.panMax, now.angles.pan)
                  && Nearest(was.angles.tilt + c.tilt, p.tiltMin, p.tiltMax, now.angles.tilt))
            && (c.ServoAbs? ==>
                  && Nearest(c.pan, p.panMin, p.panMax, now.angles.pan)
                  && Nearest(c.tilt, p.tiltMin, p.tiltMax, now.angles.tilt))
            && (!c.SetMode? ==> now.manualUntil == at + overrideMs && now.autoEnabled == was.autoEnabled)
            && (c.SetMode? ==> now.angles == was.angles && now.autoEnabled == c.autoTrack)
    ensures Take(s, Pop(at), overrideMs, p).q == s.q[1..]
  {
    var c := s.q[0];
    hide AfterNudge, AfterSet, Nearest;
    if !c.SetMode? { OrdersObeyed(s.control.angles, c.pan, c.tilt, p); }
  }
}
