/** The registry of client sessions, and the accept loops that share it. Sessions
    are known by the order in which their threads were started. */
module Registry {
  import opened Wrappers

  /** The sessions that are still running. */
  function Live(entries: seq<nat>, finished: set<nat>): seq<nat> {
    if entries == [] then []
    else
      var last := entries[|entries| - 1];
      Live(entries[..|entries| - 1], finished) + (if last in finished then [] else [last])
  }

  /** The sessions that have ended, in registry order. */
  function Ended(entries: seq<nat>, finished: set<nat>): seq<nat> {
    if entries == [] then []
    else
      var last := entries[|entries| - 1];
      Ended(entries[..|entries| - 1], finished) + (if last in finished then [last] else [])
  }

  lemma ReapNone(finished: set<nat>)
    ensures Live([], finished) == [] && Ended([], finished) == []
  {
  }

  lemma ReapOne(front: seq<nat>, x: nat, finished: set<nat>)
    ensures Live(front + [x], finished) == Live(front, finished) + (if x in finished then [] else [x])
    ensures Ended(front + [x], finished) == Ended(front, finished) + (if x in finished then [x] else [])
  {
    assert (front + [x])[..|front|] == front;
  }

  /** The registry as an object; every method is one step under its lock. `joined`
      records the threads joined, in order. */
  class ClientRegistry {
    var entries: seq<nat>
    var clientCount: int
    var joined: seq<nat>

    constructor ()
      ensures entries == [] && clientCount == 0 && joined == []
    {
      entries, clientCount, joined := [], 0, [];
    }

    method Adopt(session: nat)
      modifies this
      ensures entries == old(entries) + [session] && joined == old(joined) && clientCount == |entries|
    {
      entries := entries + [session];
      clientCount := |entries|;
    }

    /** Joins and removes the sessions whose loop has returned. */
    method ReapFinished(finished: set<nat>)
      modifies this
      ensures entries == Live(old(entries), finished)
      ensures joined == old(joined) + Ended(old(entries), finished)
      ensures clientCount == |entries|
    {
      hide Live, Ended;
      assert Live([], finished) == [] && Ended([], finished) == [] by { ReapNone(finished); }
      var it := 0;
      ghost var done := 0;
      while it < |entries|
        invariant it <= |entries| && done <= |old(entries)|
        invariant entries[..it] == Live(old(entries)[..done], finished)
        invariant entries[it..] == old(entries)[done..]
        invariant joined == old(joined) + Ended(old(entries)[..done], finished)
        decreases |entries| - it
      {
        assert entries[it] == entries[it..][0] == old(entries)[done];
        assert old(entries)[..done + 1] == old(entries)[..done] + [old(entries)[done]];
        ReapOne(old(entries)[..done], old(entries)[done], finished);
        assert entries[it..][1..] == old(entries)[done + 1..];
        if entries[it] in finished {
          joined := joined + [entries[it]];
          ghost var was := entries;
          entries := entries[..it] + entries[it + 1..];
          assert entries[..it] == was[..it] && entries[it..] == was[it + 1..];
        } else {
          assert entries[..it + 1] == entries[..it] + [entries[it]];
          it := it + 1;
        }
        done := done + 1;
      }
      assert entries[..it] == entries && old(entries)[..done] == old(entries);
      clientCount := |entries|;
    }

    /** Joins every session and clears the registry. */
    method StopAll()
      modifies this
      ensures entries == [] && joined == old(joined) + old(entries) && clientCount == 0
    {
      for i := 0 to |entries|
        invariant entries == old(entries) && joined == old(joined) + entries[..i]
      {
        joined := joined + [entries[i]];
      }
      entries := [];
      clientCount := 0;
    }

    method Count() returns (n: int)
      ensures n == |entries|
    {
      n := |entries|;
    }
  }

  // ---- the accept loops, interleaved -----------------------------------------------

  /** The registry, the accept loops (each idle, or holding the session it has started
      and not yet handed over), the sessions that have ended, and the number started. */
  datatype System = System(
    entries: seq<nat>, clientCount: int, joined: seq<nat>,
    loops: seq<Option<nat>>, finished: set<nat>, started: nat)

  function Boot(k: nat): System { System([], 0, [], seq(k, i => None), {}, 0) }

  /** The atomic steps: a loop checks the count and, below the cap, starts a session;
      a loop hands its session over; a session ends; some loop reaps; `stopAll` asks
      all sessions in the registry to stop, joins them and clears it. */
  datatype Step = Check(loop: nat) | Adopt(loop: nat) | Finish(session: nat) | Reap | Stop

  function Take(s: System, a: Step, maxClients: nat): System {
    match a
    case Check(i) =>
      if i < |s.loops| && s.loops[i].None? && |s.entries| < maxClients then
        s.(loops := s.loops[i := Some(s.started)], started := s.started + 1)
      else s
    case Adopt(i) =>
      if i < |s.loops| && s.loops[i].Some? then
        s.(entries := s.entries + [s.loops[i].value], clientCount := |s.entries| + 1, loops := s.loops[i := None])
      else s
    case Finish(id) => if id < s.started then s.(finished := s.finished + {id}) else s
    case Reap =>
      var live := Live(s.entries, s.finished);
      s.(entries := live, clientCount := |live|, joined := s.joined + Ended(s.entries, s.finished))
    case Stop =>
      s.(entries := [], clientCount := 0, joined := s.joined + s.entries,
         finished := s.finished + (set id | id in s.entries))
  }

  function TakeAll(s: System, steps: seq<Step>, maxClients: nat): System
    decreases |steps|
  {
    if steps == [] then s else TakeAll(Take(s, steps[0], maxClients), steps[1..], maxClients)
  }

  /** How many loops hold a session that is not yet in the registry. */
  function Waiting(loops: seq<Option<nat>>): nat {
    if loops == [] then 0 else Waiting(loops[..|loops| - 1]) + (if loops[|loops| - 1].Some? then 1 else 0)
  }

  lemma {:induction false} WaitingBound(loops: seq<Option<nat>>)
    ensures Waiting(loops) <= |loops|
  {
    if loops != [] { WaitingBound(loops[..|loops| - 1]); }
  }

  lemma {:induction false} WaitingUpdate(loops: seq<Option<nat>>, i: nat, v: Option<nat>)
    requires i < |loops|
    ensures Waiting(loops[i := v]) == Waiting(loops) - (if loops[i].Some? then 1 else 0) + (if v.Some? then 1 else 0)
    decreases |loops|
  {
    var n := |loops| - 1;
    if i == n {
      assert loops[i := v][..n] == loops[..n];
    } else {
      assert loops[i := v][..n] == loops[..n][i := v];
      WaitingUpdate(loops[..n], i, v);
    }
  }

  lemma {:induction false} LiveShorter(entries: seq<nat>, finished: set<nat>)
    ensures |Live(entries, finished)| <= |entries|
  {
    if entries != [] { LiveShorter(entries[..|entries| - 1], finished); }
  }

  predicate WithinCap(s: System, maxClients: nat) {
    |s.entries| + Waiting(s.loops) <= maxClients + |s.loops| - 1 && s.clientCount == |s.entries|
  }

  lemma TakeWithinCap(s: System, a: Step, maxClients: nat)
    requires WithinCap(s, maxClients) && |s.loops| >= 1 && maxClients >= 1
    ensures WithinCap(Take(s, a, maxClients), maxClients) && |Take(s, a, maxClients).loops| == |s.loops|
  {
    match a
    case Check(i) =>
      if i < |s.loops| {
        WaitingUpdate(s.loops, i, Some(s.started));
        WaitingBound(s.loops[i := Some(s.started)]);
      }
    case Adopt(i) => if i < |s.loops| { WaitingUpdate(s.loops, i, None); }
    case Finish(id) =>
    case Reap => LiveShorter(s.entries, s.finished);
    case Stop => WaitingBound(s.loops);
  }

  lemma {:induction false} TakeAllWithinCap(s: System, steps: seq<Step>, maxClients: nat)
    requires WithinCap(s, maxClients) && |s.loops| >= 1 && maxClients >= 1
    ensures WithinCap(TakeAll(s, steps, maxClients), maxClients) && |TakeAll(s, steps, maxClients).loops| == |s.loops|
    decreases |steps|
  {
    hide Take, WithinCap;
    if steps != [] {
      TakeWithinCap(s, steps[0], maxClients);
      TakeAllWithinCap(Take(s, steps[0], maxClients), steps[1..], maxClients);
    }
  }

  lemma {:induction false} NobodyWaits(loops: seq<Option<nat>>)
    requires forall i :: 0 <= i < |loops| ==> loops[i].None?
    ensures Waiting(loops) == 0
    decreases |loops|
  {
    if loops != [] { NobodyWaits(loops[..|loops| - 1]); }
  }

  /** The cap over whole runs: with `k` accept loops the registry never holds more
      than the configured number of clients plus `k - 1`, and the published count is
      always the number of entries. */
  lemma CapUnderInterleaving(k: nat, steps: seq<Step>, maxClients: nat)
    requires k >= 1 && maxClients >= 1
    ensures var s := TakeAll(Boot(k), steps, maxClients);
            |s.entries| <= maxClients + k - 1 && s.clientCount == |s.entries|
  {
    hide TakeAll;
    NobodyWaits(Boot(k).loops);
    TakeAllWithinCap(Boot(k), steps, maxClients);
  }

  // ---- the bound is reached -----------------------------------------------------------

  lemma {:induction false} TakeAllAppend(s: System, a: seq<Step>, b: seq<Step>, maxClients: nat)
    ensures TakeAll(s, a + b, maxClients) == TakeAll(TakeAll(s, a, maxClients), b, maxClients)
    decreases |a|
  {
    hide Take;
    if a == [] {
      assert a + b == b;
    } else {
      assert (a + b)[1..] == a[1..] + b;
      TakeAllAppend(Take(s, a[0], maxClients), a[1..], b, maxClients);
    }
  }

  /** The first loop alone brings `n` clients in, one after the other. */
  lemma {:induction false} FillOneByOne(k: nat, n: nat, maxClients: nat) returns (steps: seq<Step>)
    requires k >= 1 && n <= maxClients
    ensures var s := TakeAll(Boot(k), steps, maxClients);
            |s.entries| == n && s.loops == seq(k, i => None)
  {
    if n == 0 {
      steps := [];
    } else {
      var front := FillOneByOne(k, n - 1, maxClients);
      steps := front + [Check(0), Adopt(0)];
      var s := TakeAll(Boot(k), front, maxClients);
      TakeAllAppend(Boot(k), front, [Check(0), Adopt(0)], maxClients);
      TwoSteps(s, Check(0), Adopt(0), maxClients);
      assert s.loops[0 := Some(s.started)][0 := None] == s.loops;
    }
  }

  lemma TwoSteps(s: System, a: Step, b: Step, maxClients: nat)
    ensures TakeAll(s, [a, b], maxClients) == Take(Take(s, a, maxClients), b, maxClients)
  {
    hide Take;
    assert [a, b] == [a] + [b];
    TakeAllAppend(s, [a], [b], maxClients);
    OneStep(s, a, maxClients);
    OneStep(Take(s, a, maxClients), b, maxClients);
  }

  lemma OneStep(s: System, a: Step, maxClients: nat)
    ensures TakeAll(s, [a], maxClients) == Take(s, a, maxClients)
  {
    hide Take;
    assert [a][1..] == [];
    assert TakeAll(Take(s, a, maxClients), [], maxClients) == Take(s, a, maxClients);
  }

  /** The first `j` loops check one after the other before any of them hands over. */
  lemma {:induction false} CheckAll(s: System, j: nat, maxClients: nat) returns (steps: seq<Step>)
    requires j <= |s.loops| && |s.entries| < maxClients && forall i :: 0 <= i < |s.loops| ==> s.loops[i].None?
    ensures var r := TakeAll(s, steps, maxClients);
            && r.entries == s.entries && |r.loops| == |s.loops|
            && forall i :: 0 <= i < |s.loops| ==> r.loops[i].Some? == (i < j)
    decreases j
  {
    if j == 0 {
      steps := [];
    } else {
      var front := CheckAll(s, j - 1, maxClients);
      steps := front + [Check(j - 1)];
      TakeAllAppend(s, front, [Check(j - 1)], maxClients);
      OneStep(TakeAll(s, front, maxClients), Check(j - 1), maxClients);
    }
  }

  /** The first `j` loops hand over one after the other. */
  lemma {:induction false} AdoptAll(s: System, j: nat, maxClients: nat) returns (steps: seq<Step>)
    requires j <= |s.loops| && forall i :: 0 <= i < |s.loops| ==> s.loops[i].Some?
    ensures var r := TakeAll(s, steps, maxClients);
            && |r.entries| == |s.entries| + j && |r.loops| == |s.loops|
            && forall i :: j <= i < |s.loops| ==> r.loops[i].Some?
    decreases j
  {
    if j == 0 {
      steps := [];
    } else {
      var front := AdoptAll(s, j - 1, maxClients);
      steps := front + [Adopt(j - 1)];
      TakeAllAppend(s, front, [Adopt(j - 1)], maxClients);
      OneStep(TakeAll(s, front, maxClients), Adopt(j - 1), maxClients);
    }
  }

  /** The bound is tight: some interleaving of `k` loops reaches it. */
  lemma CapIsTight(k: nat, maxClients: nat) returns (steps: seq<Step>)
    requires k >= 1 && maxClients >= 1
    ensures |TakeAll(Boot(k), steps, maxClients).entries| == maxClients + k - 1
  {
    hide TakeAll, Take;
    var fill := FillOneByOne(k, maxClients - 1, maxClients);
    var s := TakeAll(Boot(k), fill, maxClients);
    var check := CheckAll(s, k, maxClients);
    var t := TakeAll(s, check, maxClients);
    var adopt := AdoptAll(t, k, maxClients);
    TakeAllAppend(Boot(k), fill, check, maxClients);
    TakeAllAppend(Boot(k), fill + check, adopt, maxClients);
    steps := fill + check + adopt;
  }

  /** So the configured number of clients is a cap in every run exactly when there is
      only one accept loop. */
  lemma CapHoldsIff(k: nat, maxClients: nat)
    requires k >= 1 && maxClients >= 1
    ensures (forall steps :: |TakeAll(Boot(k), steps, maxClients).entries| <= maxClients) <==> k == 1
  {
    hide TakeAll;
    if k == 1 {
      forall steps
        ensures |TakeAll(Boot(k), steps, maxClients).entries| <= maxClients
      {
        CapUnderInterleaving(k, steps, maxClients);
      }
    } else {
      var steps := CapIsTight(k, maxClients);
      assert |TakeAll(Boot(k), steps, maxClients).entries| > maxClients;
    }
  }

  // ---- reaping ------------------------------------------------------------------------

  lemma {:induction false} LiveIff(entries: seq<nat>, finished: set<nat>, id: nat)
    ensures id in Live(entries, finished) <==> id in entries && id !in finished
    ensures id in Ended(entries, finished) <==> id in entries && id in finished
    decreases |entries|
  {
    if entries != [] {
      var front, last := entries[..|entries| - 1], entries[|entries| - 1];
      assert entries == front + [last];
      LiveIff(front, finished, id);
    }
  }

  /** In every run, a reap leaves exactly the sessions that have not ended, joins exactly
      those that have, and makes room: a free loop then starts a session whenever fewer
      than the configured number of sessions are still running. */
  lemma ReapRemovesFinished(k: nat, steps: seq<Step>, maxClients: nat, id: nat, loop: nat)
    ensures var s, t := TakeAll(Boot(k), steps, maxClients), TakeAll(Boot(k), steps + [Reap], maxClients);
            && (id in t.entries <==> id in s.entries && id !in s.finished)
            && |t.joined| >= |s.joined| && t.joined[..|s.joined|] == s.joined
            && (id in t.joined[|s.joined|..] <==> id in s.entries && id in s.finished)
            && t.clientCount == |t.entries|
            && (loop < |t.loops| && t.loops[loop].None? && |t.entries| < maxClients ==>
                  Take(t, Check(loop), maxClients).loops[loop] == Some(t.started))
  {
    hide TakeAll, Live, Ended;
    var s := TakeAll(Boot(k), steps, maxClients);
    TakeAllAppend(Boot(k), steps, [Reap], maxClients);
    OneStep(s, Reap, maxClients);
    LiveIff(s.entries, s.finished, id);
  }

  // ---- joining -------------------------------------------------------------------------

  function One(o: Option<nat>): multiset<nat> {
    if o.Some? then multiset{o.value} else multiset{}
  }

  /** The sessions the loops are holding. */
  function Held(loops: seq<Option<nat>>): multiset<nat> {
    if loops == [] then multiset{} else Held(loops[..|loops| - 1]) + One(loops[|loops| - 1])
  }

  /** All sessions ever started, each once. */
  function Started(n: nat): multiset<nat> {
    if n == 0 then multiset{} else Started(n - 1) + multiset{n - 1}
  }

  /** Every session ever started is in exactly one place: held by a loop, in the registry, or joined. */
  predicate Accounted(s: System) {
    multiset(s.entries) + multiset(s.joined) + Held(s.loops) == Started(s.started)
  }

  lemma {:induction false} HeldUpdate(loops: seq<Option<nat>>, i: nat, v: Option<nat>)
    requires i < |loops|
    ensures Held(loops[i := v]) + One(loops[i]) == Held(loops) + One(v)
    decreases |loops|
  {
    hide One;
    var n := |loops| - 1;
    var front, last := loops[..n], loops[n];
    if i == n {
      assert loops[i := v][..n] == front;
    } else {
      assert loops[i := v][..n] == front[i := v] && loops[i := v][n] == last;
      HeldUpdate(front, i, v);
      assert Held(loops[i := v]) == Held(front[i := v]) + One(last);
      Shuffle(Held(front[i := v]), Held(front), One(last), One(front[i]), One(v));
    }
  }

  lemma Shuffle(x: multiset<nat>, y: multiset<nat>, l: multiset<nat>, p: multiset<nat>, q: multiset<nat>)
    requires x + p == y + q
    ensures (x + l) + p == (y + l) + q
  {
    forall e
      ensures ((x + l) + p)[e] == ((y + l) + q)[e]
    {
      assert (x + p)[e] == (y + q)[e];
    }
  }

  lemma {:induction false} LiveAndEnded(entries: seq<nat>, finished: set<nat>)
    ensures multiset(Live(entries, finished)) + multiset(Ended(entries, finished)) == multiset(entries)
    decreases |entries|
  {
    if entries != [] {
      var front, x := entries[..|entries| - 1], entries[|entries| - 1];
      LiveAndEnded(front, finished);
      assert entries == front + [x];
      hide Live, Ended;
      ReapOne(front, x, finished);
      var live, ended := Live(front, finished), Ended(front, finished);
      AddOne(live, x);
      AddOne(ended, x);
      AddOne(front, x);
      Added(multiset(live), multiset(ended), multiset(front), multiset{x});
    }
  }

  lemma AddOne(s: seq<nat>, x: nat)
    ensures multiset(s + [x]) == multiset(s) + multiset{x} && s + [] == s
  {
  }

  lemma Added(l: multiset<nat>, e: multiset<nat>, t: multiset<nat>, x: multiset<nat>)
    requires l + e == t
    ensures (l + x) + e == t + x && l + (e + x) == t + x
  {
    var all := l + e;
    assert (l + x) + e == all + x;
    assert l + (e + x) == all + x;
  }

  /** Moving part of what is in one place to another changes no total. */
  lemma Moved(e: multiset<nat>, j: multiset<nat>, h: multiset<nat>, t: multiset<nat>, x: multiset<nat>)
    requires e + j + h == t
    ensures e + j + (h + x) == t + x
    ensures x <= h ==> (e + x) + j + (h - x) == t
    ensures x <= e ==> (e - x) + (j + x) + h == t
  {
    var all := e + j + h;
    if x <= h { assert (e + x) + j + (h - x) == all; }
    if x <= e { assert (e - x) + (j + x) + h == all; }
  }

  lemma CheckAccounted(s: System, i: nat, maxClients: nat)
    requires Accounted(s) && i < |s.loops| && s.loops[i].None?
    ensures Accounted(s.(loops := s.loops[i := Some(s.started)], started := s.started + 1))
  {
    HeldUpdate(s.loops, i, Some(s.started));
    StartedMore(s.started);
    hide Held, Started;
    Moved(multiset(s.entries), multiset(s.joined), Held(s.loops), Started(s.started), multiset{s.started});
    assert Held(s.loops[i := Some(s.started)]) == Held(s.loops) + multiset{s.started};
  }

  lemma AdoptAccounted(s: System, i: nat)
    requires Accounted(s) && i < |s.loops| && s.loops[i].Some?
    ensures Accounted(s.(entries := s.entries + [s.loops[i].value], clientCount := |s.entries| + 1,
                         loops := s.loops[i := None]))
  {
    HeldUpdate(s.loops, i, None);
    hide Held, Started;
    var x := multiset{s.loops[i].value};
    assert Held(s.loops[i := None]) + x == Held(s.loops);
    assert Held(s.loops) - x == Held(s.loops[i := None]);
    Moved(multiset(s.entries), multiset(s.joined), Held(s.loops), Started(s.started), x);
    assert multiset(s.entries + [s.loops[i].value]) == multiset(s.entries) + x;
  }

  lemma ReapAccounted(s: System, maxClients: nat)
    requires Accounted(s)
    ensures Accounted(Take(s, Reap, maxClients))
  {
    hide Held, Started, Live, Ended;
    LiveAndEnded(s.entries, s.finished);
    var ended := multiset(Ended(s.entries, s.finished));
    assert multiset(s.entries) - ended == multiset(Live(s.entries, s.finished));
    assert multiset(s.joined + Ended(s.entries, s.finished)) == multiset(s.joined) + ended;
    Moved(multiset(s.entries), multiset(s.joined), Held(s.loops), Started(s.started), ended);
  }

  lemma StopAccounted(s: System, maxClients: nat)
    requires Accounted(s)
    ensures Accounted(Take(s, Stop, maxClients))
  {
    hide Held, Started;
    var all := multiset(s.entries);
    assert multiset(s.joined + s.entries) == multiset(s.joined) + all;
    assert all - all == multiset{} == multiset([]);
    Moved(all, multiset(s.joined), Held(s.loops), Started(s.started), all);
  }

  lemma TakeAccounted(s: System, a: Step, maxClients: nat)
    requires Accounted(s)
    ensures Accounted(Take(s, a, maxClients))
  {
    hide Accounted, Live, Ended;
    match a
    case Check(i) => if i < |s.loops| && s.loops[i].None? { CheckAccounted(s, i, maxClients); }
    case Adopt(i) => if i < |s.loops| && s.loops[i].Some? { AdoptAccounted(s, i); }
    case Finish(id) => FinishAccounted(s, id, maxClients);
    case Reap => ReapAccounted(s, maxClients);
    case Stop => StopAccounted(s, maxClients);
  }

  lemma FinishAccounted(s: System, id: nat, maxClients: nat)
    requires Accounted(s)
    ensures Accounted(Take(s, Finish(id), maxClients))
  {
  }

  lemma StartedMore(n: nat)
    ensures Started(n + 1) == Started(n) + multiset{n}
  {
  }

  lemma {:induction false} TakeAllAccounted(s: System, steps: seq<Step>, maxClients: nat)
    requires Accounted(s)
    ensures Accounted(TakeAll(s, steps, maxClients))
    decreases |steps|
  {
    hide Take, Accounted;
    if steps != [] {
      TakeAccounted(s, steps[0], maxClients);
      TakeAllAccounted(Take(s, steps[0], maxClients), steps[1..], maxClients);
    }
  }

  lemma {:induction false} NobodyHeld(loops: seq<Option<nat>>)
    requires forall i :: 0 <= i < |loops| ==> loops[i].None?
    ensures Held(loops) == multiset{}
    decreases |loops|
  {
    if loops != [] { NobodyHeld(loops[..|loops| - 1]); }
  }

  lemma {:induction false} StartedOnce(n: nat, id: nat)
    ensures Started(n)[id] == if id < n then 1 else 0
  {
    if n > 0 { StartedOnce(n - 1, id); }
  }

  /** Shutdown: the accept loops have ended, so that none holds a session, and
      `stopAll` runs. The registry is then empty and every session thread that was ever
      started has been joined, each exactly once; the `stopAll` of the destructor finds
      nothing left to do. */
  lemma EveryThreadJoinedOnce(k: nat, steps: seq<Step>, maxClients: nat, id: nat)
    requires forall o :: o in TakeAll(Boot(k), steps, maxClients).loops ==> o.None?
    ensures var s := TakeAll(Boot(k), steps + [Stop], maxClients);
            && s.entries == [] && s.clientCount == 0
            && multiset(s.joined)[id] == (if id < s.started then 1 else 0)
            && Take(s, Stop, maxClients) == s
  {
    hide TakeAll, Take;
    var s := TakeAll(Boot(k), steps, maxClients);
    TakeAllAppend(Boot(k), steps, [Stop], maxClients);
    OneStep(s, Stop, maxClients);
    NobodyHeld(Boot(k).loops);
    TakeAllAccounted(Boot(k), steps + [Stop], maxClients);
    AfterStop(s, maxClients);
    NobodyHeld(s.loops);
    StartedOnce(s.started, id);
  }

  lemma AfterStop(s: System, maxClients: nat)
    ensures var t := Take(s, Stop, maxClients);
            && t.entries == [] && t.clientCount == 0 && t.loops == s.loops && t.started == s.started
            && Take(t, Stop, maxClients) == t
  {
    var t := Take(s, Stop, maxClients);
    assert t.joined + [] == t.joined;
    assert t.finished + (set id | id in t.entries) == t.finished;
  }
}
