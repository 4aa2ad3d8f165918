/** The shape shared by the drain loops of the program: a buffer that grows by
    whatever the socket delivers, and a loop that takes whole items off its front
    until the next item is incomplete or the loop gives up. */
module Streaming {
  import opened Bytes

  /** What one turn of a drain loop does: wait for more bytes, take an item off
      the front and go on, or stop for good. */
  datatype Next<S> =
    | Wait
    | Go(s: S, used: nat)
    | Halt(s: S, used: nat)

  /** Where a drain loop has got to: its state, the bytes left over, and whether it has stopped for good. */
  datatype Outcome<S> = Outcome(s: S, rest: Buf, halted: bool)

  /** A turn is incremental when it stays within the buffer, takes at least one
      byte whenever it goes on, and never changes its mind when more bytes arrive. */
  ghost predicate Incremental<S(!new)>(next: (S, Buf) -> Next<S>) {
    && (forall s, a ::
          && (next(s, a).Go? ==> 0 < next(s, a).used <= |a|)
          && (next(s, a).Halt? ==> next(s, a).used <= |a|))
    && (forall s, a, b {:trigger next(s, a + b)} ::
          !next(s, a).Wait? ==> next(s, a + b) == next(s, a))
  }

  /** A turn at the front of `a` and at the front of `a + b`. */
  lemma Stable<S(!new)>(next: (S, Buf) -> Next<S>, s: S, a: Buf, b: Buf)
    requires Incremental(next)
    ensures next(s, a).Go? ==> 0 < next(s, a).used <= |a|
    ensures next(s, a).Halt? ==> next(s, a).used <= |a|
    ensures !next(s, a).Wait? ==> next(s, a + b) == next(s, a)
  {
  }

  /** The drain loop run to its end on one buffer. */
  ghost function Run<S(!new)>(next: (S, Buf) -> Next<S>, s: S, buf: Buf): (o: Outcome<S>)
    requires Incremental(next)
    ensures |o.rest| <= |buf| && o.rest == buf[|buf| - |o.rest|..]
    ensures !o.halted ==> next(o.s, o.rest).Wait?
    decreases |buf|
  {
    Stable(next, s, buf, []);
    match next(s, buf)
    case Wait => Outcome(s, buf, false)
    case Halt(t, used) => Outcome(t, buf[used..], true)
    case Go(t, used) => Run(next, t, buf[used..])
  }

  /** Draining `a` and then, once `b` has been appended, draining again comes to
      the same as draining `a + b` at once. */
  lemma {:induction false} RunSplit<S(!new)>(next: (S, Buf) -> Next<S>, s: S, a: Buf, b: Buf)
    requires Incremental(next)
    ensures var o := Run(next, s, a);
            Run(next, s, a + b) == if o.halted then Outcome(o.s, o.rest + b, true) else Run(next, o.s, o.rest + b)
    decreases |a|
  {
    Stable(next, s, a, b);
    match next(s, a)
    case Wait =>
    case Halt(t, used) =>
      assert (a + b)[used..] == a[used..] + b;
    case Go(t, used) =>
      assert (a + b)[used..] == a[used..] + b;
      RunSplit(next, t, a[used..], b);
  }

  /** A loop that keeps reading: each piece is appended to what was left over and
      drained; after the loop has stopped nothing more is read. */
  ghost function Feed<S(!new)>(next: (S, Buf) -> Next<S>, o: Outcome<S>, pieces: seq<Buf>): Outcome<S>
    requires Incremental(next)
    decreases |pieces|
  {
    if pieces == [] || o.halted then o
    else Feed(next, Run(next, o.s, o.rest + pieces[0]), pieces[1..])
  }

  /** However a stream is cut, reading it piece by piece leaves the same state
      and the same verdict as reading it whole, and the same bytes left over
      unless the loop stopped. */
  lemma {:induction false} FeedIsRun<S(!new)>(next: (S, Buf) -> Next<S>, s: S, left: Buf, pieces: seq<Buf>)
    requires Incremental(next)
    requires next(s, left).Wait?
    ensures var fed := Feed(next, Outcome(s, left, false), pieces);
            var whole := Run(next, s, left + Flatten(pieces));
            && fed.s == whole.s
            && fed.halted == whole.halted
            && (!whole.halted ==> fed.rest == whole.rest)
    decreases |pieces|
  {
    if pieces == [] {
      assert left + Flatten(pieces) == left;
    } else {
      var first, others := left + pieces[0], Flatten(pieces[1..]);
      var o := Run(next, s, first);
      assert left + Flatten(pieces) == first + others;
      RunSplit(next, s, first, others);
      if !o.halted {
        FeedIsRun(next, o.s, o.rest, pieces[1..]);
      }
    }
  }

  /** Two ways of cutting one stream cannot be told apart. */
  lemma CutsDoNotMatter<S(!new)>(next: (S, Buf) -> Next<S>, s: S, cut1: seq<Buf>, cut2: seq<Buf>)
    requires Incremental(next) && next(s, []).Wait?
    requires Flatten(cut1) == Flatten(cut2)
    ensures var o1, o2 := Feed(next, Outcome(s, [], false), cut1), Feed(next, Outcome(s, [], false), cut2);
            o1.s == o2.s && o1.halted == o2.halted && (!o1.halted ==> o1.rest == o2.rest)
  {
    FeedIsRun(next, s, [], cut1);
    FeedIsRun(next, s, [], cut2);
  }
}
