/**
 What the frame loop of `SampleApplication::run` does, as a list of actions.  What the callbacks and
 the window system do in each frame is an input; a run is followed for as many frames as are given.
 */
module FrameLoop {
  import opened Options
  import opened OsWindow

  /** One pass of the loop: how many events `step` takes itself, who calls `exit()`, what arrives. */
  datatype Frame = Frame(taken: nat, stepExits: bool, drawExits: bool, arrivals: seq<Event>)

  datatype Action = Stepped | Drained(event: Event) | Drew | Swapped | Pumped | AppDestroyed | GlDestroyed | OsDestroyed

  const TEARDOWN := [AppDestroyed, GlDestroyed, OsDestroyed]

  function Left(q: seq<Event>, f: Frame): seq<Event> {
    if f.taken <= |q| then q[f.taken..] else []
  }

  function Drains(q: seq<Event>): seq<Action> {
    seq(|q|, i requires 0 <= i < |q| => Drained(q[i]))
  }

  /** The frame ends before drawing. */
  predicate Stops(q: seq<Event>, f: Frame) {
    f.stepExits || Closed in Left(q, f)
  }

  function FrameActions(q: seq<Event>, f: Frame): seq<Action> {
    [Stepped] + Drains(Left(q, f)) + (if Stops(q, f) then [] else [Drew, Swapped, Pumped])
  }

  /** What the loop does, starting from queue q. */
  function LoopActions(q: seq<Event>, frames: seq<Frame>): seq<Action>
    decreases |frames|
  {
    if frames == [] then []
    else if Stops(q, frames[0]) || frames[0].drawExits then FrameActions(q, frames[0])
    else FrameActions(q, frames[0]) + LoopActions(frames[0].arrivals, frames[1..])
  }

  predicate LoopEnds(q: seq<Event>, frames: seq<Frame>)
    decreases |frames|
  {
    frames != [] && (Stops(q, frames[0]) || frames[0].drawExits || LoopEnds(frames[0].arrivals, frames[1..]))
  }

  /** What the application's `initialize()` returns, and whether it calls `exit()`. */
  datatype Initialization = Initialization(result: bool, exits: bool)

  predicate Enters(i: Initialization) {
    i.result && !i.exits
  }

  /** Everything after the GL context is there; without a loop, only the teardown. */
  function RunActions(q: seq<Event>, i: Initialization, frames: seq<Frame>): seq<Action> {
    if !Enters(i) then TEARDOWN
    else LoopActions(q, frames) + (if LoopEnds(q, frames) then TEARDOWN else [])
  }

  function Result(q: seq<Event>, i: Initialization, frames: seq<Frame>): Option<int> {
    if !i.result then Some(-1)
    else if i.exits || LoopEnds(q, frames) then Some(0)
    else None
  }

  // ----- what the actions mean, said about the frames and their queues

  /** What is in the queue when frame k begins. */
  ghost function QueueAt(q: seq<Event>, frames: seq<Frame>, k: nat): seq<Event>
    requires k < |frames|
  {
    if k == 0 then q else frames[k - 1].arrivals
  }

  /** In frame k `step` calls `exit()`, or leaves a close event in the queue. */
  ghost predicate Quits(q: seq<Event>, frames: seq<Frame>, k: nat)
    requires k < |frames|
  {
    || frames[k].stepExits
    || exists i :: frames[k].taken <= i < |QueueAt(q, frames, k)| && QueueAt(q, frames, k)[i] == Closed
  }

  ghost predicate Ends(q: seq<Event>, frames: seq<Frame>, k: nat)
    requires k < |frames|
  {
    Quits(q, frames, k) || frames[k].drawExits
  }

  /** The loop begins exactly the first n frames: none but the last of them ends it. */
  ghost predicate BeginsFrames(q: seq<Event>, frames: seq<Frame>, n: nat) {
    && n <= |frames| && (forall k :: 0 <= k < n - 1 ==> !Ends(q, frames, k))
    && (n == |frames| || (n > 0 && Ends(q, frames, n - 1)))
  }

  ghost function Count(log: seq<Action>, a: Action): nat {
    multiset(log)[a]
  }

  /** How many of the n frames draw: all, unless the last one is left before. */
  ghost function Drawn(q: seq<Event>, frames: seq<Frame>, n: nat): nat
    requires n <= |frames|
  {
    if n > 0 && Quits(q, frames, n - 1) then n - 1 else n
  }

  /** The events that `step` leaves in frame k. */
  ghost function Unprocessed(q: seq<Event>, frames: seq<Frame>, k: nat): seq<Event>
    requires k < |frames|
  {
    var e := QueueAt(q, frames, k);
    if frames[k].taken <= |e| then e[frames[k].taken..] else []
  }

  /** The events left in the first n frames, one frame after the other. */
  ghost function AllUnprocessed(q: seq<Event>, frames: seq<Frame>, n: nat): seq<Event>
    requires n <= |frames|
  {
    if n == 0 then [] else AllUnprocessed(q, frames, n - 1) + Unprocessed(q, frames, n - 1)
  }

  ghost function DrainedEvents(log: seq<Action>): seq<Event> {
    if log == [] then []
    else if log[0].Drained? then [log[0].event] + DrainedEvents(log[1..])
    else DrainedEvents(log[1..])
  }

  lemma QuitsIffStops(q: seq<Event>, frames: seq<Frame>)
    requires frames != []
    ensures Quits(q, frames, 0) <==> Stops(q, frames[0])
    ensures Unprocessed(q, frames, 0) == Left(q, frames[0])
  {
    var f, left := frames[0], Left(q, frames[0]);
    assert QueueAt(q, frames, 0) == q;
    if i :| f.taken <= i < |q| && q[i] == Closed {
      assert left[i - f.taken] == Closed;
    }
    if Closed in left {
      var j :| 0 <= j < |left| && left[j] == Closed;
      assert QueueAt(q, frames, 0)[f.taken + j] == Closed;
    }
  }

  /** Later frames do not depend on how the first one began. */
  lemma ShiftFrame(q: seq<Event>, frames: seq<Frame>, k: nat)
    requires 0 < k < |frames|
    ensures QueueAt(frames[0].arrivals, frames[1..], k - 1) == QueueAt(q, frames, k)
    ensures Quits(frames[0].arrivals, frames[1..], k - 1) <==> Quits(q, frames, k)
    ensures Ends(frames[0].arrivals, frames[1..], k - 1) <==> Ends(q, frames, k)
    ensures Unprocessed(frames[0].arrivals, frames[1..], k - 1) == Unprocessed(q, frames, k)
  {
  }

  lemma {:induction false} ShiftUnprocessed(q: seq<Event>, frames: seq<Frame>, n: nat)
    requires 0 < n <= |frames|
    ensures AllUnprocessed(q, frames, n)
         == Unprocessed(q, frames, 0) + AllUnprocessed(frames[0].arrivals, frames[1..], n - 1)
  {
    hide Unprocessed;
    if n == 1 {
      assert AllUnprocessed(q, frames, 0) == [];
    } else {
      ShiftUnprocessed(q, frames, n - 1);
      ShiftFrame(q, frames, n - 1);
    }
  }

  lemma ShiftBegins(q: seq<Event>, frames: seq<Frame>, n: nat)
    requires frames != [] && !Ends(q, frames, 0) && BeginsFrames(frames[0].arrivals, frames[1..], n)
    ensures BeginsFrames(q, frames, n + 1)
    ensures Drawn(q, frames, n + 1) == 1 + Drawn(frames[0].arrivals, frames[1..], n)
    ensures (n > 0 && Ends(frames[0].arrivals, frames[1..], n - 1)) <==> Ends(q, frames, n)
  {
    hide Ends, Quits;
    forall k: nat | 0 < k < |frames|
      ensures Ends(frames[0].arrivals, frames[1..], k - 1) <==> Ends(q, frames, k)
    {
      ShiftFrame(q, frames, k);
    }
    if n == 0 {
      NotQuits(q, frames);
    } else {
      ShiftFrame(q, frames, n);
    }
  }

  lemma NotQuits(q: seq<Event>, frames: seq<Frame>)
    requires frames != [] && !Ends(q, frames, 0)
    ensures !Quits(q, frames, 0)
  {
  }

  lemma CountConcat(a: seq<Action>, b: seq<Action>, x: Action)
    ensures Count(a + b, x) == Count(a, x) + Count(b, x)
  {
  }

  lemma CountDrains(q: seq<Event>, x: Action)
    requires !x.Drained?
    ensures Count(Drains(q), x) == 0
  {
    assert x !in Drains(q);
  }

  lemma FrameCounts(q: seq<Event>, f: Frame, x: Action)
    requires x == Stepped || x == Drew || x == Swapped || x == Pumped
    ensures Count(FrameActions(q, f), x) == if x == Stepped || !Stops(q, f) then 1 else 0
  {
    hide Drains, Count;
    var rest := if Stops(q, f) then [] else [Drew, Swapped, Pumped];
    CountConcat([Stepped] + Drains(Left(q, f)), rest, x);
    CountConcat([Stepped], Drains(Left(q, f)), x);
    CountDrains(Left(q, f), x);
    FewActions(x);
  }

  lemma FewActions(x: Action)
    requires x == Stepped || x == Drew || x == Swapped || x == Pumped
    ensures Count([], x) == 0
    ensures Count([Stepped], x) == if x == Stepped then 1 else 0
    ensures Count([Drew, Swapped, Pumped], x) == if x == Stepped then 0 else 1
  {
  }

  /**
   A loop steps once in every frame it begins, and draws, swaps and pumps messages once in every one of
   them in which neither `step` exits nor a close event is left.  It ends exactly in a frame that does
   not draw or whose drawing exits.
   */
  lemma {:induction false} LoopCounts(q: seq<Event>, frames: seq<Frame>) returns (n: nat)
    ensures BeginsFrames(q, frames, n)
    ensures Count(LoopActions(q, frames), Stepped) == n
    ensures Count(LoopActions(q, frames), Drew) == Drawn(q, frames, n)
    ensures Count(LoopActions(q, frames), Swapped) == Drawn(q, frames, n)
    ensures Count(LoopActions(q, frames), Pumped) == Drawn(q, frames, n)
    ensures DrainedEvents(LoopActions(q, frames)) == AllUnprocessed(q, frames, n)
    ensures LoopEnds(q, frames) <==> n > 0 && Ends(q, frames, n - 1)
    decreases |frames|
  {
    hide FrameActions, Stops, Quits, Unprocessed, Count;
    if frames == [] {
      n := 0;
      EmptyLog();
    } else {
      var f := frames[0];
      var first := FrameActions(q, f);
      QuitsIffStops(q, frames);
      FrameCounts(q, f, Stepped);
      FrameCounts(q, f, Drew);
      FrameCounts(q, f, Swapped);
      FrameCounts(q, f, Pumped);
      FrameDrains(q, f);
      if Ends(q, frames, 0) {
        n := 1;
        assert AllUnprocessed(q, frames, 0) == [];
      } else {
        var rest := LoopActions(f.arrivals, frames[1..]);
        var m := LoopCounts(f.arrivals, frames[1..]);
        n := m + 1;
        ShiftBegins(q, frames, m);
        ShiftUnprocessed(q, frames, n);
        DrainedConcat(first, rest);
        CountConcat(first, rest, Stepped);
        CountConcat(first, rest, Drew);
        CountConcat(first, rest, Swapped);
        CountConcat(first, rest, Pumped);
      }
    }
  }

  lemma EmptyLog()
    ensures forall x :: Count([], x) == 0
  {
  }

  lemma {:induction false} DrainedConcat(a: seq<Action>, b: seq<Action>)
    ensures DrainedEvents(a + b) == DrainedEvents(a) + DrainedEvents(b)
  {
    if a == [] {
      assert a + b == b;
    } else {
      DrainedConcat(a[1..], b);
      assert (a + b)[0] == a[0] && (a + b)[1..] == a[1..] + b;
    }
  }

  lemma {:induction false} DrainedDrains(q: seq<Event>)
    ensures DrainedEvents(Drains(q)) == q
  {
    if q == [] {
    } else {
      assert Drains(q)[1..] == Drains(q[1..]);
      DrainedDrains(q[1..]);
    }
  }

  lemma FrameDrains(q: seq<Event>, f: Frame)
    ensures DrainedEvents(FrameActions(q, f)) == Left(q, f)
  {
    hide Drains, Stops;
    var rest := if Stops(q, f) then [] else [Drew, Swapped, Pumped];
    DrainedConcat([Stepped] + Drains(Left(q, f)), rest);
    DrainedConcat([Stepped], Drains(Left(q, f)));
    DrainedDrains(Left(q, f));
    NothingDrained();
  }

  lemma NothingDrained()
    ensures DrainedEvents([]) == DrainedEvents([Stepped]) == DrainedEvents([Drew, Swapped, Pumped]) == []
  {
    assert [Drew, Swapped, Pumped][1..] == [Swapped, Pumped] && [Swapped, Pumped][1..] == [Pumped];
  }

  /** A frame begins by stepping, swaps right after drawing, and pumps messages right after swapping. */
  lemma {:induction false} LoopOrder(q: seq<Event>, frames: seq<Frame>, i: nat)
    requires i < |LoopActions(q, frames)|
    ensures var log := LoopActions(q, frames);
      && (log[i] == Stepped <==> i == 0 || log[i - 1] == Pumped)
      && (log[i] == Swapped <==> i > 0 && log[i - 1] == Drew)
      && (log[i] == Pumped <==> i > 0 && log[i - 1] == Swapped)
    decreases |frames|
  {
    var f := frames[0];
    var first := FrameActions(q, f);
    var rest := LoopActions(f.arrivals, frames[1..]);
    if i == |first| {
      assert LoopActions(q, frames)[i] == rest[0];
      assert rest[0] == FrameActions(f.arrivals, frames[1..][0])[0];
    } else if i > |first| {
      LoopOrder(f.arrivals, frames[1..], i - |first|);
    }
  }

  /** Once the drain loop has popped a close event, the loop neither draws nor swaps again. */
  lemma {:induction false} NoDrawAfterClose(q: seq<Event>, frames: seq<Frame>, i: nat, j: nat)
    requires i < j < |LoopActions(q, frames)| && LoopActions(q, frames)[i] == Drained(Closed)
    ensures LoopActions(q, frames)[j] != Drew && LoopActions(q, frames)[j] != Swapped
    decreases |frames|
  {
    var f := frames[0];
    var first := FrameActions(q, f);
    if i < |first| {
      ClosedInFrame(q, f, i);
    } else {
      NoDrawAfterClose(f.arrivals, frames[1..], i - |first|, j - |first|);
    }
  }

  lemma ClosedInFrame(q: seq<Event>, f: Frame, i: nat)
    requires i < |FrameActions(q, f)| && FrameActions(q, f)[i] == Drained(Closed)
    ensures Stops(q, f)
    ensures forall j :: 0 <= j < |FrameActions(q, f)| ==>
              FrameActions(q, f)[j] != Drew && FrameActions(q, f)[j] != Swapped
  {
    assert Left(q, f)[i - 1] == Closed;
  }

  /** The loop swaps exactly after drawing. */
  lemma {:induction false} SwapFollowsDraw(q: seq<Event>, frames: seq<Frame>, i: nat)
    requires i < |LoopActions(q, frames)|
    ensures LoopActions(q, frames)[i] == Drew
       <==> i + 1 < |LoopActions(q, frames)| && LoopActions(q, frames)[i + 1] == Swapped
    decreases |frames|
  {
    var f := frames[0];
    var first := FrameActions(q, f);
    if i >= |first| {
      SwapFollowsDraw(f.arrivals, frames[1..], i - |first|);
    } else if i == |first| - 1 && !Stops(q, f) && !f.drawExits {
      var rest := LoopActions(f.arrivals, frames[1..]);
      if rest != [] {
        assert rest[0] == FrameActions(f.arrivals, frames[1..][0])[0];
      }
    }
  }

  // ----- the whole run

  ghost predicate EndsWithTeardown(all: seq<Action>) {
    |all| >= 3 && all[|all| - 3..] == [AppDestroyed, GlDestroyed, OsDestroyed]
  }

  /** Whether the loop is reached at all, and whether it then ends, having begun n frames. */
  ghost predicate Finishes(q: seq<Event>, i: Initialization, frames: seq<Frame>, n: nat)
    requires n <= |frames|
  {
    !i.result || i.exits || (n > 0 && Ends(q, frames, n - 1))
  }

  /**
   What a run with an initialised window does, when the loop begins n frames: -1 exactly if
   `initialize()` failed; one step per frame begun, one draw, swap and pump per frame drawn, none at
   all if `initialize()` failed or called `exit()`; and at the end a teardown, application first.
   */
  ghost predicate RunsAs(q: seq<Event>, i: Initialization, frames: seq<Frame>, n: nat,
                         all: seq<Action>, result: Option<int>) {
    && BeginsFrames(q, frames, n)
    && (result == Some(-1) <==> !i.result)
    && (result == Some(0) <==> i.result && Finishes(q, i, frames, n))
    && (result.None? <==> !Finishes(q, i, frames, n))
    && (var enters := i.result && !i.exits;
        && Count(all, Stepped) == (if enters then n else 0)
        && Count(all, Drew) == (if enters then Drawn(q, frames, n) else 0)
        && Count(all, Swapped) == (if enters then Drawn(q, frames, n) else 0)
        && Count(all, Pumped) == (if enters then Drawn(q, frames, n) else 0)
        && DrainedEvents(all) == if enters then AllUnprocessed(q, frames, n) else [])
    && (result.Some? ==> EndsWithTeardown(all))
  }

  lemma RunMeans(q: seq<Event>, i: Initialization, frames: seq<Frame>) returns (n: nat)
    ensures RunsAs(q, i, frames, n, RunActions(q, i, frames), Result(q, i, frames))
  {
    hide LoopActions, LoopEnds, Ends, Count, DrainedEvents, BeginsFrames, Drawn, AllUnprocessed;
    n := LoopCounts(q, frames);
    Bounded(q, frames, n);
    var loop := if Enters(i) then LoopActions(q, frames) else [];
    var end := if Result(q, i, frames).Some? then TEARDOWN else [];
    assert RunActions(q, i, frames) == loop + end;
    EmptyLog();
    NothingDrained();
    DrainedConcat(loop, end);
    TeardownQuiet();
    CountConcat(loop, end, Stepped);
    CountConcat(loop, end, Drew);
    CountConcat(loop, end, Swapped);
    CountConcat(loop, end, Pumped);
  }

  lemma Bounded(q: seq<Event>, frames: seq<Frame>, n: nat)
    requires BeginsFrames(q, frames, n)
    ensures n <= |frames|
  {
  }

  lemma TeardownQuiet()
    ensures Count(TEARDOWN, Stepped) == Count(TEARDOWN, Drew) == 0
    ensures Count(TEARDOWN, Swapped) == Count(TEARDOWN, Pumped) == 0
    ensures DrainedEvents(TEARDOWN) == []
  {
    assert TEARDOWN[1..] == [GlDestroyed, OsDestroyed] && [GlDestroyed, OsDestroyed][1..] == [OsDestroyed];
  }
}
