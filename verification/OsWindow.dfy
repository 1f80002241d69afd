/** The event queue of `OSWindow` in util/OSWindow.cpp, with the position and size it tracks. */
module OsWindow {
  import opened Options

  datatype Event = Closed | Moved(x: int, y: int) | Resized(width: int, height: int) | Test | Other(kind: nat)

  type Pair = (int, int)

  function Position(e: Event): Option<Pair> {
    if e.Moved? then Some((e.x, e.y)) else None
  }

  function Size(e: Event): Option<Pair> {
    if e.Resized? then Some((e.width, e.height)) else None
  }

  /** What the last event of a kind carries, zero before the first. */
  function Last(es: seq<Event>, part: Event -> Option<Pair>): Pair {
    if es == [] then (0, 0)
    else match part(es[|es| - 1])
      case Some(v) => v
      case None => Last(es[..|es| - 1], part)
  }

  lemma LastStep(es: seq<Event>, part: Event -> Option<Pair>, e: Event)
    ensures Last(es + [e], part) == if part(e).Some? then part(e).value else Last(es, part)
  {
    assert (es + [e])[..|es|] == es;
  }

  /** Index i is the last event that carries something. */
  ghost predicate IsLast(es: seq<Event>, part: Event -> Option<Pair>, i: nat) {
    i < |es| && part(es[i]).Some? && forall j :: i < j < |es| ==> part(es[j]).None?
  }

  lemma {:induction false} LastMeans(es: seq<Event>, part: Event -> Option<Pair>)
    ensures forall i: nat :: IsLast(es, part, i) ==> Last(es, part) == part(es[i]).value
    ensures (forall i: nat :: !IsLast(es, part, i)) ==>
              Last(es, part) == (0, 0) && forall e :: e in es ==> part(e).None?
  {
    if es == [] {
    } else {
      var n := |es| - 1;
      if part(es[n]).Some? {
        assert IsLast(es, part, n);
      } else {
        var front := es[..n];
        assert forall i: nat :: IsLast(es, part, i) <==> IsLast(front, part, i);
        LastMeans(front, part);
      }
    }
  }

  /** How many events `didTestEventFire` removes: up to and including the first test event, or all. */
  function TestPrefix(es: seq<Event>): (n: nat)
    ensures n <= |es|
    ensures Test in es ==> 0 < n && es[n - 1] == Test && Test !in es[..n - 1]
    ensures Test !in es ==> n == |es|
  {
    if es == [] then 0
    else if es[0] == Test then 1
    else
      var n := 1 + TestPrefix(es[1..]);
      assert Test in es ==> Test in es[1..] && es[..n - 1] == [es[0]] + es[1..][..n - 2];
      n
  }

  class OSWindow {
    var mX: int
    var mY: int
    var mWidth: int
    var mHeight: int
    var mEvents: seq<Event>

    ghost var pushed: seq<Event>
    ghost var popped: seq<Event>

    /** First in, first out over the whole history, and the tracked geometry is that of the last events. */
    ghost predicate Valid()
      reads this
    {
      && popped + mEvents == pushed
      && (mX, mY) == Last(pushed, Position)
      && (mWidth, mHeight) == Last(pushed, Size)
    }

    constructor ()
      ensures Valid() && mEvents == [] && pushed == [] && popped == []
    {
      mX, mY, mWidth, mHeight, mEvents := 0, 0, 0, 0, [];
      pushed, popped := [], [];
    }

    /** `popEvent`; without a place to put the event it removes nothing. */
    method PopEvent(hasTarget: bool) returns (event: Option<Event>)
      requires Valid()
      modifies this`mEvents, this`popped
      ensures Valid()
      ensures event.Some? <==> old(mEvents) != [] && hasTarget
      ensures event.Some? ==> old(mEvents) == [event.value] + mEvents && popped == old(popped) + [event.value]
      ensures event.None? ==> mEvents == old(mEvents) && popped == old(popped)
    {
      if |mEvents| > 0 && hasTarget {
        event := Some(mEvents[0]);
        popped := popped + [mEvents[0]];
        mEvents := mEvents[1..];
      } else {
        event := None;
      }
    }

    method PushEvent(event: Event)
      requires Valid()
      modifies this
      ensures Valid()
      ensures event.Moved? ==> mX == event.x && mY == event.y
      ensures event.Resized? ==> mWidth == event.width && mHeight == event.height
      ensures !event.Moved? ==> mX == old(mX) && mY == old(mY)
      ensures !event.Resized? ==> mWidth == old(mWidth) && mHeight == old(mHeight)
      ensures mEvents == old(mEvents) + [event] && pushed == old(pushed) + [event] && popped == old(popped)
    {
      hide Last;
      LastStep(pushed, Position, event);
      LastStep(pushed, Size, event);
      match event {
        case Moved(x, y) =>
          mX, mY := x, y;
        case Resized(w, h) =>
          mWidth, mHeight := w, h;
        case _ =>
      }
      mEvents := mEvents + [event];
      pushed := pushed + [event];
    }

    /** Removes the shortest prefix that ends in a test event, or everything. */
    method DidTestEventFire() returns (fired: bool)
      requires Valid()
      modifies this`mEvents, this`popped
      ensures Valid()
      ensures fired <==> Test in old(mEvents)
      ensures mEvents == old(mEvents)[TestPrefix(old(mEvents))..]
      ensures popped == old(popped) + old(mEvents)[..TestPrefix(old(mEvents))]
    {
      ghost var all, was := mEvents, popped;
      ghost var k := 0;
      while true
        invariant Valid() && k <= |all| && mEvents == all[k..] && popped == was + all[..k]
        invariant Test !in all[..k]
        decreases |mEvents|
      {
        var topEvent := PopEvent(true);
        if topEvent.None? {
          return false;
        }
        k := k + 1;
        if topEvent.value == Test {
          FirstTest(all, k);
          return true;
        }
      }
    }
  }

  lemma FirstTest(es: seq<Event>, k: nat)
    requires 0 < k <= |es| && es[k - 1] == Test && Test !in es[..k - 1]
    ensures TestPrefix(es) == k
  {
    assert es[k - 1] in es;
  }
}
