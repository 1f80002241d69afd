/** The class `SampleApplication`: its frame loop, from initialisation to teardown. */
module SampleApplication {
  import opened Options
  import opened EglOperations
  import opened EglLifecycle
  import opened EglWindow
  import opened OsWindow
  import opened FrameLoop

  class SampleApplication {
    var mRunning: bool
    const mOSWindow: OSWindow
    const mEGLWindow: EGLWindow
    var log: seq<Action>

    constructor (window: OSWindow, gl: EGLWindow)
      ensures mOSWindow == window && mEGLWindow == gl && !mRunning && log == []
    {
      mOSWindow, mEGLWindow, mRunning, log := window, gl, false, [];
    }

    method Exit()
      modifies this`mRunning
      ensures !mRunning
    {
      mRunning := false;
    }

    /** The application's `step`: it takes some events off the queue and may call `exit()`. */
    method Step(f: Frame)
      requires mOSWindow.Valid()
      modifies this, mOSWindow
      ensures mOSWindow.Valid() && mOSWindow.mEvents == Left(old(mOSWindow.mEvents), f)
      ensures mRunning == (old(mRunning) && !f.stepExits) && log == old(log) + [Stepped]
    {
      hide OSWindow.Valid;
      log := log + [Stepped];
      ghost var q := mOSWindow.mEvents;
      for i := 0 to f.taken
        modifies mOSWindow
        invariant mOSWindow.Valid() && mOSWindow.mEvents == if i <= |q| then q[i..] else []
      {
        var _ := mOSWindow.PopEvent(true);
      }
      if f.stepExits {
        Exit();
      }
    }

    /** Clears the events that the application did not process, and exits on a close event. */
    method DrainEvents()
      requires mOSWindow.Valid()
      modifies this, mOSWindow
      ensures mOSWindow.Valid() && mOSWindow.mEvents == []
      ensures mRunning == (old(mRunning) && Closed !in old(mOSWindow.mEvents))
      ensures log == old(log) + Drains(old(mOSWindow.mEvents))
    {
      ghost var q, start := mOSWindow.mEvents, log;
      ghost var k := 0;
      while true
        invariant mOSWindow.Valid() && k <= |q| && mOSWindow.mEvents == q[k..]
        invariant mRunning == (old(mRunning) && Closed !in q[..k])
        invariant log == start + Drains(q[..k])
        decreases |mOSWindow.mEvents|
      {
        var event := mOSWindow.PopEvent(true);
        if event.None? {
          return;
        }
        assert q[..k + 1] == q[..k] + [event.value];
        assert Drains(q[..k + 1]) == Drains(q[..k]) + [Drained(event.value)];
        log := log + [Drained(event.value)];
        if event.value == Closed {
          Exit();
        }
        k := k + 1;
      }
    }

    method MessageLoop(arrivals: seq<Event>)
      requires mOSWindow.Valid() && mOSWindow.mEvents == []
      modifies this`log, mOSWindow
      ensures mOSWindow.Valid() && mOSWindow.mEvents == arrivals && log == old(log) + [Pumped]
    {
      log := log + [Pumped];
      for i := 0 to |arrivals|
        modifies mOSWindow
        invariant mOSWindow.Valid() && mOSWindow.mEvents == arrivals[..i]
      {
        mOSWindow.PushEvent(arrivals[i]);
      }
    }

    /** One pass of the loop. */
    method RunFrame(f: Frame)
      requires mOSWindow.Valid() && mRunning
      modifies this, mOSWindow
      ensures mOSWindow.Valid()
      ensures mRunning == (!Stops(old(mOSWindow.mEvents), f) && !f.drawExits)
      ensures log == old(log) + FrameActions(old(mOSWindow.mEvents), f)
      ensures mRunning ==> mOSWindow.mEvents == f.arrivals
    {
      hide Drains, Left, OSWindow.Valid;
      ghost var start, q := log, mOSWindow.mEvents;
      Step(f);
      DrainEvents();
      assert log == start + ([Stepped] + Drains(Left(q, f)));
      if !mRunning {
        return;
      }
      log := log + [Drew];
      if f.drawExits {
        Exit();
      }
      log := log + [Swapped];
      MessageLoop(f.arrivals);
      assert log == start + ([Stepped] + Drains(Left(q, f)) + [Drew, Swapped, Pumped]);
    }

    /** The loop, for as many frames as are given. */
    method Loop(frames: seq<Frame>)
      requires mOSWindow.Valid() && mRunning
      modifies this, mOSWindow
      ensures log == old(log) + LoopActions(old(mOSWindow.mEvents), frames)
      ensures mRunning <==> !LoopEnds(old(mOSWindow.mEvents), frames)
    {
      hide OSWindow.Valid, FrameActions, Stops;
      ghost var total := log + LoopActions(mOSWindow.mEvents, frames);
      ghost var ends := LoopEnds(mOSWindow.mEvents, frames);
      var k := 0;
      assert frames[0..] == frames;
      while mRunning && k < |frames|
        invariant mOSWindow.Valid() && k <= |frames|
        invariant mRunning ==> total == log + LoopActions(mOSWindow.mEvents, frames[k..])
        invariant mRunning ==> (ends <==> LoopEnds(mOSWindow.mEvents, frames[k..]))
        invariant !mRunning ==> log == total && ends
        decreases |frames| - k
      {
        assert frames[k..][0] == frames[k] && frames[k..][1..] == frames[k + 1..];
        RunFrame(frames[k]);
        k := k + 1;
      }
    }

    /** The application's `initialize`: it may call `exit()`. */
    method Initialize(i: Initialization) returns (ok: bool)
      modifies this`mRunning
      ensures ok == i.result && mRunning == (old(mRunning) && !i.exits)
    {
      if i.exits {
        Exit();
      }
      return i.result;
    }

    /** `run()` from where the GL context is there to the end of the loop. */
    method InitializeAndLoop(i: Initialization, frames: seq<Frame>) returns (result: int)
      requires mOSWindow.Valid()
      modifies this, mOSWindow
      ensures log == old(log) + (if Enters(i) then LoopActions(old(mOSWindow.mEvents), frames) else [])
      ensures Result(old(mOSWindow.mEvents), i, frames) == if mRunning then None else Some(result)
    {
      hide OSWindow.Valid, LoopActions, LoopEnds;
      mRunning := true;
      result := 0;
      var ok := Initialize(i);
      if !ok {
        mRunning := false;
        result := -1;
      }
      if mRunning {
        Loop(frames);
      }
    }

    method Teardown()
      modifies this`log, mEGLWindow
      ensures log == old(log) + TEARDOWN
      ensures old(Inv(mEGLWindow.View())) ==> Inv(mEGLWindow.View()) && Gone(mEGLWindow.View())
    {
      hide Inv, Released, Gone, AfterDestroy;
      log := log + [AppDestroyed];
      mEGLWindow.DestroyGL();
      log := log + [GlDestroyed];
      log := log + [OsDestroyed];
    }

    /** None if the loop is still running after the given frames. */
    method Run(windowOk: bool, a: DisplayAnswers, b: ContextAnswers, i: Initialization, frames: seq<Frame>)
      returns (result: Option<int>, ghost n: nat)
      requires mOSWindow.Valid()
      modifies this, mOSWindow, mEGLWindow
      ensures var ready := windowOk && AfterInitGL(old(mEGLWindow.View()), a, b).1;
        && result == (if ready then Result(old(mOSWindow.mEvents), i, frames) else Some(-1))
        && log == old(log) + (if ready then RunActions(old(mOSWindow.mEvents), i, frames) else [])
        && (ready ==> RunsAs(old(mOSWindow.mEvents), i, frames, n, log[|old(log)|..], result))
      ensures old(Inv(mEGLWindow.View()) && Released(mEGLWindow.View())) ==>
                && Inv(mEGLWindow.View())
                && (if result.None? then Current(mEGLWindow.View()) else Gone(mEGLWindow.View()))
    {
      hide OSWindow.Valid, LoopActions, LoopEnds, AfterInitGL, DisplaySucceeds, ContextSucceeds, AfterInitDisplay,
           Inv, Released, Gone, Current, RunsAs;
      n := RunMeans(mOSWindow.mEvents, i, frames);
      if Inv(mEGLWindow.View()) && Released(mEGLWindow.View()) {
        ReleasedGone(mEGLWindow.View());
      }
      if !windowOk {
        return Some(-1), n;
      }
      var glOk := mEGLWindow.InitializeGL(a, b);
      if !glOk {
        return Some(-1), n;
      }
      var code := InitializeAndLoop(i, frames);
      if mRunning {
        return None, n;
      }
      Teardown();
      return Some(code), n;
    }
  }
}
