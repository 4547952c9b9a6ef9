/** The main loop of the application (src/main.c:858-1308): each pass
    drains the runtime's events, and runs one frame cycle when the session
    state allows it. XrApp holds the loop's control variables and records,
    in a ghost trace, every external call it makes. */
module MainLoop {
  import opened Protocol
  import opened SessionLifecycle
  import opened FrameLoop

  /** How the event drain ends: the queue is empty, or polling failed. */
  datatype PollEnd = EventUnavailable | PollFailed

  /** Everything the runtime answers during one pass of the main loop. */
  datatype IterationInput = IterationInput(events: seq<Polled>, pollEnd: PollEnd, frame: FrameInput)

  datatype Iteration = Iteration(flags: Flags, calls: seq<Invocation>, step: Step)

  /** One pass of the main loop: drain the events; leave the loop when
      polling failed; skip the frame cycle when it is disabled; otherwise run it. */
  function IterationSpec(f: Flags, it: IterationInput): (r: Iteration)
    ensures r.flags == DrainFrom(f, it.events, 0).flags
    ensures !r.flags.framecycle ==> r.calls == DrainFrom(f, it.events, 0).calls
    ensures r.step == Fatal ==> r.calls != [] && !r.calls[|r.calls| - 1].ok
  {
    var d := DrainFrom(f, it.events, 0);
    if d.fatal then Iteration(d.flags, d.calls, Fatal)
    else if it.pollEnd == PollFailed then Iteration(d.flags, d.calls, Break)
    else if !d.flags.framecycle then Iteration(d.flags, d.calls, Next)
    else
      var frame := FrameSpec(it.frame);
      Iteration(d.flags, d.calls + frame.calls, frame.step)
  }

  /** The process's exit status, or the loop still running when the inputs run out. */
  datatype RunOutcome = Exited(code: int) | StillRunning

  datatype RunResult = RunResult(flags: Flags, calls: seq<Invocation>, outcome: RunOutcome)

  /** The main loop `while (!quit_mainloop)` over the passes its[k..]. */
  function RunFrom(f: Flags, its: seq<IterationInput>, k: nat): (r: RunResult)
    ensures r.outcome == StillRunning ==> !r.flags.quit
    ensures r.outcome == Exited(1) ==> r.calls != [] && !r.calls[|r.calls| - 1].ok
    decreases |its| - k
  {
    if f.quit then RunResult(f, [], Exited(0))
    else if k >= |its| then RunResult(f, [], StillRunning)
    else
      var r := IterationSpec(f, its[k]);
      match r.step
      case Fatal => RunResult(r.flags, r.calls, Exited(1))
      case Break => RunResult(r.flags, r.calls, Exited(0))
      case Next =>
        var rest := RunFrom(r.flags, its, k + 1);
        RunResult(rest.flags, r.calls + rest.calls, rest.outcome)
  }

  /** One pass of RunFrom, with the pass's result named r. */
  lemma RunStep(f: Flags, its: seq<IterationInput>, k: nat)
    requires !f.quit && k < |its|
    ensures var r := IterationSpec(f, its[k]);
      RunFrom(f, its, k) ==
        if r.step == Fatal then RunResult(r.flags, r.calls, Exited(1))
        else if r.step == Break then RunResult(r.flags, r.calls, Exited(0))
        else RunResult(RunFrom(r.flags, its, k + 1).flags, r.calls + RunFrom(r.flags, its, k + 1).calls,
                       RunFrom(r.flags, its, k + 1).outcome)
  {
  }

  /** A pass whose drain sets quit_mainloop is the last pass of the run:
      the run ends with that pass's calls, with exit status 1 if the pass
      was fatal and 0 otherwise. */
  lemma QuitEndsRun(f: Flags, its: seq<IterationInput>, k: nat)
    requires !f.quit && k < |its| && IterationSpec(f, its[k]).flags.quit
    ensures RunFrom(f, its, k).calls == IterationSpec(f, its[k]).calls
    ensures RunFrom(f, its, k).outcome == if IterationSpec(f, its[k]).step == Fatal then Exited(1) else Exited(0)
  {
    var r := IterationSpec(f, its[k]);
    if r.step == Next {
      assert RunFrom(r.flags, its, k + 1) == RunResult(r.flags, [], Exited(0));
      assert r.calls + [] == r.calls;
    }
  }

  /** The haptic pulses and the outstanding swapchain images of a pass are
      those of its frame cycle when it runs one, and none otherwise: the
      drain between frames touches neither. */
  lemma IterationFrameCounts(f: Flags, it: IterationInput, h: nat, sc: Swapchain)
    ensures var d, r := DrainFrom(f, it.events, 0), IterationSpec(f, it);
      var ran := !d.fatal && it.pollEnd == EventUnavailable && d.flags.framecycle;
      && Made(r.calls, Haptic(h)) == (if ran then Made(FrameSpec(it.frame).calls, Haptic(h)) else 0)
      && Outstanding(r.calls, sc) == (if ran then Outstanding(FrameSpec(it.frame).calls, sc) else 0)
  {
    var d := DrainFrom(f, it.events, 0);
    DrainCallsAreLifecycle(f, it.events, 0);
    MadeNone(d.calls, Haptic(h));
    MadeNone(d.calls, Acquire(sc));
    MadeNone(d.calls, Release(sc));
    SucceededNone(d.calls, Acquire(sc));
    SucceededNone(d.calls, Release(sc));
    var frame := FrameSpec(it.frame).calls;
    MadeAppend(d.calls, frame, Haptic(h));
    OutstandingAppend(d.calls, frame, sc);
  }

  /** A frame cycle never begins or ends the session. */
  lemma FrameCallsNoLifecycle(input: FrameInput)
    ensures Select(FrameSpec(input).calls, SessionToggle) == []
  {
    var calls := FrameSpec(input).calls;
    PreambleCalls(input);
    ViewsFromOnSwapchains(input.shouldRender, input.views, 0);
    if ReachesViews(input) {
      var pre := Preamble(input) + [Invocation(BeginFrame, true)];
      var vs := ViewsFrom(input.shouldRender, input.views, 0);
      var e := [Invocation(EndFrame(LayerCount(input.viewStateFlags, input.shouldRender)), input.endOk)];
      assert calls == pre + vs + e;
      SelectNone(pre, SessionToggle);
      SelectNone(vs, SessionToggle);
      SelectNone(e, SessionToggle);
      SelectAppend(pre, vs, SessionToggle);
      SelectAppend(pre + vs, e, SessionToggle);
    } else if input.waitOk && input.locateOk {
      SelectNone(Preamble(input) + [Invocation(BeginFrame, false)], SessionToggle);
    } else {
      SelectNone(calls, SessionToggle);
    }
  }

  lemma IterationKeepsLifecycle(f: Flags, it: IterationInput, t: seq<Invocation>)
    requires LifecycleConsistent(t, f.running)
    ensures LifecycleConsistent(t + IterationSpec(f, it).calls, IterationSpec(f, it).flags.running)
  {
    var d := DrainFrom(f, it.events, 0);
    DrainKeepsLifecycle(f, it.events, 0, t);
    assert IterationSpec(f, it).flags == d.flags;
    if !d.fatal && it.pollEnd == EventUnavailable && d.flags.framecycle {
      var frame := FrameSpec(it.frame).calls;
      assert IterationSpec(f, it).calls == d.calls + frame;
      FrameCallsNoLifecycle(it.frame);
      AppendNoToggle(t + d.calls, frame, d.flags.running);
      ConcatAssoc(t, d.calls, frame);
    } else {
      assert IterationSpec(f, it).calls == d.calls;
    }
  }

  lemma {:induction false} RunKeepsLifecycle(f: Flags, its: seq<IterationInput>, k: nat, t: seq<Invocation>)
    requires LifecycleConsistent(t, f.running)
    ensures LifecycleConsistent(t + RunFrom(f, its, k).calls, RunFrom(f, its, k).flags.running)
    decreases |its| - k
  {
    if f.quit || k >= |its| {
      assert t + [] == t;
    } else {
      var r := IterationSpec(f, its[k]);
      IterationKeepsLifecycle(f, its[k], t);
      if r.step == Next {
        RunKeepsLifecycle(r.flags, its, k + 1, t + r.calls);
        var rest := RunFrom(r.flags, its, k + 1);
        ConcatAssoc(t, r.calls, rest.calls);
      }
    }
  }

  /** Over any run of the main loop, the successful BeginSession and
      EndSession calls strictly alternate, starting with a begin, and
      session_running is their difference, which stays 0 or 1. */
  lemma RunBeginEndAlternate(its: seq<IterationInput>)
    ensures var r := RunFrom(Initial, its, 0);
      && Alternating(Select(r.calls, SessionToggle))
      && Succeeded(r.calls, BeginSession) - Succeeded(r.calls, EndSession) == (if r.flags.running then 1 else 0)
  {
    var r := RunFrom(Initial, its, 0);
    RunKeepsLifecycle(Initial, its, 0, []);
    assert [] + r.calls == r.calls;
    SessionBalance(r.calls, r.flags.running);
  }

  /** A pass in which the frame cycle is disabled after the drain makes no
      frame call and touches no swapchain. */
  lemma IdleIterationMakesNoFrameCalls(f: Flags, it: IterationInput)
    requires !DrainFrom(f, it.events, 0).flags.framecycle
    ensures Select(IterationSpec(f, it).calls, FramePacing) == []
    ensures Select(IterationSpec(f, it).calls, AnySwapchain) == []
  {
    var d := DrainFrom(f, it.events, 0);
    assert IterationSpec(f, it).calls == d.calls;
    DrainCallsAreLifecycle(f, it.events, 0);
    SelectNone(d.calls, FramePacing);
    SelectNone(d.calls, AnySwapchain);
  }

  /** A pass in which the frame cycle is enabled after a clean drain makes
      exactly the frame cycle's wait-frame, begin-frame and end-frame calls. */
  lemma ActiveIterationPacing(f: Flags, it: IterationInput)
    requires !DrainFrom(f, it.events, 0).fatal && it.pollEnd == EventUnavailable
    requires DrainFrom(f, it.events, 0).flags.framecycle
    ensures Select(IterationSpec(f, it).calls, FramePacing) == Select(FrameSpec(it.frame).calls, FramePacing)
    ensures FrameSpec(it.frame).calls[0].call == WaitFrame
  {
    var d, frame := DrainFrom(f, it.events, 0), FrameSpec(it.frame).calls;
    assert IterationSpec(f, it).calls == d.calls + frame;
    DrainCallsAreLifecycle(f, it.events, 0);
    SelectNone(d.calls, FramePacing);
    SelectAppend(d.calls, frame, FramePacing);
  }

  /** The state of the running application. */
  class XrApp {
    var sessionState: SessionState
    var sessionRunning: bool
    var runFramecycle: bool
    var quitMainloop: bool
    /** The number of views, fixed when the views were enumerated. */
    const viewCount: nat
    /** Every external call made so far, with its result. */
    ghost var trace: seq<Invocation>

    function Current(): Flags
      reads this
    {
      Flags(sessionState, sessionRunning, runFramecycle, quitMainloop)
    }

    ghost predicate Valid()
      reads this
    {
      LifecycleConsistent(trace, sessionRunning)
    }

    /** The answers of one pass fit the application's views and hands. */
    predicate Fits(it: IterationInput) {
      |it.frame.views| == viewCount && |it.frame.hands| == HAND_COUNT
    }

    constructor (viewCount: nat)
      ensures Valid() && Current() == Initial && trace == [] && this.viewCount == viewCount
    {
      this.viewCount := viewCount;
      sessionState := Unknown;
      sessionRunning := false;
      runFramecycle := false;
      quitMainloop := false;
      trace := [];
    }

    /** The reaction to a session-state-changed event. */
    method ChangeState(s: SessionState, ok: bool) returns (fatal: bool)
      requires Valid()
      modifies this
      ensures Valid()
      ensures Current() == OnSessionState(old(Current()), s, ok).flags
      ensures trace == old(trace) + OnSessionState(old(Current()), s, ok).calls
      ensures fatal == OnSessionState(old(Current()), s, ok).fatal
    {
      OnEventKeepsLifecycle(Current(), Polled(SessionStateChanged(s), ok), trace);
      fatal := false;
      sessionState := s;
      match s
      case MaxEnum | Idle | Unknown =>
        runFramecycle := false;
      case Focused | Synchronized | Visible =>
        runFramecycle := true;
      case Ready =>
        if !sessionRunning {
          trace := trace + [Invocation(BeginSession, ok)];
          if !ok {
            fatal := true;
            return;
          }
          sessionRunning := true;
        }
        runFramecycle := true;
      case Stopping =>
        if sessionRunning {
          trace := trace + [Invocation(EndSession, ok)];
          if !ok {
            fatal := true;
            return;
          }
          sessionRunning := false;
        }
        runFramecycle := false;
      case LossPending | Exiting =>
        trace := trace + [Invocation(DestroySession, ok)];
        if !ok {
          fatal := true;
          return;
        }
        quitMainloop := true;
        runFramecycle := false;
    }

    /** The handling of one polled event inside the drain loop. */
    method HandleEvent(p: Polled) returns (fatal: bool)
      requires Valid()
      modifies this
      ensures Valid()
      ensures Current() == OnEvent(old(Current()), p).flags
      ensures trace == old(trace) + OnEvent(old(Current()), p).calls
      ensures fatal == OnEvent(old(Current()), p).fatal
    {
      match p.event
      case InstanceLossPending =>
        quitMainloop := true;
        fatal := false;
        assert trace == trace + [];
      case SessionStateChanged(s) =>
        fatal := ChangeState(s, p.callOk);
      case InteractionProfileChanged =>
        fatal := false;
        assert trace == trace + [];
      case OtherEvent =>
        fatal := false;
        assert trace == trace + [];
    }

    /** The drain loop: handle each polled event in turn until the queue is
      empty, or until a failed lifecycle call ends the process. */
    method PollEvents(events: seq<Polled>) returns (fatal: bool)
      requires Valid()
      modifies this
      ensures Valid()
      ensures Current() == DrainFrom(old(Current()), events, 0).flags
      ensures trace == old(trace) + DrainFrom(old(Current()), events, 0).calls
      ensures fatal == DrainFrom(old(Current()), events, 0).fatal
    {
      ghost var start, base := Current(), trace;
      var i := 0;
      while i < |events|
        invariant 0 <= i <= |events| && Valid()
        invariant DrainFrom(start, events, 0).flags == DrainFrom(Current(), events, i).flags
        invariant DrainFrom(start, events, 0).fatal == DrainFrom(Current(), events, i).fatal
        invariant base + DrainFrom(start, events, 0).calls == trace + DrainFrom(Current(), events, i).calls
        decreases |events| - i
      {
        ghost var t, r := trace, OnEvent(Current(), events[i]);
        fatal := HandleEvent(events[i]);
        if fatal {
          return;
        }
        ConcatAssoc(t, r.calls, DrainFrom(r.flags, events, i + 1).calls);
        i := i + 1;
      }
      assert trace + [] == trace;
      fatal := false;
    }

    /** The swapchain calls of view i; false after the first that fails. */
    method RenderView(i: nat, v: ViewResults) returns (ok: bool)
      modifies this`trace
      ensures trace == old(trace) + ViewCalls(i, v)
      ensures ok == ViewOk(v)
    {
      var color, depth := Swapchain(i, Color), Swapchain(i, Depth);
      trace := trace + [Invocation(Acquire(color), v.acquireColor)];
      if !v.acquireColor {
        return false;
      }
      trace := trace + [Invocation(WaitImage(color), v.waitColor)];
      if !v.waitColor {
        return false;
      }
      trace := trace + [Invocation(Acquire(depth), v.acquireDepth)];
      if !v.acquireDepth {
        return false;
      }
      trace := trace + [Invocation(WaitImage(depth), v.waitDepth)];
      if !v.waitDepth {
        return false;
      }
      trace := trace + [Invocation(Release(color), v.releaseColor)];
      if !v.releaseColor {
        return false;
      }
      trace := trace + [Invocation(Release(depth), v.releaseDepth)];
      return v.releaseDepth;
    }

    /** The view loop: nothing per view when shouldRender is false, and the
      first view whose calls fail ends the loop. */
    method RenderViews(shouldRender: bool, views: seq<ViewResults>)
      requires |views| == viewCount
      modifies this`trace
      ensures trace == old(trace) + ViewsFrom(shouldRender, views, 0)
    {
      var i := 0;
      while i < viewCount
        invariant 0 <= i <= viewCount
        invariant old(trace) + ViewsFrom(shouldRender, views, 0) == trace + ViewsFrom(shouldRender, views, i)
      {
        if !shouldRender {
          i := i + 1;
          continue;
        }
        var ok := RenderView(i, views[i]);
        if !ok {
          break;
        }
        i := i + 1;
      }
      assert trace + [] == trace;
    }

    /** The per-hand queries and the haptic decision. */
    method QueryHands(hands: seq<HandInput>)
      requires |hands| == HAND_COUNT
      modifies this`trace
      ensures trace == old(trace) + HandsFrom(hands, 0)
    {
      for i := 0 to HAND_COUNT
        invariant old(trace) + HandsFrom(hands, 0) == trace + HandsFrom(hands, i)
      {
        var h := hands[i];
        trace := trace + [Invocation(GetPose(i), h.poseOk)];
        trace := trace + [Invocation(LocateHand(i), h.locateOk)];
        trace := trace + [Invocation(GetGrab(i), h.grabOk)];
        if h.isActive && h.currentState > GRAB_THRESHOLD {
          trace := trace + [Invocation(Haptic(i), h.hapticOk)];
        }
      }
      assert trace + [] == trace;
    }

    /** One frame cycle. */
    method FrameCycle(input: FrameInput) returns (step: Step)
      requires |input.views| == viewCount && |input.hands| == HAND_COUNT
      modifies this`trace
      ensures trace == old(trace) + FrameSpec(input).calls
      ensures step == FrameSpec(input).step
    {
      ghost var base := trace;
      trace := trace + [Invocation(WaitFrame, input.waitOk)];
      if !input.waitOk {
        return Fatal;
      }
      trace := trace + [Invocation(LocateViews, input.locateOk)];
      if !input.locateOk {
        return Fatal;
      }
      trace := trace + [Invocation(SyncActions, input.syncOk)];
      ghost var synced := trace;
      assert synced == base + [Invocation(WaitFrame, true), Invocation(LocateViews, true), Invocation(SyncActions, input.syncOk)];
      QueryHands(input.hands);
      ConcatAssoc(base, synced[|base|..], HandsFrom(input.hands, 0));
      assert trace == base + Preamble(input);
      trace := trace + [Invocation(BeginFrame, input.beginOk)];
      ghost var begun := Preamble(input) + [Invocation(BeginFrame, input.beginOk)];
      ConcatAssoc(base, Preamble(input), [Invocation(BeginFrame, input.beginOk)]);
      assert trace == base + begun;
      if !input.beginOk {
        return Break;
      }
      RenderViews(input.shouldRender, input.views);
      ghost var views := ViewsFrom(input.shouldRender, input.views, 0);
      var layerCount := 1;
      if input.viewStateFlags & ORIENTATION_VALID_BIT == 0 {
        layerCount := 0;
      }
      if !input.shouldRender {
        layerCount := 0;
      }
      assert layerCount == LayerCount(input.viewStateFlags, input.shouldRender);
      ghost var ended := [Invocation(EndFrame(layerCount), input.endOk)];
      trace := trace + [Invocation(EndFrame(layerCount), input.endOk)];
      ConcatAssoc(base, begun, views);
      ConcatAssoc(base, begun + views, ended);
      assert trace == base + (begun + views + ended);
      if !input.endOk {
        return Break;
      }
      return Next;
    }

    /** One pass of the main loop. */
    method Iterate(it: IterationInput) returns (step: Step)
      requires Valid() && Fits(it)
      modifies this
      ensures Valid()
      ensures Current() == IterationSpec(old(Current()), it).flags
      ensures trace == old(trace) + IterationSpec(old(Current()), it).calls
      ensures step == IterationSpec(old(Current()), it).step
    {
      ghost var f0, t0 := Current(), trace;
      ghost var d, spec := DrainFrom(f0, it.events, 0), IterationSpec(f0, it);
      IterationKeepsLifecycle(f0, it, t0);
      var fatal := PollEvents(it.events);
      assert Current() == d.flags && trace == t0 + d.calls && fatal == d.fatal;
      if fatal {
        assert spec == Iteration(d.flags, d.calls, Fatal);
        return Fatal;
      }
      if it.pollEnd == PollFailed {
        assert spec == Iteration(d.flags, d.calls, Break);
        return Break;
      }
      if !runFramecycle {
        assert spec == Iteration(d.flags, d.calls, Next);
        return Next;
      }
      ghost var frame := FrameSpec(it.frame);
      assert spec == Iteration(d.flags, d.calls + frame.calls, frame.step);
      step := FrameCycle(it.frame);
      ConcatAssoc(t0, d.calls, frame.calls);
      assert trace == t0 + spec.calls;
    }

    /** The main loop, over as many passes as the inputs describe. */
    method Run(its: seq<IterationInput>) returns (outcome: RunOutcome)
      requires Valid() && forall k :: 0 <= k < |its| ==> Fits(its[k])
      modifies this
      ensures Valid()
      ensures Current() == RunFrom(old(Current()), its, 0).flags
      ensures trace == old(trace) + RunFrom(old(Current()), its, 0).calls
      ensures outcome == RunFrom(old(Current()), its, 0).outcome
    {
      ghost var start, base := Current(), trace;
      var k := 0;
      while !quitMainloop && k < |its|
        invariant 0 <= k <= |its| && Valid()
        invariant RunFrom(start, its, 0).flags == RunFrom(Current(), its, k).flags
        invariant RunFrom(start, its, 0).outcome == RunFrom(Current(), its, k).outcome
        invariant base + RunFrom(start, its, 0).calls == trace + RunFrom(Current(), its, k).calls
        decreases |its| - k
      {
        ghost var t, r := trace, IterationSpec(Current(), its[k]);
        RunStep(Current(), its, k);
        var step := Iterate(its[k]);
        if step == Fatal {
          return Exited(1);
        }
        if step == Break {
          return Exited(0);
        }
        ConcatAssoc(t, r.calls, RunFrom(r.flags, its, k + 1).calls);
        k := k + 1;
      }
      assert trace + [] == trace;
      outcome := if quitMainloop then Exited(0) else StillRunning;
    }
  }
}
