/** The session lifecycle: how the application reacts to the events it
    drains from the runtime before each frame (src/main.c:882-1028), following
    the session lifecycle of section 9.3 of the OpenXR 1.0 specification. */
module SessionLifecycle {
  import opened Protocol

  /** The runtime events the drain loop distinguishes. */
  datatype RuntimeEvent =
    | InstanceLossPending
    | SessionStateChanged(newState: SessionState)
    | InteractionProfileChanged
    | OtherEvent

  /** A polled event, with the result that the lifecycle call the event
      triggers (begin, end or destroy) returns, if it triggers one. */
  datatype Polled = Polled(event: RuntimeEvent, callOk: bool)

  /** The loop-control variables of the main loop:
      session_state, session_running, run_framecycle and quit_mainloop. */
  datatype Flags = Flags(state: SessionState, running: bool, framecycle: bool, quit: bool)

  const Initial := Flags(Unknown, false, false, false)

  /** The effect of handling events: the new flags, the calls made, and
      whether a failed lifecycle call ended the process (`return 1`). */
  datatype Reaction = Reaction(flags: Flags, calls: seq<Invocation>, fatal: bool)

  /** The reaction to one session-state-changed event. */
  function OnSessionState(f: Flags, s: SessionState, ok: bool): (r: Reaction)
    ensures r.flags.state == s && r.flags.quit == (f.quit || (r.calls == [Invocation(DestroySession, true)]))
    ensures |r.calls| <= 1
    ensures r.fatal <==> (r.calls != [] && !r.calls[0].ok)
  {
    var g := f.(state := s);
    match s
    case MaxEnum | Idle | Unknown => Reaction(g.(framecycle := false), [], false)
    case Focused | Synchronized | Visible => Reaction(g.(framecycle := true), [], false)
    case Ready =>
      if g.running then Reaction(g.(framecycle := true), [], false)
      else if ok then Reaction(g.(running := true, framecycle := true), [Invocation(BeginSession, true)], false)
      else Reaction(g, [Invocation(BeginSession, false)], true)
    case Stopping =>
      if !g.running then Reaction(g.(framecycle := false), [], false)
      else if ok then Reaction(g.(running := false, framecycle := false), [Invocation(EndSession, true)], false)
      else Reaction(g, [Invocation(EndSession, false)], true)
    case LossPending | Exiting =>
      if ok then Reaction(g.(quit := true, framecycle := false), [Invocation(DestroySession, true)], false)
      else Reaction(g, [Invocation(DestroySession, false)], true)
  }

  /** The reaction to one polled event. An instance-loss-pending event ends
      the main loop and lets the drain go on polling; the interaction-profile
      diagnostic and unknown events change nothing. */
  function OnEvent(f: Flags, p: Polled): (r: Reaction)
    ensures f.quit ==> r.flags.quit
    ensures p.event.InstanceLossPending? ==> r.flags.quit
    ensures |r.calls| <= 1
    ensures r.fatal <==> (r.calls != [] && !r.calls[0].ok)
    ensures p.event.InteractionProfileChanged? || p.event.OtherEvent? ==> r == Reaction(f, [], false)
  {
    match p.event
    case InstanceLossPending => Reaction(f.(quit := true), [], false)
    case SessionStateChanged(s) => OnSessionState(f, s, p.callOk)
    case InteractionProfileChanged => Reaction(f, [], false)
    case OtherEvent => Reaction(f, [], false)
  }

  /** Draining the events es[i..] one after the other; a failed lifecycle
      call stops the drain and the process. */
  function DrainFrom(f: Flags, es: seq<Polled>, i: nat): (r: Reaction)
    ensures r.fatal <==> (r.calls != [] && !r.calls[|r.calls| - 1].ok)
    ensures forall j :: 0 <= j < |r.calls| - 1 ==> r.calls[j].ok
    decreases |es| - i
  {
    if i >= |es| then Reaction(f, [], false)
    else
      var first := OnEvent(f, es[i]);
      if first.fatal then first
      else
        var rest := DrainFrom(first.flags, es, i + 1);
        Reaction(rest.flags, first.calls + rest.calls, rest.fatal)
  }

  /** READY begins the session only when it is not running, and always
      enables the frame cycle; a second READY makes no further begin call. */
  lemma ReadyBeginsOnce(f: Flags, ok: bool, again: bool)
    ensures var r := OnEvent(f, Polled(SessionStateChanged(Ready), ok));
      && r.calls == (if f.running then [] else [Invocation(BeginSession, ok)])
      && (!r.fatal ==> r.flags.running && r.flags.framecycle)
      && (!r.fatal ==> OnEvent(r.flags, Polled(SessionStateChanged(Ready), again)).calls == [])
  {
  }

  /** STOPPING ends the session only when it is running, and always disables
      the frame cycle; a repeated STOPPING makes no further end call. */
  lemma StoppingEndsOnce(f: Flags, ok: bool, again: bool)
    ensures var r := OnEvent(f, Polled(SessionStateChanged(Stopping), ok));
      && r.calls == (if f.running then [Invocation(EndSession, ok)] else [])
      && (!r.fatal ==> !r.flags.running && !r.flags.framecycle)
      && (!r.fatal ==> OnEvent(r.flags, Polled(SessionStateChanged(Stopping), again)).calls == [])
  {
  }

  /** IDLE, UNKNOWN and MAX_ENUM disable the frame cycle, SYNCHRONIZED, VISIBLE
      and FOCUSED enable it; none of them makes a call or touches session_running. */
  lemma PassiveStates(f: Flags, s: SessionState, ok: bool)
    requires s in {Idle, Unknown, MaxEnum, Synchronized, Visible, Focused}
    ensures var r := OnEvent(f, Polled(SessionStateChanged(s), ok));
      && r.calls == [] && !r.fatal
      && r.flags == f.(state := s, framecycle := s in {Synchronized, Visible, Focused})
  {
  }

  /** LOSS_PENDING and EXITING destroy the session once, end the main loop
      and disable the frame cycle, without touching session_running. */
  lemma TerminalStates(f: Flags, s: SessionState, ok: bool)
    requires s == LossPending || s == Exiting
    ensures var r := OnEvent(f, Polled(SessionStateChanged(s), ok));
      && r.calls == [Invocation(DestroySession, ok)]
      && r.fatal == !ok
      && r.flags.running == f.running
      && (ok ==> r.flags.quit && !r.flags.framecycle)
  {
  }

  /** An event flips session_running exactly when it makes a successful
      begin (while stopped) or end (while running) call. */
  lemma OnEventToggles(f: Flags, p: Polled)
    ensures var r := OnEvent(f, p);
      && (r.calls == [] || r.calls == [r.calls[0]])
      && (r.calls != [] && InClass(r.calls[0], SessionToggle) ==>
            r.calls[0].call == (if f.running then EndSession else BeginSession) && r.flags.running == !f.running)
      && (!(r.calls != [] && InClass(r.calls[0], SessionToggle)) ==> r.flags.running == f.running)
  {
  }

  /** Handling one event keeps session_running in step with the begin and end calls. */
  lemma OnEventKeepsLifecycle(f: Flags, p: Polled, t: seq<Invocation>)
    requires LifecycleConsistent(t, f.running)
    ensures LifecycleConsistent(t + OnEvent(f, p).calls, OnEvent(f, p).flags.running)
  {
    var r := OnEvent(f, p);
    OnEventToggles(f, p);
    if r.calls == [] {
      assert t + r.calls == t;
    } else if InClass(r.calls[0], SessionToggle) {
      AppendToggle(t, r.calls[0], f.running);
    } else {
      SelectOne(r.calls[0], SessionToggle);
      AppendNoToggle(t, r.calls, f.running);
    }
  }

  /** Draining any events keeps session_running in step with the begin and end calls. */
  lemma {:induction false} DrainKeepsLifecycle(f: Flags, es: seq<Polled>, i: nat, t: seq<Invocation>)
    requires LifecycleConsistent(t, f.running)
    ensures LifecycleConsistent(t + DrainFrom(f, es, i).calls, DrainFrom(f, es, i).flags.running)
    decreases |es| - i
  {
    if i >= |es| {
      assert t + [] == t;
    } else {
      var first := OnEvent(f, es[i]);
      OnEventKeepsLifecycle(f, es[i], t);
      if !first.fatal {
        DrainKeepsLifecycle(first.flags, es, i + 1, t + first.calls);
        var rest := DrainFrom(first.flags, es, i + 1);
        ConcatAssoc(t, first.calls, rest.calls);
      }
    }
  }

  /** Over any sequence of events drained from the start, the successful
      begin and end calls strictly alternate starting with a begin, and their
      difference is session_running, which stays 0 or 1. */
  lemma BeginEndAlternate(es: seq<Polled>)
    ensures var r := DrainFrom(Initial, es, 0);
      && Alternating(Select(r.calls, SessionToggle))
      && Succeeded(r.calls, BeginSession) - Succeeded(r.calls, EndSession) == (if r.flags.running then 1 else 0)
  {
    var r := DrainFrom(Initial, es, 0);
    DrainKeepsLifecycle(Initial, es, 0, []);
    assert [] + r.calls == r.calls;
    SessionBalance(r.calls, r.flags.running);
  }

  /** The drain makes no frame call and touches no swapchain: its only calls
      are begin, end and destroy. */
  lemma {:induction false} DrainCallsAreLifecycle(f: Flags, es: seq<Polled>, i: nat)
    ensures forall j :: 0 <= j < |DrainFrom(f, es, i).calls| ==>
      DrainFrom(f, es, i).calls[j].call in {BeginSession, EndSession, DestroySession}
    decreases |es| - i
  {
    if i < |es| {
      var first := OnEvent(f, es[i]);
      if !first.fatal {
        DrainCallsAreLifecycle(first.flags, es, i + 1);
      }
    }
  }

  /** Once the main loop is told to quit, no later event clears that. */
  lemma {:induction false} QuitIsSticky(f: Flags, es: seq<Polled>, i: nat)
    requires f.quit
    ensures DrainFrom(f, es, i).flags.quit
    decreases |es| - i
  {
    if i < |es| && !OnEvent(f, es[i]).fatal {
      QuitIsSticky(OnEvent(f, es[i]).flags, es, i + 1);
    }
  }

  /** An instance-loss-pending event anywhere in the drained events ends the
      main loop, whatever the session state, unless a failed lifecycle call
      ended the process first. */
  lemma {:induction false} InstanceLossEndsMainLoop(f: Flags, es: seq<Polled>, i: nat, j: nat)
    requires i <= j < |es| && es[j].event == InstanceLossPending
    requires !DrainFrom(f, es, i).fatal
    ensures DrainFrom(f, es, i).flags.quit
    decreases j - i
  {
    var first := OnEvent(f, es[i]);
    if i == j {
      QuitIsSticky(first.flags, es, i + 1);
    } else {
      InstanceLossEndsMainLoop(first.flags, es, i + 1, j);
    }
  }

  /** The events [IDLE, READY, FOCUSED]: the frame cycle is first disabled,
      then the session is begun once, then the frame cycle runs with no
      further lifecycle call. */
  lemma IdleReadyFocused()
    ensures var es := [Polled(SessionStateChanged(Idle), true),
                       Polled(SessionStateChanged(Ready), true),
                       Polled(SessionStateChanged(Focused), true)];
      && !DrainFrom(Initial, es[..1], 0).flags.framecycle
      && DrainFrom(Initial, es[..2], 0).calls == [Invocation(BeginSession, true)]
      && DrainFrom(Initial, es, 0) == Reaction(Flags(Focused, true, true, false), [Invocation(BeginSession, true)], false)
  {
    var es := [Polled(SessionStateChanged(Idle), true),
               Polled(SessionStateChanged(Ready), true),
               Polled(SessionStateChanged(Focused), true)];
    var afterIdle := Flags(Idle, false, false, false);
    var afterReady := Flags(Ready, true, true, false);
    assert DrainFrom(afterReady, es[..2], 2) == Reaction(afterReady, [], false);
    assert DrainFrom(afterIdle, es[..2], 1).calls == [Invocation(BeginSession, true)];
  }

  // ----- The drain loop as written -----

  /** The effect of drain passes as the source has them: the reaction, and
      the index of the event the next pass looks at. */
  datatype PassResult = PassResult(flags: Flags, calls: seq<Invocation>, fatal: bool, next: nat)

  /** One pass of the drain loop's body as the source has it. For an
      instance-loss-pending event the `continue` jumps back to the loop test
      without polling again, so the next pass looks at the same event. Any
      other event is handled as by the corrected drain, and the next poll
      moves on to the following event (a fatal one ends the process). */
  function DrainPassAsWritten(f: Flags, es: seq<Polled>, i: nat): (r: PassResult)
    requires i < |es|
    ensures r.next == i <==> es[i].event.InstanceLossPending?
    ensures es[i].event.InstanceLossPending? ==> r == PassResult(f.(quit := true), [], false, i)
    ensures !es[i].event.InstanceLossPending? ==>
      Reaction(r.flags, r.calls, r.fatal) == OnEvent(f, es[i]) && r.next == i + 1
  {
    if es[i].event.InstanceLossPending? then PassResult(f.(quit := true), [], false, i)
    else
      var e := OnEvent(f, es[i]);
      PassResult(e.flags, e.calls, e.fatal, i + 1)
  }

  /** At most n passes of the drain loop as written, stopping when the
      events run out or a failed lifecycle call ends the process. */
  function DrainPassesAsWritten(f: Flags, es: seq<Polled>, i: nat, n: nat): (r: PassResult)
    ensures i <= r.next
    decreases n
  {
    if n == 0 || i >= |es| then PassResult(f, [], false, i)
    else
      var p := DrainPassAsWritten(f, es, i);
      if p.fatal then p
      else
        var rest := DrainPassesAsWritten(p.flags, es, p.next, n - 1);
        PassResult(rest.flags, p.calls + rest.calls, rest.fatal, rest.next)
  }

  /** As written, the drain loop never gets past an instance-loss-pending
      event: after any number of passes it still looks at that event, has
      made no call, and the poll result stays XR_SUCCESS, so the loop does
      not end. */
  lemma {:induction false} InstanceLossStallsAsWritten(f: Flags, es: seq<Polled>, i: nat, n: nat)
    requires i < |es| && es[i].event == InstanceLossPending
    ensures DrainPassesAsWritten(f, es, i, n).next == i
    ensures DrainPassesAsWritten(f, es, i, n).calls == [] && !DrainPassesAsWritten(f, es, i, n).fatal
    ensures n > 0 ==> DrainPassesAsWritten(f, es, i, n).flags.quit
    decreases n
  {
    if n > 0 {
      InstanceLossStallsAsWritten(f.(quit := true), es, i, n - 1);
    }
  }

  /** Without an instance-loss-pending event the drain as written and the
      corrected drain agree: one pass per event gives the same flags, calls
      and fatal outcome, and a drain that is not fatal consumes every event. */
  lemma {:induction false} AsWrittenAgreesWithoutLoss(f: Flags, es: seq<Polled>, i: nat)
    requires i <= |es|
    requires forall j :: i <= j < |es| ==> !es[j].event.InstanceLossPending?
    ensures var w, d := DrainPassesAsWritten(f, es, i, |es| - i), DrainFrom(f, es, i);
      && Reaction(w.flags, w.calls, w.fatal) == d
      && (!d.fatal ==> w.next == |es|)
    decreases |es| - i
  {
    if i < |es| {
      var e := OnEvent(f, es[i]);
      assert DrainPassAsWritten(f, es, i) == PassResult(e.flags, e.calls, e.fatal, i + 1);
      if !e.fatal {
        AsWrittenAgreesWithoutLoss(e.flags, es, i + 1);
        var rest := DrainPassesAsWritten(e.flags, es, i + 1, |es| - (i + 1));
        assert DrainPassesAsWritten(f, es, i, |es| - i)
            == PassResult(rest.flags, e.calls + rest.calls, rest.fatal, rest.next);
      }
    }
  }

  /** The corrected drain consumes an instance-loss-pending event: the next
      pass looks at the following event. */
  lemma InstanceLossIsConsumed(f: Flags, es: seq<Polled>, i: nat)
    requires i < |es| && es[i].event == InstanceLossPending
    ensures DrainFrom(f, es, i) == DrainFrom(f.(quit := true), es, i + 1)
  {
  }
}
