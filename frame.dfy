/** The frame cycle that runs once per main-loop iteration while the frame
    cycle is enabled (src/main.c:1043-1308): wait for a frame, locate the
    views, sync and query the actions per hand, begin the frame, acquire,
    wait and release each view's color and depth images, and end the frame
    with zero or one projection layer. Each external call's result is an
    input; the frame is described by the calls it makes, in order. */
module FrameLoop {
  import opened Protocol

  /** Haptic feedback fires when the grab value is above this threshold. */
  const GRAB_THRESHOLD: real := 0.75
  /** XR_VIEW_STATE_ORIENTATION_VALID_BIT of the located views' state flags. */
  const ORIENTATION_VALID_BIT: bv64 := 0x1

  /** How a main-loop iteration ends: go on with the next one (`continue`
      or the end of the body), leave the loop for cleanup and exit status 0
      (`break`), or end the process with exit status 1 (`return 1`). */
  datatype Step = Next | Break | Fatal

  /** The results of the per-hand queries: pose action, hand space location,
      grab value (isActive and currentState) and the haptic call. */
  datatype HandInput = HandInput(poseOk: bool, locateOk: bool, grabOk: bool,
                                 isActive: bool, currentState: real, hapticOk: bool)

  /** The results of the six swapchain calls of one view, in call order. */
  datatype ViewResults = ViewResults(acquireColor: bool, waitColor: bool,
                                     acquireDepth: bool, waitDepth: bool,
                                     releaseColor: bool, releaseDepth: bool)

  /** Everything the runtime answers during one frame cycle. */
  datatype FrameInput = FrameInput(
    waitOk: bool, shouldRender: bool,
    locateOk: bool, viewStateFlags: bv64,
    syncOk: bool, hands: seq<HandInput>,
    beginOk: bool, views: seq<ViewResults>,
    endOk: bool)

  datatype FrameResult = FrameResult(calls: seq<Invocation>, step: Step)

  predicate PulseDue(h: HandInput) {
    h.isActive && h.currentState > GRAB_THRESHOLD
  }

  /** The queries of hand i, followed by a haptic pulse when it is due. */
  function HandCalls(i: nat, h: HandInput): (r: seq<Invocation>)
    ensures 3 <= |r| <= 4
    ensures r[0] == Invocation(GetPose(i), h.poseOk) && r[1] == Invocation(LocateHand(i), h.locateOk)
    ensures r[2] == Invocation(GetGrab(i), h.grabOk)
    ensures |r| == 4 <==> PulseDue(h)
    ensures |r| == 4 ==> r[3] == Invocation(Haptic(i), h.hapticOk)
  {
    [Invocation(GetPose(i), h.poseOk), Invocation(LocateHand(i), h.locateOk), Invocation(GetGrab(i), h.grabOk)]
    + (if PulseDue(h) then [Invocation(Haptic(i), h.hapticOk)] else [])
  }

  /** The hand loop from hand i on. */
  function HandsFrom(hands: seq<HandInput>, i: nat): (r: seq<Invocation>)
    ensures i < |hands| ==> r != [] && r[0] == Invocation(GetPose(i), hands[i].poseOk)
    decreases |hands| - i
  {
    if i >= |hands| then [] else HandCalls(i, hands[i]) + HandsFrom(hands, i + 1)
  }

  /** The fixed order of the swapchain calls of view i. */
  function FullCycle(i: nat): seq<Call> {
    var color, depth := Swapchain(i, Color), Swapchain(i, Depth);
    [Acquire(color), WaitImage(color), Acquire(depth), WaitImage(depth), Release(color), Release(depth)]
  }

  /** The runtime's results of view i's six swapchain calls, in call order. */
  function Results(v: ViewResults): seq<bool> {
    [v.acquireColor, v.waitColor, v.acquireDepth, v.waitDepth, v.releaseColor, v.releaseDepth]
  }

  predicate ViewOk(v: ViewResults) {
    v.acquireColor && v.waitColor && v.acquireDepth && v.waitDepth && v.releaseColor && v.releaseDepth
  }

  /** The swapchain calls of view i up to and including the first that fails. */
  function ViewCalls(i: nat, v: ViewResults): (r: seq<Invocation>)
    ensures 1 <= |r| <= 6 && r[0] == Invocation(Acquire(Swapchain(i, Color)), v.acquireColor)
  {
    var color, depth := Swapchain(i, Color), Swapchain(i, Depth);
    [Invocation(Acquire(color), v.acquireColor)] +
    (if !v.acquireColor then [] else
     [Invocation(WaitImage(color), v.waitColor)] +
     (if !v.waitColor then [] else
      [Invocation(Acquire(depth), v.acquireDepth)] +
      (if !v.acquireDepth then [] else
       [Invocation(WaitImage(depth), v.waitDepth)] +
       (if !v.waitDepth then [] else
        [Invocation(Release(color), v.releaseColor)] +
        (if !v.releaseColor then [] else
         [Invocation(Release(depth), v.releaseDepth)])))))
  }

  /** The view loop from view i on: nothing when shouldRender is false, and
      after the first view whose calls fail, nothing for the later views. */
  function ViewsFrom(shouldRender: bool, views: seq<ViewResults>, i: nat): (r: seq<Invocation>)
    ensures shouldRender && i < |views| ==> r != [] && r[0] == Invocation(Acquire(Swapchain(i, Color)), views[i].acquireColor)
    decreases |views| - i
  {
    if i >= |views| then []
    else if !shouldRender then ViewsFrom(shouldRender, views, i + 1)
    else if !ViewOk(views[i]) then ViewCalls(i, views[i])
    else ViewCalls(i, views[i]) + ViewsFrom(shouldRender, views, i + 1)
  }

  /** View k gets its turn: rendering is on and every earlier view from i on succeeded. */
  predicate ReachedFrom(shouldRender: bool, views: seq<ViewResults>, i: nat, k: nat) {
    shouldRender && i <= k < |views| && forall j :: i <= j < k ==> ViewOk(views[j])
  }

  /** Whether a view's image of the given kind is left acquired and not released. */
  predicate Held(v: ViewResults, kind: ImageKind) {
    match kind
    case Color => v.acquireColor && !(v.waitColor && v.acquireDepth && v.waitDepth && v.releaseColor)
    case Depth => v.acquireColor && v.waitColor && v.acquireDepth && !(v.waitDepth && v.releaseColor && v.releaseDepth)
  }

  /** The number of projection layers submitted to end-frame. */
  function LayerCount(viewStateFlags: bv64, shouldRender: bool): (n: nat)
    ensures n <= 1
  {
    if viewStateFlags & ORIENTATION_VALID_BIT == 0 || !shouldRender then 0 else 1
  }

  /** The calls from wait-frame through the per-hand queries. */
  function Preamble(input: FrameInput): (r: seq<Invocation>)
    ensures |r| >= 3 && r[0] == Invocation(WaitFrame, true)
  {
    [Invocation(WaitFrame, true), Invocation(LocateViews, true), Invocation(SyncActions, input.syncOk)]
    + HandsFrom(input.hands, 0)
  }

  /** One frame cycle. A failed wait-frame or locate-views ends the process;
      a failed begin-frame or end-frame leaves the main loop; failed action
      queries, haptics and swapchain calls are only logged. */
  function FrameSpec(input: FrameInput): (r: FrameResult)
    ensures r.calls != [] && r.calls[0].call == WaitFrame
    ensures r.step == Fatal <==> !input.waitOk || !input.locateOk
    ensures r.step == Next <==> Completes(input)
    ensures r.step != Next ==> !r.calls[|r.calls| - 1].ok
  {
    if !input.waitOk then FrameResult([Invocation(WaitFrame, false)], Fatal)
    else if !input.locateOk then FrameResult([Invocation(WaitFrame, true), Invocation(LocateViews, false)], Fatal)
    else
      var begun := Preamble(input) + [Invocation(BeginFrame, input.beginOk)];
      if !input.beginOk then FrameResult(begun, Break)
      else
        var layers := LayerCount(input.viewStateFlags, input.shouldRender);
        FrameResult(begun + ViewsFrom(input.shouldRender, input.views, 0) + [Invocation(EndFrame(layers), input.endOk)],
                    if input.endOk then Next else Break)
  }

  /** Every call the main loop cannot go on without succeeds: wait-frame,
      locate-views, begin-frame and end-frame. */
  predicate Completes(input: FrameInput) {
    input.waitOk && input.locateOk && input.beginOk && input.endOk
  }

  /** The frame gets as far as its view loop. */
  predicate ReachesViews(input: FrameInput) {
    input.waitOk && input.locateOk && input.beginOk
  }

  // ----- One view -----

  /** One view's calls follow the fixed order color acquire, color wait,
      depth acquire, depth wait, color release, depth release, and stop
      right after the first call that fails. */
  lemma ViewCallOrder(i: nat, v: ViewResults)
    ensures var vc := ViewCalls(i, v);
      && 1 <= |vc| <= 6
      && (forall j :: 0 <= j < |vc| ==> vc[j].call == FullCycle(i)[j] && vc[j].ok == Results(v)[j])
      && (forall j :: 0 <= j < |vc| - 1 ==> vc[j].ok)
      && (|vc| < 6 ==> !vc[|vc| - 1].ok)
      && (ViewOk(v) <==> |vc| == 6 && vc[5].ok)
  {
  }

  lemma ViewCallsOnView(i: nat, v: ViewResults)
    ensures forall j :: 0 <= j < |ViewCalls(i, v)| ==> InClass(ViewCalls(i, v)[j], OnView(i))
  {
    ViewCallOrder(i, v);
  }

  /** After one view, an image is outstanding exactly when the view's calls
      stopped between its acquire and its release. */
  lemma ViewHeld(i: nat, v: ViewResults, kind: ImageKind)
    ensures Outstanding(ViewCalls(i, v), Swapchain(i, kind)) == if Held(v, kind) then 1 else 0
  {
    var color, depth := Swapchain(i, Color), Swapchain(i, Depth);
    var sc := Swapchain(i, kind);
    var a := Invocation(Acquire(color), v.acquireColor);
    var b := Invocation(WaitImage(color), v.waitColor);
    var c := Invocation(Acquire(depth), v.acquireDepth);
    var d := Invocation(WaitImage(depth), v.waitDepth);
    var e := Invocation(Release(color), v.releaseColor);
    var f := Invocation(Release(depth), v.releaseDepth);
    OutstandingOne(a, sc);
    OutstandingOne(b, sc);
    OutstandingOne(c, sc);
    OutstandingOne(d, sc);
    OutstandingOne(e, sc);
    OutstandingOne(f, sc);
    if !v.acquireColor {
      assert ViewCalls(i, v) == [a];
    } else if !v.waitColor {
      assert ViewCalls(i, v) == [a] + [b];
      OutstandingAppend([a], [b], sc);
    } else if !v.acquireDepth {
      assert ViewCalls(i, v) == [a] + [b] + [c];
      OutstandingAppend([a], [b], sc);
      OutstandingAppend([a] + [b], [c], sc);
    } else if !v.waitDepth {
      assert ViewCalls(i, v) == [a] + [b] + [c] + [d];
      OutstandingAppend([a], [b], sc);
      OutstandingAppend([a] + [b], [c], sc);
      OutstandingAppend([a] + [b] + [c], [d], sc);
    } else if !v.releaseColor {
      assert ViewCalls(i, v) == [a] + [b] + [c] + [d] + [e];
      OutstandingAppend([a], [b], sc);
      OutstandingAppend([a] + [b], [c], sc);
      OutstandingAppend([a] + [b] + [c], [d], sc);
      OutstandingAppend([a] + [b] + [c] + [d], [e], sc);
    } else {
      assert ViewCalls(i, v) == [a] + [b] + [c] + [d] + [e] + [f];
      OutstandingAppend([a], [b], sc);
      OutstandingAppend([a] + [b], [c], sc);
      OutstandingAppend([a] + [b] + [c], [d], sc);
      OutstandingAppend([a] + [b] + [c] + [d], [e], sc);
      OutstandingAppend([a] + [b] + [c] + [d] + [e], [f], sc);
    }
  }

  // ----- The view loop -----

  lemma {:induction false} ViewsFromOnSwapchains(sr: bool, views: seq<ViewResults>, i: nat)
    ensures forall j :: 0 <= j < |ViewsFrom(sr, views, i)| ==> IsSwapchainCall(ViewsFrom(sr, views, i)[j].call)
    decreases |views| - i
  {
    if i < |views| {
      ViewsFromOnSwapchains(sr, views, i + 1);
      ViewCallOrder(i, views[i]);
    }
  }

  /** With shouldRender false, the view loop makes no call at all. */
  lemma {:induction false} NoRenderNoViewCalls(views: seq<ViewResults>, i: nat)
    ensures ViewsFrom(false, views, i) == []
    decreases |views| - i
  {
    if i < |views| {
      NoRenderNoViewCalls(views, i + 1);
    }
  }

  /** The calls the view loop makes on view k's swapchains are that view's
      calls when k gets its turn, and none otherwise: a failing call skips
      every later view. */
  lemma {:induction false} ViewsProjection(sr: bool, views: seq<ViewResults>, i: nat, k: nat)
    ensures Select(ViewsFrom(sr, views, i), OnView(k)) ==
            if ReachedFrom(sr, views, i, k) then ViewCalls(k, views[k]) else []
    decreases |views| - i
  {
    if i >= |views| {
    } else if !sr {
      NoRenderNoViewCalls(views, i);
    } else {
      var here := ViewCalls(i, views[i]);
      ViewCallsOnView(i, views[i]);
      if i == k {
        SelectAll(here, OnView(k));
      } else {
        SelectNone(here, OnView(k));
      }
      if !ViewOk(views[i]) {
        assert !ReachedFrom(sr, views, i, k) || i == k;
      } else {
        SelectAppend(here, ViewsFrom(sr, views, i + 1), OnView(k));
        ViewsProjection(sr, views, i + 1, k);
        if i < k {
          assert ReachedFrom(sr, views, i, k) == ReachedFrom(sr, views, i + 1, k);
        } else if i > k {
          assert !ReachedFrom(sr, views, i + 1, k);
        } else {
          assert !ReachedFrom(sr, views, i + 1, k);
          assert Select(ViewsFrom(sr, views, i + 1), OnView(k)) == [];
        }
      }
    }
  }

  // ----- The hands -----

  lemma {:induction false} HandsFromCalls(hands: seq<HandInput>, i: nat)
    ensures forall j :: 0 <= j < |HandsFrom(hands, i)| ==>
      var c := HandsFrom(hands, i)[j].call; c.GetPose? || c.LocateHand? || c.GetGrab? || c.Haptic?
    decreases |hands| - i
  {
    if i < |hands| {
      HandsFromCalls(hands, i + 1);
    }
  }

  /** Hand h receives one haptic pulse exactly when its grab action is active
      and above the threshold. */
  lemma {:induction false} HandsHaptics(hands: seq<HandInput>, i: nat, h: nat)
    ensures Made(HandsFrom(hands, i), Haptic(h)) == if i <= h < |hands| && PulseDue(hands[h]) then 1 else 0
    decreases |hands| - i
  {
    if i < |hands| {
      HandsHaptics(hands, i + 1, h);
      var hc := HandCalls(i, hands[i]);
      MadeAppend(hc, HandsFrom(hands, i + 1), Haptic(h));
      var h0 := hands[i];
      var x, y, z := Invocation(GetPose(i), h0.poseOk), Invocation(LocateHand(i), h0.locateOk), Invocation(GetGrab(i), h0.grabOk);
      MadeOne(x, Haptic(h));
      MadeOne(y, Haptic(h));
      MadeOne(z, Haptic(h));
      MadeAppend([x], [y], Haptic(h));
      MadeAppend([x] + [y], [z], Haptic(h));
      assert [x, y, z] == [x] + [y] + [z];
      if PulseDue(h0) {
        var w := Invocation(Haptic(i), h0.hapticOk);
        MadeOne(w, Haptic(h));
        MadeAppend([x, y, z], [w], Haptic(h));
      } else {
        assert hc == [x, y, z];
      }
    }
  }

  // ----- The whole frame -----

  lemma PreambleCalls(input: FrameInput)
    ensures forall j :: 0 <= j < |Preamble(input)| ==>
      var c := Preamble(input)[j].call;
      c.WaitFrame? || c.LocateViews? || c.SyncActions? || c.GetPose? || c.LocateHand? || c.GetGrab? || c.Haptic?
    ensures Preamble(input)[0] == Invocation(WaitFrame, true)
    ensures Preamble(input)[1] == Invocation(LocateViews, true)
    ensures Preamble(input)[2] == Invocation(SyncActions, input.syncOk)
    ensures forall j :: 3 <= j < |Preamble(input)| ==>
      var c := Preamble(input)[j].call; c.GetPose? || c.LocateHand? || c.GetGrab? || c.Haptic?
  {
    HandsFromCalls(input.hands, 0);
  }

  lemma PreamblePacing(input: FrameInput)
    ensures Select(Preamble(input), FramePacing) == [Invocation(WaitFrame, true)]
  {
    var w := Invocation(WaitFrame, true);
    var rest := [Invocation(LocateViews, true), Invocation(SyncActions, input.syncOk)] + HandsFrom(input.hands, 0);
    assert Preamble(input) == [w] + rest;
    SelectAppend([w], rest, FramePacing);
    SelectOne(w, FramePacing);
    HandsFromCalls(input.hands, 0);
    SelectNone(rest, FramePacing);
  }

  /** The frame calls wait-frame first, then begin-frame, then end-frame,
      each exactly once; a failed wait-frame or locate-views stops the frame
      before begin-frame, and a failed begin-frame stops it before end-frame. */
  lemma FramePacingOrder(input: FrameInput)
    ensures Select(FrameSpec(input).calls, FramePacing) ==
      if !input.waitOk then [Invocation(WaitFrame, false)]
      else if !input.locateOk then [Invocation(WaitFrame, true)]
      else if !input.beginOk then [Invocation(WaitFrame, true), Invocation(BeginFrame, false)]
      else [Invocation(WaitFrame, true), Invocation(BeginFrame, true),
            Invocation(EndFrame(LayerCount(input.viewStateFlags, input.shouldRender)), input.endOk)]
  {
    if !input.waitOk {
      SelectOne(Invocation(WaitFrame, false), FramePacing);
    } else if !input.locateOk {
      var w, l := Invocation(WaitFrame, true), Invocation(LocateViews, false);
      assert FrameSpec(input).calls == [w] + [l];
      SelectAppend([w], [l], FramePacing);
      SelectOne(w, FramePacing);
      SelectOne(l, FramePacing);
    } else if !input.beginOk {
      var pre := Preamble(input);
      var b := Invocation(BeginFrame, false);
      PreamblePacing(input);
      SelectAppend(pre, [b], FramePacing);
      SelectOne(b, FramePacing);
    } else {
      FullFramePacing(input);
    }
  }

  /** A frame that reaches its view loop paces with one successful
      wait-frame, one successful begin-frame and one end-frame. */
  lemma FullFramePacing(input: FrameInput)
    requires ReachesViews(input)
    ensures Select(FrameSpec(input).calls, FramePacing) ==
      [Invocation(WaitFrame, true), Invocation(BeginFrame, true),
       Invocation(EndFrame(LayerCount(input.viewStateFlags, input.shouldRender)), input.endOk)]
  {
    var pre := Preamble(input);
    var b := Invocation(BeginFrame, true);
    var vs := ViewsFrom(input.shouldRender, input.views, 0);
    var e := Invocation(EndFrame(LayerCount(input.viewStateFlags, input.shouldRender)), input.endOk);
    assert FrameSpec(input).calls == pre + [b] + vs + [e];
    PreamblePacing(input);
    ViewsFromOnSwapchains(input.shouldRender, input.views, 0);
    SelectNone(vs, FramePacing);
    SelectAround(pre, b, vs, e, FramePacing);
  }

  /** Selecting from a trace with two calls of the class around a stretch
      without any. */
  lemma SelectAround(pre: seq<Invocation>, b: Invocation, vs: seq<Invocation>, e: Invocation, k: CallClass)
    requires InClass(b, k) && InClass(e, k) && Select(vs, k) == []
    ensures Select(pre + [b] + vs + [e], k) == Select(pre, k) + [b, e]
  {
    SelectAppend(pre, [b], k);
    SelectOne(b, k);
    SelectAppend(pre + [b], vs, k);
    SelectAppend(pre + [b] + vs, [e], k);
    SelectOne(e, k);
  }

  /** The layer count passed to end-frame is 1, unless the orientation-valid
      bit of the view state is clear or shouldRender is false, when it is 0;
      and end-frame is the last call of a frame that reaches it. */
  lemma SubmittedLayers(input: FrameInput)
    requires ReachesViews(input)
    ensures var calls := FrameSpec(input).calls;
      && calls[|calls| - 1].call.EndFrame?
      && var n := calls[|calls| - 1].call.layerCount;
      && (n == 0 || n == 1)
      && (n == 1 <==> input.viewStateFlags & ORIENTATION_VALID_BIT != 0 && input.shouldRender)
  {
  }

  /** With shouldRender false, no swapchain image is acquired, waited on or
      released for any view. */
  lemma NoRenderNoSwapchainCalls(input: FrameInput)
    requires !input.shouldRender
    ensures Select(FrameSpec(input).calls, AnySwapchain) == []
  {
    var calls := FrameSpec(input).calls;
    PreambleCalls(input);
    NoRenderNoViewCalls(input.views, 0);
    if input.waitOk && input.locateOk {
      var pre := Preamble(input) + [Invocation(BeginFrame, input.beginOk)];
      if input.beginOk {
        var e := [Invocation(EndFrame(LayerCount(input.viewStateFlags, input.shouldRender)), input.endOk)];
        assert calls == pre + e;
        SelectNone(pre + e, AnySwapchain);
      } else {
        SelectNone(pre, AnySwapchain);
      }
    } else {
      SelectNone(calls, AnySwapchain);
    }
  }

  /** The calls a frame makes on view k's swapchains: that view's calls in
      their fixed order when rendering is on and every earlier view
      succeeded, and none otherwise. */
  lemma FrameViewCalls(input: FrameInput, k: nat)
    ensures Select(FrameSpec(input).calls, OnView(k)) ==
      if ReachesViews(input) && ReachedFrom(input.shouldRender, input.views, 0, k)
      then ViewCalls(k, input.views[k]) else []
  {
    var calls := FrameSpec(input).calls;
    PreambleCalls(input);
    if ReachesViews(input) {
      var pre := Preamble(input) + [Invocation(BeginFrame, true)];
      var vs := ViewsFrom(input.shouldRender, input.views, 0);
      var e := [Invocation(EndFrame(LayerCount(input.viewStateFlags, input.shouldRender)), input.endOk)];
      SelectNone(pre, OnView(k));
      SelectNone(e, OnView(k));
      SelectAppend(pre, vs, OnView(k));
      SelectAppend(pre + vs, e, OnView(k));
      ViewsProjection(input.shouldRender, input.views, 0, k);
    } else if input.waitOk && input.locateOk {
      SelectNone(Preamble(input) + [Invocation(BeginFrame, false)], OnView(k));
    } else {
      SelectNone(calls, OnView(k));
    }
  }

  /** After one frame, a swapchain has an image outstanding exactly when its
      view got its turn and stopped between that image's acquire and release. */
  lemma FrameOutstanding(input: FrameInput, sc: Swapchain)
    ensures Outstanding(FrameSpec(input).calls, sc) ==
      if ReachesViews(input) && ReachedFrom(input.shouldRender, input.views, 0, sc.view)
         && Held(input.views[sc.view], sc.kind) then 1 else 0
  {
    OutstandingOnView(FrameSpec(input).calls, sc);
    FrameViewCalls(input, sc.view);
    if ReachesViews(input) && ReachedFrom(input.shouldRender, input.views, 0, sc.view) {
      ViewHeld(sc.view, input.views[sc.view], sc.kind);
    } else {
      assert Outstanding([], sc) == 0;
    }
  }

  /** On the path where every swapchain call succeeds, each swapchain has
      as many releases as acquires after the frame. */
  lemma BalancedOnSuccess(input: FrameInput, sc: Swapchain)
    requires forall j :: 0 <= j < |input.views| ==> ViewOk(input.views[j])
    ensures Outstanding(FrameSpec(input).calls, sc) == 0
  {
    FrameOutstanding(input, sc);
  }

  /** The failure branches after a successful acquire leave images held: a
      failed color wait or depth acquire leaves the color image acquired, a
      failed depth wait leaves both images acquired. */
  lemma FailureBranchesLeak(input: FrameInput, k: nat)
    requires ReachesViews(input) && ReachedFrom(input.shouldRender, input.views, 0, k)
    ensures var v := input.views[k];
      var color := Outstanding(FrameSpec(input).calls, Swapchain(k, Color));
      var depth := Outstanding(FrameSpec(input).calls, Swapchain(k, Depth));
      && (v.acquireColor && !v.waitColor ==> color == 1 && depth == 0)
      && (v.acquireColor && v.waitColor && !v.acquireDepth ==> color == 1 && depth == 0)
      && (v.acquireColor && v.waitColor && v.acquireDepth && !v.waitDepth ==> color == 1 && depth == 1)
  {
    FrameOutstanding(input, Swapchain(k, Color));
    FrameOutstanding(input, Swapchain(k, Depth));
  }

  /** Hand h gets exactly one haptic pulse in a frame whose action queries
      run and whose grab action is active above the threshold, and none
      otherwise. */
  lemma PreambleHaptics(input: FrameInput, h: nat)
    ensures Made(Preamble(input), Haptic(h)) == if h < |input.hands| && PulseDue(input.hands[h]) then 1 else 0
  {
    var w, l, y := Invocation(WaitFrame, true), Invocation(LocateViews, true), Invocation(SyncActions, input.syncOk);
    var hs := HandsFrom(input.hands, 0);
    assert Preamble(input) == [w] + [l] + [y] + hs;
    MadeOne(w, Haptic(h));
    MadeOne(l, Haptic(h));
    MadeOne(y, Haptic(h));
    HandsHaptics(input.hands, 0, h);
    MadeAppend([w], [l], Haptic(h));
    MadeAppend([w] + [l], [y], Haptic(h));
    MadeAppend([w] + [l] + [y], hs, Haptic(h));
  }

  lemma FrameHaptics(input: FrameInput, h: nat)
    ensures Made(FrameSpec(input).calls, Haptic(h)) ==
      if input.waitOk && input.locateOk && h < |input.hands| && PulseDue(input.hands[h]) then 1 else 0
  {
    var w := Invocation(WaitFrame, input.waitOk);
    MadeOne(w, Haptic(h));
    if !input.waitOk {
    } else if !input.locateOk {
      var l := Invocation(LocateViews, false);
      assert FrameSpec(input).calls == [w] + [l];
      MadeAppend([w], [l], Haptic(h));
      MadeOne(l, Haptic(h));
    } else {
      var pre := Preamble(input);
      var b := Invocation(BeginFrame, input.beginOk);
      PreambleHaptics(input, h);
      MadeOne(b, Haptic(h));
      MadeAppend(pre, [b], Haptic(h));
      if input.beginOk {
        var vs := ViewsFrom(input.shouldRender, input.views, 0);
        var e := Invocation(EndFrame(LayerCount(input.viewStateFlags, input.shouldRender)), input.endOk);
        assert FrameSpec(input).calls == pre + [b] + vs + [e];
        ViewsFromOnSwapchains(input.shouldRender, input.views, 0);
        MadeNone(vs, Haptic(h));
        MadeOne(e, Haptic(h));
        MadeAppend(pre + [b], vs, Haptic(h));
        MadeAppend(pre + [b] + vs, [e], Haptic(h));
      }
    }
  }

  // ----- Successive frames -----

  /** The calls of the frame cycles frames[i..], one after the other, up to
      and including the first frame after which the main loop does not go on. */
  function FramesFrom(frames: seq<FrameInput>, i: nat): (r: seq<Invocation>)
    ensures r == [] <==> i >= |frames|
    ensures i < |frames| && FrameSpec(frames[i]).step != Next ==> r == FrameSpec(frames[i]).calls
    decreases |frames| - i
  {
    if i >= |frames| then []
    else FrameSpec(frames[i]).calls + (if FrameSpec(frames[i]).step == Next then FramesFrom(frames, i + 1) else [])
  }

  /** The number of frames in frames[i..] that run (up to the first that
      does not complete) whose queries run and in which hand h's pulse is due. */
  function DueFrames(frames: seq<FrameInput>, h: nat, i: nat): nat
    decreases |frames| - i
  {
    if i >= |frames| then 0
    else (if frames[i].waitOk && frames[i].locateOk && h < |frames[i].hands| && PulseDue(frames[i].hands[h]) then 1 else 0)
         + (if Completes(frames[i]) then DueFrames(frames, h, i + 1) else 0)
  }

  /** Haptics are level-triggered: a hand gets one pulse in every frame in
      which its grab value is above the threshold, not one per crossing. */
  lemma {:induction false} HapticsAreLevelTriggered(frames: seq<FrameInput>, h: nat, i: nat)
    ensures Made(FramesFrom(frames, i), Haptic(h)) == DueFrames(frames, h, i)
    decreases |frames| - i
  {
    if i < |frames| {
      var calls := FrameSpec(frames[i]).calls;
      FrameHaptics(frames[i], h);
      if Completes(frames[i]) {
        MadeAppend(calls, FramesFrom(frames, i + 1), Haptic(h));
        HapticsAreLevelTriggered(frames, h, i + 1);
      } else {
        MadeAppend(calls, [], Haptic(h));
      }
    }
  }

  /** Three completed frames with an active grab value of 0.9 give three pulses. */
  lemma ThreeGrabsThreePulses(frame: FrameInput, h: nat)
    requires Completes(frame) && h < |frame.hands|
    requires frame.hands[h].isActive && frame.hands[h].currentState == 0.9
    ensures Made(FramesFrom([frame, frame, frame], 0), Haptic(h)) == 3
  {
    var fs := [frame, frame, frame];
    HapticsAreLevelTriggered(fs, h, 0);
    assert DueFrames(fs, h, 3) == 0;
    assert DueFrames(fs, h, 2) == 1;
    assert DueFrames(fs, h, 1) == 2;
  }

  /** The number of frames in frames[i..] that run (up to the first that
      does not complete) and leave an image of swapchain sc held. */
  function HeldFrames(frames: seq<FrameInput>, sc: Swapchain, i: nat): nat
    decreases |frames| - i
  {
    if i >= |frames| then 0
    else
      var fr := frames[i];
      (if ReachesViews(fr) && ReachedFrom(fr.shouldRender, fr.views, 0, sc.view) && Held(fr.views[sc.view], sc.kind) then 1 else 0)
      + (if Completes(fr) then HeldFrames(frames, sc, i + 1) else 0)
  }

  /** A held image is never released later: over any run of frames, the
      images of a swapchain outstanding at the end are exactly one per frame
      that left one held. */
  lemma {:induction false} LeaksAccumulate(frames: seq<FrameInput>, sc: Swapchain, i: nat)
    ensures Outstanding(FramesFrom(frames, i), sc) == HeldFrames(frames, sc, i)
    decreases |frames| - i
  {
    if i >= |frames| {
      assert Outstanding([], sc) == 0;
    } else {
      var calls := FrameSpec(frames[i]).calls;
      FrameOutstanding(frames[i], sc);
      if Completes(frames[i]) {
        LeaksAccumulate(frames, sc, i + 1);
        OutstandingAppend(calls, FramesFrom(frames, i + 1), sc);
      } else {
        OutstandingAppend(calls, [], sc);
        assert Outstanding([], sc) == 0;
      }
    }
  }
}
