/** The vocabulary shared by every part of the model: the session states of
    the runtime, the external calls the application makes, and the trace of
    those calls together with the counters that are read off it. */
module Protocol {

  newtype int64 = x: int | -0x8000_0000_0000_0000 <= x < 0x8000_0000_0000_0000

  // Capacities of the application's fixed-size arrays
  const MAX_FORMATS: nat := 32
  const HAND_COUNT: nat := 2

  /** The session states a session-state-changed event can carry. */
  datatype SessionState =
    | Unknown | Idle | Ready | Synchronized | Visible | Focused
    | Stopping | LossPending | Exiting | MaxEnum

  /** Every view owns one color and one depth swapchain. */
  datatype ImageKind = Color | Depth
  datatype Swapchain = Swapchain(view: nat, kind: ImageKind)

  /** The external calls of the session lifecycle and of the frame cycle. */
  datatype Call =
    | BeginSession | EndSession | DestroySession
    | WaitFrame | LocateViews | SyncActions
    | GetPose(hand: nat) | LocateHand(hand: nat) | GetGrab(hand: nat) | Haptic(hand: nat)
    | BeginFrame
    | Acquire(chain: Swapchain) | WaitImage(chain: Swapchain) | Release(chain: Swapchain)
    | EndFrame(layerCount: nat)

  /** One call that was made, with the success or failure it returned. */
  datatype Invocation = Invocation(call: Call, ok: bool)

  predicate IsSwapchainCall(c: Call) {
    c.Acquire? || c.WaitImage? || c.Release?
  }

  /** The slices of a trace that the properties talk about. */
  datatype CallClass =
    | SessionToggle     // successful BeginSession and EndSession calls
    | FramePacing       // WaitFrame, BeginFrame and EndFrame calls
    | AnySwapchain      // acquire, wait and release calls on any swapchain
    | OnView(view: nat) // acquire, wait and release calls on the swapchains of one view

  predicate InClass(i: Invocation, k: CallClass) {
    match k
    case SessionToggle => i.ok && (i.call == BeginSession || i.call == EndSession)
    case FramePacing => i.call.WaitFrame? || i.call.BeginFrame? || i.call.EndFrame?
    case AnySwapchain => IsSwapchainCall(i.call)
    case OnView(v) => IsSwapchainCall(i.call) && i.call.chain.view == v
  }

  /** The subsequence of the trace that falls in class k, in trace order. */
  function Select(t: seq<Invocation>, k: CallClass): (r: seq<Invocation>)
    ensures |r| <= |t|
    ensures forall j :: 0 <= j < |r| ==> InClass(r[j], k)
  {
    if t == [] then [] else (if InClass(t[0], k) then [t[0]] else []) + Select(t[1..], k)
  }

  /** How many times call c was made. */
  function Made(t: seq<Invocation>, c: Call): nat {
    if t == [] then 0 else (if t[0].call == c then 1 else 0) + Made(t[1..], c)
  }

  /** How many times call c was made and succeeded. */
  function Succeeded(t: seq<Invocation>, c: Call): nat {
    if t == [] then 0 else (if t[0].call == c && t[0].ok then 1 else 0) + Succeeded(t[1..], c)
  }

  /** The ghost counter of a swapchain: images acquired and not yet released. */
  function Outstanding(t: seq<Invocation>, sc: Swapchain): int {
    Succeeded(t, Acquire(sc)) - Succeeded(t, Release(sc))
  }

  /** The successful begin and end calls alternate, starting with a begin. */
  predicate Alternating(p: seq<Invocation>) {
    forall j :: 0 <= j < |p| ==> p[j].call == (if j % 2 == 0 then BeginSession else EndSession)
  }

  /** The session_running flag agrees with the trace: the begins and ends
      alternate, and the flag is set exactly when the last of them was a begin. */
  predicate LifecycleConsistent(t: seq<Invocation>, running: bool) {
    Alternating(Select(t, SessionToggle)) && (running <==> |Select(t, SessionToggle)| % 2 == 1)
  }

  lemma {:induction false} SelectAppend(a: seq<Invocation>, b: seq<Invocation>, k: CallClass)
    ensures Select(a + b, k) == Select(a, k) + Select(b, k)
  {
    if a == [] {
      assert a + b == b;
    } else {
      assert (a + b)[1..] == a[1..] + b;
      SelectAppend(a[1..], b, k);
    }
  }

  lemma SelectOne(x: Invocation, k: CallClass)
    ensures Select([x], k) == if InClass(x, k) then [x] else []
  {
    assert [x][1..] == [];
  }

  lemma MadeOne(x: Invocation, c: Call)
    ensures Made([x], c) == if x.call == c then 1 else 0
  {
    assert [x][1..] == [];
  }

  lemma OutstandingOne(x: Invocation, sc: Swapchain)
    ensures Outstanding([x], sc) ==
      (if x.ok && x.call == Acquire(sc) then 1 else 0) - (if x.ok && x.call == Release(sc) then 1 else 0)
  {
    assert [x][1..] == [];
    assert Succeeded([x], Acquire(sc)) == (if x.call == Acquire(sc) && x.ok then 1 else 0) + Succeeded([], Acquire(sc));
    assert Succeeded([x], Release(sc)) == (if x.call == Release(sc) && x.ok then 1 else 0) + Succeeded([], Release(sc));
  }

  lemma {:induction false} SelectNone(t: seq<Invocation>, k: CallClass)
    requires forall j :: 0 <= j < |t| ==> !InClass(t[j], k)
    ensures Select(t, k) == []
  {
    if t != [] {
      SelectNone(t[1..], k);
    }
  }

  lemma {:induction false} MadeNone(t: seq<Invocation>, c: Call)
    requires forall j :: 0 <= j < |t| ==> t[j].call != c
    ensures Made(t, c) == 0
  {
    if t != [] {
      MadeNone(t[1..], c);
    }
  }

  lemma {:induction false} SucceededNone(t: seq<Invocation>, c: Call)
    requires Made(t, c) == 0
    ensures Succeeded(t, c) == 0
  {
    if t != [] {
      SucceededNone(t[1..], c);
    }
  }

  lemma {:induction false} SelectAll(t: seq<Invocation>, k: CallClass)
    requires forall j :: 0 <= j < |t| ==> InClass(t[j], k)
    ensures Select(t, k) == t
  {
    if t != [] {
      SelectAll(t[1..], k);
    }
  }

  lemma {:induction false} MadeAppend(a: seq<Invocation>, b: seq<Invocation>, c: Call)
    ensures Made(a + b, c) == Made(a, c) + Made(b, c)
  {
    if a == [] {
      assert a + b == b;
    } else {
      assert (a + b)[1..] == a[1..] + b;
      MadeAppend(a[1..], b, c);
    }
  }

  lemma {:induction false} SucceededAppend(a: seq<Invocation>, b: seq<Invocation>, c: Call)
    ensures Succeeded(a + b, c) == Succeeded(a, c) + Succeeded(b, c)
  {
    if a == [] {
      assert a + b == b;
    } else {
      assert (a + b)[1..] == a[1..] + b;
      SucceededAppend(a[1..], b, c);
    }
  }

  lemma OutstandingAppend(a: seq<Invocation>, b: seq<Invocation>, sc: Swapchain)
    ensures Outstanding(a + b, sc) == Outstanding(a, sc) + Outstanding(b, sc)
  {
    SucceededAppend(a, b, Acquire(sc));
    SucceededAppend(a, b, Release(sc));
  }

  /** The counter of a swapchain depends only on the calls made on its view. */
  lemma {:induction false} OutstandingOnView(t: seq<Invocation>, sc: Swapchain)
    ensures Outstanding(t, sc) == Outstanding(Select(t, OnView(sc.view)), sc)
  {
    if t != [] {
      OutstandingOnView(t[1..], sc);
      var head := if InClass(t[0], OnView(sc.view)) then [t[0]] else [];
      OutstandingAppend(head, Select(t[1..], OnView(sc.view)), sc);
      assert [t[0]][1..] == [];
    }
  }

  lemma ConcatAssoc(a: seq<Invocation>, b: seq<Invocation>, c: seq<Invocation>)
    ensures a + (b + c) == a + b + c
  {
  }

  /** Calls that neither begin nor end the session keep the flag in step. */
  lemma AppendNoToggle(t: seq<Invocation>, u: seq<Invocation>, running: bool)
    requires LifecycleConsistent(t, running) && Select(u, SessionToggle) == []
    ensures LifecycleConsistent(t + u, running)
  {
    SelectAppend(t, u, SessionToggle);
    assert Select(t, SessionToggle) + [] == Select(t, SessionToggle);
  }

  /** A successful begin while the session is stopped, or a successful end
      while it runs, flips the flag and keeps it in step. */
  lemma AppendToggle(t: seq<Invocation>, x: Invocation, running: bool)
    requires LifecycleConsistent(t, running)
    requires x.ok && x.call == (if running then EndSession else BeginSession)
    ensures LifecycleConsistent(t + [x], !running)
  {
    SelectAppend(t, [x], SessionToggle);
    SelectOne(x, SessionToggle);
    var before := Select(t, SessionToggle);
    var after := before + [x];
    assert Alternating(after) by {
      forall j | 0 <= j < |after|
        ensures after[j].call == (if j % 2 == 0 then BeginSession else EndSession)
      {
        if j < |before| {
          assert after[j] == before[j];
        }
      }
    }
  }

  /** The balance of the lifecycle: session_running is the number of
      successful begins minus the number of successful ends, so that
      difference never leaves {0, 1}. */
  lemma {:induction false} SessionBalance(t: seq<Invocation>, running: bool)
    requires LifecycleConsistent(t, running)
    ensures Succeeded(t, BeginSession) - Succeeded(t, EndSession) == (if running then 1 else 0)
  {
    var p := Select(t, SessionToggle);
    ToggleCounts(t, BeginSession);
    ToggleCounts(t, EndSession);
    AlternatingCounts(p);
  }

  lemma {:induction false} ToggleCounts(t: seq<Invocation>, c: Call)
    requires c == BeginSession || c == EndSession
    ensures Succeeded(t, c) == Succeeded(Select(t, SessionToggle), c)
  {
    if t != [] {
      ToggleCounts(t[1..], c);
      var head := if InClass(t[0], SessionToggle) then [t[0]] else [];
      SucceededAppend(head, Select(t[1..], SessionToggle), c);
      assert [t[0]][1..] == [];
    }
  }

  lemma {:induction false} AlternatingCounts(p: seq<Invocation>)
    requires Alternating(p)
    requires forall j :: 0 <= j < |p| ==> p[j].ok
    ensures Succeeded(p, BeginSession) == (|p| + 1) / 2
    ensures Succeeded(p, EndSession) == |p| / 2
  {
    if p != [] {
      var n := |p| - 1;
      var front := p[..n];
      assert p == front + [p[n]];
      assert Alternating(front) by {
        forall j | 0 <= j < |front| ensures front[j].call == (if j % 2 == 0 then BeginSession else EndSession) {
          assert front[j] == p[j];
        }
      }
      AlternatingCounts(front);
      SucceededAppend(front, [p[n]], BeginSession);
      SucceededAppend(front, [p[n]], EndSession);
      assert [p[n]][1..] == [];
    }
  }
}
