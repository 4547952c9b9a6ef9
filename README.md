# OpenXR example: control protocol of `main()`

This project models the control logic of an OpenXR/OpenGL example
application (`src/main.c`) and proves properties of it in Dafny. Only the
control protocol is modelled. The OpenXR calls of the main loop are
abstract external calls that succeed or fail. Their results are inputs of
the model. A ghost trace records the calls, in order, each with its result.
`xrPollEvent` is not in the trace either: what it returns is the input that
describes the drain, the polled events and how polling ended (`events` and
`pollEnd`). Three more OpenXR calls of the main loop are not in the trace,
because their results never change the loop's course: `xrRequestExitSession`,
and the `xrGetCurrentInteractionProfile` and `xrPathToString` queries of the
interaction-profile diagnostic (see "Left out"). Three parts are covered:

- **Session lifecycle** (`lifecycle.dfy`, module `SessionLifecycle`). These
  are the reactions to runtime events that update `session_state`,
  `session_running`, `run_framecycle` and `quit_mainloop`. They follow the
  session lifecycle of section 9.3 of the OpenXR 1.0 specification. The
  transition rule is a pure function, `OnEvent`. The drain loop over the
  polled events is `DrainFrom`. It handles an instance-loss event the way
  the code evidently intends: quit is set and polling goes on. The loop as
  written, whose `continue` skips the next poll, is modelled separately by
  `DrainPassAsWritten` and `DrainPassesAsWritten` (see "Findings").
- **Frame cycle** (`frame.dfy`, module `FrameLoop`). One frame is:
  - wait-frame, then locate-views;
  - action sync, then the per-hand pose, location and grab queries, with
    a haptic pulse when the grab action is active above 0.75;
  - begin-frame, then the per-view swapchain calls;
  - end-frame with 0 or 1 projection layers.

  `FrameSpec` gives the calls one frame makes and how the main-loop
  iteration ends. The number of images a swapchain has acquired and not
  yet released is a ghost counter, `Outstanding`, read off the trace.
- **Swapchain format choice** (`formats.dfy`, module `SwapchainFormats`).
  This is the scan over the array of enumerated formats.

`protocol.dfy` (module `Protocol`) holds the shared vocabulary: session
states, calls, invocations, and the counting and filtering functions over a
trace. `mainloop.dfy` (module `MainLoop`) puts the parts together.

- `IterationSpec` and `RunFrom` describe one pass and a whole run of
  `while (!quit_mainloop)`.
- The class `XrApp` holds the four loop-control variables as fields and
  the trace as a ghost field.
- Its methods are the imperative model: event handling, the drain loop,
  the hand loop, the view loop with `break`, the overwritten layer count,
  the frame cycle, one pass and the main loop.
- Each method is proved to make exactly the calls, and leave exactly the
  flags, that the functions prescribe.
- `Valid()` is the lifecycle invariant. It says the successful begin and
  end calls in the trace alternate, starting with a begin, and that
  `session_running` is set exactly when the last of them was a begin.

Results of external calls are inputs:

- `Polled.callOk` is the result of the lifecycle call an event triggers.
- `FrameInput` holds the frame's results, including `shouldRender`, the
  view-state flags and the per-hand queries.
- `ViewResults` holds the six swapchain results of one view.

The process exit status is `Exited(1)` for a `return 1` and `Exited(0)` for
a `break` out of the main loop: cleanup follows and `main` returns 0 at
src/main.c:1319. When the inputs run out, the outcome is `StillRunning`.

## Model

| member | source | states |
|---|---|---|
| SwapchainFormats.SelectFormats | src/main.c:416-425 | color is GL_SRGB8_ALPHA8 when it occurs among the first `count` formats, else `formats[0]`; depth is GL_DEPTH_COMPONENT16 when it occurs, else -1; both are a listed format or the sentinel |
| Protocol.SessionBalance | src/main.c:860-860 | when the trace is lifecycle-consistent, the successful begins minus the successful ends equal `session_running` (1 or 0) |
| Protocol.AppendToggle | src/main.c:935-967 | a successful begin while stopped, or a successful end while running, keeps the begin/end calls alternating and flips the flag |
| Protocol.AppendNoToggle | src/main.c:1045-1308 | calls that neither begin nor end the session keep the lifecycle invariant |
| SessionLifecycle.OnSessionState | src/main.c:897-988 | the new state is recorded; at most one lifecycle call is made; quit is set only by a successful destroy; the reaction is fatal exactly when that call fails |
| SessionLifecycle.OnEvent | src/main.c:884-1024 | quit is never cleared, and instance loss sets it; at most one call; fatal exactly when the call made fails; the interaction-profile diagnostic and unknown events change no flag and make no traced call |
| SessionLifecycle.DrainFrom | src/main.c:880-1028 | the drain is fatal exactly when its last call failed, and every earlier call succeeded |
| SessionLifecycle.ReadyBeginsOnce | src/main.c:931-952 | READY calls begin only when the session is not running; afterwards running and frame cycle are both on; a second READY makes no call |
| SessionLifecycle.StoppingEndsOnce | src/main.c:955-973 | STOPPING calls end only when the session is running; afterwards running and frame cycle are both off; a repeated STOPPING makes no call |
| SessionLifecycle.PassiveStates | src/main.c:913-928 | IDLE, UNKNOWN and MAX_ENUM turn the frame cycle off, SYNCHRONIZED, VISIBLE and FOCUSED turn it on; no call is made and nothing else changes |
| SessionLifecycle.TerminalStates | src/main.c:976-987 | LOSS_PENDING and EXITING call destroy once; on success quit is set and the frame cycle is off; `session_running` is untouched |
| SessionLifecycle.OnEventToggles | src/main.c:935-967 | an event flips `session_running` exactly when it makes a successful begin (while stopped) or end (while running) |
| SessionLifecycle.OnEventKeepsLifecycle | src/main.c:931-973 | handling one event preserves the lifecycle invariant |
| SessionLifecycle.DrainKeepsLifecycle | src/main.c:882-1028 | draining any events preserves the lifecycle invariant |
| SessionLifecycle.BeginEndAlternate | src/main.c:858-973 | over any event sequence from the initial state, successful begins and ends alternate starting with a begin, and their difference is `session_running` |
| SessionLifecycle.DrainCallsAreLifecycle | src/main.c:882-1028 | the drain makes only begin, end and destroy calls |
| SessionLifecycle.QuitIsSticky | src/main.c:890-984 | once quit is set, no drained event clears it |
| SessionLifecycle.InstanceLossEndsMainLoop | src/main.c:886-892 | an instance-loss event anywhere in a non-fatal drain leaves quit set |
| SessionLifecycle.IdleReadyFocused | src/main.c:910-952 | for the events IDLE, READY, FOCUSED: one begin call; the session is running and the frame cycle is on at the end |
| SessionLifecycle.DrainPassAsWritten | src/main.c:882-1027 | one pass of the drain loop body as written stays at an instance-loss event with quit set and no call; for any other event it reacts exactly as `OnEvent`, including the fatal outcome of a failed lifecycle call, and moves to the next event |
| SessionLifecycle.DrainPassesAsWritten | src/main.c:882-1028 | repeated passes as written never move back: the next event looked at is at or after the first |
| SessionLifecycle.AsWrittenAgreesWithoutLoss | src/main.c:882-1028 | without an instance-loss event the drain as written gives the same flags, calls and fatal outcome as the corrected drain, and a non-fatal drain consumes every event |
| SessionLifecycle.InstanceLossStallsAsWritten | src/main.c:886-892 | as written, any number of drain passes stays at an instance-loss event forever |
| SessionLifecycle.InstanceLossIsConsumed | src/main.c:1026-1027 | the corrected drain sets quit on instance loss and goes on with the next event |
| FrameLoop.ViewCalls | src/main.c:1215-1265 | one view makes 1 to 6 calls, the first being the color acquire |
| FrameLoop.ViewCallOrder | src/main.c:1213-1270 | one view makes 1 to 6 calls in the order color acquire, color wait, depth acquire, depth wait, color release, depth release; each records the runtime's result for that call; all but the last succeed, and a view with fewer than six calls ends with the one that failed; the view succeeds exactly when all six do |
| FrameLoop.ViewCallsOnView | src/main.c:1215-1265 | every call of view i is on one of view i's two swapchains |
| FrameLoop.ViewHeld | src/main.c:1213-1270 | after one view, a swapchain has one image outstanding exactly when the view stopped between that image's acquire and its release, else none |
| FrameLoop.ViewsFrom | src/main.c:1187-1271 | with rendering on, the view loop from view i starts with view i's color acquire; that it makes only swapchain calls, none without rendering, and each view's calls exactly when every earlier view succeeded is stated by `ViewsFromOnSwapchains`, `NoRenderNoViewCalls` and `ViewsProjection` |
| FrameLoop.ViewsFromOnSwapchains | src/main.c:1187-1271 | the view loop makes only swapchain calls |
| FrameLoop.NoRenderNoViewCalls | src/main.c:1190-1194 | with shouldRender false the view loop makes no call |
| FrameLoop.ViewsProjection | src/main.c:1187-1271 | the calls on view k's swapchains are view k's calls if every earlier view succeeded and rendering is on, and nothing otherwise |
| FrameLoop.HandCalls | src/main.c:1097-1174 | hand i makes its pose, location and grab queries in that order, each with the runtime's result, then a fourth call, a haptic pulse for hand i, exactly when its grab is active above 0.75 |
| FrameLoop.HandsFrom | src/main.c:1095-1175 | the hand loop from hand i starts with hand i's pose query; its call kinds are stated by `HandsFromCalls` and its pulses by `HandsHaptics` |
| FrameLoop.HandsFromCalls | src/main.c:1095-1175 | the hand loop makes only pose, locate, grab and haptic calls |
| FrameLoop.HandsHaptics | src/main.c:1152-1174 | each hand gets exactly one haptic call when its grab action is active above 0.75, and none otherwise |
| FrameLoop.Preamble | src/main.c:1045-1175 | the calls before begin-frame number at least three and start with a successful wait-frame |
| FrameLoop.PreambleCalls | src/main.c:1045-1175 | the calls before begin-frame are a successful wait-frame, a successful locate-views, then the one action sync with its result, and after it only the hand queries and pulses |
| FrameLoop.PreamblePacing | src/main.c:1047-1052 | the only frame-pacing call before begin-frame is the wait-frame |
| FrameLoop.FramePacingOrder | src/main.c:1045-1308 | wait-frame, begin-frame and end-frame are each called once and in that order; a failed wait or locate stops before begin-frame, a failed begin-frame stops before end-frame |
| FrameLoop.LayerCount | src/main.c:1280-1293 | at most one projection layer is submitted |
| FrameLoop.FrameSpec | src/main.c:1045-1308 | a frame starts with wait-frame; it ends the process exactly when wait-frame or locate-views fails; the main loop goes on exactly when wait, locate, begin and end all succeed; when it does not go on, the last call is the one that failed |
| FrameLoop.SubmittedLayers | src/main.c:1280-1293 | end-frame is the last call and submits 0 or 1 layers; it submits 1 exactly when the orientation-valid bit is set and shouldRender is true |
| FrameLoop.NoRenderNoSwapchainCalls | src/main.c:1187-1194 | with shouldRender false the frame acquires, waits on and releases no image |
| FrameLoop.FrameViewCalls | src/main.c:1187-1271 | the frame's calls on view k's swapchains are view k's calls exactly when the frame reaches the view loop and view k gets its turn |
| FrameLoop.FrameOutstanding | src/main.c:1213-1270 | after a frame, a swapchain has one image outstanding exactly when its view got its turn and stopped between that image's acquire and release |
| FrameLoop.BalancedOnSuccess | src/main.c:1213-1270 | when every swapchain call succeeds, each swapchain has as many releases as acquires |
| FrameLoop.FailureBranchesLeak | src/main.c:1223-1245 | a failed color wait or depth acquire leaves the color image held; a failed depth wait leaves both images held |
| FrameLoop.PreambleHaptics | src/main.c:1152-1174 | before begin-frame, hand h gets one pulse when its grab is due, else none |
| FrameLoop.FrameHaptics | src/main.c:1152-1174 | hand h gets one pulse per frame exactly when wait and locate succeeded and its grab is due |
| FrameLoop.FramesFrom | src/main.c:862-1308 | successive frame cycles make calls exactly when a frame remains; a frame after which the main loop does not go on is the last: its calls are all that remain |
| FrameLoop.HapticsAreLevelTriggered | src/main.c:1152-1174 | over successive frames up to the first that does not complete, hand h gets as many pulses as there are frames whose queries ran with its grab due: one per frame while held, with no edge detection |
| FrameLoop.ThreeGrabsThreePulses | src/main.c:1152-1152 | three completed frames holding the grab at 0.9 give three pulses |
| FrameLoop.LeaksAccumulate | src/main.c:1213-1270 | a held image is never released later: over successive frames up to the first that does not complete, the images of a swapchain outstanding at the end are exactly one per frame whose view loop reached that swapchain's view and left the image held |
| MainLoop.IterationSpec | src/main.c:875-1308 | a pass leaves the flags of its drain; with the frame cycle off it makes only the drain's calls; a fatal pass ends with the failed call |
| MainLoop.RunFrom | src/main.c:862-1308 | a run still going when the inputs run out has quit clear; a run that exits with status 1 ends with the failed call |
| MainLoop.QuitEndsRun | src/main.c:862-1042 | a pass whose drain sets quit is the last pass: the run makes exactly that pass's calls and exits with 1 if the pass was fatal, else with 0 |
| MainLoop.IterationFrameCounts | src/main.c:875-1308 | a pass makes the haptic pulses and leaves the outstanding swapchain images of its frame cycle when it runs one, and none otherwise: the drain touches neither |
| MainLoop.FrameCallsNoLifecycle | src/main.c:1045-1308 | a frame cycle makes no successful begin or end call |
| MainLoop.IterationKeepsLifecycle | src/main.c:875-1308 | one main-loop pass preserves the lifecycle invariant |
| MainLoop.RunKeepsLifecycle | src/main.c:862-1308 | any run of the main loop preserves the lifecycle invariant |
| MainLoop.RunBeginEndAlternate | src/main.c:858-1308 | over any run from the initial state, successful begins and ends alternate starting with a begin, and their difference is `session_running` |
| MainLoop.IdleIterationMakesNoFrameCalls | src/main.c:1039-1042 | a pass whose drain leaves the frame cycle off makes no frame-pacing and no swapchain call |
| MainLoop.ActiveIterationPacing | src/main.c:1029-1052 | a clean pass with the frame cycle on makes exactly the frame's pacing calls, starting with wait-frame |
| MainLoop.XrApp.constructor | src/main.c:858-861 | for any view count, the state starts as UNKNOWN with all three flags off and an empty trace, and the lifecycle invariant holds |
| MainLoop.XrApp.ChangeState | src/main.c:893-990 | the new flags and calls are those of `OnSessionState`; the lifecycle invariant is kept |
| MainLoop.XrApp.HandleEvent | src/main.c:884-1024 | the new flags and calls are those of `OnEvent`; the lifecycle invariant is kept |
| MainLoop.XrApp.PollEvents | src/main.c:880-1028 | the drain loop leaves the flags and appends the calls of `DrainFrom`; it stops at the first failed lifecycle call |
| MainLoop.XrApp.RenderView | src/main.c:1213-1270 | appends view i's calls up to the first failure and reports whether all six succeeded |
| MainLoop.XrApp.RenderViews | src/main.c:1187-1271 | appends the view loop's calls; it skips every view when shouldRender is false and stops after the first failing view |
| MainLoop.XrApp.QueryHands | src/main.c:1095-1175 | appends both hands' queries and their due haptic pulses |
| MainLoop.XrApp.FrameCycle | src/main.c:1045-1308 | appends exactly the frame's calls, with the layer count decided as in `SubmittedLayers`, and ends the pass as the frame prescribes |
| MainLoop.XrApp.Iterate | src/main.c:875-1308 | one pass: drain, leave on a poll failure, skip the frame when the frame cycle is off, otherwise run it; the lifecycle invariant is kept |
| MainLoop.XrApp.Run | src/main.c:862-1308 | the main loop's flags, calls and exit outcome are those of `RunFrom`; the lifecycle invariant holds throughout |

## Left out

- Startup is not modelled: creating the instance, system, session,
  spaces, swapchains, images and actions, and suggesting bindings. These
  are straight-line foreign calls, each exiting on failure.
- `view_count` is a constant of `XrApp`, fixed when the views were
  enumerated. xrLocateViews can also write it back, and that overwrite is
  not modelled.
- Projection and view matrices (`mat4_proj_xr` and the view-matrix code)
  are left out: they are floating-point arithmetic.
- `render_frame`, shader and framebuffer setup, and all OpenGL and SDL
  drawing are left out: they are output only.
- The per-view `proj_views` copies are left out, since they are only data
  for the compositor.
- SDL event pumping and `xrRequestExitSession` are left out: they are
  platform input, and the request only causes later session-state events.
  Those events are part of the drained event input.
- The interaction-profile-changed branch is a no-op in the model. For each
  of the HAND_COUNT hands it calls `xrGetCurrentInteractionProfile` and
  `xrPathToString` and prints the profile. These calls are not in the
  trace, because their results cannot change the loop's course. The error
  checks after them test the stale `result` rather than `res`. `result` is
  always XR_SUCCESS whenever the drain runs. The last assignment to
  `result` before a drain, or before this event within it, is a checked
  call whose failure returns or leaves the main loop:
  `xrAttachSessionActionSets` before the first pass, a begin, end or destroy
  call of the drain, or the `xrEndFrame` of an earlier pass. Failed
  action, haptic and swapchain calls do set `result`, but each frame that
  makes them later sets it again with its `xrEndFrame`. So those checks
  cannot fire.
- Pose and location values are not modelled, and neither are the float
  results of the actions. A grab value is a `real` compared with 0.75,
  together with `isActive`.
- A session-state value outside the enumeration is not modelled. The
  inner state switch has no default case.
- Cleanup code and all `printf` logging are left out.
- The main-loop members (`IterationSpec`, `RunFrom` and the methods of
  `XrApp`) and every property proved about them use the corrected drain
  `DrainFrom`. The drain as written, which stalls on an instance-loss
  event, is modelled only by `DrainPassAsWritten` and
  `DrainPassesAsWritten`.
- FrameLoop.FramesFrom: successive frames are chained without the event
  drains between them. `MainLoop.IterationFrameCounts` shows that a drain
  makes no haptic call and leaves no swapchain image outstanding, so the
  counts proved over `FramesFrom` are the counts of the passes that run a
  frame.
- SwapchainFormats.SelectFormats: a runtime format count above 32 is
  excluded by the precondition `count <= MAX_FORMATS`. The source never
  checks this before the runtime fills the 32-entry array.
- MainLoop.XrApp.Run: the loop ends when the supplied passes run out.
  That case is reported as `StillRunning`. An unbounded run is not
  modelled.

## Findings

| source | as written | input that shows it | evidently intended | confidence | as-written member | corrected member |
|---|---|---|---|---|---|---|
| src/main.c:891 | the `continue` after an instance-loss event jumps to the drain loop's test and skips the re-poll at src/main.c:1026-1027, so the same event is handled again and again | a drain whose first polled event is XR_TYPE_EVENT_DATA_INSTANCE_LOSS_PENDING | set `quit_mainloop` and go on polling, so that the drain ends and the main loop exits | not executed | SessionLifecycle.InstanceLossStallsAsWritten | SessionLifecycle.InstanceLossIsConsumed |
