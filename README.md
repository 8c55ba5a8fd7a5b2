# CurrentActivity: a verified model of its three state machines

CurrentActivity is an Android utility that shows, in a draggable overlay,
the package and activity class of whatever app is in the foreground, and
lets the user copy either to the clipboard. Three components cooperate
through broadcasts:

- **Foreground observer** (`MyAccessibilityService`): receives every
  window-state change, drops noise (events of other types, null names, the
  `android` package, class names containing `PopupWindow`, `Toast` or
  `DecorView`), and broadcasts `CURRENT_ACTIVITY_UPDATE` with the
  `(package, activity)` pair only when the pair differs from the one it
  remembers. Unbinding forgets the pair.
- **Overlay** (`FloatingService`): holds the last announced pair (last
  writer wins), copies a field to the clipboard on a tap unless it is null or
  `"Unknown"`, drags the window by the net finger travel since the press
  with no clamping, starts at (100, 300), and on close stops itself and
  broadcasts `FLOATING_WINDOW_CLOSED`.
- **Settings screen** (`MainActivity`): shows each permission button while
  its capability is missing, enables the switch only with both
  capabilities, stores the accessibility state and the switch state, starts
  and stops the overlay from the switch, re-syncs the switch with the
  overlay's running flag on resume, and turns the switch off when the
  overlay reports it was closed.

The platform is abstracted away. Every platform query (`canDrawOverlays`,
the two `isRunning()` flags) is a method parameter. Everything a component
does that others can observe (broadcasts, clipboard writes, toasts,
start/stop requests) is appended to that component's `outbox: seq<Effect>`.

Files: `android.dfy` (module `Android`: nullable values, intents, effects,
`String.contains`), `foreground_observer.dfy` (module `ForegroundObserver`),
`overlay.dfy` (module `Overlay`), `controller.dfy` (module `Controller`),
`wiring.dfy` (module `Wiring`: properties that span two components).

Each component is a class whose methods change its fields in place. Their
contracts tie the new state to pure functions (`Announcement`/`Next`,
`Receive`, `TouchStep`, `CopyEffects`), or state it outright. The lemmas
prove what the source promises about those functions, one event at a time
and over whole sequences of events.

### Two behaviours of the code worth knowing

- The copy guard (FloatingService.java:250) refuses `"Unknown"`, which is
  what the views show before any update arrives (:163-164). It tests the
  field behind the view, though, and that field starts as `""` (:31-32). So
  a tap before the first update copies `""` and reports "Package name
  copied". See `Overlay.TapBeforeFirstUpdate`.
- A rejected turn-on reverts the switch to off (MainActivity.java:86), yet
  the last write is `saveSwitchState(isChecked)` with `true` (:94). A resume
  with the overlay stopped does not repair this: it compares the switch
  (off) with the service (off), not the stored value. Only the next screen,
  which restores the switch to on from the store, re-syncs it. See
  `Controller.RejectedTurnOnThenResume`.

## Model

| member | source | states |
|---|---|---|
| `Android.Contains` | app/src/main/java/alienkrishn/currentactivity/app/MyAccessibilityService.java:25-27 | `String.contains`, defined by trying each suffix; a string that contains `sub` is at least as long as `sub` |
| `Android.ContainsIffOccurs` | app/src/main/java/alienkrishn/currentactivity/app/MyAccessibilityService.java:25-27 | The model of `String.contains` holds exactly when the substring occurs at some index |
| `ForegroundObserver.Candidate` | app/src/main/java/alienkrishn/currentactivity/app/MyAccessibilityService.java:18-27 | The filter: a surviving pair comes from a TYPE_WINDOW_STATE_CHANGED event carrying exactly those two non-null names, and it is not noise |
| `ForegroundObserver.Announcement` | app/src/main/java/alienkrishn/currentactivity/app/MyAccessibilityService.java:30-38 | The de-duplicator: what is announced is the event's surviving pair, and only when it differs from the remembered pair |
| `ForegroundObserver.Next` | app/src/main/java/alienkrishn/currentactivity/app/MyAccessibilityService.java:30-32 | The memory after an event is either the old memory or the event's surviving pair |
| `ForegroundObserver.OtherEventTypeIgnored` | app/src/main/java/alienkrishn/currentactivity/app/MyAccessibilityService.java:18 | An event of a type other than TYPE_WINDOW_STATE_CHANGED announces nothing and leaves the remembered pair unchanged |
| `ForegroundObserver.NullNameIgnored` | app/src/main/java/alienkrishn/currentactivity/app/MyAccessibilityService.java:19 | An event with a null package or a null class name announces nothing and leaves the pair unchanged |
| `ForegroundObserver.NoiseIgnored` | app/src/main/java/alienkrishn/currentactivity/app/MyAccessibilityService.java:24-27 | An event from package exactly `"android"`, or whose class name has `PopupWindow`, `Toast` or `DecorView` at some index, announces nothing and leaves the pair unchanged |
| `ForegroundObserver.GenuineEventIsCandidate` | app/src/main/java/alienkrishn/currentactivity/app/MyAccessibilityService.java:18-27 | Converse: a window-state event with both names, not from `"android"` and free of the three markers, survives the filter with exactly its own pair |
| `ForegroundObserver.SamePairSuppressed` | app/src/main/java/alienkrishn/currentactivity/app/MyAccessibilityService.java:30 | A surviving event whose pair equals the remembered one announces nothing |
| `ForegroundObserver.NewPairAnnounced` | app/src/main/java/alienkrishn/currentactivity/app/MyAccessibilityService.java:30-38 | A surviving event with a different pair announces exactly that pair, which becomes the remembered pair |
| `ForegroundObserver.AnnouncementIsChange` | app/src/main/java/alienkrishn/currentactivity/app/MyAccessibilityService.java:30-32 | Whatever is announced differs from the pair remembered before and is the pair remembered after; without an announcement the memory is unchanged |
| `ForegroundObserver.RepeatSuppressed` | app/src/main/java/alienkrishn/currentactivity/app/MyAccessibilityService.java:30-32 | Handling the same event again right away announces nothing and changes nothing |
| `ForegroundObserver.EmptyPairNotAnnouncedFromStart` | app/src/main/java/alienkrishn/currentactivity/app/MyAccessibilityService.java:12-30 | From the initial memory `("", "")` an event with empty package and empty class is never announced |
| `ForegroundObserver.UnbindReannounces` | app/src/main/java/alienkrishn/currentactivity/app/MyAccessibilityService.java:72-75 | After the reset to `("", "")` the pair just announced, which would otherwise be suppressed, is announced again (unless it is the empty pair) |
| `ForegroundObserver.AnnouncementsNeverRepeat` | app/src/main/java/alienkrishn/currentactivity/app/MyAccessibilityService.java:29-39 | Over any sequence of events no two consecutive announcements are equal, and the first differs from the starting memory |
| `ForegroundObserver.RememberedIsLastAnnounced` | app/src/main/java/alienkrishn/currentactivity/app/MyAccessibilityService.java:30-32 | After any sequence of events the remembered pair is the last pair announced, or the starting pair if none was |
| `ForegroundObserver.AnnouncementsComeFromEvents` | app/src/main/java/alienkrishn/currentactivity/app/MyAccessibilityService.java:18-38 | Every announced pair is the surviving pair of one of the events, and there are never more announcements than events |
| `ForegroundObserver.SuppressedStaysSuppressed` | app/src/main/java/alienkrishn/currentactivity/app/MyAccessibilityService.java:30 | Any number of copies of a suppressed event announce nothing and change nothing |
| `ForegroundObserver.RepeatedEventAnnouncedOnce` | app/src/main/java/alienkrishn/currentactivity/app/MyAccessibilityService.java:30-39 | The same event handled n >= 1 times in a row announces exactly what handling it once does: at most one announcement |
| `ForegroundObserver.SystemToastIsNoise` | app/src/main/java/alienkrishn/currentactivity/app/MyAccessibilityService.java:26 | A `.Toast` window from `com.android.systemui` is filtered out |
| `ForegroundObserver.ToastThenActivityThenRepeat` | app/src/main/java/alienkrishn/currentactivity/app/MyAccessibilityService.java:16-46 | From a fresh service, a system toast, then an ordinary activity twice, announces that activity exactly once |
| `ForegroundObserver.ExampleAppAnnouncedOnce` | app/src/main/java/alienkrishn/currentactivity/app/MyAccessibilityService.java:16-46 | With the app `com.example.app` and its `com.example.app.MainActivity`: a system toast, then that activity twice, announces the activity exactly once |
| `ForegroundObserver.MyAccessibilityService.constructor` | app/src/main/java/alienkrishn/currentactivity/app/MyAccessibilityService.java:11-13 | A fresh instance is not running, remembers `("", "")` and has sent nothing |
| `ForegroundObserver.MyAccessibilityService.OnAccessibilityEvent` | app/src/main/java/alienkrishn/currentactivity/app/MyAccessibilityService.java:16-46 | The new memory is `Next(old memory, event)`, and exactly one `CURRENT_ACTIVITY_UPDATE` broadcast carrying the pair is sent iff `Announcement` yields it; the running flag is untouched |
| `ForegroundObserver.MyAccessibilityService.OnServiceConnected` | app/src/main/java/alienkrishn/currentactivity/app/MyAccessibilityService.java:54-56 | Sets running; memory and outbox unchanged |
| `ForegroundObserver.MyAccessibilityService.OnUnbind` | app/src/main/java/alienkrishn/currentactivity/app/MyAccessibilityService.java:71-77 | Clears running and resets the memory to `("", "")` |
| `ForegroundObserver.MyAccessibilityService.OnRebind` | app/src/main/java/alienkrishn/currentactivity/app/MyAccessibilityService.java:80-83 | Sets running; memory unchanged |
| `Overlay.Receive` | app/src/main/java/alienkrishn/currentactivity/app/FloatingService.java:38-47 | The update receiver on the two fields: only a CURRENT_ACTIVITY_UPDATE broadcast changes them (to its extras, null when absent) |
| `Overlay.LastUpdateWins` | app/src/main/java/alienkrishn/currentactivity/app/FloatingService.java:39-48 | After any run of broadcasts both fields hold the extras (possibly null) of the last update among them, whatever they held before |
| `Overlay.OtherBroadcastsIgnored` | app/src/main/java/alienkrishn/currentactivity/app/FloatingService.java:40 | Broadcasts with any other action leave the fields unchanged |
| `Overlay.CopyEffects` | app/src/main/java/alienkrishn/currentactivity/app/FloatingService.java:249-260 | A tap yields one or two effects and always ends with a toast |
| `Overlay.CopyWritesExactlyTheText` | app/src/main/java/alienkrishn/currentactivity/app/FloatingService.java:249-260 | A copy writes the clipboard once with exactly the text iff it is neither null nor `"Unknown"` (so `""` is written), and ends with the caller's message after a write, "No content to copy" otherwise |
| `Overlay.TouchStep` | app/src/main/java/alienkrishn/currentactivity/app/FloatingService.java:220-244 | One touch event: only a MOVE can change the window position |
| `Overlay.MoveFollowsFinger` | app/src/main/java/alienkrishn/currentactivity/app/FloatingService.java:221-238 | After a press at touch t0 with the window at p0, a move to t puts the window at p0 + (t - t0) |
| `Overlay.AnyPositionReachable` | app/src/main/java/alienkrishn/currentactivity/app/FloatingService.java:236-241 | No clamping: one press and one move can place the window at any position |
| `Overlay.ReleaseNeverMoves` | app/src/main/java/alienkrishn/currentactivity/app/FloatingService.java:228-244 | A release, tap-sized or not, and any unhandled action leave the position unchanged |
| `Overlay.DragFollowsLastMove` | app/src/main/java/alienkrishn/currentactivity/app/FloatingService.java:212-246 | After a press followed by any moves and releases, the window is at the press-time position plus the travel of the last move (moves do not accumulate), or unmoved without a move |
| `Overlay.DragBackRestores` | app/src/main/java/alienkrishn/currentactivity/app/FloatingService.java:236-238 | Moving the finger back to the press point returns the window to where it was |
| `Overlay.FloatingService.constructor` | app/src/main/java/alienkrishn/currentactivity/app/FloatingService.java:29-32 | A new instance holds `""` in both fields, not the placeholder, and is not running |
| `Overlay.FloatingService.OnCreate` | app/src/main/java/alienkrishn/currentactivity/app/FloatingService.java:53-75 | Sets running, creates the window at (100, 300) (:179-180) with both views showing `"Unknown"` (:163-164) and a touch listener that has recorded zeros; fields unchanged |
| `Overlay.FloatingService.OnDestroy` | app/src/main/java/alienkrishn/currentactivity/app/FloatingService.java:84-86 | Clears running |
| `Overlay.FloatingService.OnReceive` | app/src/main/java/alienkrishn/currentactivity/app/FloatingService.java:37-50 | Fields become `Receive(old fields, intent)`; an update is shown in the views once the window exists; without a window, or for any other action, the view texts keep their values; other broadcasts change nothing |
| `Overlay.FloatingService.CopyToClipboard` | app/src/main/java/alienkrishn/currentactivity/app/FloatingService.java:249-260 | Appends exactly `CopyEffects(text, message)` to the outbox |
| `Overlay.FloatingService.OnPackageClick` | app/src/main/java/alienkrishn/currentactivity/app/FloatingService.java:197-202 | Copies the package field with "Package name copied" |
| `Overlay.FloatingService.OnActivityClick` | app/src/main/java/alienkrishn/currentactivity/app/FloatingService.java:204-209 | Copies the activity field with "Activity name copied" |
| `Overlay.FloatingService.OnCloseClick` | app/src/main/java/alienkrishn/currentactivity/app/FloatingService.java:186-194 | Requests stopSelf and sends exactly one `FLOATING_WINDOW_CLOSED` broadcast |
| `Overlay.FloatingService.OnTouch` | app/src/main/java/alienkrishn/currentactivity/app/FloatingService.java:212-246 | Updates position and press record as `TouchStep` says; returns true for press, move and release, false otherwise |
| `Overlay.TapBeforeFirstUpdate` | app/src/main/java/alienkrishn/currentactivity/app/FloatingService.java:249-260 | Before any update the package view shows `"Unknown"`, yet a tap writes `""` to the clipboard and reports success |
| `Controller.MainActivity.CheckPermissions` | app/src/main/java/alienkrishn/currentactivity/app/MainActivity.java:182-199 | Returns overlay && accessibility, sets the switch's enabled flag to that, shows each button iff its capability is absent, stores `accessibilityEnabled := accessibility`; establishes `Reconciled()` |
| `Controller.MainActivity.SaveSwitchState` | app/src/main/java/alienkrishn/currentactivity/app/MainActivity.java:243-248 | Stores `switchState := state` and nothing else |
| `Controller.MainActivity.OnCreate` | app/src/main/java/alienkrishn/currentactivity/app/MainActivity.java:58-74 | Switch restored from the stored `switchState` (default false); widgets reconciled; the re-enable prompt shows iff the `accessibilityEnabled` read before reconciling was true and accessibility is not running |
| `Controller.MainActivity.OnCheckedChanged` | app/src/main/java/alienkrishn/currentactivity/app/MainActivity.java:79-95 | Turning on with both capabilities starts the service; with one missing, reverts the switch and starts nothing; turning off always stops the service; the last stored `switchState` is `isChecked` (true even when rejected); preserves `Reconciled()` |
| `Controller.MainActivity.OnActivityResult` | app/src/main/java/alienkrishn/currentactivity/app/MainActivity.java:251-256 | Reconciles again only for request code 1001 |
| `Controller.MainActivity.OnResume` | app/src/main/java/alienkrishn/currentactivity/app/MainActivity.java:259-269 | Reconciles, then the switch equals the overlay's running flag; `switchState` is written only when they disagreed |
| `Controller.MainActivity.OnFloatingWindowClosed` | app/src/main/java/alienkrishn/currentactivity/app/MainActivity.java:34-43 | A `FLOATING_WINDOW_CLOSED` broadcast unchecks the switch and stores false; any other broadcast changes nothing |
| `Controller.ReopenAfterOverlayClosed` | app/src/main/java/alienkrishn/currentactivity/app/MainActivity.java:37-61 | After the closed signal, the next screen created over the stored preferences shows the switch unchecked |
| `Controller.RejectedTurnOnThenResume` | app/src/main/java/alienkrishn/currentactivity/app/MainActivity.java:80-94 | A rejected turn-on leaves the switch off but `switchState` true, and a resume with the overlay stopped keeps it so; the next screen's resume stores false |
| `Wiring.AnnouncementOverwritesFields` | app/src/main/java/alienkrishn/currentactivity/app/FloatingService.java:40-42 | The observer's update broadcast sets both overlay fields to exactly the announced pair |
| `Wiring.OverlayShowsRememberedPair` | app/src/main/java/alienkrishn/currentactivity/app/FloatingService.java:37-50 | If every announcement is delivered in order, the overlay ends up holding the observer's remembered pair (or its old fields if nothing was announced) |
| `Wiring.CloseButtonUnchecksSwitch` | app/src/main/java/alienkrishn/currentactivity/app/FloatingService.java:186-194 | The close button's broadcast, delivered to the screen, unchecks its switch and stores false |
| `Wiring.EventReachesOverlay` | app/src/main/java/alienkrishn/currentactivity/app/MyAccessibilityService.java:30-38 | An event the observer announces, delivered to the overlay, leaves the overlay holding the observer's new pair; otherwise the overlay is untouched |

## Left out

- Running flags: `isRunning` is a static field in both services; the model keeps it as the instance field `running`, which agrees while one instance lives per process. A second instance created in the same process would inherit the old static value in the source. `isRunning()` is a read of that field, and the settings screen takes it as a parameter.
- `Overlay.FloatingService.OnTouch`: does not model 32-bit wrap-around of `params.x/y` or the float raw coordinates and `(int)` truncation (:237-238). Touch points are whole pixels and positions are unbounded integers.
- The tap test on release (FloatingService.java:230-231) has an empty branch and no effect, so it is not modelled beyond "a release never moves the window".
- Notification channel and notification construction, `startForeground` and its fallback toast, `START_STICKY`, `onBind`, `onInterrupt` (empty), and the service configuration in `onServiceConnected`: platform calls with no state the components share.
- Window manager, layout inflation, `LayoutParams` flags, `updateViewLayout` and `removeView`: only the x/y integers and whether the window exists are kept. What a TextView shows for a null text is platform behaviour; the model records the value passed to `setText`.
- Broadcast registration and unregistration (FloatingService.java:72 and :88, MainActivity.java:56 and :176), delivery timing and ordering: a broadcast is an outbox entry, and delivery is a direct call (module `Wiring`).
- Menu, Telegram/GitHub links, the About dialog, `requestOverlayPermission`, `openAccessibilitySettings` and the `Build.VERSION` branches in `startFloatingService`: they only launch intents or show text.
- Toast wording matters only to identify which message was shown; toast durations are not modelled.
- `CompoundButton` re-entering the listener from a programmatic `setChecked` (MainActivity.java:38, :86, :266) is platform behaviour; those calls are field writes plus the saves the code performs.
- Platform calls are assumed to succeed; the `catch` blocks are not modelled. So the "Cannot start service" and "Cannot stop service" toasts (MainActivity.java:229-240) never appear, and `OnCheckedChanged` always emits the start or stop request. In particular a `sendBroadcast` that throws (MyAccessibilityService.java:38) would leave the memory already updated at :31-32 with nothing sent; the model always sends. `stopSelf()` is the `StopSelf` effect, and the running flag falls only when the platform calls `OnDestroy`.
- `MainActivity.onCreate` queries `MyAccessibilityService.isRunning()` twice (:184 through `checkPermissions`, and :70); the model passes one value for both, so a change of the flag between the two reads is not modelled.
- The layout's initial widget state before `onCreate` is not part of this model; `OnCreate` sets every widget the model tracks.
- `MyAccessibilityService.onUnbind` returns `super.onUnbind(intent)`, a platform value; the model's `OnUnbind` returns nothing.
- `SharedPreferences.apply()` writes asynchronously; the model writes the map at once.
