/** The floating overlay service: it holds the latest announced identity,
    shows it in a draggable panel, copies either field to the clipboard on
    a tap, and reports when the user closes it. */
module Overlay {
  import opened Android

  /** A screen position or touch point in whole pixels. */
  datatype Point = Point(x: int, y: int)

  function Plus(p: Point, q: Point): Point { Point(p.x + q.x, p.y + q.y) }
  function Minus(p: Point, q: Point): Point { Point(p.x - q.x, p.y - q.y) }

  /** Where the window is placed when it is created. */
  const INITIAL_POSITION: Point := Point(100, 300)

  /** The text views show this until the first announcement arrives. */
  const PLACEHOLDER: string := "Unknown"

  /** The clipboard label and the messages the service shows. */
  const CLIP_LABEL: string := "Current Activity"
  const NO_CONTENT_MESSAGE: string := "No content to copy"
  const PACKAGE_COPIED_MESSAGE: string := "Package name copied"
  const ACTIVITY_COPIED_MESSAGE: string := "Activity name copied"

  /** The identity fields the service holds; either may be null. */
  datatype CurrentInfo = CurrentInfo(packageName: Option<string>, activityName: Option<string>)

  /** The fields after the update receiver has handled `intent`: an update
      overwrites both with its extras, anything else is ignored. */
  function Receive(info: CurrentInfo, intent: Intent): (r: CurrentInfo)
    ensures r == info || IsUpdate(intent)
  {
    if IsUpdate(intent) then
      CurrentInfo(GetStringExtra(intent, EXTRA_PACKAGE), GetStringExtra(intent, EXTRA_ACTIVITY))
    else info
  }

  /** The fields after the receiver has handled `intents`, in order. */
  function ReceiveAll(info: CurrentInfo, intents: seq<Intent>): CurrentInfo
    decreases |intents|
  {
    if intents == [] then info else Receive(ReceiveAll(info, intents[..|intents| - 1]), intents[|intents| - 1])
  }

  /** The broadcast is an identity update. */
  predicate IsUpdate(intent: Intent) {
    HasAction(intent, CURRENT_ACTIVITY_UPDATE)
  }

  /** Last writer wins: after a run of broadcasts the fields hold the extras
      of the last update among them, whatever they held before. */
  lemma {:induction false} LastUpdateWins(info: CurrentInfo, intents: seq<Intent>, k: int)
    requires 0 <= k < |intents| && IsUpdate(intents[k])
    requires forall j :: k < j < |intents| ==> !IsUpdate(intents[j])
    ensures ReceiveAll(info, intents) == CurrentInfo(GetStringExtra(intents[k], EXTRA_PACKAGE), GetStringExtra(intents[k], EXTRA_ACTIVITY))
    decreases |intents|
  {
    var n := |intents| - 1;
    if k < n {
      var front := intents[..n];
      assert front[k] == intents[k];
      forall j | k < j < |front| ensures !IsUpdate(front[j]) {
        assert front[j] == intents[j];
      }
      LastUpdateWins(info, front, k);
    }
  }

  /** Broadcasts other than updates leave the fields alone. */
  lemma {:induction false} OtherBroadcastsIgnored(info: CurrentInfo, intents: seq<Intent>)
    requires forall j :: 0 <= j < |intents| ==> !IsUpdate(intents[j])
    ensures ReceiveAll(info, intents) == info
    decreases |intents|
  {
    if intents != [] {
      var front := intents[..|intents| - 1];
      forall j | 0 <= j < |front| ensures !IsUpdate(front[j]) {
        assert front[j] == intents[j];
      }
      OtherBroadcastsIgnored(info, front);
    }
  }

  /** The copy guard: null and the placeholder are not copied, anything
      else (the empty string included) is. */
  predicate IsCopyable(text: Option<string>) {
    text.Some? && text.value != PLACEHOLDER
  }

  /** What a tap on a text view does for the text it passes. */
  function CopyEffects(text: Option<string>, message: string): (r: seq<Effect>)
    ensures 1 <= |r| <= 2 && r[|r| - 1].ShowToast?
  {
    if text.None? || text.value == PLACEHOLDER then [ShowToast(NO_CONTENT_MESSAGE)]
    else [SetPrimaryClip(CLIP_LABEL, text.value), ShowToast(message)]
  }

  /** The text a clipboard write puts there, for each write among `effects`. */
  function ClipboardWrites(effects: seq<Effect>): seq<string>
    decreases |effects|
  {
    if effects == [] then []
    else (match effects[0] case SetPrimaryClip(_, text) => [text] case _ => []) + ClipboardWrites(effects[1..])
  }

  /** A tap writes the clipboard at most once, and exactly the text it was
      given; it never writes null or the placeholder, and the empty string
      a field holds before any update is written. It ends with one toast:
      the caller's message after a write, "No content to copy" otherwise. */
  lemma CopyWritesExactlyTheText(text: Option<string>, message: string)
    ensures ClipboardWrites(CopyEffects(text, message)) == if IsCopyable(text) then [text.value] else []
    ensures var e := CopyEffects(text, message);
      |e| > 0 && e[|e| - 1] == ShowToast(if IsCopyable(text) then message else NO_CONTENT_MESSAGE)
    ensures IsCopyable(Some("")) && !IsCopyable(Some(PLACEHOLDER)) && !IsCopyable(None)
  {
    var e := CopyEffects(text, message);
    if IsCopyable(text) {
      assert e == [SetPrimaryClip(CLIP_LABEL, text.value), ShowToast(message)];
      assert e[1..] == [ShowToast(message)];
      assert ClipboardWrites(e[1..][1..]) == [];
    } else {
      assert e == [ShowToast(NO_CONTENT_MESSAGE)];
      assert ClipboardWrites(e[1..]) == [];
    }
  }

  // ---------------------------------------------------------------------
  // Dragging

  /** The touch actions the listener distinguishes; every other action is
      left to the platform. */
  datatype MotionAction = ActionDown | ActionUp | ActionMove | ActionOther

  /** A touch event with its raw screen coordinates. */
  datatype Touch = Touch(action: MotionAction, raw: Point)

  /** The window position together with what the touch listener records on
      a press: the position then, and where the finger went down. */
  datatype Drag = Drag(position: Point, initial: Point, initialTouch: Point)

  /** The listener's state after one touch event. */
  function TouchStep(d: Drag, t: Touch): (r: Drag)
    ensures r.position == d.position || t.action == ActionMove
  {
    match t.action
    case ActionDown => Drag(d.position, d.position, t.raw)
    case ActionMove => Drag(Plus(d.initial, Minus(t.raw, d.initialTouch)), d.initial, d.initialTouch)
    case ActionUp => d
    case ActionOther => d
  }

  /** The listener's state after `touches`, in order. */
  function Gesture(d: Drag, touches: seq<Touch>): Drag
    decreases |touches|
  {
    if touches == [] then d else TouchStep(Gesture(d, touches[..|touches| - 1]), touches[|touches| - 1])
  }

  /** The raw point of the last move among `touches`, if any. */
  function LastMove(touches: seq<Touch>): Option<Point>
    decreases |touches|
  {
    if touches == [] then None
    else if touches[|touches| - 1].action == ActionMove then Some(touches[|touches| - 1].raw)
    else LastMove(touches[..|touches| - 1])
  }

  /** A move sets the position to the position at the press plus the net
      finger travel since the press, with no clamping to the screen. */
  lemma MoveFollowsFinger(d: Drag, press: Point, finger: Point)
    ensures TouchStep(TouchStep(d, Touch(ActionDown, press)), Touch(ActionMove, finger)).position
         == Plus(d.position, Minus(finger, press))
  {
  }

  /** No clamping: a single drag can bring the window to any position at all. */
  lemma AnyPositionReachable(d: Drag, press: Point, target: Point)
    ensures TouchStep(TouchStep(d, Touch(ActionDown, press)), Touch(ActionMove, Plus(press, Minus(target, d.position)))).position == target
  {
  }

  /** A release never moves the window, whether or not the finger travelled
      less than the tap threshold; nor does any unhandled action. */
  lemma ReleaseNeverMoves(d: Drag, raw: Point)
    ensures TouchStep(d, Touch(ActionUp, raw)).position == d.position
    ensures TouchStep(d, Touch(ActionOther, raw)).position == d.position
  {
  }

  /** After a press, however many moves and releases follow, the window
      sits at the press position plus the travel of the LAST move, or at the
      press position if there was no move: moves do not accumulate. */
  lemma {:induction false} DragFollowsLastMove(d: Drag, press: Point, rest: seq<Touch>)
    requires forall i :: 0 <= i < |rest| ==> rest[i].action != ActionDown
    ensures var g := Gesture(TouchStep(d, Touch(ActionDown, press)), rest);
      && g.initial == d.position && g.initialTouch == press
      && g.position == match LastMove(rest)
           case None => d.position
           case Some(finger) => Plus(d.position, Minus(finger, press))
    decreases |rest|
  {
    if rest != [] {
      var front := rest[..|rest| - 1];
      forall i | 0 <= i < |front| ensures front[i].action != ActionDown {
        assert front[i] == rest[i];
      }
      DragFollowsLastMove(d, press, front);
    }
  }

  /** Dragging the finger back to where it went down puts the window back
      where it was. */
  lemma {:induction false} DragBackRestores(d: Drag, press: Point, rest: seq<Touch>)
    requires forall i :: 0 <= i < |rest| ==> rest[i].action != ActionDown
    ensures Gesture(TouchStep(d, Touch(ActionDown, press)), rest + [Touch(ActionMove, press)]).position == d.position
  {
    var r := rest + [Touch(ActionMove, press)];
    assert r[..|r| - 1] == rest;
    DragFollowsLastMove(d, press, rest);
  }

  // ---------------------------------------------------------------------
  // The service object

  /** One instance of the overlay service. `running` stands for the
      process-wide flag that `isRunning()` reads; `windowCreated` for the
      floating view existing; `outbox` collects clipboard writes, toasts,
      broadcasts and the request to stop. */
  class FloatingService {
    var running: bool
    var windowCreated: bool
    var currentPackageName: Option<string>
    var currentActivityName: Option<string>
    var packageText: Option<string>
    var activityText: Option<string>
    var position: Point
    var initial: Point
    var initialTouch: Point
    var outbox: seq<Effect>

    function Current(): CurrentInfo
      reads this
    {
      CurrentInfo(currentPackageName, currentActivityName)
    }

    function DragState(): Drag
      reads this
    {
      Drag(position, initial, initialTouch)
    }

    /** A new instance: both identity fields hold "", not the placeholder. */
    constructor ()
      ensures !running && !windowCreated && outbox == []
      ensures Current() == CurrentInfo(Some(""), Some(""))
    {
      running := false;
      windowCreated := false;
      currentPackageName, currentActivityName := Some(""), Some("");
      packageText, activityText := None, None;
      position, initial, initialTouch := Point(0, 0), Point(0, 0), Point(0, 0);
      outbox := [];
    }

    /** Creation: running, and a window at the initial position whose views
        show the placeholder; a new touch listener has recorded nothing. */
    method OnCreate()
      modifies this
      ensures running && windowCreated
      ensures packageText == Some(PLACEHOLDER) && activityText == Some(PLACEHOLDER)
      ensures DragState() == Drag(INITIAL_POSITION, Point(0, 0), Point(0, 0))
      ensures Current() == old(Current()) && outbox == old(outbox)
    {
      running := true;
      windowCreated := true;
      packageText, activityText := Some(PLACEHOLDER), Some(PLACEHOLDER);
      position := INITIAL_POSITION;
      initial, initialTouch := Point(0, 0), Point(0, 0);
    }

    /** Destruction: no longer running; nothing else the model tracks changes. */
    method OnDestroy()
      modifies this`running
      ensures !running
    {
      running := false;
    }

    /** The update receiver: overwrites both fields from the extras and, once
        the window exists, shows them. */
    method OnReceive(intent: Intent)
      modifies this
      ensures Current() == Receive(old(Current()), intent)
      ensures HasAction(intent, CURRENT_ACTIVITY_UPDATE) && windowCreated
        ==> packageText == currentPackageName && activityText == currentActivityName
      ensures !(HasAction(intent, CURRENT_ACTIVITY_UPDATE) && windowCreated)
        ==> packageText == old(packageText) && activityText == old(activityText)
      ensures running == old(running) && windowCreated == old(windowCreated)
      ensures DragState() == old(DragState()) && outbox == old(outbox)
    {
      if HasAction(intent, CURRENT_ACTIVITY_UPDATE) {
        currentPackageName := GetStringExtra(intent, EXTRA_PACKAGE);
        currentActivityName := GetStringExtra(intent, EXTRA_ACTIVITY);
        if windowCreated {
          packageText := currentPackageName;
          activityText := currentActivityName;
        }
      }
    }

    /** Copies `text` unless it is null or the placeholder, then says so. */
    method CopyToClipboard(text: Option<string>, message: string)
      modifies this`outbox
      ensures outbox == old(outbox) + CopyEffects(text, message)
    {
      if text.None? || text.value == PLACEHOLDER {
        outbox := outbox + [ShowToast(NO_CONTENT_MESSAGE)];
        return;
      }
      outbox := outbox + [SetPrimaryClip(CLIP_LABEL, text.value)];
      outbox := outbox + [ShowToast(message)];
    }

    /** A tap on the package view copies the package field. */
    method OnPackageClick()
      modifies this`outbox
      ensures outbox == old(outbox) + CopyEffects(currentPackageName, PACKAGE_COPIED_MESSAGE)
    {
      CopyToClipboard(currentPackageName, PACKAGE_COPIED_MESSAGE);
    }

    /** A tap on the activity view copies the activity field. */
    method OnActivityClick()
      modifies this`outbox
      ensures outbox == old(outbox) + CopyEffects(currentActivityName, ACTIVITY_COPIED_MESSAGE)
    {
      CopyToClipboard(currentActivityName, ACTIVITY_COPIED_MESSAGE);
    }

    /** The close button asks the service to stop and broadcasts exactly one
        closed message; the running flag falls only in OnDestroy. */
    method OnCloseClick()
      modifies this`outbox
      ensures outbox == old(outbox) + [StopSelf, SendBroadcast(Intent(Some(FLOATING_WINDOW_CLOSED), map[]))]
    {
      outbox := outbox + [StopSelf];
      outbox := outbox + [SendBroadcast(Intent(Some(FLOATING_WINDOW_CLOSED), map[]))];
    }

    /** The drag listener: consumes presses, moves and releases and updates
        the position as TouchStep says; declines any other action. */
    method OnTouch(t: Touch) returns (handled: bool)
      modifies this`position, this`initial, this`initialTouch
      ensures handled == (t.action != ActionOther)
      ensures DragState() == TouchStep(old(DragState()), t)
    {
      match t.action
      case ActionDown =>
        initial := position;
        initialTouch := t.raw;
        return true;
      case ActionUp =>
        return true;
      case ActionMove =>
        position := Point(initial.x + (t.raw.x - initialTouch.x), initial.y + (t.raw.y - initialTouch.y));
        return true;
      case ActionOther =>
        return false;
    }
  }

  /** Before the first announcement the views show the placeholder, yet a
      tap copies the field behind them, which holds "": the guard does not
      stop it. */
  method TapBeforeFirstUpdate() returns (s: FloatingService)
    ensures fresh(s) && s.packageText == Some(PLACEHOLDER)
    ensures s.outbox == [SetPrimaryClip(CLIP_LABEL, ""), ShowToast(PACKAGE_COPIED_MESSAGE)]
  {
    s := new FloatingService();
    s.OnCreate();
    s.OnPackageClick();
  }
}
