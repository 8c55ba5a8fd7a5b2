/** The accessibility service that watches window-state changes system-wide,
    drops noise, and announces each change of the foreground
    (package, activity class) pair exactly once. */
module ForegroundObserver {
  import opened Android

  /** AccessibilityEvent.TYPE_WINDOW_STATE_CHANGED. */
  const TYPE_WINDOW_STATE_CHANGED: int := 0x20

  /** The parts of an accessibility event the service reads; either name may be null. */
  datatype AccessibilityEvent = AccessibilityEvent(eventType: int, packageName: Option<string>, className: Option<string>)

  /** A foreground identity: the package and the activity class name. */
  datatype Identity = Identity(packageName: string, className: string)

  /** The remembered pair of a fresh or unbound service. */
  const NoIdentity: Identity := Identity("", "")

  /** Windows that are not real activity transitions: the OS namespace
      itself, popups, toasts and decor views. */
  predicate IsNoise(id: Identity) {
    || id.packageName == "android"
    || Contains(id.className, "PopupWindow")
    || Contains(id.className, "Toast")
    || Contains(id.className, "DecorView")
  }

  /** The identity an event reports when it survives the type, null and
      noise checks, in the order the service applies them. */
  function Candidate(e: AccessibilityEvent): (r: Option<Identity>)
    ensures r.Some? ==> && e.eventType == TYPE_WINDOW_STATE_CHANGED
                        && e.packageName == Some(r.value.packageName)
                        && e.className == Some(r.value.className)
                        && !IsNoise(r.value)
  {
    if e.eventType != TYPE_WINDOW_STATE_CHANGED then None
    else if e.packageName.None? || e.className.None? then None
    else
      var id := Identity(e.packageName.value, e.className.value);
      if IsNoise(id) then None else Some(id)
  }

  /** The pair announced for event `e` when `last` is remembered, if any. */
  function Announcement(last: Identity, e: AccessibilityEvent): (r: Option<Identity>)
    ensures r.Some? ==> Candidate(e) == r && r.value != last
  {
    match Candidate(e)
    case Some(id) => if id.packageName != last.packageName || id.className != last.className then Some(id) else None
    case None => None
  }

  /** The pair remembered after event `e`. */
  function Next(last: Identity, e: AccessibilityEvent): (r: Identity)
    ensures r == last || Candidate(e) == Some(r)
  {
    match Announcement(last, e)
    case Some(id) => id
    case None => last
  }

  /** The broadcast that carries an announced pair. */
  function UpdateIntent(id: Identity): Intent {
    Intent(Some(CURRENT_ACTIVITY_UPDATE), map[EXTRA_PACKAGE := id.packageName, EXTRA_ACTIVITY := id.className])
  }

  /** The pairs announced, in order, while the service handles `events`
      starting from the remembered pair `last`. */
  function Announcements(last: Identity, events: seq<AccessibilityEvent>): seq<Identity>
    decreases |events|
  {
    if events == [] then []
    else
      (match Announcement(last, events[0]) case Some(id) => [id] case None => [])
      + Announcements(Next(last, events[0]), events[1..])
  }

  /** The pair remembered after handling `events` starting from `last`. */
  function Remembered(last: Identity, events: seq<AccessibilityEvent>): Identity
    decreases |events|
  {
    if events == [] then last else Remembered(Next(last, events[0]), events[1..])
  }

  /** `n` copies of the same event. */
  function Repeat(e: AccessibilityEvent, n: nat): (r: seq<AccessibilityEvent>)
    ensures |r| == n
    ensures forall i :: 0 <= i < n ==> r[i] == e
  {
    if n == 0 then [] else [e] + Repeat(e, n - 1)
  }

  // ---------------------------------------------------------------------
  // One event at a time

  /** An event of any other type is dropped and leaves the memory alone. */
  lemma OtherEventTypeIgnored(last: Identity, e: AccessibilityEvent)
    requires e.eventType != TYPE_WINDOW_STATE_CHANGED
    ensures Announcement(last, e) == None && Next(last, e) == last
  {
  }

  /** An event with a null package or a null class name is dropped. */
  lemma NullNameIgnored(last: Identity, e: AccessibilityEvent)
    requires e.packageName.None? || e.className.None?
    ensures Announcement(last, e) == None && Next(last, e) == last
  {
  }

  /** An event from the package "android", or whose class name has
      "PopupWindow", "Toast" or "DecorView" somewhere in it, is dropped. */
  lemma NoiseIgnored(last: Identity, e: AccessibilityEvent, pkg: string, cls: string)
    requires e.packageName == Some(pkg) && e.className == Some(cls)
    requires || pkg == "android"
             || (exists i :: OccursAt(cls, "PopupWindow", i))
             || (exists i :: OccursAt(cls, "Toast", i))
             || (exists i :: OccursAt(cls, "DecorView", i))
    ensures Announcement(last, e) == None && Next(last, e) == last
  {
    ContainsIffOccurs(cls, "PopupWindow");
    ContainsIffOccurs(cls, "Toast");
    ContainsIffOccurs(cls, "DecorView");
  }

  /** Conversely, a window-state event with both names present, outside the
      package "android" and free of the three class-name markers reports
      exactly its own pair. */
  lemma GenuineEventIsCandidate(e: AccessibilityEvent, pkg: string, cls: string)
    requires e.eventType == TYPE_WINDOW_STATE_CHANGED
    requires e.packageName == Some(pkg) && e.className == Some(cls)
    requires pkg != "android"
    requires forall i :: !OccursAt(cls, "PopupWindow", i)
    requires forall i :: !OccursAt(cls, "Toast", i)
    requires forall i :: !OccursAt(cls, "DecorView", i)
    ensures Candidate(e) == Some(Identity(pkg, cls))
  {
    ContainsIffOccurs(cls, "PopupWindow");
    ContainsIffOccurs(cls, "Toast");
    ContainsIffOccurs(cls, "DecorView");
  }

  /** A surviving event that reports the remembered pair is suppressed. */
  lemma SamePairSuppressed(last: Identity, e: AccessibilityEvent)
    requires Candidate(e) == Some(last)
    ensures Announcement(last, e) == None && Next(last, e) == last
  {
  }

  /** A surviving event that reports a different pair is announced with
      exactly that pair, which becomes the remembered one. */
  lemma NewPairAnnounced(last: Identity, e: AccessibilityEvent, id: Identity)
    requires Candidate(e) == Some(id) && id != last
    ensures Announcement(last, e) == Some(id) && Next(last, e) == id
  {
  }

  /** Every announcement differs from the pair remembered before it, and is
      remembered after it. */
  lemma AnnouncementIsChange(last: Identity, e: AccessibilityEvent)
    ensures Announcement(last, e).Some? ==> Announcement(last, e).value != last && Next(last, e) == Announcement(last, e).value
    ensures Announcement(last, e).None? ==> Next(last, e) == last
  {
  }

  /** Handling the same event a second time straight away announces nothing
      and remembers the same pair: the filter is idempotent on repeats. */
  lemma RepeatSuppressed(last: Identity, e: AccessibilityEvent)
    ensures Announcement(Next(last, e), e) == None
    ensures Next(Next(last, e), e) == Next(last, e)
  {
  }

  /** A fresh service remembers ("", ""), so an event reporting an empty
      package and an empty class is never announced first. */
  lemma EmptyPairNotAnnouncedFromStart(e: AccessibilityEvent)
    ensures Announcement(NoIdentity, e) != Some(NoIdentity)
  {
  }

  /** After an unbind the memory is ("", ""), so the pair that was announced
      last (and would be suppressed if repeated) is announced again,
      unless it is the empty pair itself. */
  lemma UnbindReannounces(last: Identity, e: AccessibilityEvent, id: Identity)
    requires Announcement(last, e) == Some(id)
    ensures Announcement(Next(last, e), e) == None
    ensures Announcement(NoIdentity, e) == (if id == NoIdentity then None else Some(id))
  {
  }

  // ---------------------------------------------------------------------
  // Sequences of events

  /** Announcements never repeat back to back, and the first one differs
      from the pair remembered at the start. */
  lemma {:induction false} AnnouncementsNeverRepeat(last: Identity, events: seq<AccessibilityEvent>)
    ensures var a := Announcements(last, events);
      && (|a| > 0 ==> a[0] != last)
      && (forall i :: 0 <= i < |a| - 1 ==> a[i] != a[i + 1])
    decreases |events|
  {
    if events != [] {
      var next := Next(last, events[0]);
      AnnouncementsNeverRepeat(next, events[1..]);
      var rest := Announcements(next, events[1..]);
      var a := Announcements(last, events);
      match Announcement(last, events[0])
      case Some(id) =>
        assert a == [id] + rest;
        forall i | 0 <= i < |a| - 1 ensures a[i] != a[i + 1] {
          if i > 0 { assert a[i] == rest[i - 1] && a[i + 1] == rest[i]; }
        }
      case None =>
        assert a == rest;
    }
  }

  /** The remembered pair is the last one announced, or the starting pair
      when nothing was announced. */
  lemma {:induction false} RememberedIsLastAnnounced(last: Identity, events: seq<AccessibilityEvent>)
    ensures var a := Announcements(last, events);
      Remembered(last, events) == if a == [] then last else a[|a| - 1]
    decreases |events|
  {
    if events != [] {
      RememberedIsLastAnnounced(Next(last, events[0]), events[1..]);
    }
  }

  /** Every announcement is the pair reported by one of the events, so there
      are never more announcements than events. */
  lemma {:induction false} AnnouncementsComeFromEvents(last: Identity, events: seq<AccessibilityEvent>)
    ensures var a := Announcements(last, events);
      && |a| <= |events|
      && forall k :: 0 <= k < |a| ==> exists j :: 0 <= j < |events| && Candidate(events[j]) == Some(a[k])
    decreases |events|
  {
    if events != [] {
      var next := Next(last, events[0]);
      AnnouncementsComeFromEvents(next, events[1..]);
      var rest := Announcements(next, events[1..]);
      var a := Announcements(last, events);
      var head := match Announcement(last, events[0]) case Some(id) => [id] case None => [];
      assert a == head + rest;
      forall k | 0 <= k < |a| ensures exists j :: 0 <= j < |events| && Candidate(events[j]) == Some(a[k]) {
        if k < |head| {
          assert Candidate(events[0]) == Some(a[k]);
        } else {
          assert a[k] == rest[k - |head|];
          var j :| 0 <= j < |events[1..]| && Candidate(events[1..][j]) == Some(rest[k - |head|]);
          assert Candidate(events[j + 1]) == Some(a[k]);
        }
      }
    }
  }

  /** Silence persists: once an event is suppressed, any number of copies
      of it are suppressed too. */
  lemma {:induction false} SuppressedStaysSuppressed(last: Identity, e: AccessibilityEvent, n: nat)
    requires Announcement(last, e) == None
    ensures Announcements(last, Repeat(e, n)) == []
    ensures Remembered(last, Repeat(e, n)) == last
  {
    if n > 0 {
      assert Repeat(e, n)[1..] == Repeat(e, n - 1);
      SuppressedStaysSuppressed(last, e, n - 1);
    }
  }

  /** Handling the same event `n >= 1` times in a row announces exactly
      what handling it once does: one announcement at most. */
  lemma RepeatedEventAnnouncedOnce(last: Identity, e: AccessibilityEvent, n: nat)
    requires n >= 1
    ensures Announcements(last, Repeat(e, n)) == match Announcement(last, e) case Some(id) => [id] case None => []
    ensures Remembered(last, Repeat(e, n)) == Next(last, e)
  {
    assert Repeat(e, n)[1..] == Repeat(e, n - 1);
    SuppressedStaysSuppressed(Next(last, e), e, n - 1);
  }

  /** A toast shown by the system UI. */
  const SystemToast: AccessibilityEvent := AccessibilityEvent(TYPE_WINDOW_STATE_CHANGED, Some("com.android.systemui"), Some(".Toast"))

  lemma SystemToastIsNoise()
    ensures Candidate(SystemToast) == None
  {
    assert OccursAt(".Toast", "Toast", 1);
    ContainsIffOccurs(".Toast", "Toast");
  }

  /** A system toast, then an ordinary activity twice: the toast is dropped, the
      activity is announced, and repeating it announces nothing more. */
  lemma ToastThenActivityThenRepeat(app: AccessibilityEvent, pkg: string, cls: string)
    requires app == AccessibilityEvent(TYPE_WINDOW_STATE_CHANGED, Some(pkg), Some(cls))
    requires pkg != "android" && Identity(pkg, cls) != NoIdentity
    requires forall i :: !OccursAt(cls, "PopupWindow", i)
    requires forall i :: !OccursAt(cls, "Toast", i)
    requires forall i :: !OccursAt(cls, "DecorView", i)
    ensures Announcements(NoIdentity, [SystemToast, app, app]) == [Identity(pkg, cls)]
  {
    SystemToastIsNoise();
    GenuineEventIsCandidate(app, pkg, cls);
    assert Repeat(app, 2) == [app, app];
    RepeatedEventAnnouncedOnce(NoIdentity, app, 2);
    assert [SystemToast, app, app][1..] == [app, app];
  }

  /** The same sequence with an ordinary app's main activity: its class name
      lacks the first letter of each marker, so it passes the filter. */
  lemma ExampleAppAnnouncedOnce()
    ensures var app := AccessibilityEvent(TYPE_WINDOW_STATE_CHANGED, Some("com.example.app"), Some("com.example.app.MainActivity"));
      Announcements(NoIdentity, [SystemToast, app, app]) == [Identity("com.example.app", "com.example.app.MainActivity")]
  {
    var pkg, cls := "com.example.app", "com.example.app.MainActivity";
    NoOccurrenceWithoutFirstChar(cls, "PopupWindow");
    NoOccurrenceWithoutFirstChar(cls, "Toast");
    NoOccurrenceWithoutFirstChar(cls, "DecorView");
    ToastThenActivityThenRepeat(AccessibilityEvent(TYPE_WINDOW_STATE_CHANGED, Some(pkg), Some(cls)), pkg, cls);
  }

  // ---------------------------------------------------------------------
  // The service object

  /** One bound instance of the accessibility service. `running` stands for
      the process-wide flag that `isRunning()` reads; `outbox` collects the
      broadcasts it sends. */
  class MyAccessibilityService {
    var running: bool
    var lastPackageName: string
    var lastClassName: string
    var outbox: seq<Effect>

    /** The remembered pair. */
    function Last(): Identity
      reads this
    {
      Identity(lastPackageName, lastClassName)
    }

    /** A new instance in a fresh process: not running, nothing remembered,
        nothing sent. */
    constructor ()
      ensures !running && Last() == NoIdentity && outbox == []
    {
      running := false;
      lastPackageName, lastClassName := "", "";
      outbox := [];
    }

    /** Filters the event, and on a change of pair remembers it and
        broadcasts it; any other event changes nothing. */
    method OnAccessibilityEvent(event: AccessibilityEvent)
      modifies this
      ensures running == old(running)
      ensures Last() == Next(old(Last()), event)
      ensures outbox == old(outbox) + match Announcement(old(Last()), event)
        case Some(id) => [SendBroadcast(UpdateIntent(id))]
        case None => []
    {
      if event.eventType == TYPE_WINDOW_STATE_CHANGED {
        if event.packageName.Some? && event.className.Some? {
          var packageName := event.packageName.value;
          var className := event.className.value;
          if packageName != "android"
            && !Contains(className, "PopupWindow")
            && !Contains(className, "Toast")
            && !Contains(className, "DecorView")
          {
            if packageName != lastPackageName || className != lastClassName {
              lastPackageName := packageName;
              lastClassName := className;
              outbox := outbox + [SendBroadcast(UpdateIntent(Identity(packageName, className)))];
            }
          }
        }
      }
    }

    /** The OS finished binding and configuring the service. */
    method OnServiceConnected()
      modifies this
      ensures running
      ensures Last() == old(Last()) && outbox == old(outbox)
    {
      running := true;
    }

    /** The user revoked the capability: not running, and the remembered
        pair is forgotten so it is announced again after a rebind. */
    method OnUnbind()
      modifies this
      ensures !running
      ensures Last() == NoIdentity && outbox == old(outbox)
    {
      running := false;
      lastPackageName := "";
      lastClassName := "";
    }

    /** The OS bound the service again. */
    method OnRebind()
      modifies this
      ensures running
      ensures Last() == old(Last()) && outbox == old(outbox)
    {
      running := true;
    }
  }
}
