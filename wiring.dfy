/** How the three components talk: the observer's announcements reach the
    overlay, and the overlay's close message reaches the settings screen. */
module Wiring {
  import opened Android
  import opened ForegroundObserver
  import opened Overlay
  import opened Controller

  /** The update broadcasts the observer sends for the pairs `ids`. */
  function UpdateIntents(ids: seq<Identity>): (r: seq<Intent>)
    ensures |r| == |ids|
    ensures forall i :: 0 <= i < |ids| ==> r[i] == UpdateIntent(ids[i])
  {
    seq(|ids|, i requires 0 <= i < |ids| => UpdateIntent(ids[i]))
  }

  /** An announcement delivered to the overlay sets both of its fields to
      exactly the announced pair, whatever they held. */
  lemma AnnouncementOverwritesFields(info: CurrentInfo, id: Identity)
    ensures Receive(info, UpdateIntent(id)) == CurrentInfo(Some(id.packageName), Some(id.className))
  {
  }

  /** When every announcement reaches the overlay in order, the overlay ends
      up holding the pair the observer remembers; if nothing was announced
      the overlay keeps what it had. */
  lemma {:induction false} OverlayShowsRememberedPair(info: CurrentInfo, last: Identity, events: seq<AccessibilityEvent>)
    ensures var a := Announcements(last, events);
      var r := Remembered(last, events);
      ReceiveAll(info, UpdateIntents(a)) == if a == [] then info else CurrentInfo(Some(r.packageName), Some(r.className))
  {
    var a := Announcements(last, events);
    var intents := UpdateIntents(a);
    RememberedIsLastAnnounced(last, events);
    if a != [] {
      LastUpdateWins(info, intents, |a| - 1);
    } else {
      assert intents == [];
    }
  }

  /** The close button's broadcast, handed to the settings screen, turns its
      switch off and stores that. */
  method CloseButtonUnchecksSwitch(overlay: FloatingService, screen: MainActivity)
    modifies overlay, screen
    ensures !screen.switchChecked && !GetBoolean(screen.prefs, PREF_SWITCH_STATE, true)
  {
    overlay.OnCloseClick();
    var sent := overlay.outbox[|overlay.outbox| - 1];
    screen.OnFloatingWindowClosed(sent.intent);
  }

  /** An event handled by the observer and, when announced, delivered to
      the overlay leaves the overlay holding the observer's remembered pair
      whenever it changed. */
  method EventReachesOverlay(observer: MyAccessibilityService, overlay: FloatingService, e: AccessibilityEvent)
    modifies observer, overlay
    ensures Announcement(old(observer.Last()), e).Some? ==>
      overlay.Current() == CurrentInfo(Some(observer.lastPackageName), Some(observer.lastClassName))
    ensures Announcement(old(observer.Last()), e).None? ==> overlay.Current() == old(overlay.Current())
  {
    var before := |observer.outbox|;
    observer.OnAccessibilityEvent(e);
    if |observer.outbox| > before {
      overlay.OnReceive(observer.outbox[before].intent);
    }
  }
}
