/** The settings screen: it reconciles the switch and the two permission
    buttons with the live capabilities, starts and stops the overlay service,
    and persists two booleans. */
module Controller {
  import opened Android

  /** Preference keys and the request code of the overlay-permission screen. */
  const PREF_SWITCH_STATE: string := "switchState"
  const PREF_ACCESSIBILITY_ENABLED: string := "accessibilityEnabled"
  const OVERLAY_PERMISSION_REQUEST: int := 1001

  /** The messages the screen shows. */
  const REENABLE_MESSAGE: string := "Accessibility service was disabled. Please re-enable it."
  const ENABLED_MESSAGE: string := "Floating window enabled"
  const MISSING_PERMISSIONS_MESSAGE: string := "Please enable all permissions first"
  const DISABLED_MESSAGE: string := "Floating window disabled"
  const CLOSED_MESSAGE: string := "Floating window closed"

  /** `prefs.getBoolean(key, default)`. */
  function GetBoolean(prefs: map<string, bool>, key: string, default: bool): bool {
    if key in prefs then prefs[key] else default
  }

  /** One instance of the screen. The switch, its enabled flag and the
      visibility of the two permission buttons are the widget state; `prefs`
      is the stored preference group; `outbox` collects toasts and the
      requests to start or stop the overlay service. Platform queries
      (`canDrawOverlays`, the two `isRunning()` flags) are parameters. */
  class MainActivity {
    var switchChecked: bool
    var switchEnabled: bool
    var overlayButtonVisible: bool
    var accessibilityButtonVisible: bool
    var prefs: map<string, bool>
    var outbox: seq<Effect>

    /** The widgets agree with the capabilities last observed: the switch is
        usable exactly when neither permission button is shown, and the
        stored accessibility flag says whether that button is hidden. */
    ghost predicate Reconciled()
      reads this
    {
      && switchEnabled == (!overlayButtonVisible && !accessibilityButtonVisible)
      && PREF_ACCESSIBILITY_ENABLED in prefs
      && prefs[PREF_ACCESSIBILITY_ENABLED] == !accessibilityButtonVisible
    }

    /** A new screen over the stored preferences; OnCreate sets every widget. */
    constructor (stored: map<string, bool>)
      ensures prefs == stored && outbox == []
    {
      switchChecked := false;
      switchEnabled := true;
      overlayButtonVisible, accessibilityButtonVisible := true, true;
      prefs := stored;
      outbox := [];
    }

    /** Shows each permission button iff its capability is missing, stores
        the accessibility state, and lets the switch be used iff both are
        present, which is also the answer. */
    method CheckPermissions(hasOverlayPermission: bool, hasAccessibility: bool) returns (granted: bool)
      modifies this
      ensures granted == (hasOverlayPermission && hasAccessibility)
      ensures switchEnabled == granted
      ensures overlayButtonVisible == !hasOverlayPermission
      ensures accessibilityButtonVisible == !hasAccessibility
      ensures prefs == old(prefs)[PREF_ACCESSIBILITY_ENABLED := hasAccessibility]
      ensures switchChecked == old(switchChecked) && outbox == old(outbox)
      ensures Reconciled()
    {
      overlayButtonVisible := !hasOverlayPermission;
      accessibilityButtonVisible := !hasAccessibility;
      prefs := prefs[PREF_ACCESSIBILITY_ENABLED := hasAccessibility];
      switchEnabled := hasOverlayPermission && hasAccessibility;
      granted := hasOverlayPermission && hasAccessibility;
    }

    /** Stores the switch state. */
    method SaveSwitchState(state: bool)
      modifies this`prefs
      ensures prefs == old(prefs)[PREF_SWITCH_STATE := state]
    {
      prefs := prefs[PREF_SWITCH_STATE := state];
    }

    /** Restores the switch from the stored state, reconciles the widgets,
        and prompts to re-enable accessibility iff the flag stored BEFORE
        this reconciliation was true and the service is not running now. */
    method OnCreate(canDrawOverlays: bool, accessibilityRunning: bool)
      modifies this
      ensures switchChecked == GetBoolean(old(prefs), PREF_SWITCH_STATE, false)
      ensures switchEnabled == (canDrawOverlays && accessibilityRunning)
      ensures overlayButtonVisible == !canDrawOverlays
      ensures accessibilityButtonVisible == !accessibilityRunning
      ensures prefs == old(prefs)[PREF_ACCESSIBILITY_ENABLED := accessibilityRunning]
      ensures outbox == old(outbox) +
        if GetBoolean(old(prefs), PREF_ACCESSIBILITY_ENABLED, false) && !accessibilityRunning
        then [ShowToast(REENABLE_MESSAGE)] else []
      ensures Reconciled()
    {
      var switchState := GetBoolean(prefs, PREF_SWITCH_STATE, false);
      switchChecked := switchState;
      var accessibilityWasEnabled := GetBoolean(prefs, PREF_ACCESSIBILITY_ENABLED, false);
      var _ := CheckPermissions(canDrawOverlays, accessibilityRunning);
      if accessibilityWasEnabled && !accessibilityRunning {
        outbox := outbox + [ShowToast(REENABLE_MESSAGE)];
        accessibilityButtonVisible := true;
      }
    }

    /** The user flipped the switch to `isChecked`. Turning on is accepted
        only with both capabilities and otherwise reverts the switch; turning
        off always stops the service. Either way the last write stores
        `isChecked`, so a rejected turn-on stores true. */
    method OnCheckedChanged(isChecked: bool, canDrawOverlays: bool, accessibilityRunning: bool)
      modifies this
      ensures var granted := canDrawOverlays && accessibilityRunning;
        && (isChecked && granted ==> switchChecked && outbox == old(outbox) + [StartFloatingService, ShowToast(ENABLED_MESSAGE)])
        && (isChecked && !granted ==> !switchChecked && outbox == old(outbox) + [ShowToast(MISSING_PERMISSIONS_MESSAGE)])
        && (isChecked ==>
              && switchEnabled == granted
              && overlayButtonVisible == !canDrawOverlays
              && accessibilityButtonVisible == !accessibilityRunning
              && prefs == old(prefs)[PREF_ACCESSIBILITY_ENABLED := accessibilityRunning][PREF_SWITCH_STATE := true])
      ensures !isChecked ==>
        && !switchChecked && outbox == old(outbox) + [StopFloatingService, ShowToast(DISABLED_MESSAGE)]
        && switchEnabled == old(switchEnabled)
        && overlayButtonVisible == old(overlayButtonVisible)
        && accessibilityButtonVisible == old(accessibilityButtonVisible)
        && prefs == old(prefs)[PREF_SWITCH_STATE := false]
      ensures old(Reconciled()) ==> Reconciled()
    {
      switchChecked := isChecked;
      if isChecked {
        var granted := CheckPermissions(canDrawOverlays, accessibilityRunning);
        if granted {
          outbox := outbox + [StartFloatingService];
          outbox := outbox + [ShowToast(ENABLED_MESSAGE)];
        } else {
          switchChecked := false;
          outbox := outbox + [ShowToast(MISSING_PERMISSIONS_MESSAGE)];
        }
      } else {
        outbox := outbox + [StopFloatingService];
        outbox := outbox + [ShowToast(DISABLED_MESSAGE)];
      }
      SaveSwitchState(isChecked);
    }

    /** Back from the overlay-permission screen: reconcile again. */
    method OnActivityResult(requestCode: int, canDrawOverlays: bool, accessibilityRunning: bool)
      modifies this
      ensures requestCode == OVERLAY_PERMISSION_REQUEST ==>
        && switchEnabled == (canDrawOverlays && accessibilityRunning)
        && overlayButtonVisible == !canDrawOverlays
        && accessibilityButtonVisible == !accessibilityRunning
        && prefs == old(prefs)[PREF_ACCESSIBILITY_ENABLED := accessibilityRunning]
      ensures requestCode != OVERLAY_PERMISSION_REQUEST ==>
        && switchEnabled == old(switchEnabled)
        && overlayButtonVisible == old(overlayButtonVisible)
        && accessibilityButtonVisible == old(accessibilityButtonVisible)
        && prefs == old(prefs)
      ensures switchChecked == old(switchChecked) && outbox == old(outbox)
      ensures old(Reconciled()) ==> Reconciled()
    {
      if requestCode == OVERLAY_PERMISSION_REQUEST {
        var _ := CheckPermissions(canDrawOverlays, accessibilityRunning);
      }
    }

    /** Reconciles the widgets, then makes the switch follow the overlay
        service's running flag, storing the state only when they differed. */
    method OnResume(canDrawOverlays: bool, accessibilityRunning: bool, floatingRunning: bool)
      modifies this
      ensures switchChecked == floatingRunning
      ensures switchEnabled == (canDrawOverlays && accessibilityRunning)
      ensures overlayButtonVisible == !canDrawOverlays
      ensures accessibilityButtonVisible == !accessibilityRunning
      ensures prefs == if old(switchChecked) != floatingRunning
        then old(prefs)[PREF_ACCESSIBILITY_ENABLED := accessibilityRunning][PREF_SWITCH_STATE := floatingRunning]
        else old(prefs)[PREF_ACCESSIBILITY_ENABLED := accessibilityRunning]
      ensures outbox == old(outbox)
      ensures Reconciled()
    {
      var _ := CheckPermissions(canDrawOverlays, accessibilityRunning);
      var isServiceRunning := floatingRunning;
      if switchChecked != isServiceRunning {
        switchChecked := isServiceRunning;
        SaveSwitchState(isServiceRunning);
      }
    }

    /** The closed receiver: a FLOATING_WINDOW_CLOSED broadcast turns the
        switch off and stores that; any other broadcast is ignored. */
    method OnFloatingWindowClosed(intent: Intent)
      modifies this
      ensures HasAction(intent, FLOATING_WINDOW_CLOSED) ==>
        && !switchChecked
        && prefs == old(prefs)[PREF_SWITCH_STATE := false]
        && outbox == old(outbox) + [ShowToast(CLOSED_MESSAGE)]
      ensures !HasAction(intent, FLOATING_WINDOW_CLOSED) ==>
        switchChecked == old(switchChecked) && prefs == old(prefs) && outbox == old(outbox)
      ensures switchEnabled == old(switchEnabled)
      ensures overlayButtonVisible == old(overlayButtonVisible)
      ensures accessibilityButtonVisible == old(accessibilityButtonVisible)
      ensures old(Reconciled()) ==> Reconciled()
    {
      if HasAction(intent, FLOATING_WINDOW_CLOSED) {
        switchChecked := false;
        SaveSwitchState(false);
        outbox := outbox + [ShowToast(CLOSED_MESSAGE)];
      }
    }
  }

  /** After the overlay reports that it was closed, the next screen created
      over the stored preferences shows the switch unchecked. */
  method ReopenAfterOverlayClosed(a: MainActivity, canDrawOverlays: bool, accessibilityRunning: bool)
    returns (b: MainActivity)
    modifies a
    ensures !GetBoolean(a.prefs, PREF_SWITCH_STATE, true) && !a.switchChecked
    ensures fresh(b) && !b.switchChecked
  {
    a.OnFloatingWindowClosed(Intent(Some(FLOATING_WINDOW_CLOSED), map[]));
    b := new MainActivity(a.prefs);
    b.OnCreate(canDrawOverlays, accessibilityRunning);
  }

  /** A rejected turn-on leaves the switch off while the stored state says
      on; a resume while the service is stopped does not correct it, since
      it compares the switch (already off) with the service, not the store.
      Only the next screen, which restores the switch to on, re-syncs. */
  method RejectedTurnOnThenResume(a: MainActivity, canDrawOverlays: bool) returns (b: MainActivity)
    modifies a
    ensures !a.switchChecked && GetBoolean(a.prefs, PREF_SWITCH_STATE, false)
    ensures fresh(b) && !b.switchChecked && !GetBoolean(b.prefs, PREF_SWITCH_STATE, true)
  {
    a.OnCheckedChanged(true, canDrawOverlays, false);
    a.OnResume(canDrawOverlays, false, false);
    b := new MainActivity(a.prefs);
    b.OnCreate(canDrawOverlays, false);
    assert b.switchChecked;
    b.OnResume(canDrawOverlays, false, false);
  }
}
