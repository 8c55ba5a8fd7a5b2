/** The slice of the Android platform the three components see: nullable
    strings, broadcast intents with string extras, the externally visible
    effects a component can cause, and Java's String.contains. */
module Android {

  /** A Java reference that may be null. */
  datatype Option<T> = None | Some(value: T)

  /** A broadcast intent: its action (null when unset) and its string extras. */
  datatype Intent = Intent(action: Option<string>, extras: map<string, string>)

  /** The action names and extra keys the components exchange. */
  const CURRENT_ACTIVITY_UPDATE: string := "CURRENT_ACTIVITY_UPDATE"
  const FLOATING_WINDOW_CLOSED: string := "FLOATING_WINDOW_CLOSED"
  const EXTRA_PACKAGE: string := "package"
  const EXTRA_ACTIVITY: string := "activity"

  /** `name.equals(intent.getAction())`: false when the action is null. */
  predicate HasAction(intent: Intent, name: string) {
    intent.action == Some(name)
  }

  /** `intent.getStringExtra(key)`: null when the extra is absent. */
  function GetStringExtra(intent: Intent, key: string): Option<string> {
    if key in intent.extras then Some(intent.extras[key]) else None
  }

  /** Everything a component does that another component or the user can
      observe, in the order it does it. */
  datatype Effect =
    | SendBroadcast(intent: Intent)
    | SetPrimaryClip(clipLabel: string, text: string)
    | ShowToast(text: string)
    | StartFloatingService
    | StopFloatingService
    | StopSelf

  /** `sub` occurs in `s` starting at index `i`. */
  predicate OccursAt(s: string, sub: string, i: int) {
    0 <= i && i + |sub| <= |s| && s[i..i + |sub|] == sub
  }

  /** Java's `s.contains(sub)`, computed by trying each start position. */
  predicate Contains(s: string, sub: string)
    ensures Contains(s, sub) ==> |sub| <= |s|
    decreases |s|
  {
    if sub <= s then true
    else if |s| == 0 then false
    else Contains(s[1..], sub)
  }

  /** An occurrence at index 0 is a prefix. */
  lemma OccursAtStart(s: string, sub: string)
    ensures OccursAt(s, sub, 0) <==> sub <= s
  {
    if sub <= s {
      assert s[0..|sub|] == sub;
    }
  }

  /** An occurrence past index 0 is an occurrence in the tail. */
  lemma OccursInTail(s: string, sub: string, i: int)
    requires |s| > 0 && i > 0
    ensures OccursAt(s, sub, i) <==> OccursAt(s[1..], sub, i - 1)
  {
    if i + |sub| <= |s| {
      assert s[1..][i - 1..i - 1 + |sub|] == s[i..i + |sub|];
    }
  }

  /** Contains agrees with the definition of a substring occurrence. */
  lemma {:induction false} ContainsIffOccurs(s: string, sub: string)
    ensures Contains(s, sub) <==> exists i :: OccursAt(s, sub, i)
    decreases |s|
  {
    OccursAtStart(s, sub);
    if !(sub <= s) && |s| > 0 {
      ContainsIffOccurs(s[1..], sub);
      if Contains(s[1..], sub) {
        var i :| OccursAt(s[1..], sub, i);
        OccursInTail(s, sub, i + 1);
      } else {
        forall i | i > 0 ensures !OccursAt(s, sub, i) {
          OccursInTail(s, sub, i);
        }
      }
    }
  }

  /** A string that lacks the first character of `sub` cannot contain `sub`. */
  lemma {:induction false} MissingFirstCharNotContained(s: string, sub: string)
    requires |sub| > 0 && sub[0] !in s
    ensures !Contains(s, sub)
    decreases |s|
  {
    if |s| > 0 {
      assert s[0] != sub[0];
      assert sub[0] !in s[1..] by {
        forall k | 0 <= k < |s[1..]| ensures s[1..][k] != sub[0] {
          assert s[1..][k] == s[k + 1];
        }
      }
      MissingFirstCharNotContained(s[1..], sub);
    }
  }

  /** A string that lacks the first character of `sub` has no occurrence of it. */
  lemma NoOccurrenceWithoutFirstChar(s: string, sub: string)
    requires |sub| > 0 && sub[0] !in s
    ensures forall i :: !OccursAt(s, sub, i)
  {
    MissingFirstCharNotContained(s, sub);
    ContainsIffOccurs(s, sub);
  }
}
