/**
 * The chord keycodes: each custom keycode stands for two or three basic keycodes that are
 * registered in order and then unregistered in the same order, as one pulse.
 */
module Chords {
  import opened KeymapTypes

  /** The three arguments of custom_key_combo; k3 == KC_NO means a two-key chord. */
  datatype Chord = Chord(k1: u16, k2: u16, k3: u16)

  /** The switch of process_record_user from custom keycode to chord. */
  function ChordFor(keycode: u16): (r: Option<Chord>)
    ensures r.Some? <==> IsCustomKeycode(keycode)
    ensures r.Some? ==> IsModifier(r.value.k1) && IsModifier(r.value.k2) && r.value.k1 != r.value.k2
    ensures r.Some? ==> (r.value.k3 == KC_NO <==> MED_F5 <= keycode <= MED_F7)
    ensures r.Some? && r.value.k3 != KC_NO ==>
              r.value.k3 == (if keycode == KC_L_WIN then KC_LEFT else KC_RIGHT)
  {
    if keycode == KC_L_WIN then Some(Chord(KC_LCTL, KC_LGUI, KC_LEFT))
    else if keycode == KC_R_WIN then Some(Chord(KC_RCTL, KC_RGUI, KC_RIGHT))
    else if keycode == MED_F5 then Some(Chord(KC_LSFT, KC_LGUI, KC_NO))
    else if keycode == MED_F6 then Some(Chord(KC_LALT, KC_LGUI, KC_NO))
    else if keycode == MED_F7 then Some(Chord(KC_LCTL, KC_LGUI, KC_NO))
    else None
  }

  /** The keycodes a chord actually sends: KC_NO as third argument sends nothing. */
  function ComboKeys(k1: u16, k2: u16, k3: u16): seq<u16> {
    [k1, k2] + (if k3 != KC_NO then [k3] else [])
  }

  function Presses(keys: seq<u16>): (t: seq<HidAction>)
    ensures |t| == |keys|
    ensures forall i :: 0 <= i < |keys| ==> t[i] == Register(keys[i])
  {
    if keys == [] then [] else [Register(keys[0])] + Presses(keys[1..])
  }

  function Releases(keys: seq<u16>): (t: seq<HidAction>)
    ensures |t| == |keys|
    ensures forall i :: 0 <= i < |keys| ==> t[i] == Unregister(keys[i])
  {
    if keys == [] then [] else [Unregister(keys[0])] + Releases(keys[1..])
  }

  /**
   * What custom_key_combo(k1, k2, k3) sends: every key pressed, then every key released.
   * It holds one action per key and direction, and no press comes after a release.
   */
  function ComboTrace(k1: u16, k2: u16, k3: u16): (t: seq<HidAction>)
    ensures |t| == 2 * |ComboKeys(k1, k2, k3)|
    ensures forall i, j :: 0 <= i < j < |t| && t[i].Unregister? ==> t[j].Unregister?
  {
    Presses(ComboKeys(k1, k2, k3)) + Releases(ComboKeys(k1, k2, k3))
  }

  /**
   * What a press of `keycode` sends from process_record_user before the ghost check: nothing
   * unless the keycode is custom, 6 actions for the desktop switches and 4 for the media keys.
   */
  function ChordTrace(keycode: u16): (t: seq<HidAction>)
    ensures t == [] <==> !IsCustomKeycode(keycode)
    ensures IsCustomKeycode(keycode) ==> |t| == (if keycode == KC_L_WIN || keycode == KC_R_WIN then 6 else 4)
  {
    match ChordFor(keycode)
    case Some(c) => ComboShape(c.k1, c.k2, c.k3); ComboTrace(c.k1, c.k2, c.k3)
    case None => []
  }

  /** The set of keycodes the host holds down after replaying a trace. */
  function Replay(held: set<u16>, t: seq<HidAction>): set<u16>
    decreases |t|
  {
    if t == [] then held else Replay(Apply(held, t[0]), t[1..])
  }

  /** Registering a keycode holds it; unregistering releases it. */
  function Apply(held: set<u16>, a: HidAction): set<u16> {
    match a
    case Register(k) => held + {k}
    case Unregister(k) => held - {k}
  }

  function SetOf(keys: seq<u16>): set<u16> {
    set k | k in keys
  }

  /**
   * The pulse shape: n = 2 or 3 presses (3 exactly when k3 is not KC_NO), followed by n releases
   * of the same keycodes in the same order.
   */
  lemma ComboShape(k1: u16, k2: u16, k3: u16)
    ensures var keys := ComboKeys(k1, k2, k3);
            var t := ComboTrace(k1, k2, k3);
            |keys| == (if k3 != KC_NO then 3 else 2) &&
            keys[0] == k1 && keys[1] == k2 && (k3 != KC_NO ==> keys[2] == k3) &&
            |t| == 2 * |keys| &&
            (forall i :: 0 <= i < |keys| ==> t[i] == Register(keys[i]) && t[|keys| + i] == Unregister(keys[i]))
  {
  }

  lemma {:induction false} ReplayAppend(held: set<u16>, a: seq<HidAction>, b: seq<HidAction>)
    ensures Replay(held, a + b) == Replay(Replay(held, a), b)
    decreases |a|
  {
    if a != [] {
      assert (a + b)[1..] == a[1..] + b;
      ReplayAppend(Apply(held, a[0]), a[1..], b);
    } else {
      assert a + b == b;
    }
  }

  lemma {:induction false} ReplayPresses(held: set<u16>, keys: seq<u16>)
    ensures Replay(held, Presses(keys)) == held + SetOf(keys)
    decreases |keys|
  {
    if keys != [] {
      ReplayPresses(held + {keys[0]}, keys[1..]);
      assert SetOf(keys) == {keys[0]} + SetOf(keys[1..]);
    }
  }

  lemma {:induction false} ReplayReleases(held: set<u16>, keys: seq<u16>)
    ensures Replay(held, Releases(keys)) == held - SetOf(keys)
    decreases |keys|
  {
    if keys != [] {
      ReplayReleases(held - {keys[0]}, keys[1..]);
      assert SetOf(keys) == {keys[0]} + SetOf(keys[1..]);
    }
  }

  /**
   * Every code a combo registers is unregistered again: halfway through the pulse all its
   * keys are held together, and at the end none of them is held, whatever was held before.
   */
  lemma ComboReleasesAll(held: set<u16>, k1: u16, k2: u16, k3: u16)
    ensures var keys := ComboKeys(k1, k2, k3);
            Replay(held, Presses(keys)) == held + SetOf(keys) &&
            Replay(held, ComboTrace(k1, k2, k3)) == held - SetOf(keys)
    ensures Replay({}, ComboTrace(k1, k2, k3)) == {}
  {
    var keys := ComboKeys(k1, k2, k3);
    ReplayAppend(held, Presses(keys), Releases(keys));
    ReplayPresses(held, keys);
    ReplayReleases(held + SetOf(keys), keys);
    ReplayAppend({}, Presses(keys), Releases(keys));
    ReplayPresses({}, keys);
    ReplayReleases({} + SetOf(keys), keys);
    assert {} + SetOf(keys) - SetOf(keys) == {};
  }

  /** The chord table: exactly what a press of each custom keycode sends, action by action. */
  lemma ChordTable()
    ensures ChordTrace(KC_L_WIN) == [Register(KC_LCTL), Register(KC_LGUI), Register(KC_LEFT),
                                     Unregister(KC_LCTL), Unregister(KC_LGUI), Unregister(KC_LEFT)]
    ensures ChordTrace(KC_R_WIN) == [Register(KC_RCTL), Register(KC_RGUI), Register(KC_RIGHT),
                                     Unregister(KC_RCTL), Unregister(KC_RGUI), Unregister(KC_RIGHT)]
    ensures ChordTrace(MED_F5) == [Register(KC_LSFT), Register(KC_LGUI), Unregister(KC_LSFT), Unregister(KC_LGUI)]
    ensures ChordTrace(MED_F6) == [Register(KC_LALT), Register(KC_LGUI), Unregister(KC_LALT), Unregister(KC_LGUI)]
    ensures ChordTrace(MED_F7) == [Register(KC_LCTL), Register(KC_LGUI), Unregister(KC_LCTL), Unregister(KC_LGUI)]
  {
  }

  /** The pulse a press sends leaves the host holding no key it did not hold before. */
  lemma ChordLeavesNothingHeld(keycode: u16, held: set<u16>)
    ensures Replay(held, ChordTrace(keycode)) <= held
  {
    match ChordFor(keycode)
    case Some(c) =>
      ComboReleasesAll(held, c.k1, c.k2, c.k3);
    case None =>
  }
}
