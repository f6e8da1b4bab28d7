/**
 * The media-switch and host-OS state machine of the keymap, on values: the scan tick that
 * samples the media switch at most once a second and toggles the overlay layer, and the
 * OS detection handler that picks the base layer.
 */
module MediaLayers {
  import opened KeymapTypes

  const ADC_THRESHOLD: u16 := 100
  const ADC_CHECK_INTERVAL: u32 := 1000

  /** The keymap's statics and the layer stack: the set of layers switched on. */
  datatype KbState = KbState(lastAdcCheck: u32, baseLayer: u8, lastMediaSwitch: bool, layers: set<nat>)

  /** The statics' initial values; no layer is switched on before OS detection. */
  const Initial := KbState(0, LAYER_PC_BASE, false, {})

  /** One scan tick's input: the millisecond clock and the ADC reading of the media switch. */
  datatype Tick = Tick(now: u32, adc: u16)

  /** get_media_switch_state on a given ADC reading; SwitchThreshold states what it means. */
  predicate MediaSwitchState(adc: u16) {
    adc > ADC_THRESHOLD
  }

  /** timer_elapsed32: milliseconds from `last` to `now` on the wrapping 32-bit clock. */
  function Elapsed(now: u32, last: u32): (d: u32)
    ensures now >= last ==> d as int == now as int - last as int
    ensures now < last ==> d as int == now as int + 0x1_0000_0000 - last as int
  {
    ((now as int - last as int) % 0x1_0000_0000) as u32
  }

  /** The 32-bit clock `d` milliseconds after `t`. */
  function Advance(t: u32, d: u32): u32 {
    ((t as int + d as int) % 0x1_0000_0000) as u32
  }

  /**
   * The overlay of a base layer, as the 8-bit sum base_layer + 1: the next layer up, and never
   * the base layer itself, even where the sum wraps.
   */
  function Overlay(base: u8): (overlay: u8)
    ensures overlay != base
    ensures base < 0xFF ==> overlay == base + 1
  {
    ((base as int + 1) % 0x100) as u8
  }

  /** The switch of process_detected_host_os_user. */
  function BaseLayerFor(os: OsVariant): (b: u8)
    ensures b == LAYER_MAC_BASE <==> os == OsMacos || os == OsIos
    ensures b == LAYER_PC_BASE <==> !(os == OsMacos || os == OsIos)
  {
    match os
    case OsMacos => LAYER_MAC_BASE
    case OsIos => LAYER_MAC_BASE
    case OsWindows => LAYER_PC_BASE
    case OsLinux => LAYER_PC_BASE
    case OsUnsure => LAYER_PC_BASE
    case OsUnknown => LAYER_PC_BASE
  }

  /**
   * matrix_scan_user at clock `now`, with `adc` the reading the switch would give. A tick keeps
   * the base layer, switches no layer other than the base's overlay, and changes nothing at all
   * unless 1000 ms have passed since the last reading, which it then restarts from `now`.
   */
  function ScanStep(s: KbState, now: u32, adc: u16): (s': KbState)
    ensures s'.baseLayer == s.baseLayer
    ensures s'.layers - {Overlay(s.baseLayer) as nat} == s.layers - {Overlay(s.baseLayer) as nat}
    ensures s' != s ==> Elapsed(now, s.lastAdcCheck) >= ADC_CHECK_INTERVAL
    ensures Elapsed(now, s.lastAdcCheck) >= ADC_CHECK_INTERVAL ==> s'.lastAdcCheck == now
  {
    if Elapsed(now, s.lastAdcCheck) >= ADC_CHECK_INTERVAL then
      var reading := MediaSwitchState(adc);
      if reading != s.lastMediaSwitch then
        var overlay := Overlay(s.baseLayer) as nat;
        KbState(now, s.baseLayer, reading,
                if reading then s.layers + {overlay} else s.layers - {overlay})
      else
        s.(lastAdcCheck := now)
    else
      s
  }

  /**
   * process_detected_host_os_user with `adc` the reading the switch gives at that moment.
   * From any state it reaches one satisfying the invariant, with the base layer alone on and
   * the time of the last reading untouched.
   */
  function DetectStep(s: KbState, os: OsVariant, adc: u16): (s': KbState)
    ensures Inv(s')
    ensures s'.layers == {s'.baseLayer as nat}
    ensures s'.lastAdcCheck == s.lastAdcCheck
  {
    var base := BaseLayerFor(os);
    s.(baseLayer := base, layers := {base as nat}, lastMediaSwitch := MediaSwitchState(adc))
  }

  /** A run of scan ticks, oldest first. */
  function RunScans(s: KbState, ticks: seq<Tick>): KbState
    decreases |ticks|
  {
    if ticks == [] then s else RunScans(ScanStep(s, ticks[0].now, ticks[0].adc), ticks[1..])
  }

  /**
   * What every reachable state satisfies: the base layer is PC or Mac, only the base layer
   * and its own overlay are ever on, the Mac base is on whenever it is the base, and the
   * overlay is on only while the cached switch flag is on.
   */
  predicate Inv(s: KbState) {
    && (s.baseLayer == LAYER_PC_BASE || s.baseLayer == LAYER_MAC_BASE)
    && s.layers <= {s.baseLayer as nat, Overlay(s.baseLayer) as nat}
    && (s.baseLayer == LAYER_PC_BASE || s.baseLayer as nat in s.layers)
    && (Overlay(s.baseLayer) as nat in s.layers ==> s.lastMediaSwitch)
  }

  /** The overlay is on exactly when the cached switch flag is on. */
  predicate Synced(s: KbState) {
    s.lastMediaSwitch <==> Overlay(s.baseLayer) as nat in s.layers
  }

  /** QMK resolves a key through the highest layer switched on, layer 0 when none is. */
  predicate IsTopLayer(layers: set<nat>, l: nat) {
    (l == 0 || l in layers) && forall x :: x in layers ==> x <= l
  }

  /** The layer the keymap is currently read from: the overlay when it is on, else the base. */
  function EffectiveLayer(s: KbState): nat {
    if Overlay(s.baseLayer) as nat in s.layers then Overlay(s.baseLayer) as nat else s.baseLayer as nat
  }

  // ---------------------------------------------------------------- threshold, clock, overlay

  /** The overlays of the two base layers are the two media layers of the keymaps table. */
  lemma OverlayOfBaseLayers()
    ensures Overlay(LAYER_PC_BASE) == LAYER_MEDIA_FN_PC
    ensures Overlay(LAYER_MAC_BASE) == LAYER_MEDIA_FN_MAC
  {
  }

  /** The switch reads on exactly above 100, with no hysteresis: 100 is off and 101 is on. */
  lemma SwitchThreshold(a: u16, b: u16)
    ensures !MediaSwitchState(100) && MediaSwitchState(101)
    ensures a <= b && MediaSwitchState(a) ==> MediaSwitchState(b)
  {
  }

  /** The elapsed time survives the wrap-around of the 32-bit clock. */
  lemma ElapsedAdvance(t: u32, d: u32)
    ensures Elapsed(Advance(t, d), t) == d
  {
  }

  // ---------------------------------------------------------------- the scan tick

  /** Less than 1000 ms after the last reading, a tick changes nothing and ignores the ADC. */
  lemma ScanRateLimited(s: KbState, now: u32, adc: u16)
    requires Elapsed(now, s.lastAdcCheck) < ADC_CHECK_INTERVAL
    ensures ScanStep(s, now, adc) == s
  {
  }

  /**
   * A tick 1000 ms or more after the last reading restarts the interval and caches the
   * reading; when the reading differs from the cached flag exactly the overlay of the current
   * base is switched on (reading on) or off (reading off), and otherwise no layer changes.
   */
  lemma ScanReads(s: KbState, now: u32, adc: u16)
    requires Elapsed(now, s.lastAdcCheck) >= ADC_CHECK_INTERVAL
    ensures var s' := ScanStep(s, now, adc);
            var overlay := Overlay(s.baseLayer) as nat;
            && s'.lastAdcCheck == now
            && s'.lastMediaSwitch == MediaSwitchState(adc)
            && s'.baseLayer == s.baseLayer
            && s'.layers == (if MediaSwitchState(adc) == s.lastMediaSwitch then s.layers
                             else if MediaSwitchState(adc) then s.layers + {overlay}
                             else s.layers - {overlay})
  {
  }

  /**
   * Once a tick has read the switch, no tick within the next 1000 ms reads it again: whatever
   * the ADC shows then, the state stays as the reading left it.
   */
  lemma ReadAtMostOncePerInterval(s: KbState, t1: u32, adc1: u16, d: u32, adc2: u16)
    requires Elapsed(t1, s.lastAdcCheck) >= ADC_CHECK_INTERVAL
    requires d < ADC_CHECK_INTERVAL
    ensures var s1 := ScanStep(s, t1, adc1);
            ScanStep(s1, Advance(t1, d), adc2) == s1
  {
    ElapsedAdvance(t1, d);
  }

  /** After a tick that read the switch, a later tick reading it the same switches no layer on or off. */
  lemma ScanSameReadingTwice(s: KbState, t1: u32, adc1: u16, t2: u32, adc2: u16)
    requires Elapsed(t1, s.lastAdcCheck) >= ADC_CHECK_INTERVAL
    requires MediaSwitchState(adc1) == MediaSwitchState(adc2)
    ensures var s1 := ScanStep(s, t1, adc1);
            var s2 := ScanStep(s1, t2, adc2);
            s2.layers == s1.layers && s2.lastMediaSwitch == s1.lastMediaSwitch && s2.baseLayer == s1.baseLayer
  {
  }

  // ---------------------------------------------------------------- OS detection

  /**
   * After detection the base layer is Mac for macOS and iOS and PC otherwise, the stack holds
   * that layer alone, the flag is the fresh reading, and the clock of the last reading is untouched.
   */
  lemma DetectSetsBase(s: KbState, os: OsVariant, adc: u16)
    ensures var s' := DetectStep(s, os, adc);
            && s'.baseLayer == (if os == OsMacos || os == OsIos then LAYER_MAC_BASE else LAYER_PC_BASE)
            && s'.layers == {s'.baseLayer as nat}
            && s'.lastMediaSwitch == MediaSwitchState(adc)
            && s'.lastAdcCheck == s.lastAdcCheck
  {
  }

  /** Detecting the same OS with the same reading twice gives the state of detecting it once. */
  lemma DetectIdempotent(s: KbState, os: OsVariant, adc: u16)
    ensures DetectStep(DetectStep(s, os, adc), os, adc) == DetectStep(s, os, adc)
  {
  }

  /**
   * Detection does not re-engage the overlay: it leaves the overlay off, so the state is in step
   * with the switch exactly when the switch reads off.
   */
  lemma DetectSyncedIff(s: KbState, os: OsVariant, adc: u16)
    ensures Overlay(DetectStep(s, os, adc).baseLayer) as nat !in DetectStep(s, os, adc).layers
    ensures Synced(DetectStep(s, os, adc)) <==> !MediaSwitchState(adc)
  {
  }

  /**
   * If the switch is already on when the OS is detected, the overlay stays off for as long as
   * the switch keeps reading on, however many ticks pass.
   */
  lemma {:induction false} OverlayStaysOffWhileSwitchOn(s: KbState, ticks: seq<Tick>)
    requires s.lastMediaSwitch && Overlay(s.baseLayer) as nat !in s.layers
    requires forall i :: 0 <= i < |ticks| ==> MediaSwitchState(ticks[i].adc)
    ensures var s' := RunScans(s, ticks);
            s'.lastMediaSwitch && Overlay(s'.baseLayer) as nat !in s'.layers && s'.baseLayer == s.baseLayer
    decreases |ticks|
  {
    if ticks != [] {
      var s1 := ScanStep(s, ticks[0].now, ticks[0].adc);
      assert MediaSwitchState(ticks[0].adc);
      assert s1.layers == s.layers && s1.lastMediaSwitch && s1.baseLayer == s.baseLayer;
      OverlayStaysOffWhileSwitchOn(s1, ticks[1..]);
    }
  }

  /** The first reading of the switch as off after such a detection brings the state back in step. */
  lemma OffReadingResyncs(s: KbState, now: u32, adc: u16)
    requires s.lastMediaSwitch && Overlay(s.baseLayer) as nat !in s.layers
    requires Elapsed(now, s.lastAdcCheck) >= ADC_CHECK_INTERVAL && !MediaSwitchState(adc)
    ensures Synced(ScanStep(s, now, adc))
  {
  }

  // ---------------------------------------------------------------- invariants

  lemma InitialInv()
    ensures Inv(Initial) && Synced(Initial)
  {
  }

  lemma ScanPreservesInv(s: KbState, now: u32, adc: u16)
    requires Inv(s)
    ensures Inv(ScanStep(s, now, adc))
    ensures Synced(s) ==> Synced(ScanStep(s, now, adc))
  {
  }

  /** Any run of scan ticks keeps the invariant, and keeps the overlay in step with the flag. */
  lemma {:induction false} RunScansPreservesInv(s: KbState, ticks: seq<Tick>)
    requires Inv(s)
    ensures Inv(RunScans(s, ticks))
    ensures Synced(s) ==> Synced(RunScans(s, ticks))
    decreases |ticks|
  {
    if ticks != [] {
      ScanPreservesInv(s, ticks[0].now, ticks[0].adc);
      RunScansPreservesInv(ScanStep(s, ticks[0].now, ticks[0].adc), ticks[1..]);
    }
  }

  /**
   * In every state satisfying the invariant, the highest layer on is the overlay when it is on
   * and the base layer otherwise: the PC overlay is never in effect over the Mac base.
   */
  lemma EffectiveLayerIsTop(s: KbState)
    requires Inv(s)
    ensures IsTopLayer(s.layers, EffectiveLayer(s))
    ensures EffectiveLayer(s) == s.baseLayer as nat || EffectiveLayer(s) == s.baseLayer as nat + 1
    ensures EffectiveLayer(s) == s.baseLayer as nat + 1 <==> Overlay(s.baseLayer) as nat in s.layers
  {
  }
}
