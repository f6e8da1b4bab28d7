# Sculpt keymap: ghost filter, chords and media/OS layer switching

A Dafny model of the user-level logic of the QMK keymap for the Plenary Design wired Sculpt
keyboard (`firmware/plenary_design_ms_sculpt/keymaps/default/keymap.c`). It covers four parts:

- **The ghost filter** (`GhostFilter`). This is the press branch of `process_record_user`.
  - Two nested loops count the closed switches of every row and every column into 8-bit counter arrays (`CountActive`, `CountRow`).
  - A press is rejected when both its row and its column hold two or more closed switches (`Ghosted`).
- **The chord emitter** (`Chords`).
  - `ChordFor` is the switch from the five custom keycodes to their keycode triples.
  - `ComboTrace` is the pulse that `custom_key_combo` sends: every key registered in order, then every key unregistered in the same order.
  - `Replay` gives the set of keys the host holds down after a trace.
- **The media/overlay state machine and OS detection** (`MediaLayers`). These are written as functions on a `KbState` value.
  - The state holds the file's statics and the layer stack.
  - `ScanStep` is one `matrix_scan_user` tick. It reads the switch at most once per 1000 ms and switches layer `base_layer + 1` on or off when the reading changes.
  - `DetectStep` is `process_detected_host_os_user`.
  - `Inv` is the invariant that every reachable state keeps.
- **The hooks as an object** (`Keymap.Keyboard`). Its fields are the statics `last_adc_check`, `base_layer` and `last_media_switch`, plus the layer stack (a `set<nat>`) and the trace of keycodes sent to the host.
  - Each hook is a method that changes these fields imperatively.
  - Each method is proved to produce exactly the state or trace given by the functions above.

Inputs that the hardware supplies in the firmware are parameters here:
- the millisecond clock (`now: u32`);
- the ADC reading of the media switch (`adc: u16`);
- the switch matrix (`seq<seq<bool>>`, 8 rows of 18 columns).

Assumed constants (their headers are not part of this model):
- **Layer indices.** `LAYER_PC_BASE` = 0, `LAYER_MEDIA_FN_PC` = 1, `LAYER_MAC_BASE` = 2 and `LAYER_MEDIA_FN_MAC` = 3, in the order of the `keymaps` table.
- **Matrix size.** `MATRIX_ROWS` = 8 and `MATRIX_COLS` = 18, the size of the `LAYOUT_SCULPT` tables.
- **Basic keycodes.** These are the HID usage ids, so `KC_NO` = 0, the arrows are 0x4F/0x50 and the modifiers are 0xE0–0xE7.
- **Custom keycodes.** `SAFE_RANGE` = 0x7E40, QMK's first user keycode. The five custom keycodes follow it consecutively.

The proofs rely on these facts about the values, and on nothing else:
- the five custom keycodes are consecutive (`IsCustomKeycode` is the range `KC_L_WIN`..`MED_F7`);
- `KC_LCTL`, `KC_LSFT`, `KC_LALT`, `KC_LGUI`, `KC_RCTL` and `KC_RGUI` lie in the modifier range 0xE0–0xE7 (`IsModifier`);
- `KC_LEFT` and `KC_RIGHT` differ from `KC_NO` and from each other, which fixes the 6-action and 4-action pulse lengths;
- each chord's two modifiers are distinct keycodes;
- a row and a column each hold at most 255 switches (8 × 18 here), so the 8-bit counters cannot wrap;
- the base layers are 0 and 2, so their overlays 1 and 3 are the media layers.

Two behaviours of the code are worth stating on their own:
- **OS detection does not switch the overlay back on.** Detection re-reads the media switch into `last_media_switch`, but `layer_move` has already switched the overlay off (keymap.c:163-165). If the switch is on at detection, the overlay stays off until the switch has been read as off once (`DetectSyncedIff`, `OverlayStaysOffWhileSwitchOn`, `OffReadingResyncs`).
- **Coordinates are not bounds-checked.** The code indexes `rows_active[row]` and `cols_active[col]` without a check (keymap.c:123-126), so in-range coordinates for a press are a precondition of `ProcessRecordUser`. A release never indexes the arrays and carries no such precondition.

## Model

| member | source | states |
|---|---|---|
| GhostFilter.CountActive | firmware/plenary_design_ms_sculpt/keymaps/default/keymap.c:109-120 | after the nested loops, each row counter equals the number of closed switches in that row and each column counter equals the number in that column; the 8-bit counters never overflow |
| GhostFilter.CountRow | firmware/plenary_design_ms_sculpt/keymaps/default/keymap.c:114-119 | one pass of the inner loop adds row `row` to its row counter and to every column counter, and leaves the other row counters alone |
| GhostFilter.Ghosted | firmware/plenary_design_ms_sculpt/keymaps/default/keymap.c:126 | the rejection condition: two or more closed switches in the press's row and in its column; when it holds, some other switch in that row and some other switch in that column are closed, whether or not the pressed switch reads closed |
| GhostFilter.GhostedIffOtherInRowAndColumn | firmware/plenary_design_ms_sculpt/keymaps/default/keymap.c:126-130 | when the pressed switch reads closed, it is rejected if and only if another switch in its row and another in its column are closed |
| GhostFilter.RectangleGhostRejected | firmware/plenary_design_ms_sculpt/keymaps/default/keymap.c:122-130 | the fourth corner of a rectangle whose other corners are closed is rejected |
| GhostFilter.IsolatedPressAccepted | firmware/plenary_design_ms_sculpt/keymaps/default/keymap.c:113-126 | a press alone in its row, or alone in its column, is never rejected |
| GhostFilter.LonePressAccepted | firmware/plenary_design_ms_sculpt/keymaps/default/keymap.c:113-126 | a press while every other switch is open is accepted |
| Chords.ChordFor | firmware/plenary_design_ms_sculpt/keymaps/default/keymap.c:90-106 | exactly the five custom keycodes have a chord; each chord starts with two distinct modifiers; its third key is KC_LEFT for KC_L_WIN, KC_RIGHT for KC_R_WIN, and KC_NO for MED_F5..MED_F7 |
| Chords.Presses | firmware/plenary_design_ms_sculpt/keymaps/default/keymap.c:75-79 | the register half of a pulse: one register per key, in the keys' order |
| Chords.Releases | firmware/plenary_design_ms_sculpt/keymaps/default/keymap.c:80-84 | the unregister half of a pulse: one unregister per key, in the keys' order |
| Chords.ComboTrace | firmware/plenary_design_ms_sculpt/keymaps/default/keymap.c:74-85 | the pulse custom_key_combo sends has one action per key and direction, and no press follows a release |
| Chords.ChordTrace | firmware/plenary_design_ms_sculpt/keymaps/default/keymap.c:89-106 | a press sends nothing unless its keycode is custom; the desktop switches send 6 actions and the media keys 4 |
| Chords.ChordTable | firmware/plenary_design_ms_sculpt/keymaps/default/keymap.c:91-105 | KC_L_WIN sends LCTL, LGUI, LEFT pressed then released in that order; KC_R_WIN the same with RCTL, RGUI, RIGHT; MED_F5, MED_F6 and MED_F7 send LSFT, LALT and LCTL respectively, each followed by LGUI, pressed then released |
| Chords.ComboShape | firmware/plenary_design_ms_sculpt/keymaps/default/keymap.c:74-85 | the pulse is n presses followed by n releases of the same keys in the same order; n is 3 if and only if k3 is not KC_NO, and 2 otherwise |
| Chords.ComboReleasesAll | firmware/plenary_design_ms_sculpt/keymaps/default/keymap.c:74-85 | halfway through the pulse all its keys are held; at the end none of them is held, and a host that held nothing holds nothing |
| Chords.ChordLeavesNothingHeld | firmware/plenary_design_ms_sculpt/keymaps/default/keymap.c:89-106 | the pulse a press sends leaves the host holding no key it did not hold before |
| MediaLayers.Elapsed | firmware/plenary_design_ms_sculpt/keymaps/default/keymap.c:40 | the elapsed time is `now - last`, or, across a wrap of the 32-bit clock, `now + 2^32 - last` |
| MediaLayers.ElapsedAdvance | firmware/plenary_design_ms_sculpt/keymaps/default/keymap.c:40-41 | d milliseconds after t, the elapsed time since t is d, even across the wrap |
| MediaLayers.Overlay | firmware/plenary_design_ms_sculpt/keymaps/default/keymap.c:48 | the overlay is the 8-bit `base_layer + 1`: the next layer up below 255, and never the base layer itself |
| MediaLayers.OverlayOfBaseLayers | firmware/plenary_design_ms_sculpt/keymaps/default/keymap.c:196-234 | the overlay of the PC base is the PC media layer and that of the Mac base is the Mac media layer |
| MediaLayers.SwitchThreshold | firmware/plenary_design_ms_sculpt/keymaps/default/keymap.c:28-35 | the switch reads on exactly above 100: 100 is off, 101 is on, and the reading is monotone |
| MediaLayers.BaseLayerFor | firmware/plenary_design_ms_sculpt/keymaps/default/keymap.c:138-160 | macOS and iOS give the Mac base layer; every other value, including an unknown one, gives the PC base layer |
| MediaLayers.ScanStep | firmware/plenary_design_ms_sculpt/keymaps/default/keymap.c:37-60 | a tick keeps the base layer, switches no layer but the base's overlay, and changes nothing unless 1000 ms have passed since the last reading; whenever they have, it restarts the interval from `now` |
| MediaLayers.DetectStep | firmware/plenary_design_ms_sculpt/keymaps/default/keymap.c:137-167 | from any state, detection reaches a state satisfying the invariant, with exactly the base layer on and the time of the last reading untouched |
| MediaLayers.ScanRateLimited | firmware/plenary_design_ms_sculpt/keymaps/default/keymap.c:40 | within 1000 ms of the last reading, a tick changes nothing, whatever the ADC shows |
| MediaLayers.ScanReads | firmware/plenary_design_ms_sculpt/keymaps/default/keymap.c:40-58 | after 1000 ms or more, a tick restarts the interval and caches the reading; a changed reading switches exactly the overlay of the current base on (on) or off (off); an unchanged reading switches no layer |
| MediaLayers.ReadAtMostOncePerInterval | firmware/plenary_design_ms_sculpt/keymaps/default/keymap.c:39-41 | after a tick that read the switch, any tick less than 1000 ms later leaves the state as it was, whatever the ADC shows |
| MediaLayers.ScanSameReadingTwice | firmware/plenary_design_ms_sculpt/keymaps/default/keymap.c:45-58 | after a reading, a later equal reading switches no layer and keeps the flag |
| MediaLayers.DetectSetsBase | firmware/plenary_design_ms_sculpt/keymaps/default/keymap.c:137-167 | after detection the base is Mac for macOS/iOS and PC otherwise, the stack is exactly that base, the flag is the fresh reading, and the reading timer is untouched |
| MediaLayers.DetectIdempotent | firmware/plenary_design_ms_sculpt/keymaps/default/keymap.c:137-167 | detecting the same OS with the same reading twice gives the state of detecting it once |
| MediaLayers.DetectSyncedIff | firmware/plenary_design_ms_sculpt/keymaps/default/keymap.c:163-165 | after detection the overlay is off, so the overlay agrees with the flag if and only if the switch reads off |
| MediaLayers.OverlayStaysOffWhileSwitchOn | firmware/plenary_design_ms_sculpt/keymaps/default/keymap.c:45-58 | from a state whose flag is on but whose overlay is off, any run of ticks that all read on keeps the overlay off and the base unchanged |
| MediaLayers.OffReadingResyncs | firmware/plenary_design_ms_sculpt/keymaps/default/keymap.c:45-57 | from such a state, the first tick that reads off brings the overlay and the flag back into agreement |
| MediaLayers.InitialInv | firmware/plenary_design_ms_sculpt/keymaps/default/keymap.c:6-8 | the initial statics satisfy the invariant, with overlay and flag in agreement |
| MediaLayers.ScanPreservesInv | firmware/plenary_design_ms_sculpt/keymaps/default/keymap.c:37-60 | a tick keeps the invariant, and keeps the overlay in agreement with the flag when it was |
| MediaLayers.RunScansPreservesInv | firmware/plenary_design_ms_sculpt/keymaps/default/keymap.c:37-60 | any run of ticks keeps the invariant and the agreement of overlay and flag |
| MediaLayers.EffectiveLayerIsTop | firmware/plenary_design_ms_sculpt/keymaps/default/keymap.c:48 | under the invariant, the highest layer on is the base layer or the base layer + 1, and it is base + 1 exactly when the overlay is on; the PC overlay is never in effect over the Mac base |
| Keymap.Keyboard.constructor | firmware/plenary_design_ms_sculpt/keymaps/default/keymap.c:6-8 | starts with last_adc_check = 0, the PC base layer, the flag off, no layer on and nothing sent |
| Keymap.Keyboard.MatrixScanUser | firmware/plenary_design_ms_sculpt/keymaps/default/keymap.c:37-60 | the new statics and layer stack are the scan tick of the old ones; nothing is sent; the invariant is kept |
| Keymap.Keyboard.CustomKeyCombo | firmware/plenary_design_ms_sculpt/keymaps/default/keymap.c:74-85 | appends exactly the combo pulse to what was sent |
| Keymap.Keyboard.ProcessRecordUser | firmware/plenary_design_ms_sculpt/keymaps/default/keymap.c:87-135 | returns false exactly for a press that is ghosted; a press sends its chord's pulse before the ghost check, so a rejected chord key has still sent it; a release sends nothing and returns true |
| Keymap.Keyboard.ProcessDetectedHostOsUser | firmware/plenary_design_ms_sculpt/keymaps/default/keymap.c:137-168 | the new statics and layer stack are the detection step of the old ones; returns true; the invariant holds afterwards |

## Left out

- `matrix_init_user` (`adcInit`, `setPinOutput`, `powerup_timer := timer_read32()`): device start-up. `powerup_timer` is never read again.
- `led_update_user`: it only drives the caps-lock LED pin from the lock state.
- `analogReadPinAdc`, `timer_read32`, `timer_elapsed32` and `matrix_is_on` are hardware reads. They become the inputs `adc`, `now` and `matrix`. Both clock reads of one tick (keymap.c:40 and 41) see the same `now`.
- `uprintf` diagnostics: they are logging with no effect on state.
- `register_code`, `unregister_code`, `layer_on`, `layer_off` and `layer_move` are QMK library calls. Only their abstract effect is kept: an appended action, and a layer added, removed or made the only one. QMK's handling of an already-held modifier and its 32-bit layer bitmask are not modelled. `register_code` takes an 8-bit code, but every chord code is below 0x100, so this narrowing never matters.
- The `keymaps` table (keymap.c:176-252) and the keycode lookup and KC_TRNS fall-through it feeds are done by QMK code. `EffectiveLayer` only states which layer that lookup starts from. The comment at keymap.c:171 says the Mac layer swaps LGUI for LALT, but row 3 of the Mac table (keymap.c:223) still sends KC_LGUI. The table is not modelled.
- Plain keycodes: `process_record_user` returns true for them unless the press is ghosted, and sends nothing itself; QMK then sends the key. That pass-through is QMK's and is not modelled.
