/** Machine widths, constants and records shared by the keymap model. */
module KeymapTypes {

  newtype u8 = x: int | 0 <= x < 0x100
  newtype u16 = x: int | 0 <= x < 0x1_0000
  newtype u32 = x: int | 0 <= x < 0x1_0000_0000

  datatype Option<T> = None | Some(value: T)

  /** Dimensions of the switch matrix: the LAYOUT_SCULPT tables have 8 rows of 18 columns. */
  const MATRIX_ROWS: nat := 8
  const MATRIX_COLS: nat := 18

  /** Layer indices, in the order of the keymaps table: each base layer is followed by its overlay. */
  const LAYER_PC_BASE: u8 := 0
  const LAYER_MEDIA_FN_PC: u8 := 1
  const LAYER_MAC_BASE: u8 := 2
  const LAYER_MEDIA_FN_MAC: u8 := 3

  /** Basic keycodes (HID keyboard usage ids) that the chords send. */
  const KC_NO: u16 := 0x00
  const KC_RIGHT: u16 := 0x4F
  const KC_LEFT: u16 := 0x50
  const KC_LCTL: u16 := 0xE0
  const KC_LSFT: u16 := 0xE1
  const KC_LALT: u16 := 0xE2
  const KC_LGUI: u16 := 0xE3
  const KC_RCTL: u16 := 0xE4
  const KC_RGUI: u16 := 0xE7

  /** First keycode free for keymap-defined codes. */
  const SAFE_RANGE: u16 := 0x7E40

  /** The keymap's own keycodes, numbered consecutively from SAFE_RANGE. */
  const KC_L_WIN: u16 := SAFE_RANGE
  const KC_R_WIN: u16 := SAFE_RANGE + 1
  const MED_F5: u16 := SAFE_RANGE + 2
  const MED_F6: u16 := SAFE_RANGE + 3
  const MED_F7: u16 := SAFE_RANGE + 4

  predicate IsCustomKeycode(k: u16) {
    KC_L_WIN <= k <= MED_F7
  }

  /** The eight modifier keycodes, left control through right GUI. */
  predicate IsModifier(k: u16) {
    KC_LCTL <= k <= KC_RGUI
  }

  /** What reaches the host: a keycode registered (pressed) or unregistered (released). */
  datatype HidAction = Register(code: u16) | Unregister(code: u16)

  /** A matrix event: the switch coordinate and whether it was pressed or released. */
  datatype KeyRecord = KeyRecord(row: u8, col: u8, pressed: bool)

  /** The host operating systems the detection can report; OsUnknown stands for any other value. */
  datatype OsVariant = OsUnsure | OsLinux | OsWindows | OsMacos | OsIos | OsUnknown
}
