/**
 * The keymap's user hooks as one object: its fields are the file's statics, the layer stack
 * the hooks switch, and the keycodes sent to the host so far.
 */
module Keymap {
  import opened KeymapTypes
  import opened GhostFilter
  import opened Chords
  import opened MediaLayers

  class Keyboard {
    var lastAdcCheck: u32
    var baseLayer: u8
    var lastMediaSwitch: bool
    /** The layer stack: the layers switched on. */
    var layers: set<nat>
    /** Every keycode registered or unregistered with the host, oldest first. */
    var sent: seq<HidAction>

    function State(): KbState
      reads this
    {
      KbState(lastAdcCheck, baseLayer, lastMediaSwitch, layers)
    }

    constructor ()
      ensures State() == Initial && sent == []
    {
      lastAdcCheck := 0;
      baseLayer := LAYER_PC_BASE;
      lastMediaSwitch := false;
      layers := {};
      sent := [];
    }

    method LayerOn(layer: u8)
      modifies this`layers
      ensures layers == old(layers) + {layer as nat}
    {
      layers := layers + {layer as nat};
    }

    method LayerOff(layer: u8)
      modifies this`layers
      ensures layers == old(layers) - {layer as nat}
    {
      layers := layers - {layer as nat};
    }

    /** Switch every layer off except `layer`. */
    method LayerMove(layer: u8)
      modifies this`layers
      ensures layers == {layer as nat}
    {
      layers := {layer as nat};
    }

    method RegisterCode(code: u16)
      modifies this`sent
      ensures sent == old(sent) + [Register(code)]
    {
      sent := sent + [Register(code)];
    }

    method UnregisterCode(code: u16)
      modifies this`sent
      ensures sent == old(sent) + [Unregister(code)]
    {
      sent := sent + [Unregister(code)];
    }

    /** matrix_scan_user: `now` is the clock and `adc` what the media switch would read. */
    method MatrixScanUser(now: u32, adc: u16)
      modifies this
      ensures State() == ScanStep(old(State()), now, adc)
      ensures sent == old(sent)
      ensures Inv(old(State())) ==> Inv(State())
    {
      if Inv(State()) {
        ScanPreservesInv(State(), now, adc);
      }
      if Elapsed(now, lastAdcCheck) >= ADC_CHECK_INTERVAL {
        lastAdcCheck := now;
        var mediaSwitch := MediaSwitchState(adc);
        if mediaSwitch != lastMediaSwitch {
          var mediaLayer := Overlay(baseLayer);
          if mediaSwitch {
            LayerOn(mediaLayer);
          } else {
            LayerOff(mediaLayer);
          }
          lastMediaSwitch := mediaSwitch;
        }
      }
    }

    /** custom_key_combo: press k1, k2 and (unless KC_NO) k3, then release them in the same order. */
    method CustomKeyCombo(k1: u16, k2: u16, k3: u16)
      modifies this`sent
      ensures sent == old(sent) + ComboTrace(k1, k2, k3)
    {
      RegisterCode(k1);
      RegisterCode(k2);
      if k3 != KC_NO {
        RegisterCode(k3);
      }
      UnregisterCode(k1);
      UnregisterCode(k2);
      if k3 != KC_NO {
        UnregisterCode(k3);
      }
      var keys := ComboKeys(k1, k2, k3);
      assert Presses(keys) + Releases(keys) == sent[|old(sent)|..];
    }

    /**
     * process_record_user: a press first sends the chord of a custom keycode, then is rejected
     * (false) when its row and its column both hold two or more closed switches; a release
     * sends nothing and is always let through (true).
     */
    method ProcessRecordUser(keycode: u16, record: KeyRecord, matrix: seq<seq<bool>>) returns (cont: bool)
      requires IsMatrix(matrix)
      requires record.pressed ==> record.row as nat < MATRIX_ROWS && record.col as nat < MATRIX_COLS
      modifies this`sent
      ensures cont <==> !(record.pressed && Ghosted(matrix, record.row as nat, record.col as nat))
      ensures sent == old(sent) + (if record.pressed then ChordTrace(keycode) else [])
    {
      if record.pressed {
        match ChordFor(keycode) {
          case Some(c) => CustomKeyCombo(c.k1, c.k2, c.k3);
          case None =>
        }

        var rowsActive, colsActive := CountActive(matrix);
        var row := record.row;
        var col := record.col;
        if rowsActive[row] >= 2 && colsActive[col] >= 2 {
          return false;
        }
      }
      return true;
    }

    /**
     * process_detected_host_os_user: `adc` is what the media switch reads at that moment.
     * Picks the base layer, makes it the only layer on and re-reads the switch flag.
     */
    method ProcessDetectedHostOsUser(os: OsVariant, adc: u16) returns (cont: bool)
      modifies this
      ensures State() == DetectStep(old(State()), os, adc)
      ensures sent == old(sent)
      ensures Inv(State()) && cont
    {
      baseLayer := BaseLayerFor(os);
      LayerMove(baseLayer);
      lastMediaSwitch := MediaSwitchState(adc);
      cont := true;
    }
  }
}
