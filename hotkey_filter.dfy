/** The global-hotkey hook: a message filter that sees every message of the
    application's loop and, for the hotkey message, tells the tray program that the
    hotkey fired. */
module HotkeyFilter {
  import opened CSharpInt

  /** `WM_HOTKEY`, the message code Windows posts when a registered hotkey is pressed. */
  const WmHotkey: Int32 := 0x0312

  /** A window message: the window it is addressed to, its code and its two
      parameters. */
  datatype Message = Message(hWnd: int, msg: Int32, wParam: int, lParam: int)

  /** The tray program, reduced to the callback the filter invokes. */
  class TrayProgram {
    /** How many times `OnHotKeyPressed` has run, that is, how many selection overlays
        it has shown. */
    ghost var hotkeyPresses: nat

    constructor ()
      ensures hotkeyPresses == 0
    {
      hotkeyPresses := 0;
    }

    /** Shows one selection overlay, modally; the overlay itself is modelled in
        `SelectionOverlay`. */
    method OnHotKeyPressed()
      modifies this
      ensures hotkeyPresses == old(hotkeyPresses) + 1
    {
      hotkeyPresses := hotkeyPresses + 1;
    }
  }

  class KeyMessageFilter {
    const program: TrayProgram

    constructor (program: TrayProgram)
      ensures this.program == program
    {
      this.program := program;
    }

    /** Calls the program's hotkey callback exactly once for a hotkey message and
        never for any other; the message is never consumed, so the loop still
        dispatches it. */
    method PreFilterMessage(m: Message) returns (consumed: bool)
      modifies program
      ensures !consumed
      ensures program.hotkeyPresses == old(program.hotkeyPresses) + (if m.msg == WmHotkey then 1 else 0)
    {
      if m.msg == WmHotkey {
        program.OnHotKeyPressed();
      }
      return false;
    }
  }

  /** Only the hotkey message among a hotkey message and a mouse move reaches the
      callback. */
  method FilterScenario() {
    var program := new TrayProgram();
    var filter := new KeyMessageFilter(program);
    var consumed := filter.PreFilterMessage(Message(0, WmHotkey, 1, 0x7A_0000));
    assert !consumed && program.hotkeyPresses == 1;
    consumed := filter.PreFilterMessage(Message(0, 0x0200, 0, 0));
    assert !consumed && program.hotkeyPresses == 1;
  }
}
