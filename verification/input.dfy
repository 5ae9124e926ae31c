/**
 The SDL-driven input tables: one flag per keyboard scancode, one flag per
 mouse button (eight of them) and the last mouse position. Events arrive one
 at a time; queries outside a table's range read as "up".
 */
module Input {

  /** Size of SDL2's scancode table (SDL_NUM_SCANCODES). */
  const NumScancodes: int := 512
  const NumMouseButtons: int := 8

  /** The SDL2 scancodes the game reads. */
  const ScancodeA: int := 4
  const ScancodeD: int := 7
  const ScancodeS: int := 22
  const ScancodeW: int := 26
  const ScancodeSpace: int := 44
  const ScancodeRight: int := 79
  const ScancodeLeft: int := 80
  const ScancodeDown: int := 81
  const ScancodeUp: int := 82

  datatype InputState = InputState(keys: seq<bool>, mouseButtons: seq<bool>, mouseX: int, mouseY: int)

  /** The tables have their fixed sizes. */
  predicate Valid(st: InputState) {
    |st.keys| == NumScancodes && |st.mouseButtons| == NumMouseButtons
  }

  /** The event kinds the game reacts to; a mouse button index is an unsigned byte in SDL. */
  datatype Event =
    | KeyDown(scancode: int)
    | KeyUp(scancode: int)
    | MouseButtonDown(button: nat)
    | MouseButtonUp(button: nat)
    | MouseMotion(x: int, y: int)
    | OtherEvent

  function IsKeyDown(st: InputState, key: int): bool
    requires Valid(st)
  {
    if key < 0 || key >= NumScancodes then false else st.keys[key]
  }

  function IsMouseDown(st: InputState, button: nat): bool
    requires Valid(st)
  {
    if button >= NumMouseButtons then false else st.mouseButtons[button]
  }

  function GetMousePos(st: InputState): (int, int) {
    (st.mouseX, st.mouseY)
  }

  /** Before any event every key and button is up and the mouse is at the origin. */
  function Initial(): (st: InputState)
    ensures Valid(st)
    ensures forall key :: !IsKeyDown(st, key)
    ensures forall button :: !IsMouseDown(st, button)
    ensures GetMousePos(st) == (0, 0)
  {
    InputState(seq(NumScancodes, _ => false), seq(NumMouseButtons, _ => false), 0, 0)
  }

  /**
   Applies one event. A key or button event changes only its own flag, and
   only when its index is in range; motion changes only the position.
   */
  function ProcessEvent(st: InputState, e: Event): (r: InputState)
    requires Valid(st)
    ensures Valid(r)
    ensures e.KeyDown? ==> forall key :: IsKeyDown(r, key) <==> IsKeyDown(st, key) || (key == e.scancode && 0 <= key < NumScancodes)
    ensures e.KeyUp? ==> forall key :: IsKeyDown(r, key) <==> IsKeyDown(st, key) && key != e.scancode
    ensures e.MouseButtonDown? ==> forall b: nat :: IsMouseDown(r, b) <==> IsMouseDown(st, b) || (b == e.button && b < NumMouseButtons)
    ensures e.MouseButtonUp? ==> forall b: nat :: IsMouseDown(r, b) <==> IsMouseDown(st, b) && b != e.button
    ensures !e.KeyDown? && !e.KeyUp? ==> r.keys == st.keys
    ensures !e.MouseButtonDown? && !e.MouseButtonUp? ==> r.mouseButtons == st.mouseButtons
    ensures e.MouseMotion? ==> GetMousePos(r) == (e.x, e.y)
    ensures !e.MouseMotion? ==> GetMousePos(r) == GetMousePos(st)
  {
    match e
    case KeyDown(c) =>
      if 0 <= c < NumScancodes then st.(keys := st.keys[c := true]) else st
    case KeyUp(c) =>
      if 0 <= c < NumScancodes then st.(keys := st.keys[c := false]) else st
    case MouseButtonDown(b) =>
      if b < NumMouseButtons then st.(mouseButtons := st.mouseButtons[b := true]) else st
    case MouseButtonUp(b) =>
      if b < NumMouseButtons then st.(mouseButtons := st.mouseButtons[b := false]) else st
    case MouseMotion(x, y) =>
      st.(mouseX := x, mouseY := y)
    case OtherEvent =>
      st
  }

  /** Pressing and then releasing a key leaves it up, and every other key as it was. */
  lemma PressReleaseRestores(st: InputState, key: int)
    requires Valid(st)
    ensures var r := ProcessEvent(ProcessEvent(st, KeyDown(key)), KeyUp(key));
            !IsKeyDown(r, key) && forall k :: k != key ==> IsKeyDown(r, k) == IsKeyDown(st, k)
  {
  }
}

/**
 The Win32 mouse state: the position decoded from a message's `lParam`, and
 one flag per button, set and cleared by the button handlers.
 */
module Mouse {

  const WordRange: int := 0x1_0000
  /** `LPARAM` is a pointer-sized signed integer; the word macros read it as unsigned. */
  const ParamRange: int := 0x1_0000_0000_0000_0000

  /** LOWORD: the low 16 bits, read as an unsigned word. */
  function ExtractMouseX(lParam: int): (x: int)
    ensures 0 <= x < WordRange
  {
    (lParam % ParamRange) % WordRange
  }

  /** HIWORD: bits 16 to 31, read as an unsigned word. */
  function ExtractMouseY(lParam: int): (y: int)
    ensures 0 <= y < WordRange
  {
    ((lParam % ParamRange) / WordRange) % WordRange
  }

  /** How Windows packs a client position into `lParam` (MAKELPARAM). */
  function PackPosition(x: int, y: int): int {
    x + WordRange * y
  }

  /** Decoding a packed position gives the position back. */
  lemma DecodePackedPosition(x: int, y: int)
    requires 0 <= x < WordRange && 0 <= y < WordRange
    ensures ExtractMouseX(PackPosition(x, y)) == x
    ensures ExtractMouseY(PackPosition(x, y)) == y
  {
    var l := PackPosition(x, y);
    assert 0 <= l < ParamRange;
    assert l % ParamRange == l;
    assert l / WordRange == y;
  }

  /** Packing the decoded words rebuilds any 32-bit `lParam`. */
  lemma PackDecodedPosition(lParam: int)
    requires 0 <= lParam < WordRange * WordRange
    ensures PackPosition(ExtractMouseX(lParam), ExtractMouseY(lParam)) == lParam
  {
    assert lParam % ParamRange == lParam;
    assert lParam / WordRange < WordRange;
  }

  datatype MouseState = MouseState(x: int, y: int, lButtonDown: bool, rButtonDown: bool, mButtonDown: bool)

  /** Before any message: at the origin, every button up. */
  function InitialMouse(): (m: MouseState)
    ensures GetMouseX(m) == 0 && GetMouseY(m) == 0
    ensures !IsMouseLButtonDown(m) && !IsMouseRButtonDown(m) && !m.mButtonDown
  {
    MouseState(0, 0, false, false, false)
  }

  /** Stores the position carried by `lParam`. */
  function WithPosition(m: MouseState, lParam: int): MouseState {
    m.(x := ExtractMouseX(lParam), y := ExtractMouseY(lParam))
  }

  function MouseMove(m: MouseState, lParam: int): (r: MouseState)
    ensures (r.x, r.y) == (ExtractMouseX(lParam), ExtractMouseY(lParam))
    ensures r.lButtonDown == m.lButtonDown && r.rButtonDown == m.rButtonDown && r.mButtonDown == m.mButtonDown
  {
    WithPosition(m, lParam)
  }

  function LButtonDown(m: MouseState, lParam: int): (r: MouseState)
    ensures r.lButtonDown
    ensures (r.x, r.y) == (ExtractMouseX(lParam), ExtractMouseY(lParam))
    ensures r.rButtonDown == m.rButtonDown && r.mButtonDown == m.mButtonDown
  {
    WithPosition(m.(lButtonDown := true), lParam)
  }

  function LButtonUp(m: MouseState, lParam: int): (r: MouseState)
    ensures !r.lButtonDown
    ensures (r.x, r.y) == (ExtractMouseX(lParam), ExtractMouseY(lParam))
    ensures r.rButtonDown == m.rButtonDown && r.mButtonDown == m.mButtonDown
  {
    WithPosition(m.(lButtonDown := false), lParam)
  }

  function RButtonDown(m: MouseState, lParam: int): (r: MouseState)
    ensures r.rButtonDown
    ensures (r.x, r.y) == (ExtractMouseX(lParam), ExtractMouseY(lParam))
    ensures r.lButtonDown == m.lButtonDown && r.mButtonDown == m.mButtonDown
  {
    WithPosition(m.(rButtonDown := true), lParam)
  }

  function RButtonUp(m: MouseState, lParam: int): (r: MouseState)
    ensures !r.rButtonDown
    ensures (r.x, r.y) == (ExtractMouseX(lParam), ExtractMouseY(lParam))
    ensures r.lButtonDown == m.lButtonDown && r.mButtonDown == m.mButtonDown
  {
    WithPosition(m.(rButtonDown := false), lParam)
  }

  /** Releases every button and keeps the last position. */
  function ClearMouseStates(m: MouseState): (r: MouseState)
    ensures !r.lButtonDown && !r.rButtonDown && !r.mButtonDown
    ensures (r.x, r.y) == (m.x, m.y)
  {
    m.(lButtonDown := false, rButtonDown := false, mButtonDown := false)
  }

  function GetMouseX(m: MouseState): int { m.x }
  function GetMouseY(m: MouseState): int { m.y }
  function IsMouseLButtonDown(m: MouseState): bool { m.lButtonDown }
  function IsMouseRButtonDown(m: MouseState): bool { m.rButtonDown }

  /**
   A click at a packed client position: the left flag ends up, the getters
   report that position, and the right flag is whatever it was before.
   */
  lemma ClickAtPosition(m: MouseState, x: int, y: int)
    requires 0 <= x < WordRange && 0 <= y < WordRange
    ensures var r := LButtonUp(LButtonDown(m, PackPosition(x, y)), PackPosition(x, y));
            !IsMouseLButtonDown(r) && IsMouseRButtonDown(r) == IsMouseRButtonDown(m)
            && GetMouseX(r) == x && GetMouseY(r) == y
  {
    DecodePackedPosition(x, y);
  }
}
