/**
 * The timed state machine of one key, and the three keys of the device
 * (Silicon/Samsung/Exynos7420Pkg/Library/KeypadDeviceImplLib/KeypadDeviceImplLib.c).
 */
module KeySpec {
  // ---- keys ----

  /** EFI_KEY_DATA: scan code, character, shift state and toggle state. */
  datatype Key = Key(scanCode: nat, unicodeChar: nat, shiftState: nat, toggleState: nat)

  const SCAN_UP := 1
  const SCAN_DOWN := 2
  const CHAR_CARRIAGE_RETURN := 0x0D
  const VOLUME_DOWN := Key(SCAN_DOWN, 0, 0, 0)
  const VOLUME_UP := Key(SCAN_UP, 0, 0, 0)
  const POWER := Key(0, CHAR_CARRIAGE_RETURN, 0, 0)
  const POWER_DOWN := Key(0, 0x73, 0, 0) // 's'
  const POWER_UP := Key(0, 0x65, 0, 0) // 'e'
  const POWER_LONGPRESS := Key(0, 0x20, 0, 0)

  // ---- time, in nanoseconds ----

  const LONG := 500_000_000
  const REPEAT := 200_000_000
  const SETTLE := 10_000_000

  /** The counter is a UINT64. */
  function Wrap(t: nat): (w: nat)
    ensures w <= t
  {
    t % 0x1_0000_0000_0000_0000
  }

  // ---- one key ----

  datatype Phase = Released | Pressed | LongpressRelease

  datatype Context = Context(time: nat, phase: Phase, repeat: bool, longpress: bool)

  const IDLE := Context(0, Released, false, false)

  /** What one poll shows of a key: its own level, the time passed, and the keys that KeyGetState sees as held. */
  datatype Input = Input(pressed: bool, delta: nat, down: bool, up: bool, power: bool)

  /** What a long press of the power key reports. */
  function Combo(i: Input): Key {
    if i.down then POWER_DOWN else if i.up then POWER_UP else POWER_LONGPRESS
  }

  /** A pressed key that is still down; its time has been advanced. */
  function Hold(key: Key, c: Context, i: Input): (Context, seq<Key>) {
    if c.repeat && c.time >= REPEAT then (c.(time := 0), [key])
    else if !c.longpress && c.time >= LONG then
      if key.unicodeChar == CHAR_CARRIAGE_RETURN then (c.(longpress := true), [Combo(i)])
      else if !i.power then (c.(time := 0, repeat := true, longpress := true), [key])
      else (c.(longpress := true), [])
    else (c, [])
  }

  /** A pressed key that is up. */
  function LetGo(key: Key, c: Context): (Context, seq<Key>) {
    if !c.longpress then (c.(phase := LongpressRelease), [key])
    else if c.time >= SETTLE then (IDLE, [])
    else (c, [])
  }

  /** LibKeyUpdateKeyStatus: the next context and the events reported. */
  function Next(key: Key, c: Context, i: Input): (Context, seq<Key>) {
    var c' := c.(time := Wrap(c.time + i.delta));
    match c.phase
    case Released => if i.pressed then (c'.(time := 0, phase := Pressed), []) else (c', [])
    case Pressed => if i.pressed then Hold(key, c', i) else LetGo(key, c')
    case LongpressRelease => (IDLE, [])
  }

  // ---- the device ----

  /** One call of KeypadDeviceImplGetKeys: the time passed and the levels of the three pins. */
  datatype Poll = Poll(delta: nat, down: bool, up: bool, power: bool)

  /** The keys' levels as the bitmaps remember them. */
  datatype Held = Held(down: bool, up: bool, power: bool)

  /** KeySetState, for one of the three keys. */
  function WithLevel(h: Held, key: Key, value: bool): Held {
    if key == VOLUME_DOWN then h.(down := value) else if key == VOLUME_UP then h.(up := value) else h.(power := value)
  }

  datatype Device = Device(down: Context, up: Context, power: Context, held: Held)

  function InputOf(pressed: bool, delta: nat, h: Held): Input {
    Input(pressed, delta, h.down, h.up, h.power)
  }

  /** The loop over volume down, volume up and power. */
  function GetKeys(d: Device, p: Poll): (Device, seq<Key>) {
    var h1 := WithLevel(d.held, VOLUME_DOWN, p.down);
    var (down, e1) := Next(VOLUME_DOWN, d.down, InputOf(p.down, p.delta, h1));
    var h2 := WithLevel(h1, VOLUME_UP, p.up);
    var (up, e2) := Next(VOLUME_UP, d.up, InputOf(p.up, p.delta, h2));
    var h3 := WithLevel(h2, POWER, p.power);
    var (power, e3) := Next(POWER, d.power, InputOf(p.power, p.delta, h3));
    (Device(down, up, power, h3), e1 + e2 + e3)
  }
}
