/**
 * The keypad device as it runs: key contexts updated on every poll, held keys in bitmaps
 * (Silicon/Samsung/Exynos7420Pkg/Library/KeypadDeviceImplLib/KeypadDeviceImplLib.c and
 * Silicon/Samsung/Exynos7420Pkg/Include/Library/BitmapLib.h).  Pin levels are parameters.
 */
module KeypadDevice {
  import opened Bits64
  import opened KeySpec

  // ---- bitmaps ----

  const BITS_PER_WORD := 64

  function Mask(bit: nat): bv64 {
    (1 as bv64) << (bit % BITS_PER_WORD)
  }

  predicate Test(word: bv64, bit: nat) {
    !Zero(Field(word, Mask(bit)))
  }

  function Assigned(word: bv64, bit: nat, value: bool): bv64 {
    if value then With(word, Mask(bit)) else Without(word, Mask(bit))
  }

  predicate Disjoint(m: bv64, n: bv64) {
    m & n == 0
  }

  predicate Zero(x: bv64) {
    x == 0
  }

  lemma Masks(bit: nat, other: nat)
    requires bit <= 2 && other <= 2
    ensures !Zero(Mask(bit)) && (bit != other ==> Disjoint(Mask(bit), Mask(other)))
  {
    assert Mask(0) == 1 && Mask(1) == 2 && Mask(2) == 4;
  }

  lemma AssignSame(word: bv64, m: bv64)
    ensures Field(With(word, m), m) == m && Zero(Field(Without(word, m), m))
  {
    FieldOfWith(word, m, m);
    FieldOfWithout(word, m, m);
  }

  lemma AssignOther(word: bv64, m: bv64, n: bv64)
    requires Disjoint(m, n)
    ensures Field(With(word, m), n) == Field(word, n) && Field(Without(word, m), n) == Field(word, n)
  {
    hide With, Without, Field;
    FieldOfWith(word, m, n);
    FieldOfWithout(word, m, n);
  }

  /** Assigning one of the bits 0, 1 and 2 sets that bit and no other one of them. */
  lemma AssignTest(word: bv64, bit: nat, value: bool, other: nat)
    requires bit <= 2 && other <= 2
    ensures Test(Assigned(word, bit, value), other) == if other == bit then value else Test(word, other)
  {
    hide Mask, Field, With, Without, Disjoint, Zero;
    Masks(bit, other);
    if bit == other {
      AssignSame(word, Mask(bit));
    } else {
      AssignOther(word, Mask(bit), Mask(other));
    }
  }

  // ---- contexts ----

  class KeyContext {
    var keyData: Key
    var time: nat
    var state: Phase
    var repeat: bool
    var longpress: bool

    constructor ()
      ensures keyData == Key(0, 0, 0, 0) && Value() == IDLE
    {
      keyData, time, state, repeat, longpress := Key(0, 0, 0, 0), 0, Released, false, false;
    }

    function Value(): Context
      reads this
    {
      Context(time, state, repeat, longpress)
    }

    method Initialize()
      modifies this
      ensures keyData == Key(0, 0, 0, 0) && Value() == IDLE
    {
      keyData := Key(0, 0, 0, 0);
      time := 0;
      state := Released;
      repeat := false;
      longpress := false;
    }
  }

  // ---- the device ----

  class Device {
    const volumeDown: KeyContext
    const volumeUp: KeyContext
    const power: KeyContext
    const bitmapScanCodes: array<bv64>
    const bitmapUnicodeChars: array<bv64>
    /** What has been handed to the return API's PushEfikeyBufTail. */
    var sent: seq<Key>

    ghost predicate Shape()
      reads bitmapScanCodes, bitmapUnicodeChars
    {
      && volumeDown != volumeUp && volumeUp != power && volumeDown != power
      && bitmapScanCodes != bitmapUnicodeChars && bitmapScanCodes.Length == 1 && bitmapUnicodeChars.Length == 2
    }

    ghost predicate Valid()
      reads this, volumeDown, volumeUp, power, bitmapScanCodes, bitmapUnicodeChars
    {
      && Shape()
      && volumeDown.keyData == VOLUME_DOWN && volumeUp.keyData == VOLUME_UP && power.keyData == POWER
    }

    ghost function HeldKeys(): Held
      requires Shape()
      reads this, bitmapScanCodes, bitmapUnicodeChars
    {
      Held(Test(bitmapScanCodes[0], SCAN_DOWN), Test(bitmapScanCodes[0], SCAN_UP), Test(bitmapUnicodeChars[0], 0))
    }

    ghost function Value(): KeySpec.Device
      requires Shape()
      reads this, volumeDown, volumeUp, power, bitmapScanCodes, bitmapUnicodeChars
    {
      KeySpec.Device(volumeDown.Value(), volumeUp.Value(), power.Value(), HeldKeys())
    }

    constructor ()
      ensures Valid() && fresh(volumeDown) && fresh(volumeUp) && fresh(power)
      ensures fresh(bitmapScanCodes) && fresh(bitmapUnicodeChars)
      ensures sent == [] && Value() == KeySpec.Device(IDLE, IDLE, IDLE, Held(false, false, false))
    {
      volumeDown := new KeyContext();
      volumeUp := new KeyContext();
      power := new KeyContext();
      bitmapScanCodes := new bv64[1](i => 0);
      bitmapUnicodeChars := new bv64[2](i => 0);
      sent := [];
      new;
      Reset();
    }

    /** KeypadDeviceImplReset; the bitmaps keep what they hold. */
    method Reset()
      requires Shape()
      modifies volumeDown, volumeUp, power
      ensures Valid() && Value() == KeySpec.Device(IDLE, IDLE, IDLE, old(HeldKeys()))
    {
      volumeDown.Initialize();
      volumeDown.keyData := volumeDown.keyData.(scanCode := SCAN_DOWN);
      volumeUp.Initialize();
      volumeUp.keyData := volumeUp.keyData.(scanCode := SCAN_UP);
      power.Initialize();
      power.keyData := power.keyData.(unicodeChar := CHAR_CARRIAGE_RETURN);
    }

    /** The character bitmap, too, is indexed by the scan code. */
    method KeySetState(key: Key, value: bool)
      requires Valid() && (key == VOLUME_DOWN || key == VOLUME_UP || key == POWER)
      modifies bitmapScanCodes, bitmapUnicodeChars
      ensures Valid()
      ensures HeldKeys() == WithLevel(old(HeldKeys()), key, value)
    {
      hide Test, Assigned, Mask;
      if key.scanCode != 0 && key.scanCode < 0x18 {
        AssignTest(bitmapScanCodes[0], key.scanCode, value, SCAN_DOWN);
        AssignTest(bitmapScanCodes[0], key.scanCode, value, SCAN_UP);
        bitmapScanCodes[key.scanCode / BITS_PER_WORD] := Assigned(bitmapScanCodes[key.scanCode / BITS_PER_WORD], key.scanCode, value);
      }
      if key.unicodeChar != 0 && key.unicodeChar < 0x7F {
        AssignTest(bitmapUnicodeChars[0], 0, value, 0);
        bitmapUnicodeChars[key.scanCode / BITS_PER_WORD] := Assigned(bitmapUnicodeChars[key.scanCode / BITS_PER_WORD], key.scanCode, value);
      }
    }

    method KeyGetState(scanCode: nat, unicodeChar: nat) returns (held: bool)
      requires Shape() && scanCode <= SCAN_DOWN
      ensures held == ((scanCode != 0 ==> Test(bitmapScanCodes[0], scanCode))
                       && (0 < unicodeChar < 0x7F ==> Test(bitmapUnicodeChars[0], scanCode)))
    {
      hide Test;
      if scanCode != 0 && scanCode < 0x18 {
        if !Test(bitmapScanCodes[scanCode / BITS_PER_WORD], scanCode) {
          return false;
        }
      }
      if unicodeChar != 0 && unicodeChar < 0x7F {
        if !Test(bitmapUnicodeChars[scanCode / BITS_PER_WORD], scanCode) {
          return false;
        }
      }
      return true;
    }

    method PushEfikeyBufTail(key: Key)
      modifies this`sent
      ensures sent == old(sent) + [key]
    {
      sent := sent + [key];
    }

    /** The branch of LibKeyUpdateKeyStatus for a pressed key that is still down. */
    method StillDown(context: KeyContext)
      requires Valid() && context in {volumeDown, volumeUp, power}
      modifies context, this`sent
      ensures context.keyData == old(context.keyData)
      ensures forall pressed, delta ::
        var r := Hold(context.keyData, old(context.Value()), InputOf(pressed, delta, HeldKeys()));
        context.Value() == r.0 && sent == old(sent) + r.1
    {
      hide Test, Assigned, Mask;
      if context.repeat && context.time >= REPEAT {
        PushEfikeyBufTail(context.keyData);
        context.time := 0;
        context.repeat := true;
      } else if !context.longpress && context.time >= LONG {
        if context.keyData.unicodeChar == CHAR_CARRIAGE_RETURN {
          var down := KeyGetState(SCAN_DOWN, 0);
          if down {
            PushEfikeyBufTail(POWER_DOWN);
          } else {
            var up := KeyGetState(SCAN_UP, 0);
            if up {
              PushEfikeyBufTail(POWER_UP);
            } else {
              PushEfikeyBufTail(POWER_LONGPRESS);
            }
          }
        } else {
          var combo := KeyGetState(0, CHAR_CARRIAGE_RETURN);
          if !combo {
            PushEfikeyBufTail(context.keyData);
            context.time := 0;
            context.repeat := true;
          }
        }
        context.longpress := true;
      }
    }

    /** The branch for a pressed key that is up. */
    method NowUp(context: KeyContext)
      requires Valid() && context in {volumeDown, volumeUp, power}
      modifies context, this`sent
      ensures context.keyData == old(context.keyData)
      ensures var r := LetGo(context.keyData, old(context.Value())); context.Value() == r.0 && sent == old(sent) + r.1
    {
      if !context.longpress {
        PushEfikeyBufTail(context.keyData);
        context.state := LongpressRelease;
      } else if context.time >= SETTLE {
        context.time := 0;
        context.repeat := false;
        context.longpress := false;
        context.state := Released;
      }
    }

    /** LibKeyUpdateKeyStatus. */
    method UpdateKeyStatus(context: KeyContext, isPressed: bool, delta: nat)
      requires Valid() && context in {volumeDown, volumeUp, power}
      modifies context, bitmapScanCodes, bitmapUnicodeChars, this`sent
      ensures Valid()
      ensures HeldKeys() == WithLevel(old(HeldKeys()), old(context.keyData), isPressed)
      ensures var r := Next(old(context.keyData), old(context.Value()), InputOf(isPressed, delta, HeldKeys()));
        context.Value() == r.0 && sent == old(sent) + r.1
    {
      hide Test, Assigned, Mask, Wrap, Hold, LetGo, WithLevel;
      KeySetState(context.keyData, isPressed);
      context.time := Wrap(context.time + delta);
      match context.state
      case Released =>
        if isPressed {
          context.time := 0;
          context.state := Pressed;
        }
      case Pressed =>
        if isPressed {
          StillDown(context);
        } else {
          NowUp(context);
        }
      case LongpressRelease =>
        context.time := 0;
        context.repeat := false;
        context.longpress := false;
        context.state := Released;
    }

    /** KeypadDeviceImplGetKeys. */
    method GetKeys(p: Poll)
      requires Valid()
      modifies volumeDown, volumeUp, power, bitmapScanCodes, bitmapUnicodeChars, this`sent
      ensures Valid()
      ensures var r := KeySpec.GetKeys(old(Value()), p); Value() == r.0 && sent == old(sent) + r.1
    {
      hide Test, Assigned, Mask, Wrap, Next;
      UpdateKeyStatus(volumeDown, p.down, p.delta);
      UpdateKeyStatus(volumeUp, p.up, p.delta);
      UpdateKeyStatus(power, p.power, p.delta);
    }
  }
}
