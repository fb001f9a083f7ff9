/**
 * One 16-byte APG record (ControlWord.kt).
 *
 * The layout is described twice: by pure functions over the record's bytes (`seq<bv8>`), which the
 * lemmas below reason about, and by the class `ControlWord`, which owns a 16-byte array and whose
 * methods change it in place as the Kotlin property setters do. Every method's contract ties the
 * array to the pure functions.
 *
 * Byte layout: 0-1, 2-3, 4-5, 6-7 the four joystick axes (little-endian, +2048 bias); 9 and 11
 * the linear triggers; 12 and 13 two button bit sets; 14 the D-pad code in its low nibble;
 * 15 the terminator 0x02. A padding record is sixteen 0xFF bytes.
 */
module ControlWords {
  import opened Outcomes
  import opened Bytes
  import opened EndianUtils
  import opened DPads
  import opened Streams

  const SIZE_BYTES: nat := 16

  const ZL_LINEAR_OFFSET: nat := 9
  const ZR_LINEAR_OFFSET: nat := 11
  const BUTTON_P1_OFFSET: nat := 12
  const BUTTON_P2_OFFSET: nat := 13
  const D_PAD_OFFSET: nat := 14
  const D_PAD_MASK: bv8 := 0x0F
  const END_OFFSET: nat := 15
  const END_BYTE: bv8 := 0x02
  const PADDING_BYTE: bv8 := 0xFF

  /** A fresh `ControlWord`: `ByteArray(16)` is all zeros. */
  const ZERO_WORD: seq<bv8> :=
    [0x00, 0x00, 0x00, 0x00, 0x00, 0x00, 0x00, 0x00, 0x00, 0x00, 0x00, 0x00, 0x00, 0x00, 0x00, 0x00]

  /** The record `setPadding(true)` leaves. */
  const PADDING_WORD: seq<bv8> :=
    [0xFF, 0xFF, 0xFF, 0xFF, 0xFF, 0xFF, 0xFF, 0xFF, 0xFF, 0xFF, 0xFF, 0xFF, 0xFF, 0xFF, 0xFF, 0xFF]

  /** The record `setPadding(false)` leaves: terminator set, joysticks centred at 0x0800. */
  const RESET_WORD: seq<bv8> :=
    [0x00, 0x08, 0x00, 0x08, 0x00, 0x08, 0x00, 0x08, 0x00, 0x00, 0x00, 0x00, 0x00, 0x00, 0x00, END_BYTE]

  datatype JoystickAxis =
    | LeftJoystickHorizontal | LeftJoystickVertical | RightJoystickHorizontal | RightJoystickVertical

  function AxisOffset(a: JoystickAxis): nat
  {
    match a
    case LeftJoystickHorizontal => 0
    case LeftJoystickVertical => 2
    case RightJoystickHorizontal => 4
    case RightJoystickVertical => 6
  }

  datatype LinearTrigger = ZL | ZR

  function TriggerOffset(t: LinearTrigger): nat
  {
    match t
    case ZL => ZL_LINEAR_OFFSET
    case ZR => ZR_LINEAR_OFFSET
  }

  datatype Button =
    | ShoulderL | ShoulderR | ShoulderZL | ShoulderZR | ButtonA | ButtonB | ButtonY | ButtonX
    | ButtonHome | ButtonScreenshot | ButtonLeftJoystick | ButtonRightJoystick | ButtonMinus | ButtonPlus

  function ButtonOffset(b: Button): nat
  {
    match b
    case ShoulderL | ShoulderR | ShoulderZL | ShoulderZR | ButtonA | ButtonB | ButtonY | ButtonX =>
      BUTTON_P1_OFFSET
    case ButtonHome | ButtonScreenshot | ButtonLeftJoystick | ButtonRightJoystick | ButtonMinus | ButtonPlus =>
      BUTTON_P2_OFFSET
  }

  function ButtonMask(b: Button): bv8
  {
    match b
    case ShoulderL => 0x10
    case ShoulderR => 0x20
    case ShoulderZL => 0x40
    case ShoulderZR => 0x80
    case ButtonA => 0x01
    case ButtonB => 0x02
    case ButtonY => 0x04
    case ButtonX => 0x08
    case ButtonHome => 0x10
    case ButtonScreenshot => 0x20
    case ButtonLeftJoystick => 0x01
    case ButtonRightJoystick => 0x02
    case ButtonMinus => 0x04
    case ButtonPlus => 0x08
  }

  predicate IsWord(s: seq<bv8>)
  {
    |s| == SIZE_BYTES
  }

  // ---------------------------------------------------------------------------------------------
  // The private map* helpers, over the record's bytes.

  /** mapJoystickRead: the little-endian value at `offset`, minus the 2048 bias. */
  function JoystickRead(s: seq<bv8>, offset: nat): (v: int)
    requires offset + 1 < |s|
    ensures -2048 <= v < 0x1_0000 - 2048
  {
    UShortLE(s, offset) as int - 2048
  }

  /**
   * mapJoystickWrite: rejects a value outside -2048..2047 before touching any byte, otherwise
   * stores `value + 2048` little-endian at `offset` and `offset + 1`.
   */
  function JoystickWrite(s: seq<bv8>, value: int, offset: nat): (r: Result<seq<bv8>>)
    requires offset + 1 < |s|
    ensures r.Ok? <==> -2048 <= value <= 2047
    ensures r.Err? ==> r.error == RangeError
    ensures r.Ok? ==> |r.value| == |s| && JoystickRead(r.value, offset) == value
    ensures r.Ok? ==> r.value[offset] as int + 256 * r.value[offset + 1] as int == value + 2048
    ensures r.Ok? ==> forall j | 0 <= j < |s| && j != offset && j != offset + 1 :: r.value[j] == s[j]
  {
    if -2048 <= value <= 2047 then Ok(WithUShortLE(s, (value + 2048) as UShort, offset))
    else Err(RangeError)
  }

  /** mapTriggerLinearRead: the byte at `offset` taken unsigned. */
  function TriggerLinearRead(s: seq<bv8>, offset: nat): (v: int)
    requires offset < |s|
    ensures 0 <= v <= 255
  {
    s[offset] as int
  }

  /**
   * mapTriggerLinearWrite: rejects a value outside 0..255, otherwise stores it as the byte at
   * `offset`. Defined in the source but called by no setter.
   */
  function TriggerLinearWrite(s: seq<bv8>, value: int, offset: nat): (r: Result<seq<bv8>>)
    requires offset < |s|
    ensures r.Ok? <==> 0 <= value <= 255
    ensures r.Err? ==> r.error == RangeError
  {
    if 0 <= value <= 255 then Ok(s[offset := ToByte(value)])
    else Err(RangeError)
  }

  /** mapButtonRead: whether any bit of `mask` is set in the byte at `offset`. */
  function ButtonRead(s: seq<bv8>, offset: nat, mask: bv8): bool
    requires offset < |s|
  {
    s[offset] & mask != 0
  }

  /** mapButtonWrite: sets (OR) or clears (AND NOT) the bits of `mask` in the byte at `offset`. */
  function ButtonWrite(s: seq<bv8>, offset: nat, mask: bv8, value: bool): (r: seq<bv8>)
    requires offset < |s|
    requires mask != 0
    ensures |r| == |s|
    ensures ButtonRead(r, offset, mask) == value
    ensures forall j | 0 <= j < |s| && j != offset :: r[j] == s[j]
  {
    SetClearMask(s[offset], mask);
    s[offset := if value then s[offset] | mask else s[offset] & !mask]
  }

  // ---------------------------------------------------------------------------------------------
  // The public properties, over the record's bytes.

  function AxisValue(s: seq<bv8>, a: JoystickAxis): int
    requires IsWord(s)
  {
    JoystickRead(s, AxisOffset(a))
  }

  function WithAxis(s: seq<bv8>, a: JoystickAxis, value: int): Result<seq<bv8>>
    requires IsWord(s)
  {
    JoystickWrite(s, value, AxisOffset(a))
  }

  function TriggerValue(s: seq<bv8>, t: LinearTrigger): int
    requires IsWord(s)
  {
    TriggerLinearRead(s, TriggerOffset(t))
  }

  /** The `zlLinear`/`zrLinear` setters: as written, they go through mapJoystickWrite. */
  function WithTrigger(s: seq<bv8>, t: LinearTrigger, value: int): Result<seq<bv8>>
    requires IsWord(s)
  {
    JoystickWrite(s, value, TriggerOffset(t))
  }

  function Pressed(s: seq<bv8>, b: Button): bool
    requires IsWord(s)
  {
    ButtonRead(s, ButtonOffset(b), ButtonMask(b))
  }

  function WithButton(s: seq<bv8>, b: Button, pressed: bool): seq<bv8>
    requires IsWord(s)
  {
    ButtonWrite(s, ButtonOffset(b), ButtonMask(b), pressed)
  }

  /** The low nibble of byte 14, as the getter compares it with the enum's codes. */
  function DPadNibble(s: seq<bv8>): (c: int)
    requires IsWord(s)
    ensures 0 <= c < 16
  {
    (s[D_PAD_OFFSET] & D_PAD_MASK) as int
  }

  /** The `dPad` getter; `None` is the NoSuchElementException thrown for a nibble in 9..14. */
  function Direction(s: seq<bv8>): Option<DPad>
    requires IsWord(s)
  {
    Decode(DPadNibble(s))
  }

  /** The `dPad` setter: assigns the whole of byte 14, so its high nibble is cleared. */
  function WithDirection(s: seq<bv8>, d: DPad): seq<bv8>
    requires IsWord(s)
  {
    s[D_PAD_OFFSET := ToByte(Code(d)) & D_PAD_MASK]
  }

  /** `isPadding()`: every byte is 0xFF. */
  predicate IsPaddingWord(s: seq<bv8>)
  {
    forall i | 0 <= i < |s| :: s[i] == PADDING_BYTE
  }

  /**
   * `readFrom` into a buffer holding `buf` from a stream whose unread bytes are `src`: the first
   * min(16, |src|) bytes of the buffer are replaced; the call succeeds only if all 16 were.
   */
  function ReadInto(buf: seq<bv8>, src: seq<bv8>): (r: Result<seq<bv8>>)
    requires IsWord(buf)
  {
    if |src| >= SIZE_BYTES then Ok(src[..SIZE_BYTES]) else Err(FormatError)
  }

  /** What the buffer holds after `readFrom`, whether or not it succeeded. */
  function BufferAfterRead(buf: seq<bv8>, src: seq<bv8>): (r: seq<bv8>)
    requires IsWord(buf)
    ensures IsWord(r)
    ensures forall j | 0 <= j < SIZE_BYTES :: r[j] == (if j < |src| then src[j] else buf[j])
  {
    src[..Min(SIZE_BYTES, |src|)] + buf[Min(SIZE_BYTES, |src|)..]
  }

  // ---------------------------------------------------------------------------------------------
  // The operations a `setControlWord` block performs, in order.

  datatype FieldUpdate =
    | JoystickTo(axis: JoystickAxis, value: int)
    | TriggerTo(trigger: LinearTrigger, value: int)
    | ButtonTo(button: Button, pressed: bool)
    | DPadTo(direction: DPad)
    | PaddingTo(padding: bool)

  /** The outcome of a sequence of updates and the bytes it leaves. */
  datatype Applied = Applied(outcome: Outcome, bytes: seq<bv8>)

  /** A setter's effect: the new bytes when it succeeds, the old bytes and its error otherwise. */
  function Commit(s: seq<bv8>, r: Result<seq<bv8>>): Applied
  {
    match r
    case Ok(t) => Applied(Pass, t)
    case Err(e) => Applied(Fail(e), s)
  }

  function ApplyUpdate(s: seq<bv8>, u: FieldUpdate): (r: Result<seq<bv8>>)
    requires IsWord(s)
    ensures r.Ok? ==> IsWord(r.value)
  {
    match u
    case JoystickTo(a, v) => WithAxis(s, a, v)
    case TriggerTo(t, v) => WithTrigger(s, t, v)
    case ButtonTo(b, p) => Ok(WithButton(s, b, p))
    case DPadTo(d) => Ok(WithDirection(s, d))
    case PaddingTo(p) => Ok(if p then PADDING_WORD else RESET_WORD)
  }

  /**
   * Running a block: updates apply left to right; the first one that throws ends the block,
   * and the record keeps every update made before it.
   */
  function ApplyUpdates(s: seq<bv8>, us: seq<FieldUpdate>): (r: Applied)
    requires IsWord(s)
    ensures IsWord(r.bytes)
    ensures r.outcome.Fail? ==> r.outcome.error == RangeError
    decreases |us|
  {
    if us == [] then Applied(Pass, s)
    else
      var r0 := ApplyUpdate(s, us[0]);
      if r0.Ok? then ApplyUpdates(r0.value, us[1..]) else Applied(Fail(r0.error), s)
  }

  /**
   * A block split in two runs as its first part followed, only if that part passed, by its
   * second part on the bytes the first left.
   */
  lemma {:induction false} ApplyUpdatesConcat(s: seq<bv8>, us: seq<FieldUpdate>, vs: seq<FieldUpdate>)
    requires IsWord(s)
    ensures ApplyUpdates(s, us + vs) ==
      var a := ApplyUpdates(s, us);
      if a.outcome.Pass? then ApplyUpdates(a.bytes, vs) else a
    decreases |us|
  {
    if us == [] {
      assert us + vs == vs;
    } else {
      assert (us + vs)[0] == us[0];
      assert (us + vs)[1..] == us[1..] + vs;
      var r0 := ApplyUpdate(s, us[0]);
      if r0.Ok? {
        ApplyUpdatesConcat(r0.value, us[1..], vs);
      }
    }
  }

  // ---------------------------------------------------------------------------------------------
  // Properties of the layout.

  /** Setting an axis in range reads it back and leaves every other axis as it was. */
  lemma JoystickRoundTrip(s: seq<bv8>, a: JoystickAxis, value: int)
    requires IsWord(s)
    requires -2048 <= value <= 2047
    ensures WithAxis(s, a, value).Ok?
    ensures AxisValue(WithAxis(s, a, value).value, a) == value
    ensures forall b | b != a :: AxisValue(WithAxis(s, a, value).value, b) == AxisValue(s, b)
  {
    var t := WithAxis(s, a, value).value;
    forall b | b != a
      ensures AxisValue(t, b) == AxisValue(s, b)
    {
      var o := AxisOffset(b);
      assert t[o] == s[o] && t[o + 1] == s[o + 1];
    }
  }

  /** Button setters: the read-back is the value set, and no other button changes. */
  lemma ButtonRoundTrip(s: seq<bv8>, b: Button, pressed: bool)
    requires IsWord(s)
    ensures Pressed(WithButton(s, b, pressed), b) == pressed
    ensures forall c | c != b :: Pressed(WithButton(s, b, pressed), c) == Pressed(s, c)
  {
    forall c | c != b
      ensures Pressed(WithButton(s, b, pressed), c) == Pressed(s, c)
    {
      ButtonFrame(s, b, pressed, c);
    }
  }

  /** Writing button `b` leaves the bit of every other button `c` as it was. */
  lemma ButtonFrame(s: seq<bv8>, b: Button, pressed: bool, c: Button)
    requires IsWord(s) && c != b
    ensures Pressed(WithButton(s, b, pressed), c) == Pressed(s, c)
  {
    if ButtonOffset(c) == ButtonOffset(b) {
      ButtonMasksDisjoint(b, c);
      MaskWriteKeeps(s, ButtonOffset(b), ButtonMask(b), pressed, ButtonMask(c));
    } else {
      assert WithButton(s, b, pressed)[ButtonOffset(c)] == s[ButtonOffset(c)];
    }
  }

  /** A mask write at `o` leaves the bits of a disjoint mask `n` in that byte as they were. */
  lemma MaskWriteKeeps(s: seq<bv8>, o: nat, m: bv8, value: bool, n: bv8)
    requires o < |s| && m != 0 && n & m == 0
    ensures ButtonRead(ButtonWrite(s, o, m, value), o, n) == ButtonRead(s, o, n)
  {
    SetClearKeeps(s[o], m, n);
  }

  /** Each button owns one bit, and two buttons in the same byte own different bits. */
  lemma ButtonMasksDisjoint(b: Button, c: Button)
    requires b != c && ButtonOffset(b) == ButtonOffset(c)
    ensures ButtonMask(b) & ButtonMask(c) == 0
  {
    assert ButtonMask(b) != ButtonMask(c);
    SingleBitsDisjoint(ButtonMask(b), ButtonMask(c));
  }

  predicate IsSingleBit(x: bv8)
  {
    x == 0x01 || x == 0x02 || x == 0x04 || x == 0x08 || x == 0x10 || x == 0x20 || x == 0x40 || x == 0x80
  }

  /** Two different one-bit masks share no bit. */
  lemma SingleBitsDisjoint(x: bv8, y: bv8)
    requires IsSingleBit(x) && IsSingleBit(y) && x != y
    ensures x & y == 0
  {
  }

  /** The `dPad` setter round-trips, writes only byte 14, and leaves its high nibble zero. */
  lemma DPadRoundTrip(s: seq<bv8>, d: DPad)
    requires IsWord(s)
    ensures Direction(WithDirection(s, d)) == Some(d)
    ensures WithDirection(s, d)[D_PAD_OFFSET] & 0xF0 == 0
    ensures forall j | 0 <= j < SIZE_BYTES && j != D_PAD_OFFSET :: WithDirection(s, d)[j] == s[j]
  {
    CodeFitsNibble(d);
    var t := WithDirection(s, d);
    assert t[D_PAD_OFFSET] == ToByte(Code(d));
    assert DPadNibble(t) == Code(d);
    DecodeCode(d);
  }

  /** The `dPad` getter fails exactly when the low nibble of byte 14 is 9..14. */
  lemma DPadUndefinedNibbles(s: seq<bv8>)
    requires IsWord(s)
    ensures Direction(s).None? <==> 9 <= DPadNibble(s) <= 14
    ensures Direction(s).Some? ==> Code(Direction(s).value) == DPadNibble(s)
  {
    DecodeDefined(DPadNibble(s));
  }

  /** A D-pad write followed by a button write keeps the direction (the RIGHT-then-L case). */
  lemma ButtonKeepsDirection(s: seq<bv8>, d: DPad, b: Button, pressed: bool)
    requires IsWord(s)
    ensures Direction(WithButton(WithDirection(s, d), b, pressed)) == Some(d)
    ensures Pressed(WithButton(WithDirection(s, d), b, pressed), b) == pressed
  {
    DPadRoundTrip(s, d);
    var t := WithDirection(s, d);
    assert WithButton(t, b, pressed)[D_PAD_OFFSET] == t[D_PAD_OFFSET];
  }

  /** `setPadding(true)` leaves a word `isPadding()` accepts and whose D-pad reads PADDING. */
  lemma PaddingWordFields()
    ensures IsWord(PADDING_WORD) && IsPaddingWord(PADDING_WORD)
    ensures Direction(PADDING_WORD) == Some(Padding)
  {
    assert PADDING_WORD[D_PAD_OFFSET] & D_PAD_MASK == 0x0F;
    DecodeCode(Padding);
  }

  /** An active word (terminator 0x02) is never taken for padding. */
  lemma ActiveIsNotPadding(s: seq<bv8>)
    requires IsWord(s)
    requires s[END_OFFSET] == END_BYTE
    ensures !IsPaddingWord(s)
  {
  }

  /** `setPadding(false)`: terminator set, not padding, every field neutral. */
  lemma ResetWordFields()
    ensures IsWord(RESET_WORD) && RESET_WORD[END_OFFSET] == END_BYTE && !IsPaddingWord(RESET_WORD)
    ensures forall a :: AxisValue(RESET_WORD, a) == 0
    ensures forall t :: TriggerValue(RESET_WORD, t) == 0
    ensures forall b :: !Pressed(RESET_WORD, b)
    ensures Direction(RESET_WORD) == Some(NotPressed)
  {
    ActiveIsNotPadding(RESET_WORD);
    forall a
      ensures AxisValue(RESET_WORD, a) == 0
    {
      var o := AxisOffset(a);
      assert RESET_WORD[o] == 0x00 && RESET_WORD[o + 1] == 0x08;
    }
    assert DPadNibble(RESET_WORD) == 0;
    DecodeCode(NotPressed);
  }

  /** A freshly constructed word is all zeros: no terminator, not padding, joysticks at -2048. */
  lemma ZeroWordFields()
    ensures IsWord(ZERO_WORD) && ZERO_WORD[END_OFFSET] != END_BYTE && !IsPaddingWord(ZERO_WORD)
    ensures forall a :: AxisValue(ZERO_WORD, a) == -2048
    ensures Direction(ZERO_WORD) == Some(NotPressed)
  {
    assert ZERO_WORD[0] != PADDING_BYTE;
    assert DPadNibble(ZERO_WORD) == 0;
    DecodeCode(NotPressed);
  }

  /**
   * `zlLinear`/`zrLinear`, as written: any value in -2048..2047 is accepted; one in 0..255 reads
   * back, and the byte after the trigger's is set to 0x08.
   */
  lemma TriggerRoundTrip(s: seq<bv8>, t: LinearTrigger, value: int)
    requires IsWord(s)
    ensures WithTrigger(s, t, value).Ok? <==> -2048 <= value <= 2047
    ensures 0 <= value <= 255 ==>
      && TriggerValue(WithTrigger(s, t, value).value, t) == value
      && WithTrigger(s, t, value).value[TriggerOffset(t) + 1] == 0x08
  {
    if 0 <= value <= 255 {
      var o := TriggerOffset(t);
      var r := WithTrigger(s, t, value).value;
      PairAbove2048(r[o], r[o + 1], value);
    }
  }

  /**
   * Setting `zrLinear` to a value in 0..255 overwrites the first button byte with 0x08: button X
   * reads pressed and every other face and shoulder button reads released.
   */
  lemma ZrLinearOverwritesButtons(s: seq<bv8>, value: int)
    requires IsWord(s)
    requires 0 <= value <= 255
    ensures WithTrigger(s, ZR, value).Ok?
    ensures Pressed(WithTrigger(s, ZR, value).value, ButtonX)
    ensures forall b | ButtonOffset(b) == BUTTON_P1_OFFSET && b != ButtonX ::
      !Pressed(WithTrigger(s, ZR, value).value, b)
  {
    TriggerRoundTrip(s, ZR, value);
  }

  /** Pressing A and then setting `zrLinear` to 0 on a reset word releases A. */
  lemma ZrLinearReleasesButtonA()
    ensures var pressed := WithButton(RESET_WORD, ButtonA, true);
      && Pressed(pressed, ButtonA)
      && WithTrigger(pressed, ZR, 0).Ok?
      && !Pressed(WithTrigger(pressed, ZR, 0).value, ButtonA)
  {
    var pressed := WithButton(RESET_WORD, ButtonA, true);
    ZrLinearOverwritesButtons(pressed, 0);
  }

  /**
   * The trigger write the doc comments describe (mapTriggerLinearWrite): a value in 0..255 reads
   * back and no other byte changes.
   */
  lemma TriggerLinearRoundTrip(s: seq<bv8>, t: LinearTrigger, value: int)
    requires IsWord(s)
    requires 0 <= value <= 255
    ensures TriggerLinearWrite(s, value, TriggerOffset(t)).Ok?
    ensures TriggerValue(TriggerLinearWrite(s, value, TriggerOffset(t)).value, t) == value
    ensures forall j | 0 <= j < SIZE_BYTES && j != TriggerOffset(t) ::
      TriggerLinearWrite(s, value, TriggerOffset(t)).value[j] == s[j]
  {
  }

  /** Centring a joystick (value 0) stores the bytes 0x00, 0x08 at its offset. */
  lemma CentreBytes(s: seq<bv8>, offset: nat)
    requires offset + 1 < |s|
    ensures JoystickWrite(s, 0, offset) == Ok(s[offset := 0x00][offset + 1 := 0x08])
  {
    var r := JoystickWrite(s, 0, offset).value;
    PairAbove2048(r[offset], r[offset + 1], 0);
    ByteInjective(r[offset], 0x00);
  }

  /** Centring the four joysticks of a cleared record (zeros, terminator) gives RESET_WORD. */
  lemma CentredClearedWord(s: seq<bv8>)
    requires IsWord(s)
    requires forall j | 0 <= j < SIZE_BYTES :: s[j] == if j != END_OFFSET then 0x00 else END_BYTE
    ensures s[0 := 0x00][1 := 0x08][2 := 0x00][3 := 0x08][4 := 0x00][5 := 0x08][6 := 0x00][7 := 0x08]
      == RESET_WORD
  {
  }

  /** A record written to a stream and read back from that point is restored. */
  lemma ReadAfterWrite(written: seq<bv8>, w: seq<bv8>, later: seq<bv8>, buf: seq<bv8>)
    requires IsWord(w) && IsWord(buf)
    ensures ReadInto(buf, (written + w + later)[|written|..]) == Ok(w)
  {
    assert (written + w + later)[|written|..][..SIZE_BYTES] == w;
  }

  /** A read succeeds exactly when 16 bytes remain, and then the buffer is those bytes. */
  lemma ReadIntoCases(buf: seq<bv8>, src: seq<bv8>)
    requires IsWord(buf)
    ensures ReadInto(buf, src).Ok? <==> |src| >= SIZE_BYTES
    ensures ReadInto(buf, src).Ok? ==> ReadInto(buf, src).value == src[..SIZE_BYTES]
    ensures ReadInto(buf, src).Ok? ==> BufferAfterRead(buf, src) == src[..SIZE_BYTES]
  {
  }

  // ---------------------------------------------------------------------------------------------

  class ControlWord {
    /** `private val buffer = ByteArray(SIZE_BYTES)` */
    const buffer: array<bv8>

    ghost predicate Valid()
    {
      buffer.Length == SIZE_BYTES
    }

    constructor ()
      ensures Valid() && fresh(buffer)
      ensures buffer[..] == ZERO_WORD
    {
      buffer := new bv8[SIZE_BYTES](_ => 0x00);
    }

    method MapJoystickRead(offset: nat) returns (v: int)
      requires Valid() && offset + 1 < SIZE_BYTES
      ensures v == JoystickRead(buffer[..], offset)
    {
      var raw := ReadUShortLE(buffer, offset);
      v := raw as int - 2048;
    }

    method MapJoystickWrite(value: int, offset: nat) returns (r: Outcome)
      requires Valid() && offset + 1 < SIZE_BYTES
      modifies buffer
      ensures Applied(r, buffer[..]) == Commit(old(buffer[..]), JoystickWrite(old(buffer[..]), value, offset))
    {
      if !(-2048 <= value <= 2047) {
        return Fail(RangeError);
      }
      WriteUShortLE(buffer, (value + 2048) as UShort, offset);
      r := Pass;
    }

    method MapTriggerLinearRead(offset: nat) returns (v: int)
      requires Valid() && offset < SIZE_BYTES
      ensures v == TriggerLinearRead(buffer[..], offset)
    {
      v := buffer[offset] as int;
    }

    /** The trigger write no setter calls: checks 0..255 first, then stores one byte. */
    method MapTriggerLinearWrite(value: int, offset: nat) returns (r: Outcome)
      requires Valid() && offset < SIZE_BYTES
      modifies buffer
      ensures Applied(r, buffer[..]) == Commit(old(buffer[..]), TriggerLinearWrite(old(buffer[..]), value, offset))
    {
      if !(0 <= value <= 255) {
        return Fail(RangeError);
      }
      buffer[offset] := ToByte(value);
      r := Pass;
    }

    method MapButtonRead(offset: nat, mask: bv8) returns (pressed: bool)
      requires Valid() && offset < SIZE_BYTES
      ensures pressed == ButtonRead(buffer[..], offset, mask)
    {
      pressed := buffer[offset] & mask != 0;
    }

    method MapButtonWrite(offset: nat, mask: bv8, value: bool)
      requires Valid() && offset < SIZE_BYTES && mask != 0
      modifies buffer
      ensures buffer[..] == ButtonWrite(old(buffer[..]), offset, mask, value)
    {
      var v := if value then buffer[offset] | mask else buffer[offset] & !mask;
      buffer[offset] := v;
    }

    /** The getters of the four joystick properties. */
    method GetJoystick(a: JoystickAxis) returns (v: int)
      requires Valid()
      ensures v == AxisValue(buffer[..], a)
    {
      v := MapJoystickRead(AxisOffset(a));
    }

    /** The setters of the four joystick properties. */
    method SetJoystick(a: JoystickAxis, value: int) returns (r: Outcome)
      requires Valid()
      modifies buffer
      ensures Applied(r, buffer[..]) == Commit(old(buffer[..]), WithAxis(old(buffer[..]), a, value))
    {
      r := MapJoystickWrite(value, AxisOffset(a));
    }

    /** The getters of `zlLinear` and `zrLinear`. */
    method GetTrigger(t: LinearTrigger) returns (v: int)
      requires Valid()
      ensures v == TriggerValue(buffer[..], t)
    {
      v := MapTriggerLinearRead(TriggerOffset(t));
    }

    /** The setters of `zlLinear` and `zrLinear`, which call mapJoystickWrite. */
    method SetTrigger(t: LinearTrigger, value: int) returns (r: Outcome)
      requires Valid()
      modifies buffer
      ensures Applied(r, buffer[..]) == Commit(old(buffer[..]), WithTrigger(old(buffer[..]), t, value))
    {
      r := MapJoystickWrite(value, TriggerOffset(t));
    }

    /** The getters of the fourteen button properties. */
    method GetButton(b: Button) returns (pressed: bool)
      requires Valid()
      ensures pressed == Pressed(buffer[..], b)
    {
      pressed := MapButtonRead(ButtonOffset(b), ButtonMask(b));
    }

    /** The setters of the fourteen button properties. */
    method SetButton(b: Button, pressed: bool)
      requires Valid()
      modifies buffer
      ensures buffer[..] == WithButton(old(buffer[..]), b, pressed)
    {
      MapButtonWrite(ButtonOffset(b), ButtonMask(b), pressed);
    }

    /** The `dPad` getter: the first enum entry whose code is the low nibble of byte 14. */
    method GetDPad() returns (r: Option<DPad>)
      requires Valid()
      ensures r == Direction(buffer[..])
    {
      var nibble := buffer[D_PAD_OFFSET] & D_PAD_MASK;
      var c := nibble as int;
      var i := 0;
      while i < |VALUES|
        invariant 0 <= i <= |VALUES|
        invariant forall k | 0 <= k < i :: Code(VALUES[k]) != c
      {
        if Code(VALUES[i]) == c {
          FirstWithCodeAt(VALUES, c, i);
          return Some(VALUES[i]);
        }
        i := i + 1;
      }
      FirstWithCodeNone(VALUES, c);
      r := None;
    }

    /** The `dPad` setter. */
    method SetDPad(d: DPad)
      requires Valid()
      modifies buffer
      ensures buffer[..] == WithDirection(old(buffer[..]), d)
    {
      buffer[D_PAD_OFFSET] := ToByte(Code(d)) & D_PAD_MASK;
    }

    /** `setPadding`: all 0xFF, or zeros with the terminator and the joysticks centred. */
    method SetPadding(isPadding: bool)
      requires Valid()
      modifies buffer
      ensures buffer[..] == if isPadding then PADDING_WORD else RESET_WORD
    {
      if isPadding {
        for i := 0 to buffer.Length
          invariant forall j | 0 <= j < i :: buffer[j] == PADDING_BYTE
        {
          buffer[i] := PADDING_BYTE;
        }
        assert buffer[..] == PADDING_WORD;
      } else {
        for i := 0 to buffer.Length
          invariant forall j | 0 <= j < i :: buffer[j] == if j != END_OFFSET then 0x00 else END_BYTE
        {
          buffer[i] := if i != END_OFFSET then 0x00 else END_BYTE;
        }
        ghost var s0 := buffer[..];
        CentreJoystick(LeftJoystickHorizontal);
        CentreJoystick(LeftJoystickVertical);
        CentreJoystick(RightJoystickHorizontal);
        CentreJoystick(RightJoystickVertical);
        CentredClearedWord(s0);
      }
    }

    /** Setting joystick `a` to 0 within `setPadding`: its two bytes become 0x00, 0x08. */
    method CentreJoystick(a: JoystickAxis)
      requires Valid()
      modifies buffer
      ensures buffer[..] == old(buffer[..])[AxisOffset(a) := 0x00][AxisOffset(a) + 1 := 0x08]
    {
      CentreBytes(buffer[..], AxisOffset(a));
      var r := SetJoystick(a, 0);
    }

    /** `isPadding()`: `buffer.all { it == PADDING_BYTE }`. */
    method IsPadding() returns (p: bool)
      requires Valid()
      ensures p == IsPaddingWord(buffer[..])
    {
      for i := 0 to buffer.Length
        invariant forall j | 0 <= j < i :: buffer[j] == PADDING_BYTE
      {
        if buffer[i] != PADDING_BYTE {
          return false;
        }
      }
      return true;
    }

    /** `writeTo`: the sixteen buffer bytes go to the stream. */
    method WriteTo(output: OutputStream)
      requires Valid()
      modifies output
      ensures output.data == old(output.data) + buffer[..]
    {
      output.Write(buffer);
    }

    /** `readFrom`: one `read` into the buffer, which must have delivered all sixteen bytes. */
    method ReadFrom(input: InputStream) returns (r: Outcome)
      requires Valid() && input.Valid()
      modifies buffer, input
      ensures input.Valid()
      ensures input.position == old(input.position) + Min(SIZE_BYTES, old(input.Remaining()))
      ensures buffer[..] == BufferAfterRead(old(buffer[..]), input.data[old(input.position)..])
      ensures r == Commit(old(buffer[..]), ReadInto(old(buffer[..]), input.data[old(input.position)..])).outcome
    {
      ghost var src := input.data[input.position..];
      var n := input.Read(buffer);
      r := if n == SIZE_BYTES then Pass else Fail(FormatError);
    }

    /** One assignment or call made by a `setControlWord` block. */
    method Apply(u: FieldUpdate) returns (r: Outcome)
      requires Valid()
      modifies buffer
      ensures Applied(r, buffer[..]) == Commit(old(buffer[..]), ApplyUpdate(old(buffer[..]), u))
    {
      match u
      case JoystickTo(a, v) =>
        r := SetJoystick(a, v);
      case TriggerTo(t, v) =>
        r := SetTrigger(t, v);
      case ButtonTo(b, p) =>
        SetButton(b, p);
        r := Pass;
      case DPadTo(d) =>
        SetDPad(d);
        r := Pass;
      case PaddingTo(p) =>
        SetPadding(p);
        r := Pass;
    }

    /** A whole block: its updates in order, abandoned at the first exception. */
    method ApplyAll(us: seq<FieldUpdate>) returns (r: Outcome)
      requires Valid()
      modifies buffer
      ensures Applied(r, buffer[..]) == ApplyUpdates(old(buffer[..]), us)
    {
      var i := 0;
      while i < |us|
        invariant 0 <= i <= |us|
        invariant ApplyUpdates(buffer[..], us[i..]) == ApplyUpdates(old(buffer[..]), us)
      {
        assert us[i..][1..] == us[i + 1..];
        r := Apply(us[i]);
        if r.Fail? {
          return;
        }
        i := i + 1;
      }
      r := Pass;
    }
  }
}
