/**
  Frames of the link protocol (src/Trame.java): the six frame types with their
  one-byte codes, the checksum loop `calculateCrc`, and the frame object whose
  checksum is fixed when it is built.

  A frame keeps a reference to the data array it was built from; nothing in the
  frame stops the holder of that array from changing it later, and then the stored
  checksum no longer describes the data. `Trame` is therefore a class over an
  `array<bv8>`, and `CrcHolds` is a property of the current heap.
*/
module Frames {
  import opened Checksum

  datatype Option<T> = None | Some(value: T)

  /** The frame types: information, connection, ACK, REJ, end of communication, P bit. */
  datatype TrameType = I | C | A | R | F | P

  /** `TrameType.getCode`: the ASCII letter of the type's name, as a byte. */
  function Code(t: TrameType): bv8 {
    match t
    case I => 'I' as bv8
    case C => 'C' as bv8
    case A => 'A' as bv8
    case R => 'R' as bv8
    case F => 'F' as bv8
    case P => 'P' as bv8
  }

  /** The type whose code is `b`, if any: the inverse of `Code`. */
  function TypeOfCode(b: bv8): (r: Option<TrameType>)
    ensures r.Some? ==> Code(r.value) == b
    ensures r.None? ==> b !in {0x49, 0x43, 0x41, 0x52, 0x46, 0x50}
  {
    if b == 0x49 then Some(I)
    else if b == 0x43 then Some(C)
    else if b == 0x41 then Some(A)
    else if b == 0x52 then Some(R)
    else if b == 0x46 then Some(F)
    else if b == 0x50 then Some(P)
    else None
  }

  /** Every type is recovered from its code, so no two types share a code. */
  lemma CodeRoundTrip(t: TrameType)
    ensures TypeOfCode(Code(t)) == Some(t)
  {
  }

  lemma CodeInjective(s: TrameType, t: TrameType)
    ensures Code(s) == Code(t) <==> s == t
  {
    CodeRoundTrip(s);
    CodeRoundTrip(t);
  }

  /** The bytes `calculateCrc` runs the register over: type code, number, then the data. */
  function CrcInput(t: TrameType, num: bv8, data: seq<bv8>): (bytes: seq<bv8>)
    ensures |bytes| == |data| + 2
    ensures bytes[0] == Code(t) && bytes[1] == num && bytes[2..] == data
  {
    [Code(t), num] + data
  }

  /** The checksum a frame with these fields must carry. */
  function FrameCrc(t: TrameType, num: bv8, data: seq<bv8>): bv16 {
    Crc16(CrcInput(t, num, data))
  }

  /** One more iteration of the outer loop feeds the next byte into the `int` register. */
  lemma JavaRegisterPrefix(s: seq<bv8>, k: nat)
    requires 0 < k <= |s|
    ensures JavaRegister(s[..k]) == JavaFeed(JavaRegister(s[..k - 1]), s[k - 1])
  {
    assert s[..k][..k - 1] == s[..k - 1];
  }

  /** The two branches of the inner loop's body together make one `JavaShift`. */
  lemma JavaShiftStep(prev: bv32, next: bv32)
    requires next == if prev & 0x8000 != 0 then (prev << 1) ^ 0x1021 else prev << 1
    ensures next == JavaShift(prev)
  {
  }

  /**
    The inner loop of `Trame.calculateCrc`: eight shifts of the `int` register,
    each one XOR-ing in the polynomial when bit 15 was set.
  */
  method ShiftByte(start: bv32) returns (reg: bv32)
    ensures reg == Iterate(JavaShift, start, 8)
  {
    reg := start;
    var i := 0;
    while i < 8
      invariant 0 <= i <= 8
      invariant reg == Iterate(JavaShift, start, i)
    {
      ghost var prev := reg;
      if reg & 0x8000 != 0 {
        reg := (reg << 1) ^ 0x1021;
      } else {
        reg := reg << 1;
      }
      JavaShiftStep(prev, reg);
      IterateNext(JavaShift, start, i, prev);
      i := i + 1;
    }
  }

  /**
    The body of the outer loop of `Trame.calculateCrc`: the byte, sign-extended
    to `int`, is XOR-ed into bits 8 and up, then the eight shifts run.
  */
  method FeedByte(reg: bv32, b: bv8) returns (next: bv32)
    ensures next == JavaFeed(reg, b)
  {
    var start := reg ^ (Widen(b) << 8);
    next := ShiftByte(start);
    JavaFeedIsShifts(reg, b, start);
  }

  /**
    `Trame.calculateCrc`, with the frame's fields passed in: copies type code,
    number and data into a fresh array, runs the 32-bit register over it with
    sign-extended bytes, and keeps the low 16 bits.
  */
  method CalculateCrc(t: TrameType, num: bv8, donne: array<bv8>) returns (crc: bv16)
    ensures crc == FrameCrc(t, num, donne[..])
  {
    var buf := new bv8[donne.Length + 2];
    buf[0] := Code(t);
    buf[1] := num;
    forall k | 0 <= k < donne.Length {
      buf[k + 2] := donne[k];
    }
    ghost var input := buf[..];
    assert input == CrcInput(t, num, donne[..]);
    var reg: bv32 := 0;
    var j := 0;
    while j < buf.Length
      invariant 0 <= j <= buf.Length
      invariant buf[..] == input
      invariant reg == JavaRegister(input[..j])
    {
      reg := FeedByte(reg, buf[j]);
      JavaRegisterPrefix(input, j + 1);
      j := j + 1;
    }
    assert input[..j] == input;
    crc := Low16(reg);
    SignExtensionInvisible(input);
  }

  /** What a frame holds, as a value: its four fields with the data's current contents. */
  datatype FrameValue = FrameValue(kind: TrameType, num: bv8, data: seq<bv8>, crc: bv16)
  {
    /** The stored checksum is the checksum of type, number and data. */
    predicate CrcHolds() {
      crc == FrameCrc(kind, num, data)
    }
  }

  /** The value of a frame the constructor builds from these fields. */
  function Build(kind: TrameType, num: bv8, data: seq<bv8>): FrameValue {
    FrameValue(kind, num, data, FrameCrc(kind, num, data))
  }

  /**
    A value carries a correct checksum exactly when it is the value the
    constructor builds from its other fields; so equal fields give equal frames.
  */
  lemma BuildDeterministic(v: FrameValue)
    ensures v.CrcHolds() <==> v == Build(v.kind, v.num, v.data)
  {
  }

  /**
    The 3-bit frame counter `(n + 1) % 8`, on the byte read unsigned. Java widens
    the signed byte to `int`, takes a remainder that keeps the dividend's sign,
    and casts back (`JavaNextNum`); the two agree on every counter value 0 to 7
    (`NextNumAsInt`), and the counter never leaves that range.
  */
  function NextNum(n: bv8): bv8 {
    (n + 1) % 8
  }

  /** A Java `byte` as the signed `int` it widens to. */
  function SignedByte(b: bv8): int {
    if b < 0x80 then b as int else b as int - 256
  }

  /** Java's `%` on `int`: the remainder takes the sign of the dividend. */
  function JavaRem(a: int, m: int): int
    requires m > 0
  {
    if a >= 0 then a % m else -((-a) % m)
  }

  /** The `(byte)` cast: the low eight bits of the `int`. */
  function ToByte(v: int): bv8 {
    (v % 256) as bv8
  }

  /** `(byte) ((n + 1) % 8)` as Java evaluates it on a byte `n`. */
  function JavaNextNum(n: bv8): bv8 {
    ToByte(JavaRem(SignedByte(n) + 1, 8))
  }

  lemma NextNumAsInt(n: bv8)
    requires n < 8
    ensures NextNum(n) < 8
    ensures NextNum(n) == JavaNextNum(n)
    ensures NextNum(n) as int == (n as int + 1) % 8
  {
  }

  /** Outside 0..7 the readings part: on the byte 0x80 (-128) Java yields -7, the byte 0xF9. */
  lemma NextNumSignedByte()
    ensures JavaNextNum(0x80) == 0xF9
    ensures NextNum(0x80) == 1
  {
    assert SignedByte(0x80) == -128;
    assert JavaRem(-127, 8) == -7;
    assert (-7) % 256 == 249;
  }

  /** The counter after `n` increments from `n0`. */
  function After(n0: bv8, n: nat): bv8 {
    Iterate(NextNum, n0, n)
  }

  /** Counting `n + 1` increments from `n0` is counting `n` from its successor. */
  lemma {:induction false} AfterShift(n0: bv8, n: nat)
    ensures After(n0, n + 1) == After(NextNum(n0), n)
  {
    if n == 0 {
      assert After(n0, 1) == NextNum(After(n0, 0));
    } else {
      AfterShift(n0, n - 1);
      assert After(n0, n + 1) == NextNum(After(n0, n));
      assert After(NextNum(n0), n) == NextNum(After(NextNum(n0), n - 1));
    }
  }

  /** From 0, the counter after `n` increments is `n` mod 8. */
  lemma {:induction false} AfterFromZero(n: nat)
    ensures After(0, n) as int == n % 8
  {
    if n > 0 {
      AfterFromZero(n - 1);
      assert After(0, n) == NextNum(After(0, n - 1));
      NextNumAsInt(After(0, n - 1));
    }
  }

  /**
    A frame. Its fields (`kind` is the source's `type`) are assigned once, in the
    constructor; there are no setters.
  */
  class Trame {
    const kind: TrameType
    const num: bv8
    const donne: array<bv8>
    const crc: bv16

    /** Builds a frame over `donne` (kept, not copied) and fixes its checksum. */
    constructor (kind: TrameType, num: bv8, donne: array<bv8>)
      ensures this.kind == kind && this.num == num && this.donne == donne
      ensures Value() == Build(kind, num, donne[..])
      ensures CrcHolds()
    {
      this.kind := kind;
      this.num := num;
      this.donne := donne;
      var crc := CalculateCrc(kind, num, donne);
      this.crc := crc;
    }

    /** What the frame holds now. */
    function Value(): FrameValue
      reads donne
    {
      FrameValue(kind, num, donne[..], crc)
    }

    /** The stored checksum is the checksum of the frame's current contents. */
    predicate CrcHolds()
      reads donne
    {
      Value().CrcHolds()
    }

    /** `getType`: the code byte of the type, not the type itself. */
    function GetType(): (code: bv8)
      ensures TypeOfCode(code) == Some(kind)
    {
      CodeRoundTrip(kind);
      Code(kind)
    }
  }
}
