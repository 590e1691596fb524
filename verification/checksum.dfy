/**
  The 16-bit frame checksum computed by `Trame.calculateCrc` (src/Trame.java).

  The source runs a bitwise shift register: polynomial 0x1021, initial value 0,
  most significant bit first, no reflection and no final XOR (the parameter set
  known as CRC-16/XMODEM). `Crc16` is the reference definition on a 16-bit
  register; `JavaRegister` follows the source's 32-bit `int` register, into which
  every byte is XORed after Java's sign extension. The lemmas show that the two
  agree on the low 16 bits, that the checksum is linear, and that it detects
  every error confined to one byte.
*/
module Checksum {

  /** Generator polynomial x^16 + x^12 + x^5 + 1 (`CRC_CCIT` in the source). */
  const Poly: bv16 := 0x1021

  // ---------------------------------------------------------------------------
  // Shift registers in general
  // ---------------------------------------------------------------------------

  /** `n` applications of `f` to `r`: the shape of the source's inner loop. */
  function Iterate<R>(f: R -> R, r: R, n: nat): R {
    if n == 0 then r else f(Iterate(f, r, n - 1))
  }

  lemma IterateNext<R>(f: R -> R, r: R, n: nat, x: R)
    requires x == Iterate(f, r, n)
    ensures f(x) == Iterate(f, r, n + 1)
  {
  }

  /** If `h` commutes with the steps, it commutes with any number of them. */
  lemma {:induction false} IterateMap<R, S>(h: R -> S, f: R -> R, g: S -> S, r: R, n: nat)
    requires forall r :: h(f(r)) == g(h(r))
    ensures h(Iterate(f, r, n)) == Iterate(g, h(r), n)
  {
    if n > 0 {
      IterateMap(h, f, g, r, n - 1);
    }
  }

  /** If `f` distributes over `plus`, so does any number of applications of `f`. */
  lemma {:induction false} IterateAdditive<R(!new)>(f: R -> R, plus: (R, R) -> R, a: R, b: R, n: nat)
    requires forall a, b :: f(plus(a, b)) == plus(f(a), f(b))
    ensures Iterate(f, plus(a, b), n) == plus(Iterate(f, a, n), Iterate(f, b, n))
  {
    if n > 0 {
      IterateAdditive(f, plus, a, b, n - 1);
    }
  }

  /**
    The register after absorbing `bytes`, oldest first, one `step` per byte,
    starting from `init`: the shape of the source's outer loop.
  */
  function Absorb<R, B>(step: (R, B) -> R, init: R, bytes: seq<B>): R
    decreases |bytes|
  {
    if |bytes| == 0 then init else step(Absorb(step, init, bytes[..|bytes| - 1]), bytes[|bytes| - 1])
  }

  /**
    If `h` maps `init` to `init'` and commutes with the steps, it maps every
    register reached with `step` to the one reached with `step'`.
  */
  lemma {:induction false} AbsorbMap<R, S, B>(h: R -> S, step: (R, B) -> R, init: R,
                                              step': (S, B) -> S, init': S, bytes: seq<B>)
    requires h(init) == init'
    requires forall r, b :: h(step(r, b)) == step'(h(r), b)
    ensures h(Absorb(step, init, bytes)) == Absorb(step', init', bytes)
    decreases |bytes|
  {
    if |bytes| > 0 {
      AbsorbMap(h, step, init, step', init', bytes[..|bytes| - 1]);
    }
  }

  /** Element-wise combination of two sequences of equal length. */
  function Zip<B>(plus: (B, B) -> B, x: seq<B>, y: seq<B>): (z: seq<B>)
    requires |x| == |y|
    ensures |z| == |x|
    ensures forall i :: 0 <= i < |z| ==> z[i] == plus(x[i], y[i])
  {
    seq(|x|, i requires 0 <= i < |x| => plus(x[i], y[i]))
  }

  lemma ZipPrefix<B>(plus: (B, B) -> B, x: seq<B>, y: seq<B>, n: nat)
    requires |x| == |y| && n <= |x|
    ensures Zip(plus, x, y)[..n] == Zip(plus, x[..n], y[..n])
  {
  }

  /** `step` distributes over `plusR` on registers and `plusB` on bytes, and `init` is neutral. */
  ghost predicate Additive<R(!new), B(!new)>(step: (R, B) -> R, init: R, plusR: (R, R) -> R, plusB: (B, B) -> B) {
    && plusR(init, init) == init
    && forall r, b, s, c :: step(plusR(r, s), plusB(b, c)) == plusR(step(r, b), step(s, c))
  }

  /** The inductive step of `AbsorbAdditive`. */
  lemma AbsorbAdditiveLast<R(!new), B(!new)>(step: (R, B) -> R, init: R, plusR: (R, R) -> R, plusB: (B, B) -> B,
                                             x: seq<B>, y: seq<B>, z: seq<B>)
    requires Additive(step, init, plusR, plusB)
    requires |x| == |y| == |z| > 0
    requires Absorb(step, init, z[..|z| - 1])
             == plusR(Absorb(step, init, x[..|x| - 1]), Absorb(step, init, y[..|y| - 1]))
    requires z[|z| - 1] == plusB(x[|x| - 1], y[|y| - 1])
    ensures Absorb(step, init, z) == plusR(Absorb(step, init, x), Absorb(step, init, y))
  {
  }

  /** An additive step absorbs the combination of two sequences into the combination of their registers. */
  lemma {:induction false} AbsorbAdditive<R(!new), B(!new)>(step: (R, B) -> R, init: R, plusR: (R, R) -> R,
                                                            plusB: (B, B) -> B, x: seq<B>, y: seq<B>)
    requires Additive(step, init, plusR, plusB)
    requires |x| == |y|
    ensures Absorb(step, init, Zip(plusB, x, y)) == plusR(Absorb(step, init, x), Absorb(step, init, y))
    decreases |x|
  {
    if |x| > 0 {
      var n := |x| - 1;
      ZipPrefix(plusB, x, y, n);
      AbsorbAdditive(step, init, plusR, plusB, x[..n], y[..n]);
      AbsorbAdditiveLast(step, init, plusR, plusB, x, y, Zip(plusB, x, y));
    }
  }

  // ---------------------------------------------------------------------------
  // Reference definition on a 16-bit register
  // ---------------------------------------------------------------------------

  /**
    One step of the register: shift left by one, XOR the polynomial when bit 15
    was set. The polynomial is masked by `Top(reg)`, all ones exactly when bit 15
    is set, so the step has no branch.
  */
  function Shift(reg: bv16): bv16 {
    (reg << 1) ^ (Poly & Top(reg))
  }

  /** All ones when bit 15 of `x` is set, all zeros otherwise. */
  function Top(x: bv16): bv16 {
    0 - (x >> 15)
  }

  /** Absorbs one byte: XOR it into the high byte, then shift eight times. */
  function Feed(reg: bv16, b: bv8): bv16 {
    Iterate(Shift, reg ^ ((b as bv16) << 8), 8)
  }

  /** The checksum of a byte sequence, starting from register 0, with no final XOR. */
  function Crc16(bytes: seq<bv8>): bv16 {
    Absorb(Feed, 0, bytes)
  }

  // ---------------------------------------------------------------------------
  // The source's register: a 32-bit Java int, bytes sign-extended
  // ---------------------------------------------------------------------------

  /** Java's widening of a signed `byte` to `int`: bits 8..31 copy bit 7. */
  function Widen(b: bv8): (w: bv32)
    ensures w & 0xFF == b as bv32
    ensures w >> 8 == if b & 0x80 != 0 then 0xFF_FFFF else 0
  {
    if b & 0x80 != 0 then (b as bv32) | 0xFFFF_FF00 else b as bv32
  }

  /** One step of the inner `for` loop on the `int` register. */
  function JavaShift(reg: bv32): bv32 {
    if reg & 0x8000 != 0 then (reg << 1) ^ 0x1021 else reg << 1
  }

  /** One iteration of the outer loop: `registre ^= (b << 8)` and eight steps. */
  function JavaFeed(reg: bv32, b: bv8): bv32 {
    Iterate(JavaShift, reg ^ (Widen(b) << 8), 8)
  }

  /** The `int` register after the outer loop has consumed `bytes`. */
  function JavaRegister(bytes: seq<bv8>): bv32 {
    Absorb(JavaFeed, 0, bytes)
  }

  /** `registre & 0xFFFF`, the bits the source keeps as its `short` result. */
  function Low16(reg: bv32): bv16 {
    (reg & 0xFFFF) as bv16
  }

  // ---------------------------------------------------------------------------
  // Sign extension never reaches the result
  // ---------------------------------------------------------------------------

  lemma Low16Shl(reg: bv32)
    ensures Low16(reg << 1) == Low16(reg) << 1
  {
  }

  lemma Low16Xor(a: bv32, b: bv32)
    ensures Low16(a ^ b) == Low16(a) ^ Low16(b)
  {
  }

  lemma Low16Bit15(reg: bv32)
    ensures (reg & 0x8000 != 0) == (Low16(reg) & 0x8000 != 0)
  {
  }

  lemma JavaShiftBitSet(reg: bv32)
    requires reg & 0x8000 != 0
    ensures Low16(JavaShift(reg)) == (Low16(reg) << 1) ^ Poly
  {
    Low16Shl(reg);
    Low16Xor(reg << 1, 0x1021);
  }

  lemma JavaShiftBitClear(reg: bv32)
    requires reg & 0x8000 == 0
    ensures Low16(JavaShift(reg)) == Low16(reg) << 1
  {
    Low16Shl(reg);
  }

  /** A step of the `int` register acts on its low 16 bits exactly as a step of the 16-bit one. */
  lemma JavaShiftLow16(reg: bv32)
    ensures Low16(JavaShift(reg)) == Shift(Low16(reg))
  {
    Low16Bit15(reg);
    if reg & 0x8000 != 0 {
      JavaShiftBitSet(reg);
    } else {
      JavaShiftBitClear(reg);
    }
  }

  lemma JavaShiftsLow16(reg: bv32, n: nat)
    ensures Low16(Iterate(JavaShift, reg, n)) == Iterate(Shift, Low16(reg), n)
  {
    forall r ensures Low16(JavaShift(r)) == Shift(Low16(r)) {
      JavaShiftLow16(r);
    }
    IterateMap(Low16, JavaShift, Shift, reg, n);
  }

  /** XORing a sign-extended byte shifted by 8 changes bits 8..15 by the byte and nothing below them. */
  lemma WidenedByteLow16(reg: bv32, b: bv8, x: bv32)
    requires x == reg ^ (Widen(b) << 8)
    ensures Low16(x) == Low16(reg) ^ ((b as bv16) << 8)
  {
  }

  lemma FeedIsShifts(reg: bv16, b: bv8, x: bv16)
    requires x == reg ^ ((b as bv16) << 8)
    ensures Feed(reg, b) == Iterate(Shift, x, 8)
  {
  }

  lemma JavaFeedIsShifts(reg: bv32, b: bv8, x: bv32)
    requires x == reg ^ (Widen(b) << 8)
    ensures JavaFeed(reg, b) == Iterate(JavaShift, x, 8)
  {
  }

  /** One outer iteration of the source's loop agrees with `Feed` on the low 16 bits. */
  lemma JavaFeedLow16(reg: bv32, b: bv8)
    ensures Low16(JavaFeed(reg, b)) == Feed(Low16(reg), b)
  {
    var x := reg ^ (Widen(b) << 8);
    JavaFeedIsShifts(reg, b, x);
    WidenedByteLow16(reg, b, x);
    FeedIsShifts(Low16(reg), b, Low16(x));
    JavaShiftsLow16(x, 8);
  }

  /** The source's result `registre & 0xFFFF` is the unsigned-byte checksum, for every input. */
  lemma SignExtensionInvisible(bytes: seq<bv8>)
    ensures Low16(JavaRegister(bytes)) == Crc16(bytes)
  {
    forall reg, b ensures Low16(JavaFeed(reg, b)) == Feed(Low16(reg), b) {
      JavaFeedLow16(reg, b);
    }
    AbsorbMap(Low16, JavaFeed, 0, Feed, 0, bytes);
  }

  /**
    Sign extension does happen: for the byte 0x80 the `int` register ends as
    0xFF889188, with bits above 15 set, while its low half is the checksum 0x9188.
  */
  lemma SignExtensionReachesHighBits()
    ensures JavaRegister([0x80]) == 0xFF88_9188
    ensures JavaRegister([0x80]) >> 16 != 0
  {
    assert JavaRegister([0x80]) == JavaFeed(0, 0x80);
    var r := Widen(0x80) << 8;
    assert r == 0xFFFF_8000;
    assert Iterate(JavaShift, r, 1) == 0xFFFF_1021;
    assert Iterate(JavaShift, r, 2) == 0xFFFE_2042;
    assert Iterate(JavaShift, r, 3) == 0xFFFC_4084;
    assert Iterate(JavaShift, r, 4) == 0xFFF8_8108;
    assert Iterate(JavaShift, r, 5) == 0xFFF1_1231;
    assert Iterate(JavaShift, r, 6) == 0xFFE2_2462;
    assert Iterate(JavaShift, r, 7) == 0xFFC4_48C4;
    assert Iterate(JavaShift, r, 8) == 0xFF88_9188;
  }

  // ---------------------------------------------------------------------------
  // Linearity and error detection
  // ---------------------------------------------------------------------------

  function Xor16(a: bv16, b: bv16): bv16 {
    a ^ b
  }

  function Xor8(a: bv8, b: bv8): bv8 {
    a ^ b
  }

  /** Byte-wise XOR of two sequences of equal length. */
  function XorBytes(x: seq<bv8>, y: seq<bv8>): (z: seq<bv8>)
    requires |x| == |y|
    ensures |z| == |x|
    ensures forall i :: 0 <= i < |z| ==> z[i] == x[i] ^ y[i]
  {
    Zip(Xor8, x, y)
  }

  /** One step of the register is linear. */
  lemma ShiftLinear(a: bv16, b: bv16)
    ensures Shift(a ^ b) == Shift(a) ^ Shift(b)
  {
  }

  lemma ShiftsLinear(a: bv16, b: bv16, n: nat)
    ensures Iterate(Shift, a ^ b, n) == Iterate(Shift, a, n) ^ Iterate(Shift, b, n)
  {
    forall p, q ensures Shift(Xor16(p, q)) == Xor16(Shift(p), Shift(q)) {
      ShiftLinear(p, q);
    }
    IterateAdditive(Shift, Xor16, a, b, n);
  }

  lemma XorHighBytes(r: bv16, b: bv8, s: bv16, c: bv8, x: bv16, y: bv16)
    requires x == r ^ ((b as bv16) << 8) && y == s ^ ((c as bv16) << 8)
    ensures (r ^ s) ^ (((b ^ c) as bv16) << 8) == x ^ y
  {
  }

  lemma FeedLinear(r: bv16, b: bv8, s: bv16, c: bv8)
    ensures Feed(r ^ s, b ^ c) == Feed(r, b) ^ Feed(s, c)
  {
    var x, y := r ^ ((b as bv16) << 8), s ^ ((c as bv16) << 8);
    XorHighBytes(r, b, s, c, x, y);
    FeedIsShifts(r, b, x);
    FeedIsShifts(s, c, y);
    FeedIsShifts(r ^ s, b ^ c, x ^ y);
    ShiftsLinear(x, y, 8);
  }

  lemma FeedAdditive()
    ensures Additive(Feed, 0, Xor16, Xor8)
  {
    forall r, b, s, c ensures Feed(Xor16(r, s), Xor8(b, c)) == Xor16(Feed(r, b), Feed(s, c)) {
      FeedLinear(r, b, s, c);
    }
  }

  /** The checksum is linear: the checksum of a XOR is the XOR of the checksums. */
  lemma Crc16Linear(x: seq<bv8>, y: seq<bv8>)
    requires |x| == |y|
    ensures Crc16(XorBytes(x, y)) == Crc16(x) ^ Crc16(y)
  {
    FeedAdditive();
    AbsorbAdditive(Feed, 0, Xor16, Xor8, x, y);
  }

  lemma ShiftNonZero(reg: bv16)
    requires reg != 0
    ensures Shift(reg) != 0
  {
  }

  lemma {:induction false} ShiftsNonZero(reg: bv16, n: nat)
    requires reg != 0
    ensures Iterate(Shift, reg, n) != 0
  {
    if n > 0 {
      ShiftsNonZero(reg, n - 1);
      ShiftNonZero(Iterate(Shift, reg, n - 1));
    }
  }

  lemma {:induction false} ShiftsZero(n: nat)
    ensures Iterate(Shift, 0, n) == 0
  {
    if n > 0 {
      ShiftsZero(n - 1);
    }
  }

  /** An all-zero error pattern has checksum 0. */
  lemma {:induction false} ZerosCrc16(e: seq<bv8>)
    requires forall i :: 0 <= i < |e| ==> e[i] == 0
    ensures Crc16(e) == 0
    decreases |e|
  {
    if |e| > 0 {
      ZerosCrc16(e[..|e| - 1]);
      ShiftsZero(8);
    }
  }

  /** An error pattern that is zero except for one non-zero byte has a non-zero checksum. */
  lemma {:induction false} SingleByteErrorCrc16(e: seq<bv8>, j: nat)
    requires j < |e| && e[j] != 0
    requires forall i :: 0 <= i < |e| && i != j ==> e[i] == 0
    ensures Crc16(e) != 0
    decreases |e|
  {
    var n := |e| - 1;
    if n == j {
      ZerosCrc16(e[..n]);
      assert ((e[n] as bv16) << 8) != 0;
      ShiftsNonZero((e[n] as bv16) << 8, 8);
    } else {
      SingleByteErrorCrc16(e[..n], j);
      assert e[n] == 0;
      ShiftsNonZero(Crc16(e[..n]), 8);
    }
  }

  /** The error pattern of length `n` that is `mask` at index `j` and zero elsewhere. */
  function ErrorAt(n: nat, j: nat, mask: bv8): (e: seq<bv8>)
    requires j < n
    ensures |e| == n && e[j] == mask
    ensures forall i :: 0 <= i < n && i != j ==> e[i] == 0
  {
    seq(n, i requires 0 <= i < n => if i == j then mask else 0)
  }

  lemma XorErrorAt(s: seq<bv8>, j: nat, mask: bv8)
    requires j < |s|
    ensures s[j := s[j] ^ mask] == XorBytes(s, ErrorAt(|s|, j, mask))
  {
  }

  lemma XorNonZero(a: bv16, d: bv16)
    requires d != 0
    ensures a ^ d != a
  {
  }

  /** Changing any one byte by a non-zero XOR mask (in particular, flipping any one bit) changes the checksum. */
  lemma Crc16DetectsByteError(s: seq<bv8>, j: nat, mask: bv8)
    requires j < |s| && mask != 0
    ensures Crc16(s[j := s[j] ^ mask]) != Crc16(s)
  {
    var e := ErrorAt(|s|, j, mask);
    XorErrorAt(s, j, mask);
    Crc16Linear(s, e);
    SingleByteErrorCrc16(e, j);
    XorNonZero(Crc16(s), Crc16(e));
  }

  // ---------------------------------------------------------------------------
  // Catalogue check value
  // ---------------------------------------------------------------------------

  /** The ASCII bytes of "123456789". */
  const CheckInput: seq<bv8> := [0x31, 0x32, 0x33, 0x34, 0x35, 0x36, 0x37, 0x38, 0x39]

  lemma CheckValuePrefix2()
    ensures Crc16(CheckInput[..2]) == 0x20B5
  {
    FeedValue(0, 0x31, 0x2672);
    Crc16Prefix(CheckInput, 1);
    FeedValue(0x2672, 0x32, 0x20B5);
    Crc16Prefix(CheckInput, 2);
  }

  lemma CheckValuePrefix4()
    ensures Crc16(CheckInput[..4]) == 0xD789
  {
    CheckValuePrefix2();
    FeedValue(0x20B5, 0x33, 0x9752);
    Crc16Prefix(CheckInput, 3);
    FeedValue(0x9752, 0x34, 0xD789);
    Crc16Prefix(CheckInput, 4);
  }

  lemma CheckValuePrefix6()
    ensures Crc16(CheckInput[..6]) == 0x20E4
  {
    CheckValuePrefix4();
    FeedValue(0xD789, 0x35, 0x546C);
    Crc16Prefix(CheckInput, 5);
    FeedValue(0x546C, 0x36, 0x20E4);
    Crc16Prefix(CheckInput, 6);
  }

  lemma CheckValuePrefix8()
    ensures Crc16(CheckInput[..8]) == 0x9015
  {
    CheckValuePrefix6();
    FeedValue(0x20E4, 0x37, 0x86D6);
    Crc16Prefix(CheckInput, 7);
    FeedValue(0x86D6, 0x38, 0x9015);
    Crc16Prefix(CheckInput, 8);
  }

  /** The catalogue check value of CRC-16/XMODEM: 0x31C3 on the ASCII bytes of "123456789". */
  lemma CheckValue()
    ensures Crc16(CheckInput) == 0x31C3
  {
    CheckValuePrefix8();
    FeedValue(0x9015, 0x39, 0x31C3);
    Crc16Prefix(CheckInput, 9);
    assert CheckInput[..9] == CheckInput;
  }

  /** The register after `k` bytes is fed the next byte. */
  lemma Crc16Prefix(s: seq<bv8>, k: nat)
    requires 0 < k <= |s|
    ensures Crc16(s[..k]) == Feed(Crc16(s[..k - 1]), s[k - 1])
  {
    assert s[..k][..k - 1] == s[..k - 1];
  }

  /** Evaluates one `Feed` step by step; used for concrete values. */
  lemma FeedValue(reg: bv16, b: bv8, result: bv16)
    requires var x := reg ^ ((b as bv16) << 8);
             Shift(Shift(Shift(Shift(Shift(Shift(Shift(Shift(x)))))))) == result
    ensures Feed(reg, b) == result
  {
    var x := reg ^ ((b as bv16) << 8);
    assert Iterate(Shift, x, 1) == Shift(x);
    assert Iterate(Shift, x, 2) == Shift(Shift(x));
    assert Iterate(Shift, x, 3) == Shift(Shift(Shift(x)));
    assert Iterate(Shift, x, 4) == Shift(Shift(Shift(Shift(x))));
    assert Iterate(Shift, x, 5) == Shift(Shift(Shift(Shift(Shift(x)))));
    assert Iterate(Shift, x, 6) == Shift(Shift(Shift(Shift(Shift(Shift(x))))));
    assert Iterate(Shift, x, 7) == Shift(Shift(Shift(Shift(Shift(Shift(Shift(x)))))));
  }
}
