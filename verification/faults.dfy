/**
  The fault injectors of the test harness (src/Test.java): `InverseBitAleatoire`
  flips one bit of a frame's data, `PerteTrame` loses a frame. The random
  choices (`rand.nextInt`) are parameters here.
*/
module FaultInjection {
  import opened Checksum
  import opened Frames
  import opened Receiving

  /** `b ^= (1 << bit)` on a byte, for a bit index drawn from 0..7. */
  function FlipBit(b: bv8, bit: nat): bv8
    requires bit < 8
  {
    b ^ ((1 as bv8) << bit)
  }

  /** The flip changes the byte in exactly the chosen bit, and flipping twice restores it. */
  lemma FlipBitProperties(b: bv8, bit: nat)
    requires bit < 8
    ensures FlipBit(b, bit) != b
    ensures FlipBit(b, bit) ^ b == (1 as bv8) << bit
    ensures FlipBit(FlipBit(b, bit), bit) == b
  {
  }

  /** The data with bit `bit` of byte `i` flipped. */
  function Flip(data: seq<bv8>, i: nat, bit: nat): (flipped: seq<bv8>)
    requires i < |data| && bit < 8
    ensures |flipped| == |data|
  {
    data[i := FlipBit(data[i], bit)]
  }

  /** A flip differs from the data at byte `i` only, and the same flip again gives the data back. */
  lemma FlipTwice(data: seq<bv8>, i: nat, bit: nat)
    requires i < |data| && bit < 8
    ensures Flip(data, i, bit) != data
    ensures forall j :: 0 <= j < |data| && j != i ==> Flip(data, i, bit)[j] == data[j]
    ensures Flip(Flip(data, i, bit), i, bit) == data
  {
    FlipBitProperties(data[i], bit);
    assert Flip(data, i, bit)[i] != data[i];
  }

  /** Flipping a bit of data byte `i` flips the same bit of byte `i + 2` of the checksum input. */
  lemma FlipInput(kind: TrameType, num: bv8, data: seq<bv8>, i: nat, bit: nat)
    requires i < |data| && bit < 8
    ensures var input := CrcInput(kind, num, data);
      CrcInput(kind, num, Flip(data, i, bit)) == input[i + 2 := input[i + 2] ^ ((1 as bv8) << bit)]
  {
  }

  lemma MaskNonZero(bit: nat)
    requires bit < 8
    ensures (1 as bv8) << bit != 0
  {
  }

  /** A flipped bit in the data changes the checksum the frame's fields call for. */
  lemma FlipChangesCrc(kind: TrameType, num: bv8, data: seq<bv8>, i: nat, bit: nat)
    requires i < |data| && bit < 8
    ensures FrameCrc(kind, num, Flip(data, i, bit)) != FrameCrc(kind, num, data)
  {
    MaskNonZero(bit);
    FlipInput(kind, num, data, i, bit);
    Crc16DetectsByteError(CrcInput(kind, num, data), i + 2, (1 as bv8) << bit);
  }

  /**
    `InverseBitAleatoire`, as written: with empty data the frame comes back as it
    is; otherwise the chosen bit is flipped in place in the frame's own array,
    and a new frame is built over that same array with the same type and number,
    so its checksum is computed afresh over the flipped data. The input frame,
    which shares the array, now holds data its checksum does not match.
  */
  method InverseBitAleatoire(trame: Trame, byteIndex: nat, bitIndex: nat) returns (r: Trame)
    requires trame.donne.Length > 0 ==> byteIndex < trame.donne.Length
    requires bitIndex < 8
    modifies trame.donne
    ensures trame.donne.Length == 0 ==> r == trame
    ensures trame.donne.Length > 0 ==>
      && fresh(r) && r.donne == trame.donne
      && r.kind == trame.kind && r.num == trame.num
      && trame.donne[..] == Flip(old(trame.donne[..]), byteIndex, bitIndex)
      && r.CrcHolds()
      && (old(trame.CrcHolds()) ==> !trame.CrcHolds())
  {
    var donne := trame.donne;
    if donne.Length == 0 {
      return trame;
    }
    ghost var data := donne[..];
    donne[byteIndex] := FlipBit(donne[byteIndex], bitIndex);
    assert donne[..] == Flip(data, byteIndex, bitIndex);
    FlipChangesCrc(trame.kind, trame.num, data, byteIndex, bitIndex);
    // `getType` yields the type's code; the constructor gets the type that code names
    var kind := TypeOfCode(trame.GetType()).value;
    r := new Trame(kind, trame.num, donne);
  }

  /**
    What the receiver makes of the frame `InverseBitAleatoire` returns: its
    checksum matches the flipped data, so a frame with the expected number is
    acknowledged although its data is not what was sent.
  */
  lemma FlippedFrameAccepted(kind: TrameType, num: bv8, data: seq<bv8>, i: nat, bit: nat)
    requires kind != F && i < |data| && bit < 8
    ensures Flip(data, i, bit) != data
    ensures Step(num, Some(Observe(Build(kind, num, Flip(data, i, bit))))) == Stepped(NextNum(num), Send(Reply(A, num)))
  {
    FlipTwice(data, i, bit);
  }

  /**
    A bit error as the test means it: the chosen bit is flipped in place and the
    frame itself is returned, so it keeps the checksum of the data before the
    flip. A frame that carried a correct checksum then fails the check.
  */
  method InjectBitError(trame: Trame, byteIndex: nat, bitIndex: nat) returns (r: Trame)
    requires trame.donne.Length > 0 ==> byteIndex < trame.donne.Length
    requires bitIndex < 8
    modifies trame.donne
    ensures r == trame
    ensures trame.donne.Length == 0 ==> unchanged(trame.donne)
    ensures trame.donne.Length > 0 ==>
      && trame.donne[..] == Flip(old(trame.donne[..]), byteIndex, bitIndex)
      && (old(trame.CrcHolds()) ==> !r.CrcHolds())
  {
    r := trame;
    var donne := trame.donne;
    if donne.Length == 0 {
      return;
    }
    ghost var data := donne[..];
    donne[byteIndex] := FlipBit(donne[byteIndex], bitIndex);
    assert donne[..] == Flip(data, byteIndex, bitIndex);
    FlipChangesCrc(trame.kind, trame.num, data, byteIndex, bitIndex);
  }

  /**
    What the receiver makes of a frame corrupted by `InjectBitError`: whatever
    its number, the checksum fails and the frame is answered with a REJ carrying
    its number, and the expected number stays where it was.
  */
  lemma CorruptedFrameRejected(kind: TrameType, num: bv8, data: seq<bv8>, i: nat, bit: nat, expected: bv8)
    requires kind != F && i < |data| && bit < 8
    ensures var v := Build(kind, num, data).(data := Flip(data, i, bit));
      Step(expected, Some(Observe(v))) == Stepped(expected, Send(Reply(R, num)))
  {
    FlipChangesCrc(kind, num, data, i, bit);
  }

  /** `PerteTrame`: a lost frame, which the link hands over as nothing. */
  function PerteTrame(): Trame? {
    null
  }

  /** A lost frame draws no reply and leaves the receiver's expected number as it was. */
  lemma LostFrameIgnored(expected: bv8)
    ensures Step(expected, View(PerteTrame())) == Stepped(expected, Ignore)
    ensures forall rs: seq<Option<Reception>> :: Run(expected, [View(PerteTrame())] + rs) == Run(expected, rs)
  {
    forall rs: seq<Option<Reception>>
      ensures Run(expected, [View(PerteTrame())] + rs) == Run(expected, rs)
    {
      assert ([View(PerteTrame())] + rs)[1..] == rs;
    }
  }
}
