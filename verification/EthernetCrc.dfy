/** The CRC-32 that the LPC17xx Ethernet driver computes over a frame (ExtiDrive/emac.c).

    The driver consumes four message bits per step with precomputed shifts of the
    generator. The reference forms are the bit-serial shift register of IEEE 802.3
    and, below it, textbook long division of polynomials over GF(2). */
module EthernetCrc {

  /** The generator without its leading term x^32. */
  const GENERATOR: bv32 := 0x04C1_1DB7
  const INITIAL: bv32 := 0xFFFF_FFFF

  // ----- bit-serial reference -----

  /** The generator if it is to be subtracted, shifted as given. */
  function Pick(subtract: bool, shifted: bv32): bv32 {
    if subtract then shifted else 0
  }

  predicate Top(crc: bv32) {
    crc & 0x8000_0000 != 0
  }

  /** One shift of the register: the top bit, compared with the message bit, decides
      whether the generator is subtracted. */
  function ShiftIn(crc: bv32, bit: bool): bv32 {
    Reduce(crc, Top(crc) != bit)
  }

  function Reduce(crc: bv32, subtract: bool): bv32 {
    (crc << 1) ^ Pick(subtract, 0x04C1_1DB7)
  }

  function Feed(crc: bv32, bits: seq<bool>): bv32
    decreases bits
  {
    if bits == [] then crc else Feed(ShiftIn(crc, bits[0]), bits[1..])
  }

  /** The low nibble of a byte, least significant bit first. */
  function NibbleBits(b: bv8): (bits: seq<bool>)
    ensures |bits| == 4
  {
    [Bit(b, 1), Bit(b, 2), Bit(b, 4), Bit(b, 8)]
  }

  predicate Bit(b: bv8, mask: bv8) {
    b & mask != 0
  }

  /** A byte travels least significant bit first. */
  function ByteBits(b: bv8): (bits: seq<bool>) {
    NibbleBits(b) + NibbleBits(b >> 4)
  }

  function FrameBits(frame: seq<bv8>): (bits: seq<bool>)
    ensures |bits| == 8 * |frame|
  {
    if frame == [] then [] else FrameBits(frame[..|frame| - 1]) + ByteBits(frame[|frame| - 1])
  }

  function Crc(frame: seq<bv8>): bv32 {
    Feed(INITIAL, FrameBits(frame))
  }

  lemma FeedNothing(crc: bv32)
    ensures Feed(crc, []) == crc
  {
  }

  lemma {:induction false} FeedAppend(crc: bv32, a: seq<bool>, b: seq<bool>)
    ensures Feed(crc, a + b) == Feed(Feed(crc, a), b)
    decreases a
  {
    if a == [] {
      assert a + b == b;
    } else {
      assert (a + b)[1..] == a[1..] + b;
      FeedAppend(ShiftIn(crc, a[0]), a[1..], b);
    }
  }

  // ----- the driver's nibble-at-a-time form -----

  /** The combined update of one inner iteration, given its four comparisons. */
  function Subtract(crc: bv32, s0: bool, s1: bool, s2: bool, s3: bool): bv32 {
    (crc << 4) ^ Pick(s3, 0x04C1_1DB7) ^ Pick(s2, 0x0982_3B6E) ^ Pick(s1, 0x1304_76DC) ^ Pick(s0, 0x2608_EDB8)
  }

  function NibbleStep(crc: bv32, byte: bv8): bv32 {
    var b := byte as bv32;
    Subtract(crc,
             ((crc >> 31) ^ (b >> 0)) & 1 != 0,
             ((crc >> 30) ^ (b >> 1)) & 1 != 0,
             ((crc >> 29) ^ (b >> 2)) & 1 != 0,
             ((crc >> 28) ^ (b >> 3)) & 1 != 0)
  }

  predicate Bit31(c: bv32) { (c >> 31) & 1 != 0 }
  predicate Bit30(c: bv32) { (c >> 30) & 1 != 0 }
  predicate Bit29(c: bv32) { (c >> 29) & 1 != 0 }
  predicate Bit28(c: bv32) { (c >> 28) & 1 != 0 }

  /** Within a nibble the generator's own leading terms do not reach the top bit. */
  lemma TopBitSurvives(c: bv32, b0: bool, b1: bool, b2: bool, c1: bv32, c2: bv32, c3: bv32)
    requires c1 == ShiftIn(c, b0) && c2 == ShiftIn(c1, b1) && c3 == ShiftIn(c2, b2)
    ensures Top(c) == Bit31(c) && Top(c1) == Bit30(c) && Top(c2) == Bit29(c) && Top(c3) == Bit28(c)
  {
  }

  /** Four serial reductions as one expression. */
  lemma FourReductions(c: bv32, s0: bool, s1: bool, s2: bool, s3: bool, c1: bv32, c2: bv32, c3: bv32, c4: bv32)
    requires c1 == Reduce(c, s0) && c2 == Reduce(c1, s1) && c3 == Reduce(c2, s2) && c4 == Reduce(c3, s3)
    ensures c4 == Subtract(c, s0, s1, s2, s3)
  {
  }

  /** Comparing shifted words bit by bit is comparing the single bits. */
  lemma NibbleConditions(c: bv32, b: bv8)
    ensures NibbleStep(c, b) == Subtract(c, Bit31(c) != NibbleBits(b)[0], Bit30(c) != NibbleBits(b)[1],
                                            Bit29(c) != NibbleBits(b)[2], Bit28(c) != NibbleBits(b)[3])
  {
    hide Subtract;
    assert (((c >> 31) ^ ((b as bv32) >> 0)) & 1 != 0) == (Bit31(c) != (b & 1 != 0));
    assert (((c >> 30) ^ ((b as bv32) >> 1)) & 1 != 0) == (Bit30(c) != (b & 2 != 0));
    assert (((c >> 29) ^ ((b as bv32) >> 2)) & 1 != 0) == (Bit29(c) != (b & 4 != 0));
    assert (((c >> 28) ^ ((b as bv32) >> 3)) & 1 != 0) == (Bit28(c) != (b & 8 != 0));
  }

  lemma FeedFour(crc: bv32, bits: seq<bool>)
    requires |bits| == 4
    ensures Feed(crc, bits) == ShiftIn(ShiftIn(ShiftIn(ShiftIn(crc, bits[0]), bits[1]), bits[2]), bits[3])
  {
    assert Feed(crc, bits) == Feed(ShiftIn(crc, bits[0]), bits[1..]);
    assert bits[1..][1..] == bits[2..] && bits[2..][1..] == bits[3..] && bits[3..][1..] == [];
    var c1 := ShiftIn(crc, bits[0]);
    var c2 := ShiftIn(c1, bits[1]);
    var c3 := ShiftIn(c2, bits[2]);
    assert Feed(c1, bits[1..]) == Feed(c2, bits[2..]);
    assert Feed(c2, bits[2..]) == Feed(c3, bits[3..]);
    assert Feed(c3, bits[3..]) == Feed(ShiftIn(c3, bits[3]), []);
  }

  /** Subtracting four shifted generators at once is four serial shifts. */
  lemma NibbleIsFourShifts(crc: bv32, byte: bv8)
    ensures NibbleStep(crc, byte) == Feed(crc, NibbleBits(byte))
  {
    hide Feed, Reduce, Subtract, Top, Bit31, Bit30, Bit29, Bit28, NibbleBits, NibbleStep;
    var bits := NibbleBits(byte);
    FeedFour(crc, bits);
    var c1 := ShiftIn(crc, bits[0]);
    var c2 := ShiftIn(c1, bits[1]);
    var c3 := ShiftIn(c2, bits[2]);
    TopBitSurvives(crc, bits[0], bits[1], bits[2], c1, c2, c3);
    FourReductions(crc, Top(crc) != bits[0], Top(c1) != bits[1], Top(c2) != bits[2], Top(c3) != bits[3],
                   c1, c2, c3, ShiftIn(c3, bits[3]));
    NibbleConditions(crc, byte);
  }

  method EmacCrcCalc(frame: array<bv8>, frameLen: int) returns (crc: bv32)
    requires frameLen <= frame.Length
    ensures crc == Crc(frame[..if frameLen < 0 then 0 else frameLen])
  {
    hide NibbleBits, NibbleStep, Feed;
    crc := 0xFFFF_FFFF;
    assert FrameBits(frame[..0]) == [];
    FeedNothing(INITIAL);
    var i := 0;
    while i < frameLen
      invariant 0 <= i && (i <= frameLen || i == 0)
      invariant crc == Feed(INITIAL, FrameBits(frame[..i]))
    {
      var byte := frame[i];
      assert frame[..i + 1][..i] == frame[..i];
      ghost var fed := FrameBits(frame[..i]);
      ghost var bits := ByteBits(byte);
      ghost var whole := byte;
      assert fed + bits[..0] == fed;
      var j := 0;
      while j < 2
        invariant 0 <= j <= 2
        invariant byte == if j == 0 then whole else if j == 1 then whole >> 4 else byte
        invariant crc == Feed(INITIAL, fed + bits[..4 * j])
      {
        NibbleIsFourShifts(crc, byte);
        FeedAppend(INITIAL, fed + bits[..4 * j], NibbleBits(byte));
        assert bits[4 * j..4 * j + 4] == NibbleBits(byte);
        assert fed + bits[..4 * j + 4] == (fed + bits[..4 * j]) + NibbleBits(byte);
        crc := NibbleStep(crc, byte);
        byte := byte >> 4;
        j := j + 1;
      }
      assert bits[..8] == bits;
      i := i + 1;
    }
  }
}
