/** What the frame CRC is for: it is the remainder of a division, it is affine, and it
    tells apart frames that differ in one burst of at most 32 bits. */
module EthernetCrcTheory {
  import opened EthernetCrc

  // ----- affinity -----

  function XorBits(a: seq<bool>, b: seq<bool>): (c: seq<bool>)
    requires |a| == |b|
    ensures |c| == |a| && forall i :: 0 <= i < |c| ==> c[i] == (a[i] != b[i])
  {
    seq(|a|, i requires 0 <= i < |a| => a[i] != b[i])
  }

  /** Addition of polynomials over GF(2). */
  function Plus(r: bv32, s: bv32): bv32 {
    r ^ s
  }

  lemma TopPlus(r: bv32, s: bv32)
    ensures Top(Plus(r, s)) == (Top(r) != Top(s))
  {
  }

  /** Multiplication by x, dropping the term x^32. */
  function Double(r: bv32): bv32 {
    r << 1
  }

  lemma DoublePlus(r: bv32, s: bv32)
    ensures Double(Plus(r, s)) == Plus(Double(r), Double(s))
  {
  }

  lemma PickPlus(p: bool, q: bool)
    ensures Pick(p != q, GENERATOR) == Plus(Pick(p, GENERATOR), Pick(q, GENERATOR))
  {
  }

  lemma PlusLaws(a: bv32, b: bv32, c: bv32)
    ensures Plus(Plus(a, b), c) == Plus(a, Plus(b, c))
    ensures Plus(a, b) == Plus(b, a)
    ensures Plus(Plus(a, a), b) == b
  {
  }

  lemma PlusRearrange(a: bv32, b: bv32, c: bv32, d: bv32)
    ensures Plus(Plus(a, b), Plus(c, d)) == Plus(Plus(a, c), Plus(b, d))
  {
    hide Plus;
    PlusLaws(a, b, Plus(c, d));
    PlusLaws(b, c, d);
    PlusLaws(c, b, d);
    PlusLaws(a, c, Plus(b, d));
  }

  lemma ReduceIsSum(r: bv32, p: bool)
    ensures Reduce(r, p) == Plus(Double(r), Pick(p, GENERATOR))
  {
  }

  lemma ReducePlus(r: bv32, s: bv32, p: bool, q: bool)
    ensures Reduce(Plus(r, s), p != q) == Plus(Reduce(r, p), Reduce(s, q))
  {
    hide Plus, Double, Reduce, Pick;
    ReduceIsSum(r, p);
    ReduceIsSum(s, q);
    ReduceIsSum(Plus(r, s), p != q);
    DoublePlus(r, s);
    PickPlus(p, q);
    PlusRearrange(Double(r), Double(s), Pick(p, GENERATOR), Pick(q, GENERATOR));
  }

  lemma ShiftInPlus(r: bv32, s: bv32, b: bool, c: bool)
    ensures ShiftIn(Plus(r, s), b != c) == Plus(ShiftIn(r, b), ShiftIn(s, c))
  {
    hide Top, Reduce, Plus;
    TopPlus(r, s);
    ReducePlus(r, s, Top(r) != b, Top(s) != c);
  }

  lemma {:induction false} FeedPlus(r: bv32, s: bv32, a: seq<bool>, b: seq<bool>)
    requires |a| == |b|
    ensures Feed(Plus(r, s), XorBits(a, b)) == Plus(Feed(r, a), Feed(s, b))
    decreases a
  {
    hide ShiftIn, Plus;
    if a != [] {
      ShiftInPlus(r, s, a[0], b[0]);
      FeedPlus(ShiftIn(r, a[0]), ShiftIn(s, b[0]), a[1..], b[1..]);
      assert XorBits(a, b)[1..] == XorBits(a[1..], b[1..]);
    }
  }

  function PlusByte(a: bv8, b: bv8): bv8 {
    a ^ b
  }

  function High(b: bv8): bv8 {
    b >> 4
  }

  lemma BitPlus(a: bv8, b: bv8, mask: bv8)
    requires mask == 1 || mask == 2 || mask == 4 || mask == 8
    ensures Bit(PlusByte(a, b), mask) == (Bit(a, mask) != Bit(b, mask))
  {
  }

  lemma NibbleBitsPlus(a: bv8, b: bv8)
    ensures NibbleBits(PlusByte(a, b)) == XorBits(NibbleBits(a), NibbleBits(b))
  {
    hide Bit, PlusByte;
    BitPlus(a, b, 1);
    BitPlus(a, b, 2);
    BitPlus(a, b, 4);
    BitPlus(a, b, 8);
  }

  lemma HighPlus(a: bv8, b: bv8)
    ensures High(PlusByte(a, b)) == PlusByte(High(a), High(b))
  {
  }

  lemma ByteBitsByHalves(b: bv8)
    ensures ByteBits(b) == NibbleBits(b) + NibbleBits(High(b))
  {
    hide NibbleBits;
  }

  lemma ByteBitsPlus(a: bv8, b: bv8)
    ensures |ByteBits(a)| == |ByteBits(b)| == 8
    ensures ByteBits(PlusByte(a, b)) == XorBits(ByteBits(a), ByteBits(b))
  {
    hide ByteBits, NibbleBits, PlusByte, High;
    ByteBitsByHalves(a);
    ByteBitsByHalves(b);
    ByteBitsByHalves(PlusByte(a, b));
    NibbleBitsPlus(a, b);
    NibbleBitsPlus(High(a), High(b));
    HighPlus(a, b);
  }

  /** Two frames of one length added byte by byte. */
  function XorFrames(a: seq<bv8>, b: seq<bv8>): (c: seq<bv8>)
    requires |a| == |b|
    ensures |c| == |a| && forall i :: 0 <= i < |c| ==> c[i] == PlusByte(a[i], b[i])
  {
    seq(|a|, i requires 0 <= i < |a| => PlusByte(a[i], b[i]))
  }

  lemma {:induction false} FrameBitsPlus(a: seq<bv8>, b: seq<bv8>)
    requires |a| == |b|
    ensures FrameBits(XorFrames(a, b)) == XorBits(FrameBits(a), FrameBits(b))
  {
    hide ByteBits, PlusByte;
    if a != [] {
      var n := |a| - 1;
      FrameBitsPlus(a[..n], b[..n]);
      ByteBitsPlus(a[n], b[n]);
      assert XorFrames(a, b)[..n] == XorFrames(a[..n], b[..n]);
    }
  }

  /** The driver's CRC is affine over the frames of one length: the CRC of a sum is the
      sum of the CRCs and the CRC of the all-zero frame. */
  lemma CrcAffine(a: seq<bv8>, b: seq<bv8>, zero: seq<bv8>)
    requires |a| == |b| == |zero|
    requires forall i :: 0 <= i < |zero| ==> zero[i] == 0
    ensures Crc(XorFrames(a, b)) == Plus(Plus(Crc(a), Crc(b)), Crc(zero))
  {
    assert XorFrames(a, a) == zero;
    FrameBitsPlus(a, b);
    FrameBitsPlus(a, a);
    var x, y := FrameBits(a), FrameBits(b);
    assert XorBits(XorBits(x, y), XorBits(x, x)) == XorBits(x, y);
    FeedPlus(INITIAL, INITIAL, x, y);
    FeedPlus(Plus(INITIAL, INITIAL), INITIAL, XorBits(x, y), XorBits(x, x));
    assert Plus(Plus(INITIAL, INITIAL), INITIAL) == INITIAL;
    hide Plus, PlusByte;
  }

  // ----- the register as a polynomial of degree below 32 -----

  function Zeros(n: nat): (z: seq<bool>)
    ensures |z| == n && forall i :: 0 <= i < n ==> !z[i]
  {
    seq(n, _ => false)
  }

  /** The n leading bits of a register, highest first. */
  function Leading(r: bv32, n: nat): (bits: seq<bool>)
    ensures |bits| == n
    decreases n
  {
    if n == 0 then [] else [Top(r)] + Leading(Double(r), n - 1)
  }

  function Register(r: bv32): (bits: seq<bool>)
    ensures |bits| == 32
  {
    Leading(r, 32)
  }

  /** The generator without its leading term, highest coefficient first. */
  function Tail(): (bits: seq<bool>)
    ensures |bits| == 32
  {
    Register(GENERATOR)
  }

  function Doubled(r: bv32, n: nat): bv32
    decreases n
  {
    if n == 0 then r else Doubled(Double(r), n - 1)
  }

  lemma {:induction false} LeadingPlus(r: bv32, s: bv32, n: nat)
    ensures Leading(Plus(r, s), n) == XorBits(Leading(r, n), Leading(s, n))
    decreases n
  {
    hide Top, Plus, Double;
    if n > 0 {
      TopPlus(r, s);
      DoublePlus(r, s);
      LeadingPlus(Double(r), Double(s), n - 1);
    }
  }

  lemma {:induction false} LeadingOneMore(r: bv32, n: nat)
    ensures Leading(r, n + 1) == Leading(r, n) + [Top(Doubled(r, n))]
    decreases n
  {
    hide Top, Double;
    if n > 0 {
      LeadingOneMore(Double(r), n - 1);
    }
  }

  lemma DoubledEight(r: bv32)
    ensures Double(Double(Double(Double(Double(Double(Double(Double(r)))))))) == r << 8
  {
  }

  lemma {:induction false} DoubledAdd(r: bv32, m: nat, n: nat)
    ensures Doubled(r, m + n) == Doubled(Doubled(r, m), n)
    decreases m
  {
    hide Double;
    if m > 0 {
      DoubledAdd(Double(r), m - 1, n);
    }
  }

  lemma DoubledByEight(r: bv32)
    ensures Doubled(r, 8) == r << 8
  {
    DoubledEight(r);
    hide Double;
    assert Doubled(r, 8) == Doubled(Double(r), 7) == Doubled(Double(Double(r)), 6)
        == Doubled(Double(Double(Double(r))), 5) == Doubled(Double(Double(Double(Double(r)))), 4);
    assert Doubled(Double(Double(Double(Double(r)))), 4) == Doubled(Double(Double(Double(Double(Double(r))))), 3);
  }

  /** Thirty-two shifts empty the register. */
  lemma DoubledOut(r: bv32)
    ensures Doubled(r, 32) == 0
  {
    hide Doubled;
    var r8 := r << 8;
    var r16 := r8 << 8;
    var r24 := r16 << 8;
    DoubledByEight(r);
    DoubledByEight(r8);
    DoubledByEight(r16);
    DoubledByEight(r24);
    DoubledAdd(r, 8, 24);
    DoubledAdd(r8, 8, 16);
    DoubledAdd(r16, 8, 8);
    assert r24 << 8 == 0;
  }

  lemma {:induction false} LeadingSplit(r: bv32, m: nat, n: nat)
    ensures Leading(r, m + n) == Leading(r, m) + Leading(Doubled(r, m), n)
    decreases m
  {
    hide Top, Double;
    if m > 0 {
      LeadingSplit(Double(r), m - 1, n);
    }
  }

  lemma LeadingFour(r: bv32)
    ensures Leading(r, 4) == [Top(r), Top(Double(r)), Top(Double(Double(r))), Top(Double(Double(Double(r))))]
    ensures Doubled(r, 4) == Double(Double(Double(Double(r))))
  {
    hide Top, Double;
    assert Leading(r, 4) == [Top(r)] + Leading(Double(r), 3) && Doubled(r, 4) == Doubled(Double(r), 3);
    assert Leading(Double(r), 3) == [Top(Double(r))] + Leading(Double(Double(r)), 2) &&
           Doubled(Double(r), 3) == Doubled(Double(Double(r)), 2);
    assert Leading(Double(Double(r)), 2) == [Top(Double(Double(r)))] + Leading(Double(Double(Double(r))), 1) &&
           Doubled(Double(Double(r)), 2) == Doubled(Double(Double(Double(r))), 1);
    assert Leading(Double(Double(Double(r))), 1) ==
           [Top(Double(Double(Double(r))))] + Leading(Double(Double(Double(Double(r)))), 0) &&
           Doubled(Double(Double(Double(r))), 1) == Doubled(Double(Double(Double(Double(r)))), 0);
  }

  lemma LeadingEight(r: bv32)
    ensures Leading(r, 8) == [Top(r), Top(Double(r)), Top(Double(Double(r))), Top(Double(Double(Double(r)))),
                              Top(Double(Double(Double(Double(r))))), Top(Double(Double(Double(Double(Double(r)))))),
                              Top(Double(Double(Double(Double(Double(Double(r))))))),
                              Top(Double(Double(Double(Double(Double(Double(Double(r))))))))]
  {
    hide Top, Double, Leading, Doubled;
    LeadingFour(r);
    LeadingFour(Double(Double(Double(Double(r)))));
    LeadingSplit(r, 4, 4);
  }

  lemma TopsOfEight(r: bv32)
    ensures Top(r) == (r & 0x80000000 != 0)
    ensures Top(Double(r)) == (r & 0x40000000 != 0)
    ensures Top(Double(Double(r))) == (r & 0x20000000 != 0)
    ensures Top(Double(Double(Double(r)))) == (r & 0x10000000 != 0)
    ensures Top(Double(Double(Double(Double(r))))) == (r & 0x08000000 != 0)
    ensures Top(Double(Double(Double(Double(Double(r)))))) == (r & 0x04000000 != 0)
    ensures Top(Double(Double(Double(Double(Double(Double(r))))))) == (r & 0x02000000 != 0)
    ensures Top(Double(Double(Double(Double(Double(Double(Double(r)))))))) == (r & 0x01000000 != 0)
  {
  }

  lemma RegisterByBytes(r: bv32, r8: bv32, r16: bv32, r24: bv32)
    requires r8 == Doubled(r, 8) && r16 == Doubled(r8, 8) && r24 == Doubled(r16, 8)
    ensures Register(r) == Leading(r, 8) + Leading(r8, 8) + Leading(r16, 8) + Leading(r24, 8)
  {
    hide Leading, Doubled;
    LeadingSplit(r, 8, 24);
    LeadingSplit(r8, 8, 16);
    LeadingSplit(r16, 8, 8);
  }

  lemma OnesByte(r: bv32)
    requires r & 0xFF00_0000 == 0xFF00_0000
    ensures Leading(r, 8) == [true, true, true, true, true, true, true, true]
  {
    TopsOfEight(r);
    LeadingEight(r);
    hide Leading, Top, Double;
  }

  lemma RegisterDouble(r: bv32)
    ensures Register(Double(r)) == Register(r)[1..] + [false]
  {
    DoubledOut(r);
    assert !Top(0);
    hide Double, Top;
    assert Doubled(r, 32) == Doubled(Double(r), 31);
    LeadingOneMore(Double(r), 31);
  }

  lemma {:induction false} LeadingZero(n: nat)
    ensures Leading(0, n) == Zeros(n)
  {
    if n > 0 {
      assert Double(0) == 0;
      LeadingZero(n - 1);
    }
  }

  // ----- the register step on polynomials -----

  /** Multiplication by x modulo the generator, with the incoming bit added at the top. */
  function Step(r: seq<bool>, bit: bool): (s: seq<bool>)
    requires |r| == 32
    ensures |s| == 32
  {
    XorBits(r[1..] + [false], if r[0] != bit then Tail() else Zeros(32))
  }

  function Steps(r: seq<bool>, bits: seq<bool>): (s: seq<bool>)
    requires |r| == 32
    ensures |s| == 32
    decreases bits
  {
    if bits == [] then r else Steps(Step(r, bits[0]), bits[1..])
  }

  lemma RegisterShiftIn(r: bv32, bit: bool)
    ensures Register(ShiftIn(r, bit)) == Step(Register(r), bit)
  {
    hide Double, Plus, Top, Pick, Reduce;
    ReduceIsSum(r, Top(r) != bit);
    LeadingPlus(Double(r), Pick(Top(r) != bit, GENERATOR), 32);
    RegisterDouble(r);
    PickRegister(Top(r) != bit);
  }

  lemma PickRegister(p: bool)
    ensures Register(Pick(p, GENERATOR)) == if p then Tail() else Zeros(32)
  {
    LeadingZero(32);
  }

  lemma {:induction false} RegisterFeed(r: bv32, bits: seq<bool>)
    ensures Register(Feed(r, bits)) == Steps(Register(r), bits)
    decreases bits
  {
    hide ShiftIn, Register, Step;
    if bits != [] {
      RegisterShiftIn(r, bits[0]);
      RegisterFeed(ShiftIn(r, bits[0]), bits[1..]);
    }
  }

  lemma {:induction false} StepsAppend(r: seq<bool>, a: seq<bool>, b: seq<bool>)
    requires |r| == 32
    ensures Steps(r, a + b) == Steps(Steps(r, a), b)
    decreases a
  {
    hide Step;
    if a == [] {
      assert a + b == b;
    } else {
      assert (a + b)[1..] == a[1..] + b;
      StepsAppend(Step(r, a[0]), a[1..], b);
    }
  }

  // ----- the CRC is a remainder -----

  /** Textbook division by the generator: while the dividend is longer than a remainder,
      clear its leading term by adding the generator there. */
  function Remainder(dividend: seq<bool>): (rest: seq<bool>)
    requires |dividend| >= 32
    ensures |rest| == 32
    decreases |dividend|
  {
    if |dividend| == 32 then dividend
    else if dividend[0] then Remainder(XorBits(dividend[1..33], Tail()) + dividend[33..])
    else Remainder(dividend[1..])
  }

  /** The dividend that a register r and the message bits still to come stand for. */
  function Dividend(r: seq<bool>, message: seq<bool>): (d: seq<bool>)
    requires |r| == 32
    ensures |d| == |message| + 32
  {
    XorBits(r + Zeros(|message|), message + Zeros(32))
  }

  /** One shift of the register is one division step on its dividend. */
  lemma DivisionStep(r: seq<bool>, message: seq<bool>)
    requires |r| == 32 && message != []
    ensures Dividend(r, message)[0] == (r[0] != message[0])
    ensures Dividend(Step(r, message[0]), message[1..]) ==
            var d := Dividend(r, message);
            if d[0] then XorBits(d[1..33], Tail()) + d[33..] else d[1..]
  {
    hide Tail, Dividend, Step;
    var d, e := Dividend(r, message), Dividend(Step(r, message[0]), message[1..]);
    var f := if d[0] then XorBits(d[1..33], Tail()) + d[33..] else d[1..];
    DividendAt(r, message, 0);
    forall i | 0 <= i < |e| ensures e[i] == f[i] {
      DividendAt(r, message, i + 1);
      DividendAt(Step(r, message[0]), message[1..], i);
      if i < 32 {
        StepAt(r, message[0], i);
      }
    }
  }

  lemma DividendAt(r: seq<bool>, message: seq<bool>, i: nat)
    requires |r| == 32 && i < |message| + 32
    ensures Dividend(r, message)[i] == ((i < 32 && r[i]) != (i < |message| && message[i]))
  {
    assert (r + Zeros(|message|))[i] == (i < 32 && r[i]);
    assert (message + Zeros(32))[i] == (i < |message| && message[i]);
  }

  lemma StepAt(r: seq<bool>, bit: bool, i: nat)
    requires |r| == 32 && i < 32
    ensures Step(r, bit)[i] == ((i < 31 && r[i + 1]) != (r[0] != bit && Tail()[i]))
  {
    hide Tail;
    assert (r[1..] + [false])[i] == (i < 31 && r[i + 1]);
  }

  lemma {:induction false} StepsIsRemainder(r: seq<bool>, message: seq<bool>)
    requires |r| == 32
    ensures Steps(r, message) == Remainder(Dividend(r, message))
    decreases message
  {
    if message == [] {
      assert Dividend(r, message) == r;
    } else {
      hide Tail, Dividend, Step, XorBits;
      DivisionStep(r, message);
      StepsIsRemainder(Step(r, message[0]), message[1..]);
    }
  }

  /** The message with its first 32 coefficients complemented, times x^32. */
  function CrcDividend(frame: seq<bv8>): (d: seq<bool>)
    ensures |d| == 8 * |frame| + 32
  {
    var bits := FrameBits(frame);
    XorBits(bits + Zeros(32), seq(32, _ => true) + Zeros(|bits|))
  }

  /** The driver's CRC is the remainder that IEEE 802.3 asks for, before complementing. */
  lemma CrcIsRemainder(frame: seq<bv8>)
    ensures Register(Crc(frame)) == Remainder(CrcDividend(frame))
  {
    hide Register, Remainder, Steps, Feed;
    var bits := FrameBits(frame);
    InitialRegister();
    RegisterFeed(INITIAL, bits);
    StepsIsRemainder(Register(INITIAL), bits);
    assert Dividend(Register(INITIAL), bits) == CrcDividend(frame);
  }

  lemma InitialRegister()
    ensures Register(INITIAL) == seq(32, _ => true)
  {
    hide Leading, Register;
    DoubledByEight(INITIAL);
    DoubledByEight(INITIAL << 8);
    DoubledByEight(INITIAL << 16);
    RegisterByBytes(INITIAL, INITIAL << 8, INITIAL << 16, INITIAL << 24);
    OnesByte(INITIAL);
    OnesByte(INITIAL << 8);
    OnesByte(INITIAL << 16);
    OnesByte(INITIAL << 24);
  }

  // ----- bursts -----

  lemma {:induction false} StepsXor(r: seq<bool>, s: seq<bool>, a: seq<bool>, b: seq<bool>)
    requires |r| == |s| == 32 && |a| == |b|
    ensures Steps(XorBits(r, s), XorBits(a, b)) == XorBits(Steps(r, a), Steps(s, b))
    decreases a
  {
    hide Tail, Step;
    if a != [] {
      StepXor(r, s, a[0], b[0]);
      StepsXor(Step(r, a[0]), Step(s, b[0]), a[1..], b[1..]);
      assert XorBits(a, b)[1..] == XorBits(a[1..], b[1..]);
    }
  }

  lemma StepXor(r: seq<bool>, s: seq<bool>, a: bool, b: bool)
    requires |r| == |s| == 32
    ensures Step(XorBits(r, s), a != b) == XorBits(Step(r, a), Step(s, b))
  {
    hide Tail;
  }

  /** Feeding at most 32 bits is adding them at the top and then feeding zeros. */
  lemma {:induction false} StepsOfBurst(r: seq<bool>, burst: seq<bool>)
    requires |r| == 32 && |burst| <= 32
    ensures Steps(r, burst) == Steps(XorBits(r, burst + Zeros(32 - |burst|)), Zeros(|burst|))
    decreases burst
  {
    hide Tail, Step;
    var packed := XorBits(r, burst + Zeros(32 - |burst|));
    if burst == [] {
      assert packed == r;
    } else {
      var rest := burst[1..];
      StepsOfBurst(Step(r, burst[0]), rest);
      StepOfBurst(r, burst);
      assert Zeros(|burst|)[1..] == Zeros(|rest|);
    }
  }

  lemma StepOfBurst(r: seq<bool>, burst: seq<bool>)
    requires |r| == 32 && 0 < |burst| <= 32
    ensures Step(XorBits(r, burst + Zeros(32 - |burst|)), false) ==
            XorBits(Step(r, burst[0]), burst[1..] + Zeros(33 - |burst|))
  {
    hide Tail;
  }

  /** The generator has a constant term, so a non-zero register never becomes zero. */
  lemma {:induction false} StepsOfZeros(r: seq<bool>, n: nat)
    requires |r| == 32 && Steps(r, Zeros(n)) == Zeros(32)
    ensures r == Zeros(32)
    decreases n
  {
    hide Step;
    if n > 0 {
      assert Zeros(n)[1..] == Zeros(n - 1);
      StepsOfZeros(Step(r, false), n - 1);
      OnlyZeroStepsToZero(r);
    }
  }

  lemma OnlyZeroStepsToZero(r: seq<bool>)
    requires |r| == 32 && Step(r, false) == Zeros(32)
    ensures r == Zeros(32)
  {
    TailHasConstantTerm();
    hide Tail;
    var shifted, zeros := r[1..] + [false], Zeros(32);
    assert Step(r, false)[31] == r[0];
    assert Step(r, false) == XorBits(shifted, zeros);
    forall i | 1 <= i < 32 ensures r[i] == zeros[i] {
      assert XorBits(shifted, zeros)[i - 1] == (shifted[i - 1] != zeros[i - 1]);
    }
  }

  lemma TailHasConstantTerm()
    ensures Tail()[31]
  {
    DoubledByEight(GENERATOR);
    DoubledByEight(GENERATOR << 8);
    DoubledByEight(GENERATOR << 16);
    RegisterByBytes(GENERATOR, GENERATOR << 8, GENERATOR << 16, GENERATOR << 24);
    TopsOfEight(GENERATOR << 24);
    LeadingEight(GENERATOR << 24);
    hide Leading, Register, Top, Double;
  }

  lemma {:induction false} StepsStayZero(n: nat)
    ensures Steps(Zeros(32), Zeros(n)) == Zeros(32)
    decreases n
  {
    hide Tail;
    if n > 0 {
      assert Zeros(n)[1..] == Zeros(n - 1);
      assert Step(Zeros(32), false) == Zeros(32);
      StepsStayZero(n - 1);
    }
  }

  /** A non-zero burst of at most 32 bits never leaves the register at zero. */
  lemma BurstLeavesTrace(before: nat, burst: seq<bool>, after: nat)
    requires |burst| <= 32
    requires Steps(Zeros(32), Zeros(before) + burst + Zeros(after)) == Zeros(32)
    ensures burst == Zeros(|burst|)
  {
    hide Steps, Step, Tail;
    StepsAppend(Zeros(32), Zeros(before) + burst, Zeros(after));
    StepsAppend(Zeros(32), Zeros(before), burst);
    StepsStayZero(before);
    StepsOfZeros(Steps(Zeros(32), burst), after);
    StepsOfBurst(Zeros(32), burst);
    var packed := XorBits(Zeros(32), burst + Zeros(32 - |burst|));
    StepsOfZeros(packed, |burst|);
    assert forall i :: 0 <= i < |burst| ==> packed[i] == burst[i];
  }

  /** The bits of two frames agree outside the window of `width` bits from `start`. */
  ghost predicate DifferWithin(a: seq<bv8>, b: seq<bv8>, start: nat, width: nat)
    requires |a| == |b|
  {
    start + width <= 8 * |a| &&
    forall i :: 0 <= i < 8 * |a| && !(start <= i < start + width) ==> FrameBits(a)[i] == FrameBits(b)[i]
  }

  /** Frames of one length that differ, but only within 32 consecutive bits, have different CRCs. */
  lemma BurstDetected(a: seq<bv8>, b: seq<bv8>, start: nat, width: nat)
    requires |a| == |b| && width <= 32 && DifferWithin(a, b, start, width)
    requires a != b
    ensures Crc(a) != Crc(b)
  {
    hide Register, Steps, Step, Feed, ByteBits;
    var x, y := FrameBits(a), FrameBits(b);
    if Crc(a) == Crc(b) {
      RegisterFeed(INITIAL, x);
      RegisterFeed(INITIAL, y);
      StepsXor(Register(INITIAL), Register(INITIAL), x, y);
      assert XorBits(Register(INITIAL), Register(INITIAL)) == Zeros(32);
      assert XorBits(Register(Crc(a)), Register(Crc(b))) == Zeros(32);
      var d := XorBits(x, y);
      var burst := d[start..start + width];
      var after := |d| - start - width;
      assert d == Zeros(start) + burst + Zeros(after);
      BurstLeavesTrace(start, burst, after);
      assert x == y by {
        forall i | 0 <= i < |x| ensures x[i] == y[i] {
          if start <= i < start + width {
            assert d[i] == burst[i - start];
          }
        }
      }
      FrameBitsInjective(a, b);
    }
  }

  lemma ByteBitsInjective(a: bv8, b: bv8)
    requires ByteBits(a) == ByteBits(b)
    ensures a == b
  {
    hide NibbleBits;
    assert NibbleBits(a) == ByteBits(a)[..4] && NibbleBits(a >> 4) == ByteBits(a)[4..];
    assert NibbleBits(b) == ByteBits(b)[..4] && NibbleBits(b >> 4) == ByteBits(b)[4..];
    EqualNibbles(a, b);
    EqualNibbles(a >> 4, b >> 4);
    EqualBytes(a, b);
  }

  lemma EqualNibbles(a: bv8, b: bv8)
    requires NibbleBits(a) == NibbleBits(b)
    ensures a & 15 == b & 15
  {
    EqualMasks(a, b) by {
      hide Bit;
      var x, y := NibbleBits(a), NibbleBits(b);
      assert x[0] == y[0] && x[1] == y[1] && x[2] == y[2] && x[3] == y[3];
    }
  }

  lemma EqualMasks(a: bv8, b: bv8)
    requires Bit(a, 1) == Bit(b, 1) && Bit(a, 2) == Bit(b, 2) && Bit(a, 4) == Bit(b, 4) && Bit(a, 8) == Bit(b, 8)
    ensures a & 15 == b & 15
  {
  }

  lemma EqualBytes(a: bv8, b: bv8)
    requires a & 15 == b & 15 && (a >> 4) & 15 == (b >> 4) & 15
    ensures a == b
  {
  }

  lemma {:induction false} FrameBitsInjective(a: seq<bv8>, b: seq<bv8>)
    requires |a| == |b| && FrameBits(a) == FrameBits(b)
    ensures a == b
    decreases a
  {
    if a != [] {
      hide ByteBits;
      var n := |a| - 1;
      ByteBitsLength(a[n]);
      ByteBitsLength(b[n]);
      assert FrameBits(a[..n]) == FrameBits(a)[..8 * n] && ByteBits(a[n]) == FrameBits(a)[8 * n..];
      assert FrameBits(b[..n]) == FrameBits(b)[..8 * n] && ByteBits(b[n]) == FrameBits(b)[8 * n..];
      FrameBitsInjective(a[..n], b[..n]);
      ByteBitsInjective(a[n], b[n]);
      assert a == a[..n] + [a[n]] && b == b[..n] + [b[n]];
    }
  }

  lemma ByteBitsLength(a: bv8)
    ensures |ByteBits(a)| == 8
  {
  }
}
