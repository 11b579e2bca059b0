/** crc8 and crc16 of the FLAC writer: byte-wise loops proved against polynomial division. */
module Checksum {
  import opened Gf2
  import opened Octets

  // x^8 + x^2 + x + 1 and x^16 + x^12 + x^5 + 1, without their leading terms
  const POLY8: Bits := [false, false, false, false, false, true, true, true]
  const POLY16: Bits := [false, false, false, true, false, false, false, false,
                         false, false, true, false, false, false, false, true]

  function Mask(i: nat): bv8 {
    if i == 0 then 0x80 else if i == 1 then 0x40 else if i == 2 then 0x20 else if i == 3 then 0x10
    else if i == 4 then 0x08 else if i == 5 then 0x04 else if i == 6 then 0x02 else 0x01
  }

  predicate Bit(v: bv8, i: nat) { v & Mask(i) != 0 }

  /** The bits of a byte, highest first. */
  function BitsOf8(v: bv8): (b: Bits)
    ensures |b| == 8 && forall i :: 0 <= i < 8 ==> b[i] == Bit(v, i)
  {
    seq(8, i requires 0 <= i < 8 => Bit(v, i))
  }

  function OfBits8(b: Bits): bv8
    requires |b| == 8
  {
    (if b[0] then 0x80 else 0) | (if b[1] then 0x40 else 0) | (if b[2] then 0x20 else 0) | (if b[3] then 0x10 else 0)
    | (if b[4] then 0x08 else 0) | (if b[5] then 0x04 else 0) | (if b[6] then 0x02 else 0) | (if b[7] then 0x01 else 0)
  }

  function High(v: bv16): bv8 { (v >> 8) as bv8 }
  function Low(v: bv16): bv8 { (v & 0xFF) as bv8 }
  function Join(hi: bv8, lo: bv8): bv16 { ((hi as bv16) << 8) | (lo as bv16) }

  function BitsOf16(v: bv16): (b: Bits)
    ensures |b| == 16
  {
    BitsOf8(High(v)) + BitsOf8(Low(v))
  }

  function OfBits16(b: Bits): bv16
    requires |b| == 16
  {
    Join(OfBits8(b[..8]), OfBits8(b[8..]))
  }

  lemma OfBitsOf8(v: bv8)
    ensures OfBits8(BitsOf8(v)) == v
  {
  }

  lemma BitsOfBits8(b: Bits)
    requires |b| == 8
    ensures BitsOf8(OfBits8(b)) == b
  {
    forall i | 0 <= i < 8 ensures Bit(OfBits8(b), i) == b[i] {
    }
  }

  lemma SplitJoin(v: bv16, hi: bv8, lo: bv8)
    ensures Join(High(v), Low(v)) == v && High(Join(hi, lo)) == hi && Low(Join(hi, lo)) == lo
  {
  }

  lemma OfBitsOf16(v: bv16)
    ensures OfBits16(BitsOf16(v)) == v
  {
    assert BitsOf16(v)[..8] == BitsOf8(High(v)) && BitsOf16(v)[8..] == BitsOf8(Low(v));
    OfBitsOf8(High(v));
    OfBitsOf8(Low(v));
    SplitJoin(v, 0, 0);
  }

  lemma BitsOfBits16(b: Bits)
    requires |b| == 16
    ensures BitsOf16(OfBits16(b)) == b
  {
    var hi, lo := OfBits8(b[..8]), OfBits8(b[8..]);
    SplitJoin(0, hi, lo);
    BitsOfBits8(b[..8]);
    BitsOfBits8(b[8..]);
    assert b[..8] + b[8..] == b;
  }

  lemma XorMask(a: bv8, b: bv8, m: bv8)
    requires m in {0x80, 0x40, 0x20, 0x10, 0x08, 0x04, 0x02, 0x01}
    ensures ((a ^ b) & m != 0) == ((a & m != 0) != (b & m != 0))
  {
  }

  lemma XorBits8(a: bv8, b: bv8)
    ensures BitsOf8(a ^ b) == Xor(BitsOf8(a), BitsOf8(b))
  {
    forall i | 0 <= i < 8 ensures Bit(a ^ b, i) == (Bit(a, i) != Bit(b, i)) {
      XorMask(a, b, Mask(i));
    }
  }

  lemma XorHalves(a: bv16, b: bv16)
    ensures High(a ^ b) == High(a) ^ High(b) && Low(a ^ b) == Low(a) ^ Low(b)
  {
  }

  lemma XorBits16(a: bv16, b: bv16)
    ensures BitsOf16(a ^ b) == Xor(BitsOf16(a), BitsOf16(b))
  {
    XorHalves(a, b);
    XorBits8(High(a), High(b));
    XorBits8(Low(a), Low(b));
    XorConcat(BitsOf8(High(a)), BitsOf8(Low(a)), BitsOf8(High(b)), BitsOf8(Low(b)));
  }

  function Octet(v: bv8): byte { v as int }

  lemma OctetBits(v: bv8)
    ensures Octet(v) as bv8 == v
  {
  }

  /** The message polynomial of a byte string, first byte first. */
  function Message(data: seq<byte>): (m: Bits)
    ensures |m| == 8 * |data|
  {
    if data == [] then [] else Message(data[..|data| - 1]) + BitsOf8(data[|data| - 1] as bv8)
  }

  /** The checksums by definition: the remainder of message times x^8 (x^16). */
  function Crc8(data: seq<byte>): bv8 { OfBits8(Run(POLY8, Zeros(8), Message(data))) }
  function Crc16(data: seq<byte>): bv16 { OfBits16(Run(POLY16, Zeros(16), Message(data))) }

  // ----- The loops -----

  lemma ShiftBit(c: bv8, carry: bv8, i: nat)
    requires i < 8
    ensures Bit((c << 1) | (carry >> 7), i) == if i < 7 then Bit(c, i + 1) else Bit(carry, 0)
  {
  }

  lemma ShiftBits8(c: bv8, carry: bv8)
    ensures BitsOf8((c << 1) | (carry >> 7)) == BitsOf8(c)[1..] + [BitsOf8(carry)[0]]
  {
    var b := BitsOf8((c << 1) | (carry >> 7));
    forall i | 0 <= i < 8 ensures b[i] == (BitsOf8(c)[1..] + [BitsOf8(carry)[0]])[i] {
      ShiftBit(c, carry, i);
    }
  }

  lemma ShiftHalves(c: bv16)
    ensures High(c << 1) == (High(c) << 1) | (Low(c) >> 7)
    ensures Low(c << 1) == (Low(c) << 1) | (0 >> 7)
    ensures c & 0x8000 != 0 <==> Bit(High(c), 0)
  {
  }

  lemma Generators()
    ensures BitsOf8(0x07) == POLY8 && BitsOf16(0x1021) == POLY16
    ensures BitsOf8(0) == Zeros(8) && BitsOf16(0) == Zeros(16)
  {
    assert High(0x1021) == 0x10 && Low(0x1021) == 0x21 && High(0) == 0 && Low(0) == 0;
    assert BitsOf8(0x10) == POLY16[..8] && BitsOf8(0x21) == POLY16[8..];
  }

  lemma Shift8(crc: bv8)
    ensures BitsOf8(if crc & 0x80 != 0 then (crc << 1) ^ 0x07 else crc << 1) == Step(POLY8, BitsOf8(crc), false)
  {
    XorBits8(crc << 1, 0x07);
    Generators();
    ShiftBits8(crc, 0);
    assert (crc << 1) | (0 >> 7) == crc << 1;
    assert BitsOf8(crc)[0] == Bit(crc, 0);
  }

  lemma Shift16(crc: bv16)
    ensures BitsOf16(if crc & 0x8000 != 0 then (crc << 1) ^ 0x1021 else crc << 1) == Step(POLY16, BitsOf16(crc), false)
  {
    Generators();
    XorBits16(crc << 1, 0x1021);
    ShiftBits16(crc);
  }

  lemma ShiftBits16(c: bv16)
    ensures BitsOf16(c << 1) == BitsOf16(c)[1..] + [false]
    ensures BitsOf16(c)[0] == (c & 0x8000 != 0)
  {
    var hi, lo := BitsOf8(High(c)), BitsOf8(Low(c));
    ShiftHalves(c);
    ShiftBits8(High(c), Low(c));
    ShiftBits8(Low(c), 0);
    assert (hi + lo)[1..] == hi[1..] + lo;
    assert hi[1..] + [lo[0]] + lo[1..] == hi[1..] + lo;
    assert BitsOf8(0)[0] == false;
  }

  lemma Load8(crc: bv8, b: bv8)
    ensures BitsOf8(crc ^ b) == Xor(BitsOf8(crc), BitsOf8(b) + Zeros(0))
  {
    XorBits8(crc, b);
    assert BitsOf8(b) + Zeros(0) == BitsOf8(b);
  }

  lemma Load16(crc: bv16, b: bv8)
    ensures BitsOf16(crc ^ ((b as bv16) << 8)) == Xor(BitsOf16(crc), BitsOf8(b) + Zeros(8))
  {
    XorBits16(crc, (b as bv16) << 8);
    assert High((b as bv16) << 8) == b && Low((b as bv16) << 8) == 0;
    Generators();
  }

  lemma NextZero(lo: Bits, r: Bits, i: nat)
    requires |lo| == |r| >= 1
    ensures Run(lo, r, Zeros(i + 1)) == Step(lo, Run(lo, r, Zeros(i)), false)
  {
    assert Zeros(i + 1)[..i] == Zeros(i);
  }

  lemma NothingRun(lo: Bits)
    requires |lo| >= 1
    ensures Run(lo, Zeros(|lo|), Message([])) == Zeros(|lo|)
    ensures forall r: Bits :: |r| == |lo| ==> Run(lo, r, Zeros(0)) == r
  {
  }

  method ComputeCrc8(data: seq<byte>) returns (crc: bv8)
    ensures crc == Crc8(data)
  {
    hide BitsOf8;
    hide OfBits8;
    hide Run;
    hide Message;
    NothingRun(POLY8);
    crc := 0;
    Generators();
    var n := 0;
    while n < |data|
      invariant 0 <= n <= |data|
      invariant BitsOf8(crc) == Run(POLY8, Zeros(8), Message(data[..n]))
    {
      Load8(crc, data[n] as bv8);
      crc := crc ^ (data[n] as bv8);
      ghost var loaded := BitsOf8(crc);
      for i := 0 to 8
        invariant BitsOf8(crc) == Run(POLY8, loaded, Zeros(i))
      {
        Shift8(crc);
        NextZero(POLY8, loaded, i);
        if crc & 0x80 != 0 {
          crc := (crc << 1) ^ 0x07;
        } else {
          crc := crc << 1;
        }
      }
      TakeBits(POLY8, Message(data[..n]), BitsOf8(data[n] as bv8));
      MessageNext(data, n);
      n := n + 1;
    }
    assert data[..n] == data;
    OfBitsOf8(crc);
  }

  method ComputeCrc16(data: seq<byte>) returns (crc: bv16)
    ensures crc == Crc16(data)
  {
    hide BitsOf8;
    hide BitsOf16;
    hide OfBits16;
    hide Run;
    hide Message;
    NothingRun(POLY16);
    crc := 0;
    Generators();
    var n := 0;
    while n < |data|
      invariant 0 <= n <= |data|
      invariant BitsOf16(crc) == Run(POLY16, Zeros(16), Message(data[..n]))
    {
      Load16(crc, data[n] as bv8);
      crc := crc ^ (((data[n] as bv8) as bv16) << 8);
      ghost var loaded := BitsOf16(crc);
      for i := 0 to 8
        invariant BitsOf16(crc) == Run(POLY16, loaded, Zeros(i))
      {
        Shift16(crc);
        NextZero(POLY16, loaded, i);
        if crc & 0x8000 != 0 {
          crc := (crc << 1) ^ 0x1021;
        } else {
          crc := crc << 1;
        }
      }
      TakeBits(POLY16, Message(data[..n]), BitsOf8(data[n] as bv8));
      MessageNext(data, n);
      n := n + 1;
    }
    assert data[..n] == data;
    OfBitsOf16(crc);
  }

  /** Loading a few bits and clocking in as many zeros extends the divided message by them. */
  lemma TakeBits(lo: Bits, m: Bits, b: Bits)
    requires |lo| >= 1 && |b| <= |lo|
    ensures Run(lo, Xor(Run(lo, Zeros(|lo|), m), b + Zeros(|lo| - |b|)), Zeros(|b|)) == Run(lo, Zeros(|lo|), m + b)
  {
    RunConcat(lo, Zeros(|lo|), m, b);
    LoadThenShift(lo, Run(lo, Zeros(|lo|), m), b);
  }

  lemma MessageNext(data: seq<byte>, n: nat)
    requires n < |data|
    ensures Message(data[..n + 1]) == Message(data[..n]) + BitsOf8(data[n] as bv8)
  {
    assert data[..n + 1][..n] == data[..n];
  }

  // ----- What the checksums promise -----

  /** A byte is the checksum exactly when its bits are the remainder of the division. */
  lemma Crc8IsRemainder(data: seq<byte>, c: bv8)
    ensures c == Crc8(data) <==> IsRemainder(POLY8, Message(data), BitsOf8(c))
  {
    RegisterIsRemainder(POLY8, Message(data), BitsOf8(c));
    OfBitsOf8(c);
    BitsOfBits8(Run(POLY8, Zeros(8), Message(data)));
  }

  lemma Crc16IsRemainder(data: seq<byte>, c: bv16)
    ensures c == Crc16(data) <==> IsRemainder(POLY16, Message(data), BitsOf16(c))
  {
    RegisterIsRemainder(POLY16, Message(data), BitsOf16(c));
    OfBitsOf16(c);
    BitsOfBits16(Run(POLY16, Zeros(16), Message(data)));
  }

  function Raw(b: byte): bv8 { b as bv8 }

  /** `c` is the byte-wise exclusive or of `a` and `b`. */
  ghost predicate IsXor(c: seq<byte>, a: seq<byte>, b: seq<byte>) {
    |a| == |b| == |c| && forall i :: 0 <= i < |a| ==> Raw(c[i]) == Raw(a[i]) ^ Raw(b[i])
  }

  lemma {:induction false} MessageXor(c: seq<byte>, a: seq<byte>, b: seq<byte>)
    requires IsXor(c, a, b)
    ensures Message(c) == Xor(Message(a), Message(b))
  {
    if a != [] {
      var n := |a| - 1;
      MessageXor(c[..n], a[..n], b[..n]);
      XorBits8(Raw(a[n]), Raw(b[n]));
      XorConcat(Message(a[..n]), BitsOf8(Raw(a[n])), Message(b[..n]), BitsOf8(Raw(b[n])));
    }
  }

  lemma MessageOfOne(data: seq<byte>, v: bv8)
    ensures Message(data + [Octet(v)]) == Message(data) + BitsOf8(v)
  {
    OctetBits(v);
    assert (data + [Octet(v)])[..|data|] == data;
  }

  lemma Crc8Linear(c: seq<byte>, a: seq<byte>, b: seq<byte>)
    requires IsXor(c, a, b)
    ensures Crc8(c) == Crc8(a) ^ Crc8(b)
  {
    MessageXor(c, a, b);
    var z := Zeros(8);
    RunIsLinear(POLY8, z, Message(a), z, Message(b));
    assert Xor(z, z) == z;
    BitsOfBits8(Run(POLY8, z, Message(a)));
    BitsOfBits8(Run(POLY8, z, Message(b)));
    XorBits8(Crc8(a), Crc8(b));
    OfBitsOf8(Crc8(a) ^ Crc8(b));
  }

  lemma Crc16Linear(c: seq<byte>, a: seq<byte>, b: seq<byte>)
    requires IsXor(c, a, b)
    ensures Crc16(c) == Crc16(a) ^ Crc16(b)
  {
    MessageXor(c, a, b);
    var z := Zeros(16);
    RunIsLinear(POLY16, z, Message(a), z, Message(b));
    assert Xor(z, z) == z;
    OfXor16(Run(POLY16, z, Message(a)), Run(POLY16, z, Message(b)));
  }

  lemma OfXor16(a: Bits, b: Bits)
    requires |a| == |b| == 16
    ensures OfBits16(Xor(a, b)) == OfBits16(a) ^ OfBits16(b)
  {
    hide OfBits16;
    hide BitsOf16;
    hide Xor;
    BitsOfBits16(a);
    BitsOfBits16(b);
    XorOfBits16(OfBits16(a), OfBits16(b), a, b);
  }

  lemma XorOfBits16(x: bv16, y: bv16, a: Bits, b: Bits)
    requires |a| == |b| == 16 && BitsOf16(x) == a && BitsOf16(y) == b
    ensures OfBits16(Xor(a, b)) == x ^ y
  {
    hide OfBits16;
    hide BitsOf16;
    hide Xor;
    XorBits16(x, y);
    OfBitsOf16(x ^ y);
  }

  /** A message followed by its own checksum has checksum zero, and no other byte does that. */
  lemma Crc8Residue(data: seq<byte>, c: bv8)
    ensures Crc8(data + [Octet(c)]) == 0 <==> c == Crc8(data)
  {
    MessageOfOne(data, c);
    BitResidue(POLY8, Message(data), BitsOf8(c));
    var r, x := Run(POLY8, Zeros(8), Message(data)), Run(POLY8, Zeros(8), Message(data) + BitsOf8(c));
    BitsOfBits8(r);
    BitsOfBits8(x);
    OfBitsOf8(c);
    OfBitsOf8(0);
    Generators();
  }

  lemma Crc16Residue(data: seq<byte>, c: bv16)
    ensures Crc16(data + [Octet(High(c)), Octet(Low(c))]) == 0 <==> c == Crc16(data)
  {
    hide Run;
    hide Message;
    hide OfBits16;
    hide BitsOf8;
    MessageOfTwo(data, High(c), Low(c));
    assert Message(data) + BitsOf8(High(c)) + BitsOf8(Low(c)) == Message(data) + BitsOf16(c);
    BitResidue(POLY16, Message(data), BitsOf16(c));
    var r, x := Run(POLY16, Zeros(16), Message(data)), Run(POLY16, Zeros(16), Message(data) + BitsOf16(c));
    BitsOfBits16(r);
    BitsOfBits16(x);
    OfBitsOf16(c);
    OfBitsOf16(0);
    Generators();
  }

  lemma MessageOfTwo(data: seq<byte>, a: bv8, b: bv8)
    ensures Message(data + [Octet(a), Octet(b)]) == Message(data) + BitsOf8(a) + BitsOf8(b)
  {
    assert data + [Octet(a), Octet(b)] == (data + [Octet(a)]) + [Octet(b)];
    MessageOfOne(data, a);
    MessageOfOne(data + [Octet(a)], b);
  }

  lemma BitResidue(lo: Bits, m: Bits, c: Bits)
    requires |lo| == |c| >= 1 && lo[|lo| - 1]
    ensures Run(lo, Zeros(|lo|), m + c) == Zeros(|lo|) <==> c == Run(lo, Zeros(|lo|), m)
  {
    var r := Run(lo, Zeros(|lo|), m);
    RunConcat(lo, Zeros(|lo|), m, c);
    LoadThenShift(lo, r, c);
    assert c + Zeros(0) == c;
    ResidueZero(lo, r, c);
  }

  /** Shifting zeros through the register empties it only if it was empty. */
  lemma ResidueZero(lo: Bits, r: Bits, c: Bits)
    requires |lo| == |r| == |c| >= 1 && lo[|lo| - 1]
    ensures Run(lo, Xor(r, c), Zeros(|lo|)) == Zeros(|lo|) <==> r == c
  {
    var x := Xor(r, c);
    if r == c {
      assert x == Zeros(|lo|);
      ZerosKeepZero(lo, |lo|);
    } else {
      var k :| 0 <= k < |r| && r[k] != c[k];
      assert x[k];
      ZerosKeepNonZero(lo, x, |lo|);
    }
  }

  /** Any error burst within one register width changes the checksum of a message of any length. */
  lemma Crc8DetectsBurst(a: seq<byte>, b: seq<byte>, at: nat)
    requires DifferInBurst(Message(a), Message(b), at, 8)
    ensures Crc8(a) != Crc8(b)
  {
    BurstChangesRemainder(POLY8, Message(a), Message(b), at);
    BitsOfBits8(Run(POLY8, Zeros(8), Message(a)));
    BitsOfBits8(Run(POLY8, Zeros(8), Message(b)));
  }

  lemma Crc16DetectsBurst(a: seq<byte>, b: seq<byte>, at: nat)
    requires DifferInBurst(Message(a), Message(b), at, 16)
    ensures Crc16(a) != Crc16(b)
  {
    BurstChangesRemainder(POLY16, Message(a), Message(b), at);
    BitsOfBits16(Run(POLY16, Zeros(16), Message(a)));
    BitsOfBits16(Run(POLY16, Zeros(16), Message(b)));
  }

  // ----- Where the frame checksum departs from section 9.3 of RFC 9639 -----

  /** The register takes in a single bit after zeros. */
  lemma SingleBit(lo: Bits, k: nat)
    requires |lo| >= 1
    ensures Run(lo, Zeros(|lo|), Zeros(k) + [true]) == lo
  {
    hide Zeros;
    hide Xor;
    hide Step;
    var m := Zeros(k) + [true];
    ZerosKeepZero(lo, k);
    assert m[..k] == Zeros(k);
    ZerosTakeBit(lo);
  }

  lemma ZerosTakeBit(lo: Bits)
    requires |lo| >= 1
    ensures Step(lo, Zeros(|lo|), true) == lo
  {
    hide Zeros;
    hide Xor;
    var z := Zeros(|lo|);
    assert z[1..] + [false] == z;
    assert Xor(z, lo) == lo;
  }

  /** The byte 1 has checksum 0x1021, where the polynomial x^16+x^15+x^2+1 of section 9.3 gives 0x8005. */
  lemma Crc16Departs()
    ensures Crc16([1]) == 0x1021
    ensures IsRemainder(BitsOf16(0x8005), Message([1]), BitsOf16(0x8005))
    ensures !IsRemainder(BitsOf16(0x8005), Message([1]), BitsOf16(Crc16([1])))
  {
    hide BitsOf16;
    hide OfBits16;
    OneIsSingleBit();
    Generators();
    SingleBit(POLY16, 7);
    SingleBit(BitsOf16(0x8005), 7);
    OfBitsOf16(0x1021);
    OfBitsOf16(0x8005);
    RegisterIsRemainder(BitsOf16(0x8005), Message([1]), BitsOf16(0x8005));
    RegisterIsRemainder(BitsOf16(0x8005), Message([1]), BitsOf16(0x1021));
  }

  lemma OneIsSingleBit()
    ensures Message([1]) == Zeros(7) + [true]
  {
    assert [1][..0] == [];
    assert Message([1]) == Message([]) + BitsOf8(1);
    assert forall i :: 0 <= i < 8 ==> Bit(1, i) == (i == 7);
  }
}
