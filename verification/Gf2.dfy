/** Polynomials over GF(2), written as bit strings with the highest power first,
    and the shift register that divides by one of them. */
module Gf2 {

  type Bits = seq<bool>

  function Zeros(n: nat): (z: Bits)
    ensures |z| == n && forall i :: 0 <= i < n ==> !z[i]
  {
    seq(n, _ => false)
  }

  /** Addition of polynomials of the same length. */
  function Xor(a: Bits, b: Bits): (c: Bits)
    requires |a| == |b|
    ensures |c| == |a| && forall i :: 0 <= i < |c| ==> c[i] == (a[i] != b[i])
  {
    seq(|a|, i requires 0 <= i < |a| => a[i] != b[i])
  }

  lemma XorConcat(a: Bits, b: Bits, c: Bits, d: Bits)
    requires |a| == |c| && |b| == |d|
    ensures Xor(a + b, c + d) == Xor(a, c) + Xor(b, d)
  {
  }

  /** One row of schoolbook multiplication: shift the partial product and add the row for `bit`. */
  function AddRow(p: Bits, bit: bool, g: Bits): (p': Bits)
    requires 1 <= |g| <= |p| + 1
    ensures |p'| == |p| + 1
    ensures forall i :: 0 <= i < |p'| ==>
      p'[i] == ((if i < |p| then p[i] else false) != (bit && i >= |p'| - |g| && g[i - (|p'| - |g|)]))
  {
    var k := |p| + 1 - |g|;
    seq(|p| + 1, i requires 0 <= i <= |p| => (if i < |p| then p[i] else false) != (bit && i >= k && g[i - k]))
  }

  /** Schoolbook product of `q` and `g`. */
  function Mul(q: Bits, g: Bits): (p: Bits)
    requires |g| >= 1
    ensures |p| == |q| + |g| - 1
  {
    if q == [] then Zeros(|g| - 1) else AddRow(Mul(q[..|q| - 1], g), q[|q| - 1], g)
  }

  /** The generator x^w + lo, where w is the length of `lo`. */
  function Generator(lo: Bits): Bits { [true] + lo }

  /** `r` is a remainder of m * x^w divided by the generator: m followed by r is a multiple of it. */
  ghost predicate IsRemainder(lo: Bits, m: Bits, r: Bits) {
    |r| == |lo| && exists q: Bits :: |q| == |m| && Mul(q, Generator(lo)) == m + r
  }

  /** One clock of the division register, taking in the message bit `b`. */
  function Step(lo: Bits, r: Bits, b: bool): (r': Bits)
    requires |lo| == |r| >= 1
    ensures |r'| == |r|
  {
    var s := r[1..] + [false];
    if r[0] != b then Xor(s, lo) else s
  }

  function Run(lo: Bits, r: Bits, m: Bits): (r': Bits)
    requires |lo| == |r| >= 1
    ensures |r'| == |r|
  {
    if m == [] then r else Step(lo, Run(lo, r, m[..|m| - 1]), m[|m| - 1])
  }

  /** The quotient bits: what the register feeds back at each clock. */
  ghost function Quotient(lo: Bits, m: Bits): (q: Bits)
    requires |lo| >= 1
    ensures |q| == |m|
  {
    if m == [] then []
    else
      var n := |m| - 1;
      Quotient(lo, m[..n]) + [Run(lo, Zeros(|lo|), m[..n])[0] != m[n]]
  }

  // ----- The register computes the remainder, and the remainder is unique -----

  /** One clock of the register is one row of the long division. */
  lemma DivisionRow(lo: Bits, m: Bits, r: Bits, b: bool)
    requires |lo| == |r| >= 1
    ensures AddRow(m + r, r[0] != b, Generator(lo)) == m + [b] + Step(lo, r, b)
  {
    hide AddRow;
    hide Xor;
    var g := Generator(lo);
    var p, q := AddRow(m + r, r[0] != b, g), m + [b] + Step(lo, r, b);
    forall i | 0 <= i < |p| ensures p[i] == q[i] {
      if i < |m| {
        assert (m + r)[i] == m[i];
      } else if i == |m| {
        assert (m + r)[i] == r[0] && g[0];
      } else {
        var k := i - |m| - 1;
        assert q[i] == Step(lo, r, b)[k] && g[k + 1] == lo[k];
        assert k < |r| - 1 ==> (m + r)[i] == r[k + 1];
      }
    }
  }

  lemma {:induction false} RegisterDivides(lo: Bits, m: Bits)
    requires |lo| >= 1
    ensures Mul(Quotient(lo, m), Generator(lo)) == m + Run(lo, Zeros(|lo|), m)
  {
    if m == [] {
      assert Quotient(lo, m) == [];
    } else {
      var n := |m| - 1;
      var q, r := Quotient(lo, m[..n]), Run(lo, Zeros(|lo|), m[..n]);
      RegisterDivides(lo, m[..n]);
      DivisionRow(lo, m[..n], r, m[n]);
      assert m[..n] + [m[n]] == m;
      var q' := Quotient(lo, m);
      assert q' == q + [r[0] != m[n]];
      assert q'[..n] == q;
      assert Mul(q', Generator(lo)) == AddRow(Mul(q, Generator(lo)), r[0] != m[n], Generator(lo));
    }
  }

  /** Without its last bit the quotient gives a product that starts with the message without its last bit; the bit
      itself is the next one of that product, plus the message bit. */
  lemma ShorterProduct(m: Bits, q: Bits, r: Bits, g: Bits)
    requires |g| >= 1 && |q| == |m| >= 1 && Mul(q, g) == m + r && |g| == |r| + 1 && g[0]
    ensures var n := |m| - 1; var p := Mul(q[..n], g);
      && |p| == n + |r| && p == m[..n] + p[n..]
      && q[n] == ((if r == [] then false else p[n..][0]) != m[n])
  {
    hide Mul;
    var n := |m| - 1;
    PrefixOfProduct(q, g);
    assert (m + r)[..n] == m[..n];
    assert (m + r)[n] == m[n];
    LastRow(q, g);
  }

  lemma LastRow(q: Bits, g: Bits)
    requires |g| >= 1 && |q| >= 1
    ensures Mul(q, g) == AddRow(Mul(q[..|q| - 1], g), q[|q| - 1], g)
  {
  }

  lemma {:induction false} QuotientUnique(lo: Bits, m: Bits, q1: Bits, r1: Bits, q2: Bits, r2: Bits)
    requires |lo| >= 1 && |q1| == |q2| == |m| && |r1| == |r2| == |lo|
    requires Mul(q1, Generator(lo)) == m + r1 && Mul(q2, Generator(lo)) == m + r2
    ensures q1 == q2 && r1 == r2
  {
    if m != [] {
      var n := |m| - 1;
      var g := Generator(lo);
      var p1, p2 := Mul(q1[..n], g), Mul(q2[..n], g);
      ShorterProduct(m, q1, r1, g);
      ShorterProduct(m, q2, r2, g);
      QuotientUnique(lo, m[..n], q1[..n], p1[n..], q2[..n], p2[n..]);
      assert q1 == q1[..n] + [q1[n]] && q2 == q2[..n] + [q2[n]];
    }
    assert r1 == (m + r1)[|m|..] && r2 == (m + r2)[|m|..];
  }

  lemma PrefixOfProduct(q: Bits, g: Bits)
    requires |g| >= 1 && |q| >= 1
    ensures Mul(q, g)[..|q| - 1] == Mul(q[..|q| - 1], g)[..|q| - 1]
  {
    var n := |q| - 1;
    var p := Mul(q[..n], g);
    assert Mul(q, g) == AddRow(p, q[n], g);
    AddRowPrefix(p, q[n], g);
  }

  lemma AddRowPrefix(p: Bits, bit: bool, g: Bits)
    requires 1 <= |g| <= |p| + 1
    ensures AddRow(p, bit, g)[..|p| + 1 - |g|] == p[..|p| + 1 - |g|]
  {
  }

  /** The register holds the remainder of m * x^w, and nothing else is a remainder. */
  lemma RegisterIsRemainder(lo: Bits, m: Bits, r: Bits)
    requires |lo| >= 1
    ensures IsRemainder(lo, m, r) <==> r == Run(lo, Zeros(|lo|), m)
  {
    RegisterDivides(lo, m);
    if IsRemainder(lo, m, r) {
      var q: Bits :| |q| == |m| && Mul(q, Generator(lo)) == m + r;
      QuotientUnique(lo, m, q, r, Quotient(lo, m), Run(lo, Zeros(|lo|), m));
    }
  }

  // ----- Linearity and its consequences -----

  lemma {:induction false} RunIsLinear(lo: Bits, r1: Bits, m1: Bits, r2: Bits, m2: Bits)
    requires |lo| == |r1| == |r2| >= 1 && |m1| == |m2|
    ensures Run(lo, Xor(r1, r2), Xor(m1, m2)) == Xor(Run(lo, r1, m1), Run(lo, r2, m2))
  {
    if m1 != [] {
      var n := |m1| - 1;
      RunIsLinear(lo, r1, m1[..n], r2, m2[..n]);
      assert Xor(m1, m2)[..n] == Xor(m1[..n], m2[..n]);
    }
  }

  lemma {:induction false} RunConcat(lo: Bits, r: Bits, a: Bits, b: Bits)
    requires |lo| == |r| >= 1
    ensures Run(lo, r, a + b) == Run(lo, Run(lo, r, a), b)
  {
    if b == [] {
      assert a + b == a;
    } else {
      RunConcat(lo, r, a, b[..|b| - 1]);
      assert (a + b)[..|a + b| - 1] == a + b[..|b| - 1];
    }
  }

  /** Feeding the register its own leading bits only shifts it. */
  lemma {:induction false} FeedOwnBits(lo: Bits, r: Bits, k: nat)
    requires |lo| == |r| >= 1 && k <= |r|
    ensures Run(lo, r, r[..k]) == r[k..] + Zeros(k)
  {
    if k > 0 {
      FeedOwnBits(lo, r, k - 1);
      assert r[..k][..k - 1] == r[..k - 1];
    }
  }

  /** Loading up to w message bits into the top of the register and then clocking in zeros
      has the same effect as taking the bits in one at a time. */
  lemma LoadThenShift(lo: Bits, r: Bits, b: Bits)
    requires |lo| == |r| >= 1 && |b| <= |r|
    ensures Run(lo, r, b) == Run(lo, Xor(r, b + Zeros(|r| - |b|)), Zeros(|b|))
  {
    var p := b + Zeros(|r| - |b|);
    FeedOwnBits(lo, p, |b|);
    assert p[..|b|] == b;
    assert p[|b|..] + Zeros(|b|) == Zeros(|r|);
    RunIsLinear(lo, Xor(r, p), Zeros(|b|), p, b);
    assert Xor(Xor(r, p), p) == r;
    assert Xor(Zeros(|b|), b) == b;
    var x := Run(lo, Xor(r, p), Zeros(|b|));
    assert Xor(x, Zeros(|r|)) == x;
  }

  ghost predicate NonZero(a: Bits) { exists i :: 0 <= i < |a| && a[i] }

  lemma {:induction false} ZerosKeepNonZero(lo: Bits, r: Bits, k: nat)
    requires |lo| == |r| >= 1 && lo[|lo| - 1] && NonZero(r)
    ensures NonZero(Run(lo, r, Zeros(k)))
  {
    if k > 0 {
      ZerosKeepNonZero(lo, r, k - 1);
      assert Zeros(k)[..k - 1] == Zeros(k - 1);
      var x := Run(lo, r, Zeros(k - 1));
      var y := Step(lo, x, false);
      assert Run(lo, r, Zeros(k)) == y;
      if x[0] {
        assert y[|y| - 1];
      } else {
        var i :| 0 <= i < |x| && x[i];
        assert y[i - 1];
      }
    }
  }

  lemma {:induction false} ZerosKeepZero(lo: Bits, k: nat)
    requires |lo| >= 1
    ensures Run(lo, Zeros(|lo|), Zeros(k)) == Zeros(|lo|)
  {
    if k > 0 {
      ZerosKeepZero(lo, k - 1);
      assert Zeros(k)[..k - 1] == Zeros(k - 1);
    }
  }

  /** A single burst no longer than the register leaves a non-zero remainder, wherever it falls. */
  lemma BurstHasRemainder(lo: Bits, i: nat, burst: Bits, j: nat)
    requires |lo| >= 1 && lo[|lo| - 1] && |burst| <= |lo| && NonZero(burst)
    ensures NonZero(Run(lo, Zeros(|lo|), Zeros(i) + burst + Zeros(j)))
  {
    var z := Zeros(|lo|);
    RunConcat(lo, z, Zeros(i) + burst, Zeros(j));
    RunConcat(lo, z, Zeros(i), burst);
    ZerosKeepZero(lo, i);
    ShortBurst(lo, burst);
    ZerosKeepNonZero(lo, Run(lo, z, burst), j);
  }

  lemma ShortBurst(lo: Bits, burst: Bits)
    requires |lo| >= 1 && lo[|lo| - 1] && |burst| <= |lo| && NonZero(burst)
    ensures NonZero(Run(lo, Zeros(|lo|), burst))
  {
    LoadThenShift(lo, Zeros(|lo|), burst);
    PaddedNonZero(burst, |lo|);
    ZerosKeepNonZero(lo, Xor(Zeros(|lo|), burst + Zeros(|lo| - |burst|)), |burst|);
  }

  lemma PaddedNonZero(burst: Bits, w: nat)
    requires |burst| <= w && NonZero(burst)
    ensures NonZero(Xor(Zeros(w), burst + Zeros(w - |burst|)))
  {
    var k :| 0 <= k < |burst| && burst[k];
    assert Xor(Zeros(w), burst + Zeros(w - |burst|))[k];
  }

  /** Two different messages of one length that agree outside a window no longer than the register. */
  ghost predicate DifferInBurst(a: Bits, b: Bits, at: nat, width: nat) {
    && |a| == |b| && a != b
    && forall k :: 0 <= k < |a| && !(at <= k < at + width) ==> a[k] == b[k]
  }

  /** The difference of two such messages: zeros around the window, and not all zeros in it. */
  lemma BurstShape(a: Bits, b: Bits, at: nat, width: nat)
    requires DifferInBurst(a, b, at, width)
    ensures at < |a|
    ensures var e := Xor(a, b); var end := if at + width <= |a| then at + width else |a|;
      e == Zeros(at) + e[at..end] + Zeros(|a| - end) && NonZero(e[at..end])
  {
    hide Xor;
    hide Zeros;
    var e := Xor(a, b);
    var k :| 0 <= k < |a| && a[k] != b[k];
    var end := if at + width <= |a| then at + width else |a|;
    assert e[at..end][k - at];
  }

  lemma BurstChangesRemainder(lo: Bits, a: Bits, b: Bits, at: nat)
    requires |lo| >= 1 && lo[|lo| - 1] && DifferInBurst(a, b, at, |lo|)
    ensures Run(lo, Zeros(|lo|), a) != Run(lo, Zeros(|lo|), b)
  {
    hide Run;
    hide Xor;
    var e := Xor(a, b);
    BurstShape(a, b, at, |lo|);
    var end := if at + |lo| <= |a| then at + |lo| else |a|;
    BurstHasRemainder(lo, at, e[at..end], |a| - end);
    RunIsLinear(lo, Zeros(|lo|), a, Zeros(|lo|), b);
    assert Xor(Zeros(|lo|), Zeros(|lo|)) == Zeros(|lo|);
  }
}
