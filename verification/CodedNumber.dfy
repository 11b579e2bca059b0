/** The coded frame number of a FLAC frame header (section 9.1.5 of RFC 9639). */
module CodedNumber {
  import opened Octets
  import opened Wrappers

  /** `encodeUTF8Uint64`; each `prefix | bits` of the source is a sum here, the two sharing no bit. */
  function Encode(v: nat): (r: Option<seq<byte>>)
    ensures r.Some? <==> v <= 0xF_FFFF_FFFF
  {
    if v <= 0x7F then Some([v])
    else if v <= 0x7FF then Some([0xC0 + v / 0x40, Continuation(v)])
    else if v <= 0xFFFF then Some([0xE0 + v / 0x1000, Continuation(v / 0x40), Continuation(v)])
    else if v <= 0x1F_FFFF then
      Some([0xF0 + v / 0x4_0000, Continuation(v / 0x1000), Continuation(v / 0x40), Continuation(v)])
    else if v <= 0x3FF_FFFF then
      Some([0xF8 + v / 0x100_0000, Continuation(v / 0x4_0000), Continuation(v / 0x1000),
            Continuation(v / 0x40), Continuation(v)])
    else if v <= 0x7FFF_FFFF then
      Some([0xFC + v / 0x4000_0000, Continuation(v / 0x100_0000), Continuation(v / 0x4_0000),
            Continuation(v / 0x1000), Continuation(v / 0x40), Continuation(v)])
    else if v <= 0xF_FFFF_FFFF then
      Some([0xFE, Continuation(v / 0x4000_0000), Continuation(v / 0x100_0000), Continuation(v / 0x4_0000),
            Continuation(v / 0x1000), Continuation(v / 0x40), Continuation(v)])
    else None
  }

  function Continuation(v: nat): byte { 0x80 + v % 0x40 }

  // ----- The decoder: leading byte first, then six bits per continuation byte -----

  datatype Lead = Lead(bits: nat, tail: nat)

  function DecodeLead(n: byte): Option<Lead> {
    if n < 0x80 then Some(Lead(n, 0))
    else if n < 0xC0 then None
    else if n < 0xE0 then Some(Lead(n - 0xC0, 1))
    else if n < 0xF0 then Some(Lead(n - 0xE0, 2))
    else if n < 0xF8 then Some(Lead(n - 0xF0, 3))
    else if n < 0xFC then Some(Lead(n - 0xF8, 4))
    else if n < 0xFE then Some(Lead(n - 0xFC, 5))
    else if n == 0xFE then Some(Lead(0, 6))
    else None
  }

  function DecodeTail(acc: nat, t: seq<byte>): Option<nat>
    decreases |t|
  {
    if t == [] then Some(acc)
    else
      var b := t[0];
      if 0x80 <= b < 0xC0 then DecodeTail(acc * 0x40 + (b - 0x80), t[1..]) else None
  }

  datatype Number = Number(value: nat, length: nat)

  /** Reads one coded number off the front of `s`. Overlong forms are accepted. */
  function Decode(s: seq<byte>): (r: Option<Number>)
    ensures r.Some? ==> 1 <= r.value.length <= |s| && r.value.length <= 7
  {
    if s == [] then None
    else
      match DecodeLead(s[0])
      case None => None
      case Some(l) =>
        if |s| < 1 + l.tail then None
        else
          var v := DecodeTail(l.bits, s[1..1 + l.tail]);
          if v.Some? then Some(Number(v.value, 1 + l.tail)) else None
  }

  // ----- Round trip -----

  ghost function Pow64(k: nat): (p: nat)
    ensures p > 0
  {
    if k == 0 then 1 else if k == 1 then 0x40 else if k == 2 then 0x1000 else if k == 3 then 0x4_0000
    else if k == 4 then 0x100_0000 else if k == 5 then 0x4000_0000 else 0x10_0000_0000
  }

  /** The k low six-bit groups of v, highest first. */
  ghost function Tail(v: nat, k: nat): (t: seq<byte>)
    ensures |t| == k
  {
    if k == 0 then [] else [Continuation(v / Pow64(k - 1))] + Tail(v, k - 1)
  }

  lemma {:induction false} TailDecodes(v: nat, k: nat)
    requires k <= 6
    ensures DecodeTail(v / Pow64(k), Tail(v, k)) == Some(v)
  {
    if k > 0 {
      TailDecodes(v, k - 1);
      assert v / Pow64(k) == (v / Pow64(k - 1)) / 0x40;
      assert Tail(v, k)[1..] == Tail(v, k - 1);
    }
  }

  ghost function TailLength(v: nat): nat {
    if v <= 0x7F then 0 else if v <= 0x7FF then 1 else if v <= 0xFFFF then 2 else if v <= 0x1F_FFFF then 3
    else if v <= 0x3FF_FFFF then 4 else if v <= 0x7FFF_FFFF then 5 else 6
  }

  lemma EncodeShape(v: nat)
    requires v <= 0xF_FFFF_FFFF
    ensures var e, k := Encode(v).value, TailLength(v);
      |e| == 1 + k && e[1..] == Tail(v, k) && DecodeLead(e[0]) == Some(Lead(v / Pow64(k), k))
  {
    var e, k := Encode(v).value, TailLength(v);
    EncodeLead(v);
    forall i | 0 <= i < k ensures e[1..][i] == Tail(v, k)[i] {
      TailAt(v, k, i);
      EncodeTail(v, i);
    }
  }

  lemma EncodeLead(v: nat)
    requires v <= 0xF_FFFF_FFFF
    ensures var e, k := Encode(v).value, TailLength(v); |e| == 1 + k && DecodeLead(e[0]) == Some(Lead(v / Pow64(k), k))
  {
  }

  lemma EncodeTail(v: nat, i: nat)
    requires v <= 0xF_FFFF_FFFF && i < TailLength(v)
    ensures Encode(v).value[i + 1] == Continuation(v / Pow64(TailLength(v) - 1 - i))
  {
  }

  lemma {:induction false} TailAt(v: nat, k: nat, i: nat)
    requires i < k
    ensures Tail(v, k)[i] == Continuation(v / Pow64(k - 1 - i))
  {
    if i > 0 {
      TailAt(v, k - 1, i - 1);
    }
  }

  /** Reversible and self-delimiting: whatever follows the encoding, exactly it is read back. */
  lemma DecodeEncode(v: nat, rest: seq<byte>)
    requires v <= 0xF_FFFF_FFFF
    ensures Decode(Encode(v).value + rest) == Some(Number(v, |Encode(v).value|))
  {
    var e, k := Encode(v).value, TailLength(v);
    EncodeShape(v);
    TailDecodes(v, k);
    assert (e + rest)[1..1 + k] == e[1..];
  }

  /** No encoding is the beginning of another number's encoding. */
  lemma PrefixFree(v: nat, w: nat, rest: seq<byte>)
    requires v <= 0xF_FFFF_FFFF && w <= 0xF_FFFF_FFFF
    requires Encode(v).value + rest == Encode(w).value
    ensures v == w && rest == []
  {
    DecodeEncode(v, rest);
    DecodeEncode(w, []);
    assert Encode(w).value + [] == Encode(w).value;
  }

  lemma {:induction false} TailBounds(acc: nat, t: seq<byte>)
    requires DecodeTail(acc, t).Some? && |t| <= 6
    ensures acc * Pow64(|t|) <= DecodeTail(acc, t).value < (acc + 1) * Pow64(|t|)
    decreases |t|
  {
    if t != [] {
      var d := t[0] - 0x80;
      var p := Pow64(|t| - 1);
      TailBounds(acc * 0x40 + d, t[1..]);
      assert Pow64(|t|) == 0x40 * p;
      DigitBounds(acc, d, p);
    }
  }

  lemma DigitBounds(acc: nat, d: nat, p: nat)
    requires d < 0x40
    ensures acc * (0x40 * p) <= (acc * 0x40 + d) * p
    ensures (acc * 0x40 + d + 1) * p <= (acc + 1) * (0x40 * p)
  {
    assert (acc * 0x40 + d) * p == acc * (0x40 * p) + d * p;
    assert (acc * 0x40 + d + 1) * p + (0x3F - d) * p == (acc + 1) * (0x40 * p);
    assert d * p >= 0 && (0x3F - d) * p >= 0;
  }

  /** Every byte string that reads as v, overlong ones included, is at least as long as its encoding;
      in particular nothing above the range can be read at all. */
  lemma EncodeIsShortest(s: seq<byte>)
    requires Decode(s).Some?
    ensures Encode(Decode(s).value.value).Some?
    ensures |Encode(Decode(s).value.value).value| <= Decode(s).value.length
  {
    var l := DecodeLead(s[0]).value;
    TailBounds(l.bits, s[1..1 + l.tail]);
    assert l.tail == 6 ==> l.bits == 0;
  }
}
