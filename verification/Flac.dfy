/** The FLAC stream of a recording, and a decoder for it written from sections 8.2 and 9 of RFC 9639. */
module Flac {
  import opened Octets
  import opened Wrappers
  import Checksum
  import CodedNumber
  import Gf2

  const BLOCK: nat := 1024
  const MAX_FRAMES: nat := 0x10_0000_0000  // frame numbers have 36 bits

  // ----- Big-endian numbers -----

  function ToBe(x: nat, k: nat): (b: seq<byte>)
    ensures |b| == k
  {
    if k == 0 then [] else ToBe(x / 0x100, k - 1) + [x % 0x100]
  }

  function FromBe(b: seq<byte>): nat {
    if b == [] then 0 else FromBe(b[..|b| - 1]) * 0x100 + b[|b| - 1]
  }

  ghost function Pow256(k: nat): nat { if k == 0 then 1 else 0x100 * Pow256(k - 1) }

  lemma {:induction false} FromBeToBe(x: nat, k: nat)
    requires x < Pow256(k)
    ensures FromBe(ToBe(x, k)) == x
  {
    if k > 0 {
      FromBeToBe(x / 0x100, k - 1);
      assert ToBe(x, k)[..k - 1] == ToBe(x / 0x100, k - 1);
    }
  }

  lemma FromBeToBe2(x: nat)
    requires x < 0x1_0000
    ensures FromBe(ToBe(x, 2)) == x
  {
    assert Pow256(2) == 0x1_0000;
    FromBeToBe(x, 2);
  }

  // ----- Samples -----

  function Unsigned(s: int16): (u: nat)
    ensures u < 0x1_0000
  {
    if s < 0 then s + 0x1_0000 else s
  }

  function Signed(u: nat): int16
    requires u < 0x1_0000
  {
    if u < 0x8000 then u else u - 0x1_0000
  }

  function BigEndian(s: seq<int16>): (b: seq<byte>)
    ensures |b| == 2 * |s|
  {
    seq(2 * |s|, i requires 0 <= i < 2 * |s| =>
      if i % 2 == 0 then Unsigned(s[i / 2]) / 0x100 else Unsigned(s[i / 2]) % 0x100)
  }

  /** What the MD5 digest is fed. */
  function LittleEndian(s: seq<int16>): (b: seq<byte>)
    ensures |b| == 2 * |s|
  {
    seq(2 * |s|, i requires 0 <= i < 2 * |s| =>
      if i % 2 == 0 then Unsigned(s[i / 2]) % 0x100 else Unsigned(s[i / 2]) / 0x100)
  }

  function DecodeSamples(b: seq<byte>): (s: seq<int16>)
    requires |b| % 2 == 0
    ensures |s| == |b| / 2
  {
    seq(|b| / 2, i requires 0 <= i < |b| / 2 => var hi: int := b[2 * i]; Signed(hi * 0x100 + b[2 * i + 1]))
  }

  lemma SamplesRoundTrip(s: seq<int16>)
    ensures DecodeSamples(BigEndian(s)) == s
  {
  }

  /** Two bytes stand for a sample in two's complement. */
  predicate Stands(hi: int, lo: int, sample: int) { (0x100 * hi + lo - sample) % 0x1_0000 == 0 }

  /** `b` holds the samples low byte first. */
  ghost predicate LowByteFirst(b: seq<byte>, s: seq<int16>) {
    |b| == 2 * |s| && forall i :: 0 <= i < |s| ==> Stands(b[2 * i + 1], b[2 * i], s[i])
  }

  lemma LittleAt(s: seq<int16>, i: nat)
    requires i < |s|
    ensures LittleEndian(s)[2 * i] == Unsigned(s[i]) % 0x100 && LittleEndian(s)[2 * i + 1] == Unsigned(s[i]) / 0x100
  {
    assert (2 * i) % 2 == 0 && (2 * i) / 2 == i && (2 * i + 1) % 2 == 1 && (2 * i + 1) / 2 == i;
  }

  lemma LittleEndianIsLowFirst(s: seq<int16>)
    ensures LowByteFirst(LittleEndian(s), s)
  {
    hide Stands;
    hide Unsigned;
    hide LittleEndian;
    var d := LittleEndian(s);
    forall i | 0 <= i < |s| ensures Stands(d[2 * i + 1], d[2 * i], s[i]) {
      LittleAt(s, i);
      StandsExactly(d[2 * i + 1], d[2 * i], s[i]);
    }
  }

  /** The bytes fed to the digest are the samples low byte first, and no other bytes are. */
  lemma DigestBytes(b: seq<byte>, s: seq<int16>)
    ensures LowByteFirst(b, s) <==> b == LittleEndian(s)
  {
    hide Stands;
    hide Unsigned;
    hide LittleEndian;
    LittleEndianIsLowFirst(s);
    if LowByteFirst(b, s) {
      forall k | 0 <= k < |b| ensures b[k] == LittleEndian(s)[k] {
        var i := k / 2;
        assert k == 2 * i || k == 2 * i + 1;
        LittleAt(s, i);
        assert Stands(b[2 * i + 1], b[2 * i], s[i]);
        StandsExactly(b[2 * i + 1], b[2 * i], s[i]);
      }
    }
  }

  lemma StandsExactly(hi: byte, lo: byte, s: int16)
    ensures Stands(hi, lo, s) <==> hi == Unsigned(s) / 0x100 && lo == Unsigned(s) % 0x100
  {
    var h: int, u := hi, Unsigned(s);
    var x := 0x100 * h + lo;
    assert x == u <==> (x - s) % 0x1_0000 == 0;
    assert x / 0x100 == h && x % 0x100 == lo;
  }

  // ----- Frames -----

  /** `flacBlockSizeCode`: the code in the third header byte, and the bytes that follow the frame number. */
  datatype SizeCode = SizeCode(code: nat, extra: seq<byte>)

  function BlockSizeCode(n: int): (r: Option<SizeCode>)
    ensures r.Some? <==> 0 < n <= 0x1_0000
    ensures r.Some? ==> r.value.code in {6, 7, 10} && |r.value.extra| <= 2
  {
    if n <= 0 then None
    else if n == BLOCK then Some(SizeCode(0xA, []))
    else if n <= 0x100 then Some(SizeCode(0x6, [n - 1]))
    else if n <= 0x1_0000 then Some(SizeCode(0x7, ToBe(n - 1, 2)))
    else None
  }

  /** A frame can be written when its size and its number have a code. */
  predicate Encodable(k: nat, n: nat) { 0 < n <= 0x1_0000 && k < MAX_FRAMES }

  function Head(k: nat, n: nat): seq<byte>
    requires Encodable(k, n)
  {
    var c := BlockSizeCode(n).value;
    [0xFF, 0xF8, c.code * 0x10 + 0x0C, 0x08] + CodedNumber.Encode(k).value + c.extra + [8]
  }

  function Frame(k: nat, s: seq<int16>): seq<byte>
    requires Encodable(k, |s|)
  {
    var covered := Covered(k, s);
    var crc := Checksum.Crc16(covered);
    covered + [Checksum.Octet(Checksum.High(crc)), Checksum.Octet(Checksum.Low(crc))]
  }

  /** The part of a frame that its closing checksum covers. */
  function Covered(k: nat, s: seq<int16>): seq<byte>
    requires Encodable(k, |s|)
  {
    var h := Head(k, |s|);
    h + [Checksum.Octet(Checksum.Crc8(h))] + [0x02] + BigEndian(s)
  }

  // ----- The decoder -----

  datatype Header = Header(number: nat, size: nat, length: nat)
  datatype Block = Block(number: nat, samples: seq<int16>)
  datatype Parsed = Parsed(block: Block, length: nat)

  function Pow2(k: nat): nat { if k == 0 then 1 else 2 * Pow2(k - 1) }

  /** Section 9.1.1: the block size a code stands for; codes 6 and 7 read it from the header. */
  function DecodeSize(code: nat, s: seq<byte>): (r: Option<SizeAt>)
    ensures r.Some? ==> r.value.used <= |s|
  {
    if code == 1 then Some(SizeAt(192, 0))
    else if 2 <= code <= 5 then Some(SizeAt(576 * Pow2(code - 2), 0))
    else if code == 6 && |s| >= 1 then (var last: nat := s[0]; Some(SizeAt(last + 1, 1)))
    else if code == 7 && |s| >= 2 then Some(SizeAt(FromBe(s[..2]) + 1, 2))
    else if 8 <= code <= 15 then Some(SizeAt(256 * Pow2(code - 8), 0))
    else None
  }

  datatype SizeAt = SizeAt(size: nat, used: nat)

  /** The header up to and without its checksum: sync code, fixed block size, 8-bit kHz rate, mono, 16 bits. */
  function DecodeHeader(s: seq<byte>): (r: Option<Header>)
    ensures r.Some? ==> 5 <= r.value.length <= |s|
  {
    if |s| < 4 || s[0] != 0xFF || s[1] != 0xF8 || s[2] % 0x10 != 0x0C || s[3] != 0x08 then None
    else
      match CodedNumber.Decode(s[4..])
      case None => None
      case Some(k) =>
        var p := 4 + k.length;
        match DecodeSize(s[2] / 0x10, s[p..])
        case None => None
        case Some(z) =>
          var q := p + z.used;
          if q < |s| && s[q] == 8 then Some(Header(k.value, z.size, q + 1)) else None
  }

  /** One frame off the front of `s`, both checksums verified. */
  function DecodeFrame(s: seq<byte>): (r: Option<Parsed>)
    ensures r.Some? ==> 0 < r.value.length <= |s|
  {
    match DecodeHeader(s)
    case None => None
    case Some(h) =>
      var body := h.length + 2;
      var end := body + 2 * h.size;
      if end + 2 > |s| then None
      else if s[h.length] != Checksum.Octet(Checksum.Crc8(s[..h.length])) || s[h.length + 1] != 0x02 then None
      else if Checksum.Crc16(s[..end + 2]) != 0 then None
      else Some(Parsed(Block(h.number, DecodeSamples(s[body..end])), end + 2))
  }

  function DecodeFrames(s: seq<byte>): Option<seq<Block>>
    decreases |s|
  {
    if s == [] then Some([])
    else
      match DecodeFrame(s)
      case None => None
      case Some(p) =>
        match DecodeFrames(s[p.length..])
        case None => None
        case Some(rest) => Some([p.block] + rest)
  }

  lemma HeadRoundTrip(k: nat, n: nat, rest: seq<byte>)
    requires Encodable(k, n)
    ensures DecodeHeader(Head(k, n) + rest) == Some(Header(k, n, |Head(k, n)|))
  {
    hide CodedNumber.Encode;
    hide CodedNumber.Decode;
    hide DecodeSize;
    hide ToBe;
    var s, c, e := Head(k, n) + rest, BlockSizeCode(n).value, CodedNumber.Encode(k).value;
    CodedNumber.DecodeEncode(k, c.extra + [8] + rest);
    assert s[4..] == e + (c.extra + [8] + rest);
    var t := s[4 + |e|..];
    assert t == c.extra + ([8] + rest);
    SizeRoundTrip(n, [8] + rest);
    assert t[|c.extra|] == 8;
    assert (c.code * 0x10 + 0x0C) / 0x10 == c.code;
  }

  lemma SizeRoundTrip(n: nat, rest: seq<byte>)
    requires 0 < n <= 0x1_0000
    ensures var c := BlockSizeCode(n).value; DecodeSize(c.code, c.extra + rest) == Some(SizeAt(n, |c.extra|))
  {
    var c := BlockSizeCode(n).value;
    if c.code == 10 {
      assert Pow2(2) == 4;
    } else if c.code == 7 {
      FromBeToBe2(n - 1);
      assert (c.extra + rest)[..2] == c.extra;
    }
  }

  /** A written frame reads back as its number and samples, whatever follows it. */
  lemma FrameRoundTrip(k: nat, b: seq<int16>, rest: seq<byte>)
    requires Encodable(k, |b|)
    ensures DecodeFrame(Frame(k, b) + rest) == Some(Parsed(Block(k, b), |Frame(k, b)|))
  {
    hide Head;
    hide Checksum.Crc8;
    hide Checksum.Crc16;
    hide DecodeHeader;
    var f, h, c := Frame(k, b), Head(k, |b|), Covered(k, b);
    var s := f + rest;
    assert s == h + s[|h|..];
    HeadRoundTrip(k, |b|, s[|h|..]);
    assert s[..|h|] == h;
    assert s[..|f|] == f;
    assert s[|h| + 2..|h| + 2 + 2 * |b|] == BigEndian(b);
    SamplesRoundTrip(b);
    Checksum.Crc16Residue(c, Checksum.Crc16(c));
  }

  /** A frame hit by one error burst of at most 16 bits, anywhere in it, is not accepted as a frame of its length. */
  lemma CorruptFrameRejected(k: nat, b: seq<int16>, g: seq<byte>, at: nat)
    requires Encodable(k, |b|)
    requires Gf2.DifferInBurst(Checksum.Message(Frame(k, b)), Checksum.Message(g), at, 16)
    ensures DecodeFrame(g) == None || DecodeFrame(g).value.length != |g|
  {
    hide Covered;
    hide Checksum.Crc16;
    hide Checksum.Message;
    hide DecodeFrame;
    Checksum.Crc16Residue(Covered(k, b), Checksum.Crc16(Covered(k, b)));
    Checksum.Crc16DetectsBurst(Frame(k, b), g, at);
    AcceptedFrameChecks(g);
    assert g[..|g|] == g;
  }

  lemma AcceptedFrameChecks(g: seq<byte>)
    ensures DecodeFrame(g).Some? ==> Checksum.Crc16(g[..DecodeFrame(g).value.length]) == 0
  {
    hide Checksum.Crc8;
    hide Checksum.Crc16;
    hide DecodeHeader;
    hide DecodeSamples;
  }

  // ----- The blocks of a recording -----

  function Blocks(n: nat): nat { (n + BLOCK - 1) / BLOCK }

  function BlockAt(s: seq<int16>, j: nat): (b: seq<int16>)
    requires j < Blocks(|s|)
    ensures 0 < |b| <= BLOCK
  {
    s[j * BLOCK..if (j + 1) * BLOCK <= |s| then (j + 1) * BLOCK else |s|]
  }

  /** The first m frames. */
  function Body(s: seq<int16>, m: nat): seq<byte>
    requires m <= Blocks(|s|) && m <= MAX_FRAMES
  {
    if m == 0 then [] else Body(s, m - 1) + Frame(m - 1, BlockAt(s, m - 1))
  }

  ghost function BlocksFrom(s: seq<int16>, j: nat): (bs: seq<Block>)
    requires j <= Blocks(|s|)
    decreases Blocks(|s|) - j
    ensures |bs| == Blocks(|s|) - j
    ensures forall i :: 0 <= i < |bs| ==> bs[i] == Block(j + i, BlockAt(s, j + i))
  {
    if j == Blocks(|s|) then [] else [Block(j, BlockAt(s, j))] + BlocksFrom(s, j + 1)
  }

  /** Frames j and later. */
  ghost function Suffix(s: seq<int16>, j: nat): seq<byte>
    requires j <= Blocks(|s|) <= MAX_FRAMES
    decreases Blocks(|s|) - j
  {
    if j == Blocks(|s|) then [] else Frame(j, BlockAt(s, j)) + Suffix(s, j + 1)
  }

  lemma {:induction false} BodyThenSuffix(s: seq<int16>, j: nat)
    requires j <= Blocks(|s|) <= MAX_FRAMES
    ensures Body(s, j) + Suffix(s, j) == Body(s, Blocks(|s|))
    decreases Blocks(|s|) - j
  {
    hide Frame;
    if j < Blocks(|s|) {
      BodyThenSuffix(s, j + 1);
      assert Body(s, j) + (Frame(j, BlockAt(s, j)) + Suffix(s, j + 1))
          == (Body(s, j) + Frame(j, BlockAt(s, j))) + Suffix(s, j + 1);
    } else {
      assert Body(s, j) + [] == Body(s, j);
    }
  }

  lemma {:induction false} SuffixDecodes(s: seq<int16>, j: nat)
    requires j <= Blocks(|s|) <= MAX_FRAMES
    ensures DecodeFrames(Suffix(s, j)) == Some(BlocksFrom(s, j))
    decreases Blocks(|s|) - j
  {
    hide Frame;
    hide DecodeFrame;
    if j < Blocks(|s|) {
      var f, rest := Frame(j, BlockAt(s, j)), Suffix(s, j + 1);
      SuffixDecodes(s, j + 1);
      FrameRoundTrip(j, BlockAt(s, j), rest);
      assert (f + rest)[|f|..] == rest;
    }
  }

  function Concat(bs: seq<Block>): seq<int16> {
    if bs == [] then [] else bs[0].samples + Concat(bs[1..])
  }

  lemma {:induction false} ConcatBlocks(s: seq<int16>, j: nat)
    requires j <= Blocks(|s|)
    ensures j * BLOCK <= |s| || j == Blocks(|s|)
    ensures Concat(BlocksFrom(s, j)) == if j * BLOCK <= |s| then s[j * BLOCK..] else []
    decreases Blocks(|s|) - j
  {
    if j < Blocks(|s|) {
      ConcatBlocks(s, j + 1);
      var bs := BlocksFrom(s, j);
      assert bs[1..] == BlocksFrom(s, j + 1);
      if (j + 1) * BLOCK <= |s| {
        assert s[j * BLOCK..(j + 1) * BLOCK] + s[(j + 1) * BLOCK..] == s[j * BLOCK..];
      }
    }
  }

  /** One frame more. */
  lemma BodyNext(s: seq<int16>, m: nat)
    requires m < Blocks(|s|) && m < MAX_FRAMES
    ensures Body(s, m + 1) == Body(s, m) + Frame(m, BlockAt(s, m))
    ensures SizesOf(s, m + 1) == Widen(SizesOf(s, m), |Frame(m, BlockAt(s, m))|, |BlockAt(s, m)|)
    ensures |BlockAt(s, m)| == if (m + 1) * BLOCK <= |s| then BLOCK else |s| - m * BLOCK
    ensures m * BLOCK <= |s|
  {
    hide Frame;
    hide Widen;
  }

  /** Frames already written do not depend on what is recorded afterwards. */
  lemma {:induction false} BodyStable(s: seq<int16>, t: seq<int16>, m: nat)
    requires m * BLOCK <= |s| && m <= MAX_FRAMES
    ensures Body(s + t, m) == Body(s, m)
  {
    hide Frame;
    if m > 0 {
      BodyStable(s, t, m - 1);
      assert BlockAt(s + t, m - 1) == BlockAt(s, m - 1);
    }
  }

  // ----- STREAMINFO -----

  datatype Sizes = Sizes(minFrame: nat, maxFrame: nat, minBlock: nat, maxBlock: nat)

  /** What `writeFrame` keeps up to date: 0 stands for "no frame yet". */
  function Widen(z: Sizes, frame: nat, block: nat): Sizes {
    Sizes(if z.minFrame == 0 || frame < z.minFrame then frame else z.minFrame,
          if frame > z.maxFrame then frame else z.maxFrame,
          if z.minBlock == 0 || block < z.minBlock then block else z.minBlock,
          if block > z.maxBlock then block else z.maxBlock)
  }

  function SizesOf(s: seq<int16>, m: nat): Sizes
    requires m <= Blocks(|s|) && m <= MAX_FRAMES
  {
    if m == 0 then Sizes(0, 0, 0, 0)
    else Widen(SizesOf(s, m - 1), |Frame(m - 1, BlockAt(s, m - 1))|, |BlockAt(s, m - 1)|)
  }

  lemma {:induction false} SizesStable(s: seq<int16>, t: seq<int16>, m: nat)
    requires m * BLOCK <= |s| && m <= MAX_FRAMES
    ensures SizesOf(s + t, m) == SizesOf(s, m)
  {
    hide Frame;
    if m > 0 {
      SizesStable(s, t, m - 1);
      assert BlockAt(s + t, m - 1) == BlockAt(s, m - 1);
    }
  }

  type Digest = d: seq<byte> | |d| == 16 witness seq(16, _ => 0)

  function StreamInfo(z: Sizes, total: nat, md5: Digest): (p: seq<byte>)
    ensures |p| == 34
  {
    ToBe(if z.minBlock % 0x1_0000 == 0 then BLOCK else z.minBlock % 0x1_0000, 2)
    + ToBe(if z.maxBlock % 0x1_0000 == 0 then BLOCK else z.maxBlock % 0x1_0000, 2)
    + ToBe(z.minFrame, 3) + ToBe(z.maxFrame, 3)
    + ToBe(Packed(total), 8) + md5
  }

  /** Rate 8000 in 20 bits, channels - 1 in 3, bits per sample - 1 in 5, sample total in 36. */
  function Packed(total: nat): nat {
    8000 * 0x1000_0000_0000 + 0 * 0x200_0000_0000 + 15 * 0x10_0000_0000 + total % 0x10_0000_0000
  }

  /** The marker fLaC, then a metadata block header: last block, type STREAMINFO, 34 bytes. */
  const MAGIC: seq<byte> := [0x66, 0x4C, 0x61, 0x43, 0x80, 0x00, 0x00, 0x22]
  const PLACEHOLDER: seq<byte> := ToBe(BLOCK, 2) + ToBe(BLOCK, 2) + ToBe(0, 30)

  datatype Info = Info(minBlock: nat, maxBlock: nat, minFrame: nat, maxFrame: nat,
                       rate: nat, channels: nat, bits: nat, total: nat, md5: seq<byte>)

  /** Section 8.2. */
  function DecodeInfo(p: seq<byte>): Info
    requires |p| == 34
  {
    var x := FromBe(p[10..18]);
    Info(FromBe(p[0..2]), FromBe(p[2..4]), FromBe(p[4..7]), FromBe(p[7..10]),
         x / 0x1000_0000_0000, x / 0x200_0000_0000 % 8 + 1, x / 0x10_0000_0000 % 32 + 1, x % 0x10_0000_0000, p[18..])
  }

  datatype Stream = Stream(info: Info, blocks: seq<Block>)

  /** Section 8.1: the header of a metadata block. */
  datatype BlockHeader = BlockHeader(last: bool, kind: nat, length: nat)

  function DecodeBlockHeader(b: seq<byte>): BlockHeader
    requires |b| == 4
  {
    BlockHeader(b[0] / 0x80 == 1, b[0] % 0x80, FromBe(b[1..]))
  }

  predicate StartsWithMarker(file: seq<byte>) {
    |file| >= 4 && file[0] as char == 'f' && file[1] as char == 'L' && file[2] as char == 'a' && file[3] as char == 'C'
  }

  /** The marker, STREAMINFO as the only metadata block, and the frames. */
  function DecodeFile(file: seq<byte>): Option<Stream> {
    if |file| < 42 || !StartsWithMarker(file) || DecodeBlockHeader(file[4..8]) != BlockHeader(true, 0, 34) then None
    else
      match DecodeFrames(file[42..])
      case None => None
      case Some(bs) => Some(Stream(DecodeInfo(file[8..42]), bs))
  }

  /** The file of a finished recording, as a function of its samples alone. */
  function FinishedFile(md5: seq<byte> -> Digest, s: seq<int16>): seq<byte>
    requires Blocks(|s|) <= MAX_FRAMES
  {
    MAGIC + StreamInfo(SizesOf(s, Blocks(|s|)), |s|, md5(LittleEndian(s))) + Body(s, Blocks(|s|))
  }

  lemma PackedRoundTrip(total: nat)
    ensures var x := FromBe(ToBe(Packed(total), 8));
      && x / 0x1000_0000_0000 == 8000 && x / 0x200_0000_0000 % 8 == 0
      && x / 0x10_0000_0000 % 32 == 15 && x % 0x10_0000_0000 == total % 0x10_0000_0000
  {
    PackedFields(total % 0x10_0000_0000);
    assert Pow256(4) == 0x1_0000_0000;
    assert Pow256(8) == 0x1_0000_0000 * Pow256(4);
    FromBeToBe(Packed(total), 8);
  }

  lemma PackedFields(t: nat)
    requires t < 0x10_0000_0000
    ensures var x := (8000 * 0x100 + 15) * 0x10_0000_0000 + t;
      && x / 0x1000_0000_0000 == 8000 && x / 0x200_0000_0000 % 8 == 0
      && x / 0x10_0000_0000 % 32 == 15 && x % 0x10_0000_0000 == t
  {
  }

  /** Where each field stands. */
  lemma InfoParts(z: Sizes, total: nat, md5: Digest)
    requires z.minBlock <= BLOCK && z.maxBlock <= BLOCK
    ensures var p := StreamInfo(z, total, md5);
      && p[0..2] == ToBe(if z.minBlock == 0 then BLOCK else z.minBlock, 2)
      && p[2..4] == ToBe(if z.maxBlock == 0 then BLOCK else z.maxBlock, 2)
      && p[4..7] == ToBe(z.minFrame, 3) && p[7..10] == ToBe(z.maxFrame, 3)
      && p[10..18] == ToBe(Packed(total), 8) && p[18..] == md5
  {
    hide ToBe;
    hide Packed;
  }

  lemma InfoRoundTrip(z: Sizes, total: nat, md5: Digest)
    requires z.minBlock <= BLOCK && z.maxBlock <= BLOCK && z.minFrame < 0x100_0000 && z.maxFrame < 0x100_0000
    ensures DecodeInfo(StreamInfo(z, total, md5)) ==
      Info(if z.minBlock == 0 then BLOCK else z.minBlock, if z.maxBlock == 0 then BLOCK else z.maxBlock,
           z.minFrame, z.maxFrame, 8000, 1, 16, total % 0x10_0000_0000, md5)
  {
    hide StreamInfo;
    hide ToBe;
    hide FromBe;
    hide Packed;
    var b1, b2 := if z.minBlock == 0 then BLOCK else z.minBlock, if z.maxBlock == 0 then BLOCK else z.maxBlock;
    InfoParts(z, total, md5);
    FromBeToBe2(b1);
    FromBeToBe2(b2);
    assert Pow256(3) == 0x100_0000;
    FromBeToBe(z.minFrame, 3);
    FromBeToBe(z.maxFrame, 3);
    PackedRoundTrip(total);
  }

  function FrameSizes(s: seq<int16>, m: nat): seq<nat>
    requires m <= Blocks(|s|) && m <= MAX_FRAMES
  {
    seq(m, j requires 0 <= j < m => |Frame(j, BlockAt(s, j))|)
  }

  function BlockSizes(s: seq<int16>, m: nat): seq<nat>
    requires m <= Blocks(|s|)
  {
    seq(m, j requires 0 <= j < m => |BlockAt(s, j)|)
  }

  /** `lo` and `hi` are the least and the greatest of `xs`. */
  ghost predicate Extremes(xs: seq<nat>, lo: nat, hi: nat) {
    lo in xs && hi in xs && forall x :: x in xs ==> lo <= x <= hi
  }

  lemma ExtremesSnoc(xs: seq<nat>, lo: nat, hi: nat, x: nat)
    requires x > 0 && if xs == [] then lo == hi == 0 else Extremes(xs, lo, hi) && lo > 0
    ensures Extremes(xs + [x], if lo == 0 || x < lo then x else lo, if x > hi then x else hi)
  {
    var ys := xs + [x];
    assert ys[|xs|] == x;
    forall y | y in xs ensures y in ys {
      var i :| 0 <= i < |xs| && xs[i] == y;
      assert ys[i] == y;
    }
  }

  lemma FrameLength(k: nat, b: seq<int16>)
    requires Encodable(k, |b|)
    ensures 11 <= |Frame(k, b)| <= 18 + 2 * |b|
  {
    CodedNumber.EncodeShape(k);
  }

  lemma {:induction false} SizesAreExtremes(s: seq<int16>, m: nat)
    requires m <= Blocks(|s|) && m <= MAX_FRAMES
    ensures var z := SizesOf(s, m);
      if m == 0 then z == Sizes(0, 0, 0, 0)
      else Extremes(FrameSizes(s, m), z.minFrame, z.maxFrame) && Extremes(BlockSizes(s, m), z.minBlock, z.maxBlock)
           && z.minFrame > 0 && z.minBlock > 0
  {
    hide Frame;
    hide Extremes;
    hide BlockAt;
    if m > 0 {
      var z, b := SizesOf(s, m - 1), BlockAt(s, m - 1);
      SizesAreExtremes(s, m - 1);
      FrameLength(m - 1, b);
      ExtremesSnoc(FrameSizes(s, m - 1), z.minFrame, z.maxFrame, |Frame(m - 1, b)|);
      ExtremesSnoc(BlockSizes(s, m - 1), z.minBlock, z.maxBlock, |b|);
      assert FrameSizes(s, m) == FrameSizes(s, m - 1) + [|Frame(m - 1, b)|];
      assert BlockSizes(s, m) == BlockSizes(s, m - 1) + [|b|];
    }
  }

  lemma SizesBounded(s: seq<int16>, m: nat)
    requires m <= Blocks(|s|) && m <= MAX_FRAMES
    ensures var z := SizesOf(s, m);
      z.minFrame <= z.maxFrame < 0x100_0000 && z.minBlock <= z.maxBlock <= BLOCK
  {
    hide Frame;
    SizesAreExtremes(s, m);
    if m > 0 {
      var z := SizesOf(s, m);
      var j :| 0 <= j < m && FrameSizes(s, m)[j] == z.maxFrame;
      FrameLength(j, BlockAt(s, j));
      var i :| 0 <= i < m && BlockSizes(s, m)[i] == z.maxBlock;
    }
  }

  /** Decoding a finished file gives back the recording: every sample in order, frames numbered from 0,
      all of 1024 samples but the last, and a STREAMINFO that tells the truth. */
  lemma FinishedFileDecodes(md5: seq<byte> -> Digest, s: seq<int16>)
    requires Blocks(|s|) <= MAX_FRAMES
    ensures DecodeFile(FinishedFile(md5, s)).Some?
    ensures var d := DecodeFile(FinishedFile(md5, s)).value; var n := Blocks(|s|);
      && Concat(d.blocks) == s
      && |d.blocks| == n
      && (forall j :: 0 <= j < n ==>
            d.blocks[j] == Block(j, BlockAt(s, j)) && (|d.blocks[j].samples| == BLOCK || j == n - 1))
      && d.info.rate == 8000 && d.info.channels == 1 && d.info.bits == 16
      && (d.info.total == |s| <==> |s| < 0x10_0000_0000)
      && (forall b :: LowByteFirst(b, s) ==> d.info.md5 == md5(b))
      && (n > 0 ==> Extremes(FrameSizes(s, n), d.info.minFrame, d.info.maxFrame))
      && (n > 0 ==> Extremes(BlockSizes(s, n), d.info.minBlock, d.info.maxBlock))
  {
    hide FinishedFile;
    hide DecodeInfo;
    hide DecodeFrames;
    hide FrameSizes;
    hide BlockSizes;
    hide LittleEndian;
    hide Concat;
    hide LowByteFirst;
    FramesDecode(md5, s);
    InfoDecodes(md5, s);
    HeaderDecodes(FinishedFile(md5, s));
    forall b | LowByteFirst(b, s) ensures b == LittleEndian(s) {
      DigestBytes(b, s);
    }
  }

  lemma HeaderDecodes(file: seq<byte>)
    requires |file| >= 42 && file[..8] == MAGIC
    ensures StartsWithMarker(file) && DecodeBlockHeader(file[4..8]) == BlockHeader(true, 0, 34)
  {
    var m := file[..8];
    assert file[0] == m[0] && file[1] == m[1] && file[2] == m[2] && file[3] == m[3];
    assert file[4..8] == [0x80, 0x00, 0x00, 0x22];
    assert [0x80, 0x00, 0x00, 0x22][1..] == ToBe(34, 3);
    assert Pow256(3) == 0x100_0000;
    FromBeToBe(34, 3);
  }

  lemma InfoDecodes(md5: seq<byte> -> Digest, s: seq<int16>)
    requires Blocks(|s|) <= MAX_FRAMES
    ensures |FinishedFile(md5, s)| >= 42 && FinishedFile(md5, s)[..8] == MAGIC
    ensures var i, n := DecodeInfo(FinishedFile(md5, s)[8..42]), Blocks(|s|);
      && i.rate == 8000 && i.channels == 1 && i.bits == 16
      && i.total == |s| % 0x10_0000_0000 && i.md5 == md5(LittleEndian(s))
      && (n > 0 ==> Extremes(FrameSizes(s, n), i.minFrame, i.maxFrame))
      && (n > 0 ==> Extremes(BlockSizes(s, n), i.minBlock, i.maxBlock))
  {
    hide Frame;
    hide StreamInfo;
    hide DecodeInfo;
    hide Body;
    var n := Blocks(|s|);
    var z := SizesOf(s, n);
    assert FinishedFile(md5, s)[8..42] == StreamInfo(z, |s|, md5(LittleEndian(s)));
    SizesBounded(s, n);
    SizesAreExtremes(s, n);
    InfoRoundTrip(z, |s|, md5(LittleEndian(s)));
  }

  lemma FramesDecode(md5: seq<byte> -> Digest, s: seq<int16>)
    requires Blocks(|s|) <= MAX_FRAMES
    ensures DecodeFrames(FinishedFile(md5, s)[42..]) == Some(BlocksFrom(s, 0)) && Concat(BlocksFrom(s, 0)) == s
  {
    hide Frame;
    hide StreamInfo;
    hide DecodeFrames;
    var n := Blocks(|s|);
    BodyThenSuffix(s, 0);
    assert FinishedFile(md5, s)[42..] == Body(s, n);
    assert Body(s, 0) + Suffix(s, 0) == Suffix(s, 0);
    SuffixDecodes(s, 0);
    ConcatBlocks(s, 0);
  }

  // ----- Where the minimum block size departs from section 8.2 -----

  /** All blocks but the last are full; the last holds what is left. */
  lemma LastBlockSize(s: seq<int16>)
    requires |s| > 0
    ensures var n := Blocks(|s|);
      && n > 0 && |BlockAt(s, n - 1)| == |s| - (n - 1) * BLOCK
      && (|BlockAt(s, n - 1)| == BLOCK <==> |s| % BLOCK == 0)
      && forall j :: 0 <= j < n - 1 ==> |BlockAt(s, j)| == BLOCK
  {
  }

  lemma LeastIsLast(sizes: seq<nat>, lo: nat, hi: nat)
    requires Extremes(sizes, lo, hi) && sizes[|sizes| - 1] <= BLOCK
    requires forall j :: 0 <= j < |sizes| - 1 ==> sizes[j] == BLOCK
    ensures lo == sizes[|sizes| - 1]
  {
    var i :| 0 <= i < |sizes| && sizes[i] == lo;
    assert sizes[|sizes| - 1] in sizes;
  }

  /** Section 8.2 leaves the last block out of the minimum, the code does not: the minimum it stores is the size of the
      last block. With two blocks or more it is the one of section 8.2 if and only if the last block is full. */
  lemma MinBlockConformsExactly(md5: seq<byte> -> Digest, s: seq<int16>)
    requires 0 < Blocks(|s|) <= MAX_FRAMES
    ensures DecodeFile(FinishedFile(md5, s)).Some?
    ensures var n := Blocks(|s|); var stored := DecodeFile(FinishedFile(md5, s)).value.info.minBlock;
      && stored == |BlockAt(s, n - 1)|
      && (n >= 2 ==> (stored == SizesOf(s, n - 1).minBlock <==> |s| % BLOCK == 0))
  {
    hide FinishedFile;
    hide DecodeFile;
    hide Frame;
    hide BlockAt;
    hide SizesOf;
    hide Extremes;
    hide FrameSizes;
    var n := Blocks(|s|);
    FinishedFileDecodes(md5, s);
    var info := DecodeFile(FinishedFile(md5, s)).value.info;
    LastBlockSize(s);
    LeastIsLast(BlockSizes(s, n), info.minBlock, info.maxBlock);
    if n >= 2 {
      SizesAreExtremes(s, n - 1);
      LeastIsLast(BlockSizes(s, n - 1), SizesOf(s, n - 1).minBlock, SizesOf(s, n - 1).maxBlock);
    }
  }
}
