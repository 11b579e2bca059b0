/** The FLAC writer of internal/audio/recording/writer.go as an object over a fallible file. */
module FlacWriter {
  import opened Octets
  import opened Wrappers
  import opened Flac
  import Checksum
  import CodedNumber

  /** A temporary file. A write that fails may still have stored part of its data; on a sound disk none fails. */
  class PendingFile {
    const sound: bool
    var content: seq<byte>
    var pos: nat

    constructor (sound: bool)
      ensures content == [] && pos == 0 && this.sound == sound
    {
      this.sound := sound;
      content, pos := [], 0;
    }

    method Write(data: seq<byte>) returns (ok: bool)
      requires pos <= |content|
      modifies this
      ensures old(|content|) <= |content| && pos <= |content|
      ensures ok ==> content == Overwrite(old(content), old(pos), data) && pos == old(pos) + |data|
      ensures sound ==> ok
    {
      ok := Outcome(sound);
      var n := |data|;
      if !ok {
        n :| 0 <= n <= |data|;
      }
      content, pos := Overwrite(content, pos, data[..n]), pos + n;
    }

    method Seek(at: nat) returns (ok: bool)
      modifies this`pos
      ensures if ok then pos == at else pos == old(pos)
      ensures sound ==> ok
    {
      ok := Outcome(sound);
      if ok {
        pos := at;
      }
    }
  }

  /** How an operation on a disk turns out. */
  method Outcome(sound: bool) returns (ok: bool)
    ensures sound ==> ok
  {
    ok := *;
    ok := ok || sound;
  }

  function Overwrite(c: seq<byte>, at: nat, data: seq<byte>): (r: seq<byte>)
    requires at <= |c|
    ensures at + |data| <= |r| && |c| <= |r|
  {
    c[..at] + data + if at + |data| <= |c| then c[at + |data|..] else []
  }

  /** The file and the counters that go with it. */
  datatype Written = Written(content: seq<byte>, pos: nat, total: nat, sizes: Sizes)

  /** `w` is the outcome of writing the first m frames of s. */
  ghost predicate HoldsFrames(w: Written, s: seq<int16>, m: nat) {
    && m <= Blocks(|s|) && m <= MAX_FRAMES
    && w.content == MAGIC + PLACEHOLDER + Body(s, m)
    && w.pos == |w.content|
    && w.total == (if m * BLOCK <= |s| then m * BLOCK else |s|)
    && w.sizes == SizesOf(s, m)
  }

  lemma EmptyHeld(w: Written)
    requires w == Written(MAGIC + PLACEHOLDER, 42, 0, Sizes(0, 0, 0, 0))
    ensures HoldsFrames(w, [], 0) && LittleEndian([]) == []
  {
  }

  /** What writing frame k, holding `b`, makes of the file and the counters. */
  function AfterFrame(w: Written, k: nat, b: seq<int16>): Written
    requires w.pos <= |w.content| && Encodable(k, |b|)
  {
    var f := Frame(k, b);
    Written(Overwrite(w.content, w.pos, f), w.pos + |f|, w.total + |b|, Widen(w.sizes, |f|, |b|))
  }

  lemma FrameHeld(w: Written, s: seq<int16>, m: nat, b: seq<int16>)
    requires HoldsFrames(w, s, m) && m < Blocks(|s|) && m < MAX_FRAMES && b == BlockAt(s, m)
    ensures HoldsFrames(AfterFrame(w, m, b), s, m + 1)
  {
    hide Frame;
    hide Widen;
    hide Body;
    hide SizesOf;
    hide BlockAt;
    hide ToBe;
    BodyNext(s, m);
    var f := Frame(m, b);
    AppendsAtEnd(w.content, f);
    Reassociate(MAGIC + PLACEHOLDER, Body(s, m), f);
  }

  lemma AppendsAtEnd(c: seq<byte>, data: seq<byte>)
    ensures Overwrite(c, |c|, data) == c + data
  {
  }

  lemma Reassociate(a: seq<byte>, b: seq<byte>, c: seq<byte>)
    ensures (a + b) + c == a + (b + c)
  {
  }

  lemma FramesStayHeld(w: Written, s: seq<int16>, t: seq<int16>, m: nat)
    requires HoldsFrames(w, s, m) && m * BLOCK <= |s|
    ensures HoldsFrames(w, s + t, m)
  {
    BodyStable(s, t, m);
    SizesStable(s, t, m);
  }

  lemma PatchedIsFinished(w: Written, s: seq<int16>, md5: seq<byte> -> Digest)
    requires HoldsFrames(w, s, Blocks(|s|))
    ensures w.content[..8] + StreamInfo(w.sizes, w.total, md5(LittleEndian(s))) + w.content[42..]
      == FinishedFile(md5, s)
  {
    hide Frame;
    hide StreamInfo;
    assert w.content[..8] == MAGIC;
    assert w.content[42..] == Body(s, Blocks(|s|));
  }

  datatype Status = Ok | IoError | Closed | Unsupported

  class Writer {
    var f: PendingFile?
    var installed: Option<seq<byte>>  // what stands at the final path
    var pending: seq<int16>
    var totalSamples: nat
    var frameNumber: nat
    var sizes: Sizes
    var closed: bool
    var md5: seq<byte>                // everything fed to the digest
    const digest: seq<byte> -> Digest
    const sound: bool                 // nothing on this disk fails

    ghost var fed: seq<int16>         // every sample accepted so far

    ghost predicate Wf()
      reads this, f
    {
      !closed ==> f != null && f.sound == sound && f.pos <= |f.content| && 42 <= |f.content|
    }

    /** No operation has failed: the file holds exactly the full blocks of what was accepted. */
    ghost predicate Healthy()
      reads this, f
    {
      !closed && f != null && Synced() && |pending| < BLOCK && md5 == LittleEndian(fed)
    }

    /** The file holds the first frames of what was accepted, and `pending` is the rest. */
    ghost predicate Synced()
      requires f != null
      reads this, f
    {
      && frameNumber <= MAX_FRAMES && frameNumber * BLOCK <= |fed|
      && pending == fed[frameNumber * BLOCK..]
      && HoldsFrames(Out(), fed, frameNumber)
    }

    ghost function Out(): Written
      requires f != null
      reads this, f
    {
      Written(f.content, f.pos, totalSamples, sizes)
    }

    constructor (file: PendingFile, digest: seq<byte> -> Digest)
      ensures f == file && fed == [] && pending == [] && md5 == [] && this.digest == digest && sound == file.sound
      ensures installed == None && !closed && frameNumber == 0 && totalSamples == 0 && sizes == Sizes(0, 0, 0, 0)
    {
      f, this.digest, sound := file, digest, file.sound;
      installed, pending, totalSamples, frameNumber, closed := None, [], 0, 0, false;
      sizes, md5, fed := Sizes(0, 0, 0, 0), [], [];
    }

    /** `NewFLACWriter`: null when the temporary file or its header cannot be written. */
    static method New(digest: seq<byte> -> Digest, sound: bool) returns (w: Writer?)
      ensures w != null ==> fresh(w) && fresh(w.f) && w.Healthy() && w.Wf() && w.fed == []
      ensures w != null ==> w.digest == digest && w.sound == sound
      ensures sound ==> w != null
    {
      hide HoldsFrames;
      hide LittleEndian;
      var ok := Outcome(sound);
      if !ok {
        return null;
      }
      var tmp := new PendingFile(sound);
      w := new Writer(tmp, digest);
      ok := w.WriteHeader();
      if !ok {
        return null;
      }
      EmptyHeld(w.Out());
    }

    method WriteHeader() returns (ok: bool)
      requires f != null && f.content == [] && f.pos == 0
      modifies f
      ensures f.pos <= |f.content|
      ensures ok ==> f.content == MAGIC + PLACEHOLDER && f.pos == |f.content|
      ensures f.sound ==> ok
    {
      hide ToBe;
      ok := f.Write([0x66, 0x4C, 0x61, 0x43]);
      if !ok {
        return;
      }
      ok := f.Write([0x80, 0x00, 0x00, 0x22]);
      if !ok {
        return;
      }
      assert f.content == MAGIC;
      ok := f.Write(PLACEHOLDER);
    }

    /** Accepts `samples` as a whole or reports a failure; full blocks go to the file at once. */
    method WritePCM(samples: seq<int16>) returns (r: Status)
      requires Wf()
      modifies this, f
      ensures Wf() && f == old(f) && closed == old(closed) && installed == old(installed)
      ensures samples == [] ==> r == Ok && fed == old(fed) && (old(Healthy()) ==> Healthy())
      ensures samples != [] ==> (r == Closed <==> closed)
      ensures !closed ==> fed == old(fed) + samples
      ensures old(Healthy()) && r == Ok ==> Healthy()
      ensures old(Healthy()) && r == Unsupported ==> |fed| >= (MAX_FRAMES + 1) * BLOCK
      ensures sound ==> r != IoError
    {
      hide HoldsFrames;
      hide AfterFrame;
      hide LittleEndian;
      if |samples| == 0 {
        assert old(fed) + samples == fed;
        return Ok;
      }
      if closed {
        return Closed;
      }
      ghost var healthy := Healthy();
      ghost var before := fed;
      FeedDigest(samples);
      fed := fed + samples;
      pending := pending + samples;
      if healthy {
        DigestGrows(before, samples);
        FramesStayHeld(Out(), before, samples, frameNumber);
      }
      r := FlushBlocks();
    }

    /** Writes out every full block that is pending. */
    method FlushBlocks() returns (r: Status)
      requires Wf() && !closed
      modifies f, this`sizes, this`totalSamples, this`frameNumber, this`pending
      ensures Wf() && r != Closed && (sound ==> r != IoError)
      ensures r == Ok ==> |pending| < BLOCK
      ensures old(Synced()) && r == Ok ==> Synced()
      ensures old(Synced()) && r == Unsupported ==> |fed| >= (MAX_FRAMES + 1) * BLOCK
    {
      hide HoldsFrames;
      hide AfterFrame;
      ghost var synced := Synced();
      while |pending| >= BLOCK
        invariant Wf()
        invariant synced ==> Synced()
        decreases |pending|
      {
        ghost var w := Out();
        r := WriteFrame(pending[..BLOCK]);
        if r != Ok {
          return;
        }
        if synced {
          FrameHeld(w, fed, frameNumber - 1, pending[..BLOCK]);
        }
        pending := pending[BLOCK..];
      }
      r := Ok;
    }

    method FeedDigest(samples: seq<int16>)
      modifies this`md5
      ensures md5 == old(md5) + LittleEndian(samples)
    {
      var n := 0;
      while n < |samples|
        invariant 0 <= n <= |samples|
        invariant md5 == old(md5) + LittleEndian(samples[..n])
      {
        var u := Unsigned(samples[n]);
        md5 := md5 + [u % 0x100, u / 0x100];
        assert LittleEndian(samples[..n + 1]) == LittleEndian(samples[..n]) + [u % 0x100, u / 0x100];
        n := n + 1;
      }
      assert samples[..n] == samples;
    }

    lemma DigestGrows(s: seq<int16>, t: seq<int16>)
      ensures LittleEndian(s + t) == LittleEndian(s) + LittleEndian(t)
    {
    }

    method WriteFrame(samples: seq<int16>) returns (r: Status)
      requires Wf() && !closed
      modifies f, this`sizes, this`totalSamples, this`frameNumber
      ensures Wf()
      ensures samples == [] ==> r == Ok && unchanged(this) && unchanged(f)
      ensures r == Unsupported ==> !Encodable(frameNumber, |samples|) && unchanged(this) && unchanged(f)
      ensures r == Ok && samples != [] ==>
        && Encodable(old(frameNumber), |samples|)
        && frameNumber == old(frameNumber) + 1
        && Out() == AfterFrame(old(Out()), old(frameNumber), samples)
      ensures r != Closed && (sound ==> r != IoError)
    {
      hide Checksum.Crc8;
      hide Checksum.Crc16;
      hide CodedNumber.Encode;
      if |samples| == 0 {
        return Ok;
      }
      var code := BlockSizeCode(|samples|);
      if code == None {
        return Unsupported;
      }
      var frame: seq<byte> := [0xFF, 0xF8, code.value.code * 0x10 + 0x0C, 0x08];
      var number := CodedNumber.Encode(frameNumber);
      if number == None {
        return Unsupported;
      }
      frame := frame + number.value;
      frame := frame + code.value.extra;
      frame := frame + [8];
      assert frame == Head(frameNumber, |samples|);
      var crc8 := Checksum.ComputeCrc8(frame);
      frame := frame + [Checksum.Octet(crc8)];
      frame := frame + [0x02];
      ghost var head := frame;
      var n := 0;
      while n < |samples|
        invariant 0 <= n <= |samples|
        invariant frame == head + BigEndian(samples[..n])
      {
        var u := Unsigned(samples[n]);
        frame := frame + [u / 0x100, u % 0x100];
        assert BigEndian(samples[..n + 1]) == BigEndian(samples[..n]) + [u / 0x100, u % 0x100];
        n := n + 1;
      }
      assert samples[..n] == samples;
      var crc := Checksum.ComputeCrc16(frame);
      frame := frame + [Checksum.Octet(Checksum.High(crc)), Checksum.Octet(Checksum.Low(crc))];
      assert frame == Frame(frameNumber, samples);
      var ok := f.Write(frame);
      if !ok {
        return IoError;
      }
      sizes := Widen(sizes, |frame|, |samples|);
      totalSamples := totalSamples + |samples|;
      frameNumber := frameNumber + 1;
      r := Ok;
    }

    /** Flushes, patches STREAMINFO and moves the file into place. What ends up at the final path is a
        function of the samples alone; until that last step nothing there changes. */
    method Finalize() returns (size: Option<nat>)
      requires Wf()
      modifies this, f
      ensures Wf() && fed == old(fed)
      ensures installed != old(installed) ==> !old(closed) && closed
      ensures old(Healthy()) && size.Some? ==> closed && installed.Some?
      ensures old(Healthy()) && closed ==>
        Blocks(|fed|) <= MAX_FRAMES && installed == Some(FinishedFile(digest, fed))
      ensures old(Healthy()) && size.Some? ==> size == Some(|installed.value|)
      ensures !old(closed) && size.Some? ==> closed && f == null
      ensures old(Healthy()) && sound && Blocks(|fed|) <= MAX_FRAMES ==> size.Some?
    {
      hide HoldsFrames;
      hide AfterFrame;
      hide LittleEndian;
      hide StreamInfo;
      hide FinishedFile;
      if closed {
        size := Stat();
        return;
      }
      ghost var healthy := Healthy();
      if |pending| > 0 {
        ghost var w := Out();
        var r := WriteFrame(pending);
        if r != Ok {
          return None;
        }
        if healthy {
          FrameHeld(w, fed, frameNumber - 1, pending);
        }
        pending := [];
      }
      ghost var w := Out();
      var ok := PatchStreamInfo();
      if !ok {
        return None;
      }
      if healthy {
        PatchedIsFinished(w, fed, digest);
      }
      ok := Outcome(sound);  // CloseAtomicallyReplace
      if !ok {
        return None;
      }
      installed := Some(f.content);
      closed := true;
      f := null;
      size := Stat();
    }

    /** `os.Stat` on the final path: the size of what stands there, or an error. */
    method Stat() returns (size: Option<nat>)
      ensures size.Some? && installed.Some? ==> size.value == |installed.value|
      ensures size.Some? ==> installed.Some?
      ensures sound && installed.Some? ==> size.Some?
    {
      size := None;
      var ok := Outcome(sound);
      if ok && installed.Some? {
        size := Some(|installed.value|);
      }
    }

    method Abort()
      modifies this
      ensures closed && installed == old(installed)
      ensures !old(closed) ==> f == null
    {
      if closed {
        return;
      }
      closed := true;
      f := null;
    }

    /** Rewrites the 34 bytes at offset 8; every other byte of the file stays as it was. */
    method PatchStreamInfo() returns (ok: bool)
      requires Wf() && !closed
      modifies f
      ensures Wf()
      ensures ok ==>
        f.content == old(f.content[..8]) + StreamInfo(sizes, totalSamples, digest(md5)) + old(f.content[42..])
      ensures sound ==> ok
    {
      var minBS, maxBS := sizes.minBlock % 0x1_0000, sizes.maxBlock % 0x1_0000;
      if minBS == 0 {
        minBS := BLOCK;
      }
      if maxBS == 0 {
        maxBS := BLOCK;
      }
      var x := Packed(totalSamples);
      var packed: seq<byte> := [];
      var i := 0;
      while i < 8
        invariant 0 <= i <= 8 && |packed| == i
        invariant forall j :: 0 <= j < i ==> packed[j] == ShiftRight(x, 7 - j) % 0x100
      {
        packed := packed + [ShiftRight(x, 7 - i) % 0x100];
        i := i + 1;
      }
      forall j | 0 <= j < 8 ensures packed[j] == ToBe(x, 8)[j] {
        ToBeAt(x, 8, j);
      }
      PutNumbers(minBS);
      PutNumbers(maxBS);
      PutNumbers(sizes.minFrame);
      PutNumbers(sizes.maxFrame);
      var payload := PutUint16(minBS) + PutUint16(maxBS) + PutUint24(sizes.minFrame) + PutUint24(sizes.maxFrame)
                     + packed + digest(md5);
      assert packed == ToBe(x, 8);
      assert payload == StreamInfo(sizes, totalSamples, digest(md5));
      ok := f.Seek(8);
      if !ok {
        return;
      }
      ghost var c := f.content;
      ok := f.Write(payload);
      assert ok ==> f.content == c[..8] + payload + c[42..];
    }
  }

  function Samples(chunks: seq<seq<int16>>): seq<int16> {
    if chunks == [] then [] else Samples(chunks[..|chunks| - 1]) + chunks[|chunks| - 1]
  }

  /** Any series of writes followed by Finalize. On a sound disk there is a file, unless it needs more than 2^36
      frames. The file depends on the samples and not on how they were divided into calls, and decoding it gives them
      all back. */
  method RecordClip(chunks: seq<seq<int16>>, digest: seq<byte> -> Digest, sound: bool)
    returns (file: Option<seq<byte>>)
    ensures sound && Blocks(|Samples(chunks)|) <= MAX_FRAMES ==> file.Some?
    ensures file.Some? ==>
      && Blocks(|Samples(chunks)|) <= MAX_FRAMES
      && file.value == FinishedFile(digest, Samples(chunks))
      && DecodeFile(file.value).Some?
      && Concat(DecodeFile(file.value).value.blocks) == Samples(chunks)
  {
    hide HoldsFrames;
    hide FinishedFile;
    hide LittleEndian;
    var w := Writer.New(digest, sound);
    if w == null {
      return None;
    }
    var i := 0;
    while i < |chunks|
      invariant 0 <= i <= |chunks|
      invariant w.Wf() && w.Healthy() && fresh(w) && fresh(w.f) && w.sound == sound
      invariant w.fed == Samples(chunks[..i])
    {
      var r := w.WritePCM(chunks[i]);
      assert chunks[..i + 1][..i] == chunks[..i];
      if r != Ok {
        SamplesGrow(chunks, i + 1);
        w.Abort();
        return None;
      }
      i := i + 1;
    }
    assert chunks[..i] == chunks;
    var size := w.Finalize();
    if size == None {
      return None;
    }
    file := w.installed;
    FinishedFileDecodes(digest, w.fed);
  }

  lemma {:induction false} SamplesGrow(chunks: seq<seq<int16>>, n: nat)
    requires n <= |chunks|
    ensures |Samples(chunks[..n])| <= |Samples(chunks)|
    decreases |chunks|
  {
    if n < |chunks| {
      SamplesGrow(chunks[..|chunks| - 1], n);
      assert chunks[..|chunks| - 1][..n] == chunks[..n];
    } else {
      assert chunks[..n] == chunks;
    }
  }

  /** x >> 8k. */
  function ShiftRight(x: nat, k: nat): nat { if k == 0 then x else ShiftRight(x / 0x100, k - 1) }

  function PutUint16(v: nat): seq<byte> { [v / 0x100 % 0x100, v % 0x100] }
  function PutUint24(v: nat): seq<byte> { [v / 0x1_0000 % 0x100, v / 0x100 % 0x100, v % 0x100] }

  lemma {:induction false} ToBeAt(x: nat, k: nat, i: nat)
    requires i < k
    ensures ToBe(x, k)[i] == ShiftRight(x, k - 1 - i) % 0x100
  {
    if i < k - 1 {
      ToBeAt(x / 0x100, k - 1, i);
    }
  }

  lemma PutNumbers(v: nat)
    ensures PutUint16(v) == ToBe(v, 2) && PutUint24(v) == ToBe(v, 3)
  {
    var v1 := v / 0x100;
    assert v1 / 0x100 == v / 0x1_0000;
    assert ToBe(v1 / 0x100, 1) == [v1 / 0x100 % 0x100];
    assert ToBe(v1, 1) == [v1 % 0x100] && ToBe(v1, 2) == ToBe(v1 / 0x100, 1) + [v1 % 0x100];
  }
}
