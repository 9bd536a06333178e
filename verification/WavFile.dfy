/** WAV files at byte level: the header, appending samples, and patching the lengths
    on close. */
module WavFile {
  import opened FixedPoint
  import opened Options

  type Byte = b: int | 0 <= b < 0x100

  const HEADER_SIZE := 44
  const DATA_LEN_AT := 40
  const RIFF_LEN_AT := 4

  /** The lower 16 and 32 bits of a number, least significant byte first. */
  function Le16(x: int): (b: seq<Byte>)
    ensures |b| == 2
  {
    [x % 0x100, x / 0x100 % 0x100]
  }

  function Le32(x: int): (b: seq<Byte>)
    ensures |b| == 4
  {
    [x % 0x100, x / 0x100 % 0x100, x / 0x1_0000 % 0x100, x / 0x100_0000 % 0x100]
  }

  function Unsigned16(b: seq<Byte>): (x: nat)
    requires |b| == 2
  {
    b[0] as int + 0x100 * b[1] as int
  }

  function FromLe16(b: seq<Byte>): (x: int)
    requires |b| == 2
    ensures IsInt16(x)
  {
    Wrap16(Unsigned16(b))
  }

  function FromLe32(b: seq<Byte>): (x: nat)
    requires |b| == 4
  {
    b[0] as int + 0x100 * b[1] as int + 0x1_0000 * b[2] as int + 0x100_0000 * b[3] as int
  }

  lemma Le16RoundTrip(x: int)
    ensures Unsigned16(Le16(x)) == x % 0x1_0000
    ensures IsInt16(x) ==> FromLe16(Le16(x)) == x
  {
    var a := x / 0x100;
    assert x == 0x100 * a + x % 0x100;
    assert a % 0x100 * 0x100 + x % 0x100 == x % 0x1_0000;
  }

  lemma Le32RoundTrip(x: int)
    ensures FromLe32(Le32(x)) == x % 0x1_0000_0000
  {
    var a := x / 0x100;
    var b := a / 0x100;
    var c := b / 0x100;
    Quotients(x);
    var low := FromLe32(Le32(x));
    assert low == x % 0x100 + 0x100 * (a % 0x100) + 0x1_0000 * (b % 0x100) + 0x100_0000 * (c % 0x100);
    hide Le32, FromLe32;
    Remainder(x, c / 0x100, low);
  }

  lemma Quotients(x: int)
    ensures x / 0x1_0000 == x / 0x100 / 0x100
    ensures x / 0x100_0000 == x / 0x100 / 0x100 / 0x100
  {
  }

  lemma Remainder(x: int, q: int, r: int)
    requires x == 0x1_0000_0000 * q + r && 0 <= r < 0x1_0000_0000
    ensures x % 0x1_0000_0000 == r
  {
  }

  /** Samples as consecutive little-endian 16-bit numbers. */
  function Encode(samples: seq<int>): (b: seq<Byte>)
    ensures |b| == 2 * |samples|
  {
    if samples == [] then [] else Encode(samples[..|samples| - 1]) + Le16(samples[|samples| - 1])
  }

  /** The samples in a block of bytes; an odd last byte is ignored. */
  function Decode(b: seq<Byte>): (samples: seq<int>)
    ensures |samples| == |b| / 2
  {
    seq(|b| / 2, i requires 0 <= i < |b| / 2 => FromLe16(b[2 * i..2 * i + 2]))
  }

  lemma DecodeAppend(b: seq<Byte>, c: seq<Byte>)
    requires |b| % 2 == 0
    ensures Decode(b + c) == Decode(b) + Decode(c)
  {
    forall i | 0 <= i < |b + c| / 2 ensures Decode(b + c)[i] == (Decode(b) + Decode(c))[i] {
      if i < |b| / 2 {
        assert (b + c)[2 * i..2 * i + 2] == b[2 * i..2 * i + 2];
      } else {
        var j := i - |b| / 2;
        assert (b + c)[2 * i..2 * i + 2] == c[2 * j..2 * j + 2];
      }
    }
  }

  ghost predicate AreSamples(samples: seq<int>) {
    forall i | 0 <= i < |samples| :: IsInt16(samples[i])
  }

  lemma {:induction false} EncodeRoundTrip(samples: seq<int>)
    requires AreSamples(samples)
    ensures Decode(Encode(samples)) == samples
  {
    if samples != [] {
      var init, x := samples[..|samples| - 1], samples[|samples| - 1];
      EncodeRoundTrip(init);
      DecodeAppend(Encode(init), Le16(x));
      Le16RoundTrip(x);
      assert Le16(x)[0..2] == Le16(x);
      assert Decode(Le16(x)) == [x];
    }
  }

  lemma {:induction false} EncodeConcat(a: seq<int>, b: seq<int>)
    ensures Encode(a + b) == Encode(a) + Encode(b)
  {
    if b == [] {
      assert a + b == a;
    } else {
      var init := b[..|b| - 1];
      EncodeConcat(a, init);
      assert (a + b)[..|a + b| - 1] == a + init;
    }
  }

  /** The bytes: the lower half of each sample before the upper. */
  lemma {:induction false} EncodedBytes(samples: seq<int>, i: nat)
    requires i < |samples|
    ensures Encode(samples)[2 * i] as int == samples[i] % 0x100
    ensures Encode(samples)[2 * i + 1] as int == samples[i] / 0x100 % 0x100
  {
    if i < |samples| - 1 {
      EncodedBytes(samples[..|samples| - 1], i);
    }
  }

  // ---------------------------------------------------------------------------
  // The header
  // ---------------------------------------------------------------------------

  /** The configured fields, with the widths of their C types. */
  datatype Params = Params(
    samplesPerSec: int, bitsPerSec: int, riffLen: int, fmtLen: int, audioFmt: int, channCnt: int)
  {
    predicate Valid() {
      && IsInt32(samplesPerSec) && IsInt32(bitsPerSec) && IsInt32(riffLen) && IsInt32(fmtLen)
      && IsInt16(audioFmt) && IsInt16(channCnt)
    }
  }

  const DEFAULTS := Params(8000, 16, 0, 16, 1, 1)

  const RIFF: seq<Byte> := [0x52, 0x49, 0x46, 0x46]
  const WAVE: seq<Byte> := [0x57, 0x41, 0x56, 0x45]
  const FMT: seq<Byte> := [0x66, 0x6D, 0x74, 0x20]
  const DATA: seq<Byte> := [0x64, 0x61, 0x74, 0x61]

  /** The packed header with the two length fields as given. */
  function Header(p: Params, riffLen: int, dataLen: int): (h: seq<Byte>)
    ensures |h| == HEADER_SIZE
  {
    var bytesPerSample := DivTrunc(p.bitsPerSec, 8);
    RIFF + Le32(riffLen) + WAVE
    + FMT + Le32(p.fmtLen) + Le16(p.audioFmt) + Le16(p.channCnt)
    + Le32(p.samplesPerSec) + Le32(p.samplesPerSec * bytesPerSample)
    + Le16(bytesPerSample) + Le16(p.bitsPerSec)
    + DATA + Le32(dataLen)
  }

  /** A write at a position of a file: overwrites, and extends at the end. (The
      position never lies behind the end here.) */
  function WriteAt(file: seq<Byte>, at: nat, data: seq<Byte>): (r: seq<Byte>)
    ensures at <= |file| ==>
              && |r| == (if |file| < at + |data| then at + |data| else |file|)
              && r[at..at + |data|] == data && r[..at] == file[..at]
    ensures at + |data| <= |file| ==> r[at + |data|..] == file[at + |data|..]
  {
    var p := if at <= |file| then at else |file|;
    file[..p] + data + if p + |data| <= |file| then file[p + |data|..] else []
  }

  // ---------------------------------------------------------------------------
  // The file object as a value
  // ---------------------------------------------------------------------------

  /** The file's name: the recording slot and a serial number. */
  datatype Name = Name(slot: nat, uid: int)

  /** Whether the header is set up, whether the file is open, whether it was ever
      created, its bytes, and the write position. */
  datatype Wav = Wav(
    name: Name, isSetup: bool, params: Params, isOpened: bool, created: bool, file: seq<Byte>, position: nat)

  function New(name: Name): Wav {
    Wav(name, false, DEFAULTS, false, false, [], 0)
  }

  function Setup(w: Wav, p: Params): Wav {
    w.(isSetup := true, params := p)
  }

  /** Opening writes the header, with defaults if none was set up; when the file
      cannot be created nothing changes. */
  function Open(w: Wav, ok: bool): Wav {
    if !ok then w
    else
      var v := if w.isSetup then w else Setup(w, DEFAULTS);
      v.(isOpened := true, created := true, file := Header(v.params, v.params.riffLen, 0), position := HEADER_SIZE)
  }

  predicate AtEnd(w: Wav) {
    w.position == |w.file| && HEADER_SIZE <= |w.file|
  }

  function Write(w: Wav, samples: seq<int>): Wav {
    if w.isOpened then
      w.(file := WriteAt(w.file, w.position, Encode(samples)), position := w.position + |Encode(samples)|)
    else w
  }

  /** Closing patches the data length and the RIFF length into the header. */
  function Close(w: Wav): Wav {
    if !w.isOpened then w
    else
      var f := WriteAt(w.file, DATA_LEN_AT, Le32(w.position - HEADER_SIZE));
      w.(isOpened := false, file := WriteAt(f, RIFF_LEN_AT, Le32(w.position - 8)), position := 8)
  }

  /** The samples stored after the header. */
  function Audio(w: Wav): seq<int> {
    if w.created && HEADER_SIZE <= |w.file| then Decode(w.file[HEADER_SIZE..]) else []
  }

  // ---------------------------------------------------------------------------
  // What a file holds
  // ---------------------------------------------------------------------------

  /** The file with the header lengths as given, followed by some samples. */
  function Image(p: Params, riffLen: int, dataLen: int, samples: seq<int>): (f: seq<Byte>)
    ensures |f| == HEADER_SIZE + 2 * |samples|
  {
    Header(p, riffLen, dataLen) + Encode(samples)
  }

  /** An open file holds its initial header and its samples; a closed one the same
      with correct lengths. */
  ghost predicate Holds(w: Wav, samples: seq<int>) {
    if w.isOpened then
      && w.isSetup && w.created && w.position == |w.file|
      && w.file == Image(w.params, w.params.riffLen, 0, samples)
    else if w.created then
      w.file == Image(w.params, 36 + 2 * |samples|, 2 * |samples|, samples)
    else samples == []
  }

  lemma OpenHolds(w: Wav, ok: bool)
    requires !w.isOpened && !w.created
    ensures Holds(Open(w, ok), [])
    ensures if ok then Open(w, ok).isOpened && |Open(w, ok).file| == 44 else Open(w, ok) == w
  {
    assert Header(DEFAULTS, DEFAULTS.riffLen, 0) + [] == Header(DEFAULTS, DEFAULTS.riffLen, 0);
    assert Header(w.params, w.params.riffLen, 0) + [] == Header(w.params, w.params.riffLen, 0);
    hide Header;
  }

  lemma WriteHolds(w: Wav, before: seq<int>, samples: seq<int>)
    requires Holds(w, before) && w.isOpened
    ensures Holds(Write(w, samples), before + samples)
  {
    EncodeConcat(before, samples);
    hide Header, Encode;
    assert Header(w.params, w.params.riffLen, 0) + Encode(before) + Encode(samples)
        == Header(w.params, w.params.riffLen, 0) + (Encode(before) + Encode(samples));
  }

  /** Closing changes exactly the bytes 4..7 and 40..43, to the lengths that belong
      to the samples in the file. */
  lemma CloseHolds(w: Wav, samples: seq<int>)
    requires Holds(w, samples)
    ensures w.isOpened ==> AtEnd(w)
    ensures Holds(Close(w), samples)
    ensures w.isOpened ==>
              var f := Close(w).file;
              && |f| == |w.file|
              && f[..4] == w.file[..4] && f[4..8] == Le32(|w.file| - 8)
              && f[8..40] == w.file[8..40] && f[40..44] == Le32(2 * |samples|)
              && f[44..] == w.file[44..]
  {
    if w.isOpened {
      PatchedHeader(w.params, w.params.riffLen, 36 + 2 * |samples|, 2 * |samples|, Encode(samples));
      PatchSpots(w.file, Le32(2 * |samples|), Le32(36 + 2 * |samples|));
      hide Header, Encode, WriteAt, Le32;
    }
  }

  /** The value of four bytes, the lowest first. */
  function Value(b: seq<Byte>): int
    requires |b| == 4
  {
    b[0] as int + 256 * (b[1] as int + 256 * (b[2] as int + 256 * b[3] as int))
  }

  /** The lengths in the bytes of a closed file, modulo 2^32: 36 and the audio's size after
      the tag, and the audio's size, two bytes a sample, before the audio. */
  lemma ClosedLengths(w: Wav, samples: seq<int>)
    requires Holds(w, samples) && w.isOpened
    ensures var f := Close(w).file;
            && |f| == 44 + 2 * |samples|
            && Value(f[4..8]) == (36 + 2 * |samples|) % 0x1_0000_0000
            && Value(f[40..44]) == 2 * |samples| % 0x1_0000_0000
    ensures w.file[..4] == Text("RIFF") && w.file[8..16] == Text("WAVEfmt ") && w.file[36..40] == Text("data")
  {
    CloseHolds(w, samples);
    ValueOfLe32(36 + 2 * |samples|);
    ValueOfLe32(2 * |samples|);
    HeaderFields(w.params, w.params.riffLen, 0, Encode(samples));
    Tags();
    var f := w.file;
    assert f[8..16] == f[8..12] + f[12..16];
    hide Header, Encode, Value, Le32, Close;
  }

  lemma ValueOfLe32(x: int)
    ensures Value(Le32(x)) == x % 0x1_0000_0000
  {
    Le32RoundTrip(x);
    assert Value(Le32(x)) == FromLe32(Le32(x));
  }

  function Text(t: string): (b: seq<Byte>)
    ensures |b| == |t|
  {
    seq(|t|, i requires 0 <= i < |t| => t[i] as int % 0x100)
  }

  lemma Tags()
    ensures RIFF == Text("RIFF") && WAVE + FMT == Text("WAVEfmt ") && DATA == Text("data")
  {
  }

  lemma PatchedHeader(p: Params, oldRiff: int, riffLen: int, dataLen: int, body: seq<Byte>)
    ensures WriteAt(WriteAt(Header(p, oldRiff, 0) + body, DATA_LEN_AT, Le32(dataLen)), RIFF_LEN_AT, Le32(riffLen))
            == Header(p, riffLen, dataLen) + body
  {
    hide Le32, Le16, DivTrunc;
    var h, g := Header(p, oldRiff, 0), Header(p, riffLen, dataLen);
    assert h[..4] == g[..4] && h[8..40] == g[8..40] && g[4..8] == Le32(riffLen) && g[40..44] == Le32(dataLen);
    var f := WriteAt(WriteAt(h + body, DATA_LEN_AT, Le32(dataLen)), RIFF_LEN_AT, Le32(riffLen));
    hide Header;
    assert g + body == g[..4] + g[4..8] + g[8..40] + g[40..44] + body;
    assert f == h[..4] + Le32(riffLen) + h[8..40] + Le32(dataLen) + body;
  }

  lemma PatchSpots(file: seq<Byte>, dataLen: seq<Byte>, riffLen: seq<Byte>)
    requires HEADER_SIZE <= |file| && |dataLen| == 4 && |riffLen| == 4
    ensures var f := WriteAt(WriteAt(file, DATA_LEN_AT, dataLen), RIFF_LEN_AT, riffLen);
            && |f| == |file|
            && f[..4] == file[..4] && f[4..8] == riffLen
            && f[8..40] == file[8..40] && f[40..44] == dataLen
            && f[44..] == file[44..]
  {
  }

  lemma HoldsAudio(w: Wav, samples: seq<int>)
    requires Holds(w, samples) && AreSamples(samples)
    ensures Audio(w) == samples
  {
    EncodeRoundTrip(samples);
    hide Header;
    if w.created || w.isOpened {
      assert w.file[HEADER_SIZE..] == Encode(samples);
    }
    hide Encode, Decode;
  }

  // ---------------------------------------------------------------------------
  // Reading a file back
  // ---------------------------------------------------------------------------

  /** Where the body of a chunk starts and how long it is. */
  datatype Chunk = Chunk(at: nat, size: nat)

  /** The first chunk with the given tag, walking the chunks of a RIFF file from a
      position on; chunks are padded to even length. */
  function FindChunk(f: seq<Byte>, at: nat, tag: seq<Byte>): (c: Option<Chunk>)
    ensures c.Some? ==> at + 8 <= c.value.at && c.value.at + c.value.size <= |f|
    decreases |f| - at
  {
    if at + 8 > |f| then None
    else
      var size := FromLe32(f[at + 4..at + 8]);
      if at + 8 + size > |f| then None
      else if f[at..at + 4] == tag then Some(Chunk(at + 8, size))
      else FindChunk(f, at + 8 + size + size % 2, tag)
  }

  /** The fields of a format chunk. */
  datatype Format = Format(tag: nat, channels: nat, rate: nat, byteRate: nat, blockAlign: nat, bits: nat)

  function FormatOf(b: seq<Byte>): Format
    requires 16 <= |b|
  {
    Format(Unsigned16(b[0..2]), Unsigned16(b[2..4]), FromLe32(b[4..8]),
           FromLe32(b[8..12]), Unsigned16(b[12..14]), Unsigned16(b[14..16]))
  }

  /** Uncompressed 16-bit samples, with the block size and byte rate that follow from
      channels and sample rate. */
  predicate IsPcm16(m: Format) {
    m.tag == 1 && m.bits == 16 && m.blockAlign == 2 * m.channels && m.byteRate == m.rate * m.blockAlign
  }

  /** What a WAVE file of 16-bit samples says: sample rate, channels, samples. */
  datatype Pcm = Pcm(rate: int, channels: int, samples: seq<int>)

  /** Reads a WAVE file of 16-bit samples: the RIFF length must cover the file, a
      format chunk of at least 16 bytes must describe such samples consistently, and
      a data chunk must follow it. */
  function ParseWave(f: seq<Byte>): Option<Pcm> {
    if |f| < 12 || f[..4] != RIFF || f[8..12] != WAVE || FromLe32(f[4..8]) != |f| - 8 then None
    else
      ParseFormat(f, FindChunk(f, 12, FMT))
  }

  /** Interprets the format chunk and goes on to the data behind it. */
  function ParseFormat(f: seq<Byte>, chunk: Option<Chunk>): (r: Option<Pcm>)
    requires chunk.Some? ==> chunk.value.at + chunk.value.size <= |f|
  {
    match chunk
    case None => None
    case Some(c) =>
      if c.size < 16 then None
      else
        var m := FormatOf(f[c.at..c.at + c.size]);
        if IsPcm16(m) then ParseData(f, c.at + c.size + c.size % 2, m) else None
  }

  /** The samples of the first data chunk from a position on. */
  function ParseData(f: seq<Byte>, at: nat, m: Format): Option<Pcm> {
    match FindChunk(f, at, DATA)
    case None => None
    case Some(d) => Some(Pcm(m.rate, m.channels, Decode(f[d.at..d.at + d.size])))
  }

  /** The fixed fields of the header and where they are. */
  lemma HeaderFields(p: Params, riffLen: int, dataLen: int, body: seq<Byte>)
    ensures var f := Header(p, riffLen, dataLen) + body;
            && |f| == HEADER_SIZE + |body|
            && f[..4] == RIFF && f[4..8] == Le32(riffLen) && f[8..12] == WAVE
            && f[12..16] == FMT && f[16..20] == Le32(p.fmtLen)
            && f[20..36] == FormatBytes(p)
            && f[36..40] == DATA && f[40..44] == Le32(dataLen) && f[44..] == body
  {
    hide Le32, Le16, DivTrunc;
    var h := Header(p, riffLen, dataLen);
    assert h[..4] == RIFF && h[4..8] == Le32(riffLen) && h[8..12] == WAVE;
    assert h[12..16] == FMT && h[16..20] == Le32(p.fmtLen);
    assert h[20..36] == FormatBytes(p);
    assert h[36..40] == DATA && h[40..44] == Le32(dataLen);
    hide Header, FormatBytes;
    var f := h + body;
    assert f[..4] == h[..4] && f[4..8] == h[4..8] && f[8..12] == h[8..12] && f[12..16] == h[12..16];
    assert f[16..20] == h[16..20] && f[20..36] == h[20..36] && f[36..40] == h[36..40] && f[40..44] == h[40..44];
  }

  function FormatBytes(p: Params): (b: seq<Byte>)
    ensures |b| == 16
  {
    var bytesPerSample := DivTrunc(p.bitsPerSec, 8);
    Le16(p.audioFmt) + Le16(p.channCnt) + Le32(p.samplesPerSec) + Le32(p.samplesPerSec * bytesPerSample)
    + Le16(bytesPerSample) + Le16(p.bitsPerSec)
  }

  /** The format that the header's fields spell, each truncated to its width. */
  function Spelt(p: Params): Format {
    var bytesPerSample := DivTrunc(p.bitsPerSec, 8);
    Format(p.audioFmt % 0x1_0000, p.channCnt % 0x1_0000, p.samplesPerSec % 0x1_0000_0000,
           p.samplesPerSec * bytesPerSample % 0x1_0000_0000, bytesPerSample % 0x1_0000, p.bitsPerSec % 0x1_0000)
  }

  lemma FormatReads(p: Params, b: seq<Byte>)
    requires 16 <= |b| && b[..16] == FormatBytes(p)
    ensures FormatOf(b) == Spelt(p)
  {
    var n := DivTrunc(p.bitsPerSec, 8);
    Le16RoundTrip(p.audioFmt);
    Le16RoundTrip(p.channCnt);
    Le32RoundTrip(p.samplesPerSec);
    Le32RoundTrip(p.samplesPerSec * n);
    Le16RoundTrip(n);
    Le16RoundTrip(p.bitsPerSec);
    var h := b[..16];
    assert b[0..2] == h[0..2] && b[2..4] == h[2..4] && b[4..8] == h[4..8];
    assert b[8..12] == h[8..12] && b[12..14] == h[12..14] && b[14..16] == h[14..16];
    hide Le16, Le32, Unsigned16, FromLe32, DivTrunc;
    assert h[0..2] == Le16(p.audioFmt) && h[2..4] == Le16(p.channCnt) && h[4..8] == Le32(p.samplesPerSec);
    assert h[8..12] == Le32(p.samplesPerSec * n) && h[12..14] == Le16(n) && h[14..16] == Le16(p.bitsPerSec);
  }

  /** The configured sample size is 16 bits, up to multiples of 2^19 that no field of
      the header shows. */
  predicate SixteenBits(p: Params) {
    && (p.bitsPerSec - 16) % 0x8_0000 == 0
    && p.samplesPerSec * ((p.bitsPerSec - 16) / 0x8_0000) % 0x1_0000 == 0
  }

  /** The configuration describes what is written: one channel of 16-bit samples. */
  predicate Describes(p: Params) {
    p.audioFmt == 1 && p.channCnt == 1 && 0 <= p.samplesPerSec && SixteenBits(p)
  }

  lemma SixteenBitsPlainly(p: Params)
    requires IsInt16(p.bitsPerSec)
    ensures SixteenBits(p) <==> p.bitsPerSec == 16
  {
  }

  /** The header's format is consistent and mono exactly for such a configuration. */
  lemma FormatIff(p: Params)
    requires p.Valid()
    ensures IsMono(Spelt(p), p.samplesPerSec) <==> Describes(p)
  {
    if IsMono(Spelt(p), p.samplesPerSec) {
      MonoDescribes(p);
    }
    if Describes(p) {
      DescribesMono(p);
    }
    hide Spelt, IsMono, Describes;
  }

  predicate IsMono(m: Format, rate: int) {
    IsPcm16(m) && m.channels == 1 && m.rate == rate
  }

  lemma MonoDescribes(p: Params)
    requires p.Valid() && IsMono(Spelt(p), p.samplesPerSec)
    ensures Describes(p)
  {
    var m, r, d := Spelt(p), p.samplesPerSec, DivTrunc(p.bitsPerSec, 8);
    assert m.byteRate == 2 * r && m.bits == 16 && m.blockAlign == 2;
    assert p.audioFmt % 0x1_0000 == 1 && p.channCnt % 0x1_0000 == 1 && r % 0x1_0000_0000 == r;
    assert r * d % 0x1_0000_0000 == 2 * r;
    hide Spelt, IsMono, DivTrunc;
    BytesPerSample(p.bitsPerSec);
    BytesOfRate(r, (p.bitsPerSec - 16) / 0x8_0000);
  }

  lemma DescribesMono(p: Params)
    requires p.Valid() && Describes(p)
    ensures IsMono(Spelt(p), p.samplesPerSec)
  {
    FieldsOfSixteenBits(p);
    hide SixteenBits, DivTrunc;
    assert Spelt(p) == Format(1, 1, p.samplesPerSec, 2 * p.samplesPerSec, 2, 16);
    hide Spelt;
  }

  lemma FieldsOfSixteenBits(p: Params)
    requires SixteenBits(p) && 0 <= p.samplesPerSec < 0x8000_0000
    ensures var d := DivTrunc(p.bitsPerSec, 8);
            && d % 0x1_0000 == 2 && p.bitsPerSec % 0x1_0000 == 16
            && p.samplesPerSec * d % 0x1_0000_0000 == 2 * p.samplesPerSec
  {
    var k := (p.bitsPerSec - 16) / 0x8_0000;
    hide DivTrunc;
    BytesPerSample(p.bitsPerSec);
    BytesOfRate(p.samplesPerSec, k);
    assert (2 + 0x1_0000 * k) % 0x1_0000 == 2;
  }

  lemma BytesOfRate(r: int, k: int)
    requires 0 <= r < 0x8000_0000
    ensures r * (2 + 0x1_0000 * k) % 0x1_0000_0000 == 2 * r <==> r * k % 0x1_0000 == 0
  {
    assert r * (2 + 0x1_0000 * k) == 2 * r + 0x1_0000 * (r * k);
    ByteRate(r, r * k);
  }

  lemma BytesPerSample(bits: int)
    requires (bits % 0x1_0000 == 16 && DivTrunc(bits, 8) % 0x1_0000 == 2) || (bits - 16) % 0x8_0000 == 0
    ensures (bits - 16) % 0x8_0000 == 0
    ensures bits % 0x1_0000 == 16 && DivTrunc(bits, 8) == 2 + 0x1_0000 * ((bits - 16) / 0x8_0000)
  {
    if bits % 0x1_0000 == 16 {
      var k := bits / 0x1_0000;
      assert bits == 0x1_0000 * k + 16;
      assert DivTrunc(bits, 8) == 0x2000 * k + 2;
    }
  }

  lemma ByteRate(r: int, q: int)
    requires 0 <= r < 0x8000_0000
    ensures (2 * r + 0x1_0000 * q) % 0x1_0000_0000 == 2 * r <==> q % 0x1_0000 == 0
  {
  }

  lemma ChunksOfImage(f: seq<Byte>, p: Params, body: seq<Byte>)
    requires |f| == HEADER_SIZE + |body| && |body| < 0x1_0000_0000
    requires f[12..16] == FMT && f[16..20] == Le32(p.fmtLen)
    requires f[36..40] == DATA && f[40..44] == Le32(|body|)
    ensures var size := p.fmtLen % 0x1_0000_0000;
            FindChunk(f, 12, FMT) == if 20 + size <= |f| then Some(Chunk(20, size)) else None
    ensures FindChunk(f, 36, DATA) == Some(Chunk(44, |body|))
  {
    Le32RoundTrip(p.fmtLen);
    Le32RoundTrip(|body|);
    hide Le32, FromLe32;
  }

  /** A data chunk found behind the real one's head holds fewer samples than the file:
      it lies within the file's own samples. */
  lemma LateData(f: seq<Byte>, at: nat, m: Format, samples: seq<int>)
    requires |f| == HEADER_SIZE + 2 * |samples| && 38 <= at
    ensures ParseData(f, at, m) != Some(Pcm(m.rate, m.channels, samples))
  {
    hide FindChunk;
  }

  /** What ParseWave makes of an image whose format chunk has a given size. */
  lemma ParseOfFormat(f: seq<Byte>, p: Params, samples: seq<int>)
    requires AreSamples(samples) && |f| < 0x1_0000_0008 && |f| == HEADER_SIZE + 2 * |samples|
    requires f[12..16] == FMT && f[16..20] == Le32(p.fmtLen) && f[20..36] == FormatBytes(p)
    requires f[36..40] == DATA && f[40..44] == Le32(2 * |samples|) && f[44..] == Encode(samples)
    ensures var size, m := p.fmtLen % 0x1_0000_0000, Spelt(p);
            ParseFormat(f, FindChunk(f, 12, FMT)) == Some(Pcm(m.rate, m.channels, samples)) <==>
              size == 16 && IsPcm16(m)
    ensures ParseFormat(f, FindChunk(f, 12, FMT)).Some? ==>
              var r := ParseFormat(f, FindChunk(f, 12, FMT)).value; r.rate == Spelt(p).rate && r.channels == Spelt(p).channels
  {
    hide IsPcm16, FormatBytes, Encode, Decode, Le32;
    var size := p.fmtLen % 0x1_0000_0000;
    ChunksOfImage(f, p, Encode(samples));
    if 16 <= size <= |f| - 20 {
      var b := f[20..20 + size];
      assert b[..16] == f[20..36];
      FormatReads(p, b);
      hide FindChunk, FormatOf, Spelt;
      if size == 16 {
        DataOfImage(f, Spelt(p), samples);
      } else {
        LateData(f, 20 + size + size % 2, Spelt(p), samples);
      }
    }
  }

  lemma DataOfImage(f: seq<Byte>, m: Format, samples: seq<int>)
    requires AreSamples(samples) && |f| == HEADER_SIZE + 2 * |samples| && f[44..] == Encode(samples)
    requires FindChunk(f, 36, DATA) == Some(Chunk(44, 2 * |samples|))
    ensures ParseData(f, 36, m) == Some(Pcm(m.rate, m.channels, samples))
  {
    hide Encode, Decode, FindChunk;
    EncodeRoundTrip(samples);
    assert f[44..44 + 2 * |samples|] == Encode(samples);
  }

  /** The file with header lengths for n samples, as ParseWave reads it. */
  lemma ParseOfImage(f: seq<Byte>, p: Params, samples: seq<int>)
    requires p.Valid() && AreSamples(samples)
    requires f == Image(p, 36 + 2 * |samples|, 2 * |samples|, samples)
    ensures ParseWave(f) == Some(Pcm(p.samplesPerSec, 1, samples)) <==>
              p.fmtLen == 16 && Describes(p) && |f| < 0x1_0000_0008
  {
    hide Header, Encode, FindChunk, ParseFormat, Spelt, IsPcm16, Describes, FormatBytes, Le32, FromLe32;
    var n := |samples|;
    HeaderFields(p, 36 + 2 * n, 2 * n, Encode(samples));
    Le32RoundTrip(36 + 2 * n);
    FormatIff(p);
    if |f| < 0x1_0000_0008 {
      ParseOfFormat(f, p, samples);
    }
  }

  /** A file that was opened without being set up is readable, at 8000 samples a second. */
  lemma DefaultsDescribe(name: Name)
    ensures var p := Open(New(name), true).params;
            Describes(p) && p.fmtLen == 16 && p.samplesPerSec == 8000 && p.Valid()
  {
    hide Header;
  }

  /** A configuration without a format length writes zero there: whatever is recorded,
      the file cannot be read at all. */
  lemma NoFormatLength(p: Params, samples: seq<int>)
    requires p.fmtLen == 0
    ensures ParseWave(Image(p, 36 + 2 * |samples|, 2 * |samples|, samples)) == None
  {
    hide Header, Encode, FormatBytes, Le32, FromLe32;
    var n, f := |samples|, Image(p, 36 + 2 * |samples|, 2 * |samples|, samples);
    HeaderFields(p, 36 + 2 * n, 2 * n, Encode(samples));
    Le32RoundTrip(0);
    assert FindChunk(f, 12, FMT) == Some(Chunk(20, 0));
  }

  /** Block size and byte rate leave the channel count out, so with 16-bit samples the
      format is consistent exactly for one channel. */
  lemma ConsistentIffMono(p: Params)
    requires p.Valid() && p.bitsPerSec == 16 && p.audioFmt == 1 && 0 <= p.samplesPerSec
    ensures IsPcm16(Spelt(p)) <==> p.channCnt == 1
  {
  }

  /** A closed file reads back as its samples, in one channel at the configured rate, if
      and only if the format chunk is configured with its 16 bytes and describes such
      samples, and the file is short enough for its RIFF length field. */
  lemma ClosedFileParses(w: Wav, samples: seq<int>)
    requires Holds(w, samples) && !w.isOpened && w.created && AreSamples(samples) && w.params.Valid()
    ensures ParseWave(w.file) == Some(Pcm(w.params.samplesPerSec, 1, samples)) <==>
              w.params.fmtLen == 16 && Describes(w.params) && |w.file| < 0x1_0000_0008
  {
    ParseOfImage(w.file, w.params, samples);
  }

  // ---------------------------------------------------------------------------
  // The file object
  // ---------------------------------------------------------------------------

  class WavObject {
    const name: Name
    var isSetup: bool
    var isOpened: bool
    var created: bool
    var params: Params
    var file: seq<Byte>
    var position: nat
    var maxSize: nat  // a size estimate the code keeps but does not use

    ghost function State(): Wav
      reads this
    {
      Wav(name, isSetup, params, isOpened, created, file, position)
    }

    ghost predicate Valid()
      reads this
    {
      isOpened ==> AtEnd(State())
    }

    constructor (name: Name)
      ensures State() == New(name) && Valid() && maxSize == 0
    {
      this.name := name;
      isSetup, isOpened, created := false, false, false;
      params := DEFAULTS;
      file := [];
      position := 0;
      maxSize := 0;
    }

    method SetupWave(p: Params)
      requires Valid()
      modifies this`isSetup, this`params
      ensures Valid() && State() == Setup(old(State()), p)
    {
      params := p;
      isSetup := true;
    }

    /** Opens the file for writing; ok says whether the file system lets it. */
    method OpenFile(ok: bool) returns (result: bool)
      requires Valid()
      modifies this
      ensures Valid() && State() == Open(old(State()), ok) && result == isOpened
      ensures maxSize == old(maxSize) + if ok then HEADER_SIZE else 0
    {
      if !ok {
        return isOpened;
      }
      if !isSetup {
        SetupWave(DEFAULTS);
      }
      file := Header(params, params.riffLen, 0);
      position := HEADER_SIZE;
      maxSize := maxSize + HEADER_SIZE;
      created := true;
      isOpened := true;
      return isOpened;
    }

    /** Appends samples; only called while the file is open. */
    method WriteSamples(data: seq<int>) returns (size: nat)
      requires Valid() && isOpened
      modifies this`file, this`position, this`maxSize
      ensures Valid() && State() == Write(old(State()), data)
      ensures size == maxSize == old(maxSize) + |data|
    {
      file := WriteAt(file, position, Encode(data));
      position := position + |Encode(data)|;
      maxSize := maxSize + |data|;
      return maxSize;
    }

    method CloseFile()
      requires Valid()
      modifies this
      ensures Valid() && State() == Close(old(State()))
    {
      if isOpened {
        var fileLen := position;
        var dataLen := fileLen - HEADER_SIZE;
        position := DATA_LEN_AT;
        file := WriteAt(file, position, Le32(dataLen));
        var riffLen := fileLen - 8;
        position := RIFF_LEN_AT;
        file := WriteAt(file, position, Le32(riffLen));
        position := position + 4;
        isOpened := false;
      }
    }

    function GetFileSize(): nat
      reads this
    {
      position
    }
  }
}
