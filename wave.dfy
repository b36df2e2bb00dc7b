/** The minimal RIFF/WAVE helpers of buffer.py (`_wave_header`,
    `_write_wave_file`, `_read_wave_file`), over byte sequences instead of
    files. A sample is an opaque 4-byte word: the 32-bit float packing is not
    modelled. */
module Wave {
  import opened Wrappers

  type Byte = b: int | 0 <= b < 256

  /** One 32-bit sample as it sits in the file. */
  type Sample = w: seq<Byte> | |w| == 4 witness [0, 0, 0, 0]

  /** What the Python code raises: `struct.error` for a value that does not
      fit its field or a short read, `IndexError` for writing no channels,
      `ZeroDivisionError` for a file that declares no channels, and the plain
      `Exception` of a file without a data chunk. */
  datatype WaveError =
    | StructError
    | IndexError
    | ZeroDivisionError
    | FormatError(message: string)

  const RiffTag: seq<Byte> := [0x52, 0x49, 0x46, 0x46]  // "RIFF"
  const WaveTag: seq<Byte> := [0x57, 0x41, 0x56, 0x45]  // "WAVE"
  const FmtTag: seq<Byte> := [0x66, 0x6d, 0x74, 0x20]   // "fmt "
  const DataTag: seq<Byte> := [0x64, 0x61, 0x74, 0x61]  // "data"

  const NoDataChunk: string := "bad file format or algorithm"

  /** The value of a little-endian `<H` field. */
  function Le16(b: seq<Byte>): nat
    requires |b| == 2
  {
    b[0] as int + 256 * b[1] as int
  }

  /** The value of a little-endian `<L` field. */
  function Le32(b: seq<Byte>): nat
    requires |b| == 4
  {
    b[0] as int + 256 * b[1] as int + 0x1_0000 * b[2] as int + 0x100_0000 * b[3] as int
  }

  /** `struct.pack('<H', n)`: decoding gives `n` back. */
  function U16(n: int): (b: seq<Byte>)
    requires 0 <= n < 0x1_0000
    ensures |b| == 2 && Le16(b) == n
  {
    [n % 256, n / 256]
  }

  /** `struct.pack('<L', n)`: decoding gives `n` back. */
  function U32(n: int): (b: seq<Byte>)
    requires 0 <= n < 0x1_0000_0000
    ensures |b| == 4 && Le32(b) == n
  {
    var q1 := n / 256;
    var q2 := q1 / 256;
    SplitByte(n);
    SplitByte(q1);
    SplitByte(q2);
    [n % 256, q1 % 256, q2 % 256, q2 / 256]
  }

  /** A non-negative number is its low byte plus 256 times the rest. */
  lemma SplitByte(x: int)
    requires x >= 0
    ensures 0 <= x % 256 < 256 && 0 <= x / 256 && x == x % 256 + 256 * (x / 256)
  {
  }

  /** Packing a decoded field gives the same bytes back. */
  lemma U16OfLe(b: seq<Byte>)
    requires |b| == 2
    ensures Le16(b) < 0x1_0000 && U16(Le16(b)) == b
  {
  }

  lemma U32OfLe(b: seq<Byte>)
    requires |b| == 4
    ensures Le32(b) < 0x1_0000_0000 && U32(Le32(b)) == b
  {
    var n := Le32(b);
    var q1 := b[1] as int + 256 * b[2] as int + 0x1_0000 * b[3] as int;
    var q2 := b[2] as int + 256 * b[3] as int;
    DivModByte(n, b[0], q1);
    DivModByte(q1, b[1], q2);
    DivModByte(q2, b[2], b[3]);
  }

  /** Splitting off the low byte. */
  lemma DivModByte(x: int, low: int, high: int)
    requires 0 <= low < 256 && x == low + 256 * high
    ensures x % 256 == low && x / 256 == high
  {
  }

  /** Every field of a header fits its `struct` format: the RIFF size and
      the unsigned 32-bit fields, the unsigned 16-bit fields. */
  predicate HeaderFits(riffSize: int, frames: nat, channels: nat, sampleRate: int) {
    && 0 <= riffSize < 0x1_0000_0000
    && channels < 0x1_0000
    && 0 <= sampleRate < 0x1_0000_0000
    && 4 * sampleRate * channels < 0x1_0000_0000
    && 4 * channels < 0x1_0000
    && 4 * frames * channels < 0x1_0000_0000
  }

  /** The 44-byte header with a given RIFF size field, or the `struct.error`
      of a field that does not fit. */
  function Header(riffSize: int, frames: nat, channels: nat, sampleRate: int): (r: Result<seq<Byte>, WaveError>)
    ensures r.Ok? <==> HeaderFits(riffSize, frames, channels, sampleRate)
    ensures r.Err? ==> r.error == StructError
    ensures r.Ok? ==> |r.value| == 44
  {
    if !HeaderFits(riffSize, frames, channels, sampleRate) then Err(StructError)
    else
      assert 0 <= sampleRate * channels by {
        MulNonNegative(sampleRate, channels);
      }
      assert 0 <= frames * channels by {
        MulNonNegative(frames, channels);
      }
      Ok(Fields(riffSize, channels, sampleRate, 4 * sampleRate * channels, 4 * channels, 4 * frames * channels))
  }

  /** The header's bytes from the values of its fields, in file order:
      "RIFF", the RIFF size, "WAVE", "fmt ", the fmt chunk length 16, format
      3, the channel count, the sample rate, the byte rate, the block align,
      32 bits per sample, "data" and the data size. */
  function Fields(riffSize: int, channels: int, sampleRate: int, byteRate: int, blockAlign: int, dataSize: int): (h: seq<Byte>)
    requires 0 <= riffSize < 0x1_0000_0000 && 0 <= channels < 0x1_0000 && 0 <= sampleRate < 0x1_0000_0000
    requires 0 <= byteRate < 0x1_0000_0000 && 0 <= blockAlign < 0x1_0000 && 0 <= dataSize < 0x1_0000_0000
    ensures |h| == 44
  {
    RiffHead(riffSize) + FmtHead(channels) + Rates(sampleRate, byteRate, blockAlign) + DataHead(dataSize)
  }

  /** "RIFF", the RIFF size and "WAVE". */
  function RiffHead(riffSize: int): (h: seq<Byte>)
    requires 0 <= riffSize < 0x1_0000_0000
    ensures |h| == 12
  {
    var r := U32(riffSize);
    [0x52, 0x49, 0x46, 0x46, r[0], r[1], r[2], r[3], 0x57, 0x41, 0x56, 0x45]
  }

  /** "fmt ", the fmt chunk length 16, format 3 and the channel count. */
  function FmtHead(channels: int): (h: seq<Byte>)
    requires 0 <= channels < 0x1_0000
    ensures |h| == 12
  {
    var c := U16(channels);
    [0x66, 0x6d, 0x74, 0x20, 16, 0, 0, 0, 3, 0, c[0], c[1]]
  }

  /** The sample rate, the byte rate, the block align and 32 bits per
      sample. */
  function Rates(sampleRate: int, byteRate: int, blockAlign: int): (h: seq<Byte>)
    requires 0 <= sampleRate < 0x1_0000_0000 && 0 <= byteRate < 0x1_0000_0000 && 0 <= blockAlign < 0x1_0000
    ensures |h| == 12
  {
    var s, b, a := U32(sampleRate), U32(byteRate), U16(blockAlign);
    [s[0], s[1], s[2], s[3], b[0], b[1], b[2], b[3], a[0], a[1], 32, 0]
  }

  /** "data" and the data size. */
  function DataHead(dataSize: int): (h: seq<Byte>)
    requires 0 <= dataSize < 0x1_0000_0000
    ensures |h| == 8
  {
    var d := U32(dataSize);
    [0x64, 0x61, 0x74, 0x61, d[0], d[1], d[2], d[3]]
  }

  /** Every field reads back at its offset. */
  lemma FieldsReadBack(riffSize: int, channels: int, sampleRate: int, byteRate: int, blockAlign: int, dataSize: int)
    requires 0 <= riffSize < 0x1_0000_0000 && 0 <= channels < 0x1_0000 && 0 <= sampleRate < 0x1_0000_0000
    requires 0 <= byteRate < 0x1_0000_0000 && 0 <= blockAlign < 0x1_0000 && 0 <= dataSize < 0x1_0000_0000
    ensures var h := Fields(riffSize, channels, sampleRate, byteRate, blockAlign, dataSize);
      && h[0..4] == RiffTag && Le32(h[4..8]) == riffSize && h[8..12] == WaveTag
      && h[12..16] == FmtTag && Le32(h[16..20]) == 16 && Le16(h[20..22]) == 3
      && Le16(h[22..24]) == channels && Le32(h[24..28]) == sampleRate
      && Le32(h[28..32]) == byteRate && Le16(h[32..34]) == blockAlign && Le16(h[34..36]) == 32
      && h[36..40] == DataTag && Le32(h[40..44]) == dataSize
  {
    RiffReadBack(riffSize, channels, sampleRate, byteRate, blockAlign, dataSize);
    FmtReadBack(riffSize, channels, sampleRate, byteRate, blockAlign, dataSize);
    RatesReadBack(riffSize, channels, sampleRate, byteRate, blockAlign, dataSize);
    DataReadBack(riffSize, channels, sampleRate, byteRate, blockAlign, dataSize);
  }

  /** The RIFF chunk head: "RIFF", the size, "WAVE". */
  lemma RiffReadBack(riffSize: int, channels: int, sampleRate: int, byteRate: int, blockAlign: int, dataSize: int)
    requires 0 <= riffSize < 0x1_0000_0000 && 0 <= channels < 0x1_0000 && 0 <= sampleRate < 0x1_0000_0000
    requires 0 <= byteRate < 0x1_0000_0000 && 0 <= blockAlign < 0x1_0000 && 0 <= dataSize < 0x1_0000_0000
    ensures var h := Fields(riffSize, channels, sampleRate, byteRate, blockAlign, dataSize);
      h[0..4] == RiffTag && h[4..8] == U32(riffSize) && h[8..12] == WaveTag
  {
    var h := Fields(riffSize, channels, sampleRate, byteRate, blockAlign, dataSize);
    Quad(h, 0, RiffTag);
    Quad(h, 4, U32(riffSize));
    Quad(h, 8, WaveTag);
  }

  /** "fmt ", its length, the format and the channel count. */
  lemma FmtReadBack(riffSize: int, channels: int, sampleRate: int, byteRate: int, blockAlign: int, dataSize: int)
    requires 0 <= riffSize < 0x1_0000_0000 && 0 <= channels < 0x1_0000 && 0 <= sampleRate < 0x1_0000_0000
    requires 0 <= byteRate < 0x1_0000_0000 && 0 <= blockAlign < 0x1_0000 && 0 <= dataSize < 0x1_0000_0000
    ensures var h := Fields(riffSize, channels, sampleRate, byteRate, blockAlign, dataSize);
      h[12..16] == FmtTag && h[16..20] == U32(16) && h[20..22] == U16(3) && h[22..24] == U16(channels)
  {
    var h := Fields(riffSize, channels, sampleRate, byteRate, blockAlign, dataSize);
    Quad(h, 12, FmtTag);
    Quad(h, 16, U32(16));
    Pair(h, 20, U16(3));
    Pair(h, 22, U16(channels));
  }

  /** The rates, the block align and the sample width. */
  lemma RatesReadBack(riffSize: int, channels: int, sampleRate: int, byteRate: int, blockAlign: int, dataSize: int)
    requires 0 <= riffSize < 0x1_0000_0000 && 0 <= channels < 0x1_0000 && 0 <= sampleRate < 0x1_0000_0000
    requires 0 <= byteRate < 0x1_0000_0000 && 0 <= blockAlign < 0x1_0000 && 0 <= dataSize < 0x1_0000_0000
    ensures var h := Fields(riffSize, channels, sampleRate, byteRate, blockAlign, dataSize);
      h[24..28] == U32(sampleRate) && h[28..32] == U32(byteRate) && h[32..34] == U16(blockAlign) && h[34..36] == U16(32)
  {
    var h := Fields(riffSize, channels, sampleRate, byteRate, blockAlign, dataSize);
    Quad(h, 24, U32(sampleRate));
    Quad(h, 28, U32(byteRate));
    Pair(h, 32, U16(blockAlign));
    Pair(h, 34, U16(32));
  }

  /** "data" and the data size. */
  lemma DataReadBack(riffSize: int, channels: int, sampleRate: int, byteRate: int, blockAlign: int, dataSize: int)
    requires 0 <= riffSize < 0x1_0000_0000 && 0 <= channels < 0x1_0000 && 0 <= sampleRate < 0x1_0000_0000
    requires 0 <= byteRate < 0x1_0000_0000 && 0 <= blockAlign < 0x1_0000 && 0 <= dataSize < 0x1_0000_0000
    ensures var h := Fields(riffSize, channels, sampleRate, byteRate, blockAlign, dataSize);
      h[36..40] == DataTag && h[40..44] == U32(dataSize)
  {
    var h := Fields(riffSize, channels, sampleRate, byteRate, blockAlign, dataSize);
    Quad(h, 36, DataTag);
    Quad(h, 40, U32(dataSize));
  }

  /** Four bytes at `i` that match `w` one by one are `w`. */
  lemma Quad(h: seq<Byte>, i: nat, w: seq<Byte>)
    requires i + 4 <= |h| && |w| == 4
    requires h[i] == w[0] && h[i + 1] == w[1] && h[i + 2] == w[2] && h[i + 3] == w[3]
    ensures h[i..i + 4] == w
  {
  }

  /** Two bytes at `i` that match `w` one by one are `w`. */
  lemma Pair(h: seq<Byte>, i: nat, w: seq<Byte>)
    requires i + 2 <= |h| && |w| == 2
    requires h[i] == w[0] && h[i + 1] == w[1]
    ensures h[i..i + 2] == w
  {
  }

  /** `_wave_header(frames, channels, sample_rate)` as written: the RIFF
      size field holds `frames + 36`. */
  function WaveHeader(frames: nat, channels: nat, sampleRate: int): (r: Result<seq<Byte>, WaveError>)
    ensures r.Ok? <==> HeaderFits(frames + 36, frames, channels, sampleRate)
  {
    Header(frames + 36, frames, channels, sampleRate)
  }

  /** The header with the RIFF size the format defines: the bytes after the
      size field, 36 of header plus the sample data. */
  function WaveHeaderFixed(frames: nat, channels: nat, sampleRate: int): (r: Result<seq<Byte>, WaveError>)
    ensures r.Ok? <==> HeaderFits(36 + 4 * frames * channels, frames, channels, sampleRate)
  {
    Header(36 + 4 * frames * channels, frames, channels, sampleRate)
  }

  /** Reading the fields of a header back at their offsets gives the values
      written: the tags, the RIFF size at 4, the fmt chunk length 16 at
      offset 16, format 3 (IEEE float) at 20, the channel count at 22, the
      rates, block align 4*channels, 32 bits per sample, and the data size
      `4*frames*channels` at 40. */
  lemma HeaderReadBack(riffSize: int, frames: nat, channels: nat, sampleRate: int)
    requires HeaderFits(riffSize, frames, channels, sampleRate)
    ensures var h := Header(riffSize, frames, channels, sampleRate).value;
      && h[0..4] == RiffTag && Le32(h[4..8]) == riffSize && h[8..12] == WaveTag
      && h[12..16] == FmtTag && Le32(h[16..20]) == 16 && Le16(h[20..22]) == 3
      && Le16(h[22..24]) == channels && Le32(h[24..28]) == sampleRate
      && Le32(h[28..32]) == 4 * sampleRate * channels
      && Le16(h[32..34]) == 4 * channels && Le16(h[34..36]) == 32
      && h[36..40] == DataTag && Le32(h[40..44]) == 4 * frames * channels
  {
    MulNonNegative(sampleRate, channels);
    MulNonNegative(frames, channels);
    FieldsReadBack(riffSize, channels, sampleRate, 4 * sampleRate * channels, 4 * channels, 4 * frames * channels);
  }

  /** The bytes of frame `k`: one sample of every channel, in channel order
      (`struct.pack(fmt, *frame)`). */
  function FrameBytes(data: seq<seq<Sample>>, k: nat): (b: seq<Byte>)
    requires forall c :: 0 <= c < |data| ==> k < |data[c]|
  {
    if data == [] then [] else data[0][k] + FrameBytes(data[1..], k)
  }

  /** Frames `k` up to `n`, one after the other. */
  function Interleave(data: seq<seq<Sample>>, k: nat, n: nat): (b: seq<Byte>)
    requires k <= n && forall c :: 0 <= c < |data| ==> n <= |data[c]|
    decreases n - k
  {
    if k == n then [] else FrameBytes(data, k) + Interleave(data, k + 1, n)
  }

  /** The length of the shortest channel: `zip` stops there. */
  function MinLen(data: seq<seq<Sample>>): (n: nat)
    requires data != []
    ensures forall c :: 0 <= c < |data| ==> n <= |data[c]|
    ensures exists c :: 0 <= c < |data| && n == |data[c]|
  {
    if |data| == 1 then |data[0]|
    else
      var m := MinLen(data[1..]);
      assert forall c :: 1 <= c < |data| ==> data[1..][c - 1] == data[c];
      if |data[0]| <= m then |data[0]| else m
  }

  /** `_write_wave_file(path, data, sample_rate)`: what ends up in the file.
      The header counts the frames of the first channel; the samples are
      written frame by frame until the shortest channel runs out. */
  function WaveBytes(data: seq<seq<Sample>>, sampleRate: int): (r: Result<seq<Byte>, WaveError>)
    ensures data == [] ==> r == Err(IndexError)
    ensures data != [] ==> (r.Ok? <==> HeaderFits(|data[0]| + 36, |data[0]|, |data|, sampleRate))
    ensures r.Ok? ==> data != [] && |r.value| == 44 + MinLen(data) * (4 * |data|)
  {
    if data == [] then Err(IndexError)
    else match WaveHeader(|data[0]|, |data|, sampleRate)
      case Err(e) => Err(e)
      case Ok(h) =>
        InterleaveLength(data, 0, MinLen(data));
        Ok(h + Interleave(data, 0, MinLen(data)))
  }

  /** The file the writer would produce with the corrected header. */
  function WaveBytesFixed(data: seq<seq<Sample>>, sampleRate: int): (r: Result<seq<Byte>, WaveError>)
  {
    if data == [] then Err(IndexError)
    else match WaveHeaderFixed(|data[0]|, |data|, sampleRate)
      case Err(e) => Err(e)
      case Ok(h) => Ok(h + Interleave(data, 0, MinLen(data)))
  }

  /** The writer's loop: the header, then one packed frame per step. */
  method WriteWave(data: seq<seq<Sample>>, sampleRate: int) returns (r: Result<seq<Byte>, WaveError>)
    ensures r == WaveBytes(data, sampleRate)
  {
    if |data| == 0 {
      return Err(IndexError);
    }
    var header := WaveHeader(|data[0]|, |data|, sampleRate);
    if header.Err? {
      return Err(header.error);
    }
    var n := MinLen(data);
    var frames: seq<Byte> := [];
    var k := 0;
    while k < n
      invariant k <= n
      invariant frames + Interleave(data, k, n) == Interleave(data, 0, n)
    {
      InterleaveStep(data, frames, k, n);
      frames := frames + FrameBytes(data, k);
      k := k + 1;
    }
    assert frames == Interleave(data, 0, n);
    r := Ok(header.value + frames);
  }

  /** Moving frame `k` from the frames still to write to those written. */
  lemma InterleaveStep(data: seq<seq<Sample>>, frames: seq<Byte>, k: nat, n: nat)
    requires k < n && forall c :: 0 <= c < |data| ==> n <= |data[c]|
    ensures frames + Interleave(data, k, n) == (frames + FrameBytes(data, k)) + Interleave(data, k + 1, n)
  {
    assert Interleave(data, k, n) == FrameBytes(data, k) + Interleave(data, k + 1, n);
  }

  /** `file.read(n)` at position `pos`: at most `n` bytes, fewer at the end
      of the file, none past it. */
  function Read(f: seq<Byte>, pos: nat, n: nat): (b: seq<Byte>)
    ensures |b| <= n
  {
    f[Min(pos, |f|)..Min(pos + n, |f|)]
  }

  function Min(a: int, b: int): int {
    if a <= b then a else b
  }

  /** The chunk search of `_read_wave_file` on the bytes from the current
      position on: a "data" tag ends it and gives the bytes after the tag;
      any other chunk is skipped by its declared length. A file that ends
      where a chunk length should be raises; a length cut short raises
      `struct.error`. */
  function FindData(s: seq<Byte>): (r: Result<seq<Byte>, WaveError>)
    decreases |s|
  {
    var tag := s[..Min(4, |s|)];
    if tag == DataTag then Ok(s[4..])
    else
      var s1 := s[|tag|..];
      var len := s1[..Min(4, |s1|)];
      if len == [] then Err(FormatError(NoDataChunk))
      else if |len| < 4 then Err(StructError)
      else
        var s2 := s1[4..];
        FindData(s2[Min(Le32(len), |s2|)..])
  }

  /** The 4-byte samples of one frame, in channel order. */
  function Words(b: seq<Byte>, channels: nat): (w: seq<Sample>)
    requires |b| == 4 * channels
    ensures |w| == channels
  {
    seq(channels, i requires 0 <= i < channels => b[4 * i..4 * i + 4])
  }

  /** `n` frames of `channels` samples each, read one after the other; a
      frame cut short by the end of the data raises `struct.error`. */
  function ReadFrames(s: seq<Byte>, channels: nat, n: nat): (r: Result<seq<seq<Sample>>, WaveError>)
    ensures r.Ok? ==> |r.value| == n && forall k :: 0 <= k < n ==> |r.value[k]| == channels
    ensures r.Err? ==> r.error == StructError
  {
    if n == 0 then Ok([])
    else if |s| < 4 * channels then Err(StructError)
    else match ReadFrames(s[4 * channels..], channels, n - 1)
      case Err(e) => Err(e)
      case Ok(rest) => Ok([Words(s[..4 * channels], channels)] + rest)
  }

  /** `list(zip(*ret))`: frames to channels. No frames give no channels. */
  function Transpose(frames: seq<seq<Sample>>, channels: nat): (data: seq<seq<Sample>>)
    requires forall k :: 0 <= k < |frames| ==> |frames[k]| == channels
    ensures frames == [] ==> data == []
    ensures frames != [] ==> |data| == channels
    ensures frames != [] ==> forall c :: 0 <= c < channels ==> |data[c]| == |frames|
    ensures frames != [] ==> forall c, k :: 0 <= c < channels && 0 <= k < |frames| ==> data[c][k] == frames[k][c]
  {
    if frames == [] then []
    else
      seq(channels, c requires 0 <= c < channels =>
        seq(|frames|, k requires 0 <= k < |frames| => frames[k][c]))
  }

  /** `_read_wave_file(path)`: the channel count at offset 22, the fmt chunk
      length at offset 16, the chunk search from offset `20 + length`, then
      `size // (4*channels)` frames from the data chunk. */
  function ParseWave(f: seq<Byte>): (r: Result<seq<seq<Sample>>, WaveError>)
    ensures |f| < 24 ==> r == Err(StructError)
    ensures r.Ok? ==> |f| >= 24 && (r.value == [] || |r.value| == Le16(f[22..24]))
    ensures r.Ok? ==> forall c :: 0 <= c < |r.value| ==> |r.value[c]| == |r.value[0]|
  {
    if |f| < 24 then Err(StructError)
    else
      var channels := Le16(f[22..24]);
      var p := 20 + Le32(f[16..20]);
      match FindData(f[Min(p, |f|)..])
      case Err(e) => Err(e)
      case Ok(rest) =>
        if |rest| < 4 then Err(StructError)
        else if channels == 0 then Err(ZeroDivisionError)
        else match ReadFrames(rest[4..], channels, FrameCount(Le32(rest[..4]), channels))
          case Err(e) => Err(e)
          case Ok(frames) => Ok(Transpose(frames, channels))
  }

  /** `size // (4 * channels)`: the whole frames a data chunk holds. */
  function FrameCount(size: nat, channels: nat): nat
    requires channels > 0
  {
    DivNonNegative(size, 4 * channels);
    size / (4 * channels)
  }

  lemma DivNonNegative(a: nat, b: int)
    requires b > 0
    ensures a / b >= 0
  {
  }

  /** `_read_wave_file`'s steps: the two header fields, the chunk search,
      the data size, then the frames. */
  method ReadWave(f: seq<Byte>) returns (r: Result<seq<seq<Sample>>, WaveError>)
    ensures r == ParseWave(f)
  {
    if |f| < 24 {
      return Err(StructError);
    }
    var channels := Le16(f[22..24]);
    var found := SeekData(f, 20 + Le32(f[16..20]));
    if found.Err? {
      return Err(found.error);
    }
    var pos := found.value;
    var len := Read(f, pos, 4);
    if |len| < 4 {
      return Err(StructError);
    }
    assert len == f[pos..][..4];
    if channels == 0 {
      return Err(ZeroDivisionError);
    }
    var n := FrameCount(Le32(len), channels);
    assert f[pos..][4..] == f[pos + 4..];
    var frames := ReadFrameLoop(f, pos + 4, channels, n);
    if frames.Err? {
      return Err(frames.error);
    }
    r := Ok(Transpose(frames.value, channels));
  }

  /** The `while file.read(4) != b'data'` loop from position `pos`: the
      position after the "data" tag, or what the search raises. */
  method SeekData(f: seq<Byte>, pos: nat) returns (r: Result<nat, WaveError>)
    ensures r.Ok? ==> r.value <= |f| && FindData(f[Min(pos, |f|)..]) == Ok(f[r.value..])
    ensures r.Err? ==> FindData(f[Min(pos, |f|)..]) == Err(r.error)
  {
    var p: nat := pos;
    while true
      invariant FindData(f[Min(p, |f|)..]) == FindData(f[Min(pos, |f|)..])
      decreases |f| - Min(p, |f|)
    {
      SeekTurn(f, p);
      var tag := Read(f, p, 4);
      var len := Read(f, p + |tag|, 4);
      if tag == DataTag {
        return Ok(p + 4);
      } else if len == [] {
        return Err(FormatError(NoDataChunk));
      } else if |len| < 4 {
        return Err(StructError);
      }
      p := p + 8 + Le32(len);
    }
  }

  /** One turn of the chunk search at position `p`: a "data" tag ends it;
      a missing chunk length raises the plain exception, a short one
      `struct.error`; otherwise the search goes on after the chunk. */
  lemma SeekTurn(f: seq<Byte>, p: nat)
    ensures var tag := Read(f, p, 4);
      var len := Read(f, p + |tag|, 4);
      var found := FindData(f[Min(p, |f|)..]);
      && (tag == DataTag ==> p + 4 <= |f| && found == Ok(f[p + 4..]))
      && (tag != DataTag && len == [] ==> found == Err(FormatError(NoDataChunk)))
      && (tag != DataTag && 0 < |len| < 4 ==> found == Err(StructError))
      && (tag != DataTag && |len| == 4 ==>
            && p + 8 <= |f| && len == f[p + 4..p + 8]
            && found == FindData(f[Min(p + 8 + Le32(len), |f|)..]))
  {
    SeekFound(f, p);
    SeekEnd(f, p);
    SeekShort(f, p);
    SeekSkip(f, p);
  }

  lemma SeekFound(f: seq<Byte>, p: nat)
    ensures Read(f, p, 4) == DataTag ==> p + 4 <= |f| && FindData(f[Min(p, |f|)..]) == Ok(f[p + 4..])
  {
    if Read(f, p, 4) == DataTag {
      var here := f[p..];
      assert here[..4] == DataTag;
      assert here[4..] == f[p + 4..];
    }
  }

  lemma SeekEnd(f: seq<Byte>, p: nat)
    ensures Read(f, p, 4) != DataTag && Read(f, p + |Read(f, p, 4)|, 4) == [] ==>
      FindData(f[Min(p, |f|)..]) == Err(FormatError(NoDataChunk))
  {
    var here := f[Min(p, |f|)..];
    assert here[..Min(4, |here|)] == Read(f, p, 4);
  }

  lemma SeekShort(f: seq<Byte>, p: nat)
    ensures Read(f, p, 4) != DataTag && 0 < |Read(f, p + |Read(f, p, 4)|, 4)| < 4 ==>
      FindData(f[Min(p, |f|)..]) == Err(StructError)
  {
    if Read(f, p, 4) != DataTag && 0 < |Read(f, p + |Read(f, p, 4)|, 4)| < 4 {
      var here := f[Min(p, |f|)..];
      assert here[..Min(4, |here|)] == Read(f, p, 4);
      assert |Read(f, p, 4)| == 4;
      assert here[4..][..Min(4, |here[4..]|)] == Read(f, p + 4, 4);
    }
  }

  lemma SeekSkip(f: seq<Byte>, p: nat)
    ensures Read(f, p, 4) != DataTag && |Read(f, p + |Read(f, p, 4)|, 4)| == 4 ==>
      && p + 8 <= |f| && Read(f, p + 4, 4) == f[p + 4..p + 8]
      && FindData(f[Min(p, |f|)..]) == FindData(f[Min(p + 8 + Le32(f[p + 4..p + 8]), |f|)..])
  {
    if Read(f, p, 4) != DataTag && |Read(f, p + |Read(f, p, 4)|, 4)| == 4 {
      SkipChunk(f, p);
    }
  }

  lemma SkipChunk(f: seq<Byte>, p: nat)
    requires Read(f, p, 4) != DataTag && |Read(f, p + |Read(f, p, 4)|, 4)| == 4
    ensures p + 8 <= |f| && Read(f, p + 4, 4) == f[p + 4..p + 8]
    ensures FindData(f[Min(p, |f|)..]) == FindData(f[Min(p + 8 + Le32(f[p + 4..p + 8]), |f|)..])
  {
    var here := f[p..];
    assert here[..4] == Read(f, p, 4);
    assert here[4..][..4] == f[p + 4..p + 8];
    var rest := here[4..][4..];
    assert rest == f[p + 8..];
    assert rest[Min(Le32(f[p + 4..p + 8]), |rest|)..] == f[Min(p + 8 + Le32(f[p + 4..p + 8]), |f|)..];
  }

  /** `for _ in range(n): ret.append(struct.unpack(fmt, file.read(size)))`. */
  method ReadFrameLoop(f: seq<Byte>, start: nat, channels: nat, n: nat) returns (r: Result<seq<seq<Sample>>, WaveError>)
    requires start <= |f|
    ensures r == ReadFrames(f[start..], channels, n)
  {
    var size := 4 * channels;
    var pos := start;
    var frames: seq<seq<Sample>> := [];
    PrefixedEmpty(ReadFrames(f[start..], channels, n));
    for i := 0 to n
      invariant start <= pos <= |f|
      invariant ReadFrames(f[start..], channels, n) == Prefixed(frames, ReadFrames(f[pos..], channels, n - i))
    {
      var b := Read(f, pos, size);
      if |b| < size {
        return Err(StructError);
      }
      assert b == f[pos..][..size];
      assert f[pos..][size..] == f[pos + size..];
      FramesStep(frames, f[pos..], channels, n - i);
      frames := frames + [Words(b, channels)];
      pos := pos + size;
    }
    assert frames + [] == frames;
    r := Ok(frames);
  }

  lemma PrefixedEmpty(r: Result<seq<seq<Sample>>, WaveError>)
    ensures Prefixed([], r) == r
  {
    if r.Ok? {
      assert [] + r.value == r.value;
    }
  }

  /** Reading one more frame moves it from the rest to the prefix. */
  lemma FramesStep(frames: seq<seq<Sample>>, s: seq<Byte>, channels: nat, m: nat)
    requires m > 0 && |s| >= 4 * channels
    ensures Prefixed(frames, ReadFrames(s, channels, m)) ==
      Prefixed(frames + [Words(s[..4 * channels], channels)], ReadFrames(s[4 * channels..], channels, m - 1))
  {
    var rest := ReadFrames(s[4 * channels..], channels, m - 1);
    if rest.Ok? {
      assert frames + ([Words(s[..4 * channels], channels)] + rest.value) ==
        (frames + [Words(s[..4 * channels], channels)]) + rest.value;
    }
  }

  /** A read result with `prefix` put in front of its frames. */
  function Prefixed(prefix: seq<seq<Sample>>, r: Result<seq<seq<Sample>>, WaveError>): Result<seq<seq<Sample>>, WaveError> {
    match r
    case Err(e) => Err(e)
    case Ok(frames) => Ok(prefix + frames)
  }

  lemma MulNonNegative(a: int, b: int)
    requires 0 <= a && 0 <= b
    ensures 0 <= a * b
  {
  }

  /** Frame `k` as the reader sees it: sample `k` of every channel. */
  function FrameAt(data: seq<seq<Sample>>, k: nat): (frame: seq<Sample>)
    requires forall c :: 0 <= c < |data| ==> k < |data[c]|
    ensures |frame| == |data|
  {
    seq(|data|, c requires 0 <= c < |data| => data[c][k])
  }

  /** A packed frame is `4 * channels` bytes and splits back into its
      samples. */
  lemma {:induction false} FrameBytesWords(data: seq<seq<Sample>>, k: nat)
    requires forall c :: 0 <= c < |data| ==> k < |data[c]|
    ensures |FrameBytes(data, k)| == 4 * |data|
    ensures Words(FrameBytes(data, k), |data|) == FrameAt(data, k)
    decreases |data|
  {
    if data != [] {
      var tail := data[1..];
      FrameBytesWords(tail, k);
      var b := FrameBytes(data, k);
      assert b == data[0][k] + FrameBytes(tail, k);
      forall i | 0 <= i < |data|
        ensures b[4 * i..4 * i + 4] == data[i][k]
      {
        if i > 0 {
          assert b[4 * i..4 * i + 4] == FrameBytes(tail, k)[4 * (i - 1)..4 * (i - 1) + 4];
          assert Words(FrameBytes(tail, k), |tail|)[i - 1] == FrameAt(tail, k)[i - 1];
        }
      }
    }
  }

  /** Frames `k` up to `n`. */
  function FramesFrom(data: seq<seq<Sample>>, k: nat, n: nat): (frames: seq<seq<Sample>>)
    requires k <= n && forall c :: 0 <= c < |data| ==> n <= |data[c]|
    ensures |frames| == n - k
  {
    seq(n - k, j requires 0 <= j < n - k => FrameAt(data, k + j))
  }

  /** Reading the interleaved frames `k` up to `n` gives those frames. */
  lemma {:induction false} ReadInterleaved(data: seq<seq<Sample>>, k: nat, n: nat)
    requires k <= n && forall c :: 0 <= c < |data| ==> n <= |data[c]|
    ensures ReadFrames(Interleave(data, k, n), |data|, n - k) == Ok(FramesFrom(data, k, n))
    decreases n - k
  {
    if k < n {
      ReadInterleaved(data, k + 1, n);
      FrameBytesWords(data, k);
      ReadFramesCons(FrameBytes(data, k), Interleave(data, k + 1, n), |data|, n - k - 1);
      assert [FrameAt(data, k)] + FramesFrom(data, k + 1, n) == FramesFrom(data, k, n);
    } else {
      assert |FramesFrom(data, k, n)| == 0;
    }
  }

  /** A whole frame in front is read first. */
  lemma ReadFramesCons(a: seq<Byte>, b: seq<Byte>, channels: nat, m: nat)
    requires |a| == 4 * channels
    ensures ReadFrames(a + b, channels, m + 1) == Prefixed([Words(a, channels)], ReadFrames(b, channels, m))
  {
    assert (a + b)[..4 * channels] == a;
    assert (a + b)[4 * channels..] == b;
  }

  /** `(4 * n * c) // (4 * c)` is `n`. */
  lemma FrameCountOfSize(n: nat, c: nat)
    requires c > 0
    ensures FrameCount(4 * n * c, c) == n
  {
    var w := 4 * c;
    assert 4 * n * c == n * w;
    var q, r := (n * w) / w, (n * w) % w;
    assert (n - q) * w == r;
    if n - q >= 1 {
      MulMonotone(1, n - q, w);
    } else if n - q <= -1 {
      MulMonotone(n - q, -1, w);
    }
  }

  lemma MulMonotone(a: int, b: int, w: nat)
    requires a <= b
    ensures a * w <= b * w
  {
    assert b * w - a * w == (b - a) * w;
  }

  /** What the writer produces from equal-length channels, the reader turns
      back into the same channels: the channel count at offset 22 and the
      fmt chunk length at offset 16 agree with the writer's layout, the data
      chunk follows the fmt chunk, and de-interleaving undoes interleaving.
      (With no frames the reader gives no channels at all.) */
  lemma RoundTrip(data: seq<seq<Sample>>, sampleRate: int)
    requires data != [] && |data[0]| > 0
    requires forall c :: 0 <= c < |data| ==> |data[c]| == |data[0]|
    requires HeaderFits(|data[0]| + 36, |data[0]|, |data|, sampleRate)
    ensures WaveBytes(data, sampleRate).Ok?
    ensures ParseWave(WaveBytes(data, sampleRate).value) == Ok(data)
  {
    var n, c := |data[0]|, |data|;
    var f := WrittenLayout(data, sampleRate);
    var rest := f[40..];
    assert rest[..4] == f[40..44] && rest[4..] == f[44..];
    FrameCountOfSize(n, c);
    ReadInterleaved(data, 0, n);
    TransposeFrames(data);
  }

  /** Where the reader finds things in what the writer produced. */
  lemma WrittenLayout(data: seq<seq<Sample>>, sampleRate: int) returns (f: seq<Byte>)
    requires data != []
    requires forall c :: 0 <= c < |data| ==> |data[c]| == |data[0]|
    requires HeaderFits(|data[0]| + 36, |data[0]|, |data|, sampleRate)
    ensures WaveBytes(data, sampleRate) == Ok(f)
    ensures |f| >= 44 && Le16(f[22..24]) == |data| && 20 + Le32(f[16..20]) == 36
    ensures FindData(f[36..]) == Ok(f[40..])
    ensures Le32(f[40..44]) == 4 * |data[0]| * |data|
    ensures f[44..] == Interleave(data, 0, |data[0]|)
  {
    assert MinLen(data) == |data[0]|;
    f := HeaderLayout(|data[0]| + 36, data, sampleRate);
  }

  /** A header with any RIFF size field followed by the frames. */
  lemma HeaderLayout(riffSize: int, data: seq<seq<Sample>>, sampleRate: int) returns (f: seq<Byte>)
    requires data != []
    requires forall c :: 0 <= c < |data| ==> |data[c]| == |data[0]|
    requires HeaderFits(riffSize, |data[0]|, |data|, sampleRate)
    ensures f == Header(riffSize, |data[0]|, |data|, sampleRate).value + Interleave(data, 0, |data[0]|)
    ensures |f| == 44 + |data[0]| * (4 * |data|)
    ensures Le32(f[4..8]) == riffSize
    ensures Le16(f[22..24]) == |data| && 20 + Le32(f[16..20]) == 36
    ensures FindData(f[36..]) == Ok(f[40..])
    ensures Le32(f[40..44]) == 4 * |data[0]| * |data|
    ensures f[44..] == Interleave(data, 0, |data[0]|)
  {
    var n, c := |data[0]|, |data|;
    var h := Header(riffSize, n, c, sampleRate).value;
    HeaderReadBack(riffSize, n, c, sampleRate);
    InterleaveLength(data, 0, n);
    var body := Interleave(data, 0, n);
    f := h + body;
    assert f[4..8] == h[4..8] && f[22..24] == h[22..24] && f[16..20] == h[16..20] && f[40..44] == h[40..44];
    var s := f[36..];
    assert s[..4] == h[36..40];
    assert s[4..] == f[40..];
  }

  /** Turning the frames back into channels gives the channels. */
  lemma TransposeFrames(data: seq<seq<Sample>>)
    requires data != [] && |data[0]| > 0
    requires forall c :: 0 <= c < |data| ==> |data[c]| == |data[0]|
    ensures Transpose(FramesFrom(data, 0, |data[0]|), |data|) == data
  {
    var n, c := |data[0]|, |data|;
    var frames := FramesFrom(data, 0, n);
    var back := Transpose(frames, c);
    forall i | 0 <= i < c
      ensures back[i] == data[i]
    {
      assert forall k :: 0 <= k < n ==> back[i][k] == frames[k][i];
    }
  }

  /** Interleaved frames take `4 * channels` bytes each. */
  lemma {:induction false} InterleaveLength(data: seq<seq<Sample>>, k: nat, n: nat)
    requires k <= n && forall c :: 0 <= c < |data| ==> n <= |data[c]|
    ensures |Interleave(data, k, n)| == (n - k) * (4 * |data|)
    decreases n - k
  {
    if k < n {
      InterleaveLength(data, k + 1, n);
      FrameBytesWords(data, k);
      assert (n - k) * (4 * |data|) == 4 * |data| + (n - (k + 1)) * (4 * |data|);
    }
  }

  /** As written, the RIFF size field is wrong for every file with at least
      one frame: it holds `frames + 36`, while the bytes that follow the
      field number `36 + 4*frames*channels`. One channel of one sample gives
      37 instead of 40. */
  lemma RiffSizeAsWritten(data: seq<seq<Sample>>, sampleRate: int)
    requires data != [] && |data[0]| > 0
    requires forall c :: 0 <= c < |data| ==> |data[c]| == |data[0]|
    requires HeaderFits(|data[0]| + 36, |data[0]|, |data|, sampleRate)
    ensures WaveBytes(data, sampleRate).Ok?
    ensures var f := WaveBytes(data, sampleRate).value;
      Le32(f[4..8]) == |data[0]| + 36 && Le32(f[4..8]) < |f| - 8
  {
    assert MinLen(data) == |data[0]|;
    var f := HeaderLayout(|data[0]| + 36, data, sampleRate);
    MoreBytesThanFrames(|data[0]|, |data|);
  }

  lemma MoreBytesThanFrames(n: nat, c: nat)
    requires n > 0 && c > 0
    ensures n < n * (4 * c)
  {
    MulMonotone(1, 4 * c, n);
    assert 4 * c * n == n * (4 * c);
  }

  /** With the corrected header the RIFF size field is the number of bytes
      after it. */
  lemma RiffSizeFixed(data: seq<seq<Sample>>, sampleRate: int)
    requires data != []
    requires forall c :: 0 <= c < |data| ==> |data[c]| == |data[0]|
    requires HeaderFits(36 + 4 * |data[0]| * |data|, |data[0]|, |data|, sampleRate)
    ensures WaveBytesFixed(data, sampleRate).Ok?
    ensures var f := WaveBytesFixed(data, sampleRate).value;
      Le32(f[4..8]) == |f| - 8
  {
    assert MinLen(data) == |data[0]|;
    var f := HeaderLayout(36 + 4 * |data[0]| * |data|, data, sampleRate);
    DataSize(|data[0]|, |data|);
  }

  lemma DataSize(n: nat, c: nat)
    ensures n * (4 * c) == 4 * n * c
  {
  }

  /** A chunk other than "data": a 4-byte tag, its length, its bytes. */
  function Chunk(tag: seq<Byte>, payload: seq<Byte>): seq<Byte>
    requires |tag| == 4 && |payload| < 0x1_0000_0000
  {
    tag + U32(|payload|) + payload
  }

  /** The chunk search skips any chunk that is not "data" by its declared
      length and goes on with what follows it. */
  lemma SkipsOtherChunk(tag: seq<Byte>, payload: seq<Byte>, s: seq<Byte>)
    requires |tag| == 4 && tag != DataTag && |payload| < 0x1_0000_0000
    ensures FindData(Chunk(tag, payload) + s) == FindData(s)
  {
    var t := Chunk(tag, payload) + s;
    assert t[..4] == tag;
    var s1 := t[4..];
    assert s1[..4] == U32(|payload|);
    var s2 := s1[4..];
    assert s2 == payload + s;
    assert s2[|payload|..] == s;
  }

  /** A run of chunks none of which is "data", ending with the file, makes
      the reader raise its format error. */
  lemma {:induction false} NoDataChunkRaises(tags: seq<seq<Byte>>, payloads: seq<seq<Byte>>)
    requires |tags| == |payloads|
    requires forall i :: 0 <= i < |tags| ==> |tags[i]| == 4 && tags[i] != DataTag
    requires forall i :: 0 <= i < |payloads| ==> |payloads[i]| < 0x1_0000_0000
    ensures FindData(Chunks(tags, payloads)) == Err(FormatError(NoDataChunk))
    decreases |tags|
  {
    if tags != [] {
      NoDataChunkRaises(tags[1..], payloads[1..]);
      SkipsOtherChunk(tags[0], payloads[0], Chunks(tags[1..], payloads[1..]));
    }
  }

  /** Chunks laid out one after the other. */
  function Chunks(tags: seq<seq<Byte>>, payloads: seq<seq<Byte>>): seq<Byte>
    requires |tags| == |payloads|
    requires forall i :: 0 <= i < |tags| ==> |tags[i]| == 4
    requires forall i :: 0 <= i < |payloads| ==> |payloads[i]| < 0x1_0000_0000
  {
    if tags == [] then []
    else Chunk(tags[0], payloads[0]) + Chunks(tags[1..], payloads[1..])
  }
}
