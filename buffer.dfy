/** The message arithmetic of `Buffer` (sc3/synth/buffer.py): the option
    flags of the `/b_gen` commands, the buffer size a partitioned convolution
    needs, and how `send_list` and `get_to_list` cut one transfer into
    `/b_setn` and `/b_getn` messages that each fit in a UDP packet. The
    messages are returned as values instead of being sent; the waits between
    them are left to the caller. */
module BufferMessages {
  import opened Wrappers
  import Clock

  /** The exceptions the buffer code raises. */
  datatype BufferError =
    | TypeError
    | ZeroDivisionError
    | AlreadyFreed(message: string)

  /** Python's `int(b)` for a flag. */
  function Bit(b: bool): int {
    if b then 1 else 0
  }

  /** `_gen_oflags`: each of the three options owns one bit of the flags
      word, so the server can read every option back from it. */
  function GenOflags(normalize: bool, asWavetable: bool, clearFirst: bool): (flags: int)
    ensures 0 <= flags < 8
    ensures flags % 2 == 1 <==> normalize
    ensures flags / 2 % 2 == 1 <==> asWavetable
    ensures flags / 4 == 1 <==> clearFirst
  {
    Bit(normalize) + Bit(asWavetable) * 2 + Bit(clearFirst) * 4
  }

  /** `calc_partconv_bufsize(fftsize, irbuffer)`: the partition size is half
      the FFT size (Python's `//`, which for the positive divisor 2 is
      Dafny's `/`), and the result is one FFT frame per partition needed to
      hold the impulse response. An unknown frame count (`None`) fails with
      `TypeError`, an FFT size below 2 with `ZeroDivisionError`. */
  function CalcPartconvBufsize(fftsize: int, irFrames: Option<int>): (r: Result<int, BufferError>)
    ensures r.Err? <==> irFrames.None? || fftsize / 2 == 0
    ensures irFrames.None? ==> r == Err(TypeError)
    ensures r.Ok? ==> fftsize >= 2 || fftsize < 0
  {
    var partsize := fftsize / 2;
    if irFrames.None? then Err(TypeError)
    else if partsize == 0 then Err(ZeroDivisionError)
    else Ok(fftsize * Clock.Ceil(irFrames.value as real / partsize as real))
  }

  /** For an FFT size of at least 2 the buffer holds `parts` FFT frames,
      where `parts` is the least number of half-size partitions that covers
      the impulse response. */
  lemma PartconvBufsizeCovers(fftsize: int, irFrames: int) returns (parts: int)
    requires fftsize >= 2
    ensures CalcPartconvBufsize(fftsize, Some(irFrames)) == Ok(fftsize * parts)
    ensures (parts - 1) * (fftsize / 2) < irFrames <= parts * (fftsize / 2)
  {
    var p := fftsize / 2;
    parts := Clock.Ceil(irFrames as real / p as real);
    CeilBounds(irFrames, p, parts);
  }

  /** The least integer not below `n / m` bounds `n` by whole multiples of
      `m` from both sides. */
  lemma CeilBounds(n: int, m: int, c: int)
    requires m > 0 && c == Clock.Ceil(n as real / m as real)
    ensures (c - 1) * m < n <= c * m
  {
    var x := n as real / m as real;
    assert x * m as real == n as real;
    Clock.MulLe(x, c as real, m as real);
    Clock.MulLt((c - 1) as real, x, m as real);
    assert (c * m) as real == c as real * m as real;
    assert ((c - 1) * m) as real == (c - 1) as real * m as real;
  }

  /** Conversely, an integer with `n` between its two neighbouring multiples
      of `m` is the ceiling of `n / m`. */
  lemma CeilOfBounds(n: int, m: int, c: int)
    requires m > 0 && (c - 1) * m < n <= c * m
    ensures Clock.Ceil(n as real / m as real) == c
  {
    var d := Clock.Ceil(n as real / m as real);
    CeilBounds(n, m, d);
    if d < c {
      MulMonotone(d, c - 1, m);
    } else if d > c {
      MulMonotone(c, d - 1, m);
    }
  }

  lemma MulMonotone(a: int, b: int, m: int)
    requires a <= b && m > 0
    ensures a * m <= b * m
  {
    assert b * m - a * m == (b - a) * m;
  }

  /** `/b_setn bufnum index count values...`. */
  datatype SetnMsg<T> = Setn(bufnum: Option<int>, index: int, count: nat, values: seq<T>)

  /** `/b_getn bufnum index count`. */
  datatype GetnMsg = Getn(bufnum: Option<int>, index: int, count: int)

  function Min(a: int, b: int): int {
    if a <= b then a else b
  }

  /** Python's `s[i:j]` for `0 <= i <= j`: out-of-range bounds are clamped
      to the list. */
  function Slice<T>(s: seq<T>, i: nat, j: nat): (r: seq<T>)
    requires i <= j
    ensures |r| == if i >= |s| then 0 else Min(j, |s|) - i
  {
    if i >= |s| then [] else s[i..Min(j, |s|)]
  }

  /** Adjacent slices join up. */
  lemma SliceSplit<T>(s: seq<T>, i: nat, j: nat, k: nat)
    requires i <= j <= k
    ensures Slice(s, i, j) + Slice(s, j, k) == Slice(s, i, k)
  {
    if j < |s| {
      assert s[i..j] + s[j..Min(k, |s|)] == s[i..Min(k, |s|)];
    }
  }

  /** A slice from the start that reaches past the end is the whole list. */
  lemma SliceWhole<T>(s: seq<T>, j: nat)
    requires j >= |s|
    ensures Slice(s, 0, j) == s
  {
    if |s| > 0 {
      assert s[0..|s|] == s;
    }
  }

  /** The samples a list of `/b_setn` messages carries, in order. */
  function Values<T>(msgs: seq<SetnMsg<T>>): seq<T> {
    if msgs == [] then [] else Values(msgs[..|msgs| - 1]) + msgs[|msgs| - 1].values
  }

  /** Message `k` of a streamed list: the `k`-th slice of 1626 samples (the
      most one `/b_setn` carries over UDP), written at `startFrame + 1626 * k`,
      with its length. */
  function SetnAt<T>(lst: seq<T>, startFrame: int, bufnum: Option<int>, k: nat): SetnMsg<T> {
    var sub := Slice(lst, 1626 * k, 1626 * (k + 1));
    Setn(bufnum, startFrame + 1626 * k, |sub|, sub)
  }

  /** The first `n` messages of a streamed list. */
  function Chunked<T>(lst: seq<T>, startFrame: int, bufnum: Option<int>, n: nat): (msgs: seq<SetnMsg<T>>)
    ensures |msgs| == n
    ensures forall k :: 0 <= k < n ==> msgs[k] == SetnAt(lst, startFrame, bufnum, k)
  {
    if n == 0 then [] else Chunked(lst, startFrame, bufnum, n - 1) + [SetnAt(lst, startFrame, bufnum, n - 1)]
  }

  /** The first `n` messages carry the first `1626 * n` samples of
      the list, in order, with nothing repeated or skipped. */
  lemma {:induction false} ChunkedValues<T>(lst: seq<T>, startFrame: int, bufnum: Option<int>, n: nat)
    ensures Values(Chunked(lst, startFrame, bufnum, n)) == Slice(lst, 0, 1626 * n)
  {
    if n > 0 {
      var prev := Chunked(lst, startFrame, bufnum, n - 1);
      var last := SetnAt(lst, startFrame, bufnum, n - 1);
      assert Chunked(lst, startFrame, bufnum, n) == prev + [last];
      ValuesSnoc(prev, last);
      ChunkedValues(lst, startFrame, bufnum, n - 1);
      assert last.values == Slice(lst, 1626 * (n - 1), 1626 * n);
      SliceSplit(lst, 0, 1626 * (n - 1), 1626 * n);
    }
  }

  lemma ValuesSnoc<T>(msgs: seq<SetnMsg<T>>, msg: SetnMsg<T>)
    ensures Values(msgs + [msg]) == Values(msgs) + msg.values
  {
    assert (msgs + [msg])[..|msgs|] == msgs;
  }

  /** `_stream_list`: the messages are cut at every 1626th sample
      until `size` samples are covered, message `k` carrying the `k`-th slice
      (`SetnAt`). There are just enough messages to cover `size`, and when
      `size` is at least the list's length (`send_list` passes the length)
      the messages carry the whole list, in order. */
  method StreamList<T>(lst: seq<T>, size: int, startFrame: int, bufnum: Option<int>)
    returns (msgs: seq<SetnMsg<T>>)
    ensures size <= 0 ==> msgs == []
    ensures size > 0 ==> (|msgs| - 1) * 1626 < size <= |msgs| * 1626
    ensures msgs == Chunked(lst, startFrame, bufnum, |msgs|)
    ensures size >= |lst| ==> Values(msgs) == lst
  {
    msgs := [];
    var pos := 0;
    while pos < size
      invariant pos == 1626 * |msgs|
      invariant msgs != [] ==> pos - 1626 < size
      invariant msgs == Chunked(lst, startFrame, bufnum, |msgs|)
      decreases size - pos
    {
      var sub := Slice(lst, pos, pos + 1626);
      msgs := msgs + [Setn(bufnum, startFrame + pos, |sub|, sub)];
      pos := pos + 1626;
    }
    if size >= |lst| {
      ChunkedValues(lst, startFrame, bufnum, |msgs|);
      SliceWhole(lst, pos);
    }
  }

  /** What `get_to_list` sends: the `/b_getn` requests and the number of
      replies (`ref_count`) its responder waits for. */
  datatype Transfer = Transfer(requests: seq<GetnMsg>, replies: int)

  /** `count` defaults to `frames * channels`, which fails with `TypeError`
      while either is unknown. */
  function CountOrDefault(count: Option<int>, frames: Option<int>, channels: Option<int>): (r: Result<int, BufferError>)
    ensures r.Err? <==> count.None? && (frames.None? || channels.None?)
    ensures count.Some? ==> r == Ok(count.value)
  {
    if count.Some? then Ok(count.value)
    else if frames.None? || channels.None? then Err(TypeError)
    else Ok(frames.value * channels.value)
  }

  /** `get_to_list`: `count` samples from `index` on are requested in pieces
      of 1633 (the most one `/b_getn` reply carries over UDP); request `k` asks for the `k`-th piece, the last one
      for what remains. The pieces tile `[index, index + count)` exactly, and
      for a non-negative count the responder waits for exactly as many
      replies as there are requests. */
  method GetToList(bufnum: Option<int>, index: int, count: Option<int>,
                   frames: Option<int>, channels: Option<int>)
    returns (r: Result<Transfer, BufferError>)
    ensures r.Err? <==> CountOrDefault(count, frames, channels).Err?
    ensures r.Err? ==> r.error == TypeError
    ensures r.Ok? ==>
      var n := CountOrDefault(count, frames, channels).value;
      var reqs := r.value.requests;
      && (n <= 0 ==> reqs == [])
      && (n > 0 ==> (|reqs| - 1) * 1633 < n <= |reqs| * 1633)
      && (n >= 0 ==> r.value.replies == |reqs|)
      && (forall k :: 0 <= k < |reqs| ==>
            reqs[k] == Getn(bufnum, index + 1633 * k, Min(1633, n - 1633 * k)))
      && (reqs != [] ==> reqs[|reqs| - 1].index + reqs[|reqs| - 1].count == index + n)
  {
    var total := CountOrDefault(count, frames, channels);
    if total.Err? {
      return Err(total.error);
    }
    var n := total.value;
    var refCount := Clock.Ceil(n as real / 1633 as real);
    var end := index + n;
    var pos := index;
    var reqs: seq<GetnMsg> := [];
    while pos < end
      invariant pos == index + 1633 * |reqs| || (reqs != [] && pos == end)
      invariant reqs != [] ==> 1633 * (|reqs| - 1) < n
      invariant pos == end && reqs != [] ==> n <= 1633 * |reqs|
      invariant forall k :: 0 <= k < |reqs| ==>
        reqs[k] == Getn(bufnum, index + 1633 * k, Min(1633, n - 1633 * k))
      decreases end - pos
    {
      var getsize := Min(1633, end - pos);
      reqs := reqs + [Getn(bufnum, pos, getsize)];
      pos := pos + getsize;
    }
    if n >= 0 {
      if n == 0 {
        assert Clock.Ceil(0.0) == 0;
      } else {
        CeilOfBounds(n, 1633, |reqs|);
      }
    }
    r := Ok(Transfer(reqs, refCount));
  }
}
