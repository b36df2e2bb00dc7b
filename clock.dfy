/** The tempo-free part of `Clock` (clock.py): the identity and zero tempo
    stubs, and the grid arithmetic of `next_time_on_grid`. Times are exact
    reals; the current beat position, which the source reads from the
    running thread, is a parameter. */
module Clock {

  /** `beats2secs`: a clock without tempo has one beat per second. */
  function BeatsToSecs(beats: real): (secs: real)
    ensures secs == beats
  {
    beats
  }

  /** `secs2beats`. */
  function SecsToBeats(secs: real): (beats: real)
    ensures beats == secs
  {
    secs
  }

  /** `beats2bars`, `bars2beats` and `time_to_next_beat` have no meter to
      consult and answer 0. */
  function BeatsToBars(): (bars: int)
    ensures bars == 0
  {
    0
  }

  function BarsToBeats(): (beats: int)
    ensures beats == 0
  {
    0
  }

  function TimeToNextBeat(): (beats: int)
    ensures beats == 0
  {
    0
  }

  /** The conversions undo each other in both orders. */
  lemma TempoRoundTrip(beats: real, secs: real)
    ensures SecsToBeats(BeatsToSecs(beats)) == beats
    ensures BeatsToSecs(SecsToBeats(secs)) == secs
  {
  }

  /** The smallest integer not below `x`. */
  function Ceil(x: real): (n: int)
    ensures n as real >= x && (n - 1) as real < x
  {
    -((-x).Floor)
  }

  /** The `k`-th grid line of spacing `q`. */
  function GridLine(k: int, q: real): real {
    k as real * q
  }

  /** `x` is a whole multiple of `q`. */
  ghost predicate OnGrid(x: real, q: real) {
    exists k: int :: GridLine(k, q) == x
  }

  /** `bi.mod` on floats, taken as Python's floored `%`: the remainder has the
      sign of the divisor. */
  function Mod(a: real, b: real): (m: real)
    requires b != 0.0
  {
    a - (a / b).Floor as real * b
  }

  /** For a positive divisor the remainder lies in [0, b) and differs from
      `a` by a whole multiple of `b`. */
  lemma ModBounds(a: real, b: real)
    requires b > 0.0
    ensures 0.0 <= Mod(a, b) < b
    ensures OnGrid(a - Mod(a, b), b)
  {
    FloorRemLow(a, b);
    FloorRemHigh(a, b);
    assert a - Mod(a, b) == GridLine((a / b).Floor, b);
  }

  /** Reducing a remainder again leaves it unchanged. */
  lemma ModIdempotent(a: real, b: real)
    requires b > 0.0
    ensures Mod(Mod(a, b), b) == Mod(a, b)
  {
    ModBounds(a, b);
    var m := Mod(a, b);
    assert (m / b) * b == m && 0.0 * b == 0.0 && 1.0 * b == b;
    MulLtCancel(m / b, 1.0, b);
    assert m / b >= 0.0;
    assert (m / b).Floor == 0;
  }

  /** `bi.roundup`, taken as SuperCollider's `roundUp`: the next multiple of
      `q` at or above `x`. */
  function RoundUp(x: real, q: real): (r: real)
    requires q != 0.0
  {
    Ceil(x / q) as real * q
  }

  /** For a positive step, `RoundUp` is the least grid line not below `x`. */
  lemma RoundUpBounds(x: real, q: real)
    requires q > 0.0
    ensures x <= RoundUp(x, q) < x + q
    ensures OnGrid(RoundUp(x, q), q)
  {
    var y := x / q;
    var n := Ceil(y) as real;
    assert y * q == x;
    MulLe(y, n, q);
    MulLt(n - 1.0, y, q);
    assert (n - 1.0) * q == n * q - q;
    assert RoundUp(x, q) == GridLine(Ceil(y), q);
  }

  /** `next_time_on_grid(quant, phase)` as written: with no quantum the phase
      is added to the current beat; otherwise a negative phase is reduced
      modulo the quantum, and the result is the current beat less the phase
      remainder, rounded up to the grid. The phase is never added back. */
  function NextTimeOnGrid(beats: real, quant: real, phase: real): (r: real)
    ensures quant > 0.0 ==> OnGrid(r, quant)
  {
    if quant == 0.0 then beats + phase
    else
      var x := beats - Mod(NormalPhase(phase, quant), quant);
      if quant > 0.0 then RoundUpBounds(x, quant); RoundUp(x, quant)
      else RoundUp(x, quant)
  }

  /** The phase after its reduction: a negative phase is taken modulo the
      quantum, any other is kept. */
  function NormalPhase(phase: real, quant: real): (p: real)
    requires quant != 0.0
  {
    if phase < 0.0 then Mod(phase, quant) else phase
  }

  /** With a positive quantum the result is a grid line, and it is the first
      grid line at or after `beats - (phase mod quant)`. */
  lemma NextTimeOnGridSpec(beats: real, quant: real, phase: real)
    ensures quant == 0.0 ==> NextTimeOnGrid(beats, quant, phase) == beats + phase
    ensures quant > 0.0 ==>
      var start := beats - Mod(phase, quant);
      var r := NextTimeOnGrid(beats, quant, phase);
      && OnGrid(r, quant) && start <= r < start + quant
  {
    if quant > 0.0 {
      if phase < 0.0 {
        ModIdempotent(phase, quant);
      }
      RoundUpBounds(beats - Mod(phase, quant), quant);
    }
  }

  /** At beat 5 with quantum 4 and phase 1 the result is beat 4, which is
      already in the past: the phase offset is lost. */
  lemma NextTimeOnGridLosesPhase()
    ensures NextTimeOnGrid(5.0, 4.0, 1.0) == 4.0
  {
    assert (1.0 / 4.0).Floor == 0;
    assert Mod(1.0, 4.0) == 1.0;
    assert Ceil(4.0 / 4.0) == 1;
  }

  /** `next_time_on_grid` with the phase added back after rounding, as
      SuperCollider's `Clock.nextTimeOnGrid` does. */
  function NextTimeOnGridPhased(beats: real, quant: real, phase: real): (r: real)
    ensures quant != 0.0 ==> r - NormalPhase(phase, quant) == NextTimeOnGrid(beats, quant, phase)
    ensures quant > 0.0 ==> OnGrid(r - NormalPhase(phase, quant), quant)
  {
    if quant == 0.0 then beats + phase
    else
      var p := NormalPhase(phase, quant);
      NextTimeOnGrid(beats, quant, phase) + p
  }

  /** With a positive quantum the phased result is never before `beats`,
      sits on a grid line shifted by the phase, and for a phase within one
      quantum comes less than a quantum after `beats`. */
  lemma NextTimeOnGridPhasedSpec(beats: real, quant: real, phase: real)
    ensures quant == 0.0 ==> NextTimeOnGridPhased(beats, quant, phase) == beats + phase
    ensures quant > 0.0 ==>
      var r := NextTimeOnGridPhased(beats, quant, phase);
      && beats <= r
      && OnGrid(r - NormalPhase(phase, quant), quant)
      && (0.0 <= phase < quant ==> r < beats + quant)
  {
    if quant > 0.0 {
      var p := NormalPhase(phase, quant);
      ModBounds(phase, quant);
      if phase < 0.0 {
        ModIdempotent(phase, quant);
      } else if phase < quant {
        assert (phase / quant) * quant == phase && 1.0 * quant == quant;
        MulLtCancel(phase / quant, 1.0, quant);
        assert phase / quant >= 0.0;
        assert (phase / quant).Floor == 0;
      }
      ModBounds(p, quant);
      RoundUpBounds(beats - Mod(p, quant), quant);
    }
  }

  lemma FloorRemLow(a: real, b: real)
    requires b > 0.0
    ensures 0.0 <= a - (a / b).Floor as real * b
  {
    var x := a / b;
    var f := x.Floor as real;
    assert a - f * b == (x - f) * b;
    assert x - f >= 0.0;
  }

  lemma FloorRemHigh(a: real, b: real)
    requires b > 0.0
    ensures a - (a / b).Floor as real * b < b
  {
    var x := a / b;
    var f := x.Floor as real;
    MulLt(x, f + 1.0, b);
    assert x * b == a;
  }

  /** Multiplying by a positive factor keeps a strict order. */
  lemma MulLt(u: real, v: real, c: real)
    requires u < v && c > 0.0
    ensures u * c < v * c
  {
    assert (v - u) * c > 0.0;
  }

  lemma MulLe(u: real, v: real, c: real)
    requires u <= v && c > 0.0
    ensures u * c <= v * c
  {
    assert (v - u) * c >= 0.0;
  }

  /** A positive factor can be cancelled from a strict order. */
  lemma MulLtCancel(u: real, v: real, c: real)
    requires u * c < v * c && c > 0.0
    ensures u < v
  {
    if v <= u {
      MulLe(v, u, c);
    }
  }
}
