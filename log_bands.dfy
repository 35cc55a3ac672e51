/** `dsp/LogBands.kt`: splitting the half spectrum `1..fftSize/2` into logarithmically spaced
    bands of FFT bins. `Float` and `Double` values are modelled as reals; `ln` and `exp` are
    parameters of the model. */
module LogBands {
  import opened Wrappers
  import opened KotlinStd

  /** The bins `startBin until endBin` that make up one band. */
  datatype BandBinRange = BandBinRange(startBin: int, endBin: int)

  /** The lower edge of the analysed range: never below 1 Hz. */
  function LowEdge(fMin: real): (f0: real)
    ensures 1.0 <= f0 && fMin <= f0
    ensures f0 == 1.0 || f0 == fMin
  {
    if 1.0 < fMin then fMin else 1.0
  }

  /** The upper edge of the analysed range: never above the Nyquist frequency. */
  function HighEdge(sampleRate: int, fMax: real): (f1: real)
    ensures f1 <= sampleRate as real / 2.0 && f1 <= fMax
    ensures f1 == sampleRate as real / 2.0 || f1 == fMax
  {
    var nyquist := sampleRate as real / 2.0;
    if nyquist < fMax then nyquist else fMax
  }

  /** The frequency at fraction `t` of the way from `f0` to `f1` on a log scale. */
  function EdgeHz(t: real, f0: real, f1: real, ln: real -> real, exp: real -> real): real {
    var logMin := ln(f0);
    var logMax := ln(f1);
    exp(logMin + (logMax - logMin) * t)
  }

  /** The local `hzToBin`: the bin of frequency `hz`, truncated and kept off the DC bin and
      inside the half spectrum. Kotlin's `coerceIn` throws when `fftSize / 2 < 1`, hence the
      requirement. */
  function HzToBin(hz: real, sampleRate: int, fftSize: int): (b: int)
    requires sampleRate != 0 && 2 <= fftSize <= INT_MAX
    ensures 1 <= b <= fftSize / 2
    ensures var x := Scaled(hz, sampleRate, fftSize);
      (x < 1.0 ==> b == 1)
      && ((fftSize / 2) as real <= x ==> b == fftSize / 2)
      && (1.0 <= x < (fftSize / 2) as real ==> b as real <= x < b as real + 1.0)
  {
    CoerceIn(RealToInt(Scaled(hz, sampleRate, fftSize)), 1, fftSize / 2)
  }

  /** The fractional bin index of frequency `hz`, before truncation. */
  function Scaled(hz: real, sampleRate: int, fftSize: int): real
    requires sampleRate != 0
  {
    hz / sampleRate as real * fftSize as real
  }

  /** A higher frequency never lands in a lower bin. */
  lemma HzToBinMonotone(hz: real, hz': real, sampleRate: int, fftSize: int)
    requires sampleRate > 0 && 2 <= fftSize <= INT_MAX
    requires hz <= hz'
    ensures HzToBin(hz, sampleRate, fftSize) <= HzToBin(hz', sampleRate, fftSize)
  {
    ScaledMonotone(hz, hz', sampleRate, fftSize);
    RealToIntMonotone(Scaled(hz, sampleRate, fftSize), Scaled(hz', sampleRate, fftSize));
  }

  lemma ScaledMonotone(hz: real, hz': real, sampleRate: int, fftSize: int)
    requires hz <= hz' && 0 < sampleRate && 0 <= fftSize
    ensures Scaled(hz, sampleRate, fftSize) <= Scaled(hz', sampleRate, fftSize)
  {
    var s := sampleRate as real;
    var q := (hz' - hz) / s;
    assert q >= 0.0;
    assert hz' / s == hz / s + q;
    assert q * fftSize as real >= 0.0;
    assert hz' / s * fftSize as real == hz / s * fftSize as real + q * fftSize as real;
  }

  /** Band `i` of `bands`, exactly as one iteration of the loop computes it. */
  function BandAt(i: nat, bands: nat, sampleRate: int, fftSize: int, fMin: real, fMax: real,
                  ln: real -> real, exp: real -> real): BandBinRange
    requires i < bands && sampleRate != 0 && 2 <= fftSize <= INT_MAX
  {
    var f0 := LowEdge(fMin);
    var f1 := HighEdge(sampleRate, fMax);
    var t0 := i as real / bands as real;
    var t1 := (i + 1) as real / bands as real;
    var b0 := HzToBin(EdgeHz(t0, f0, f1, ln, exp), sampleRate, fftSize);
    var b1 := HzToBin(EdgeHz(t1, f0, f1, ln, exp), sampleRate, fftSize);
    BandBinRange(b0, if b1 < b0 + 1 then b0 + 1 else b1)
  }

  /** `makeLogBands`. Creating the `ArrayList` with a negative capacity throws, and so does
      `hzToBin` when the half spectrum is empty; with zero bands nothing is computed. */
  method MakeLogBands(sampleRate: int, fftSize: int, bands: int, fMin: real, fMax: real,
                      ln: real -> real, exp: real -> real)
    returns (r: Result<seq<BandBinRange>, string>)
    requires sampleRate != 0 && IsInt32(fftSize)
    ensures bands < 0 ==> r == Failure("Illegal Capacity")
    ensures 0 < bands && fftSize < 2 ==> r == Failure("Cannot coerce value to an empty range")
    ensures r.Success? <==> bands == 0 || (0 < bands && 2 <= fftSize)
    ensures r.Success? ==> |r.value| == bands
    ensures r.Success? ==> forall i | 0 <= i < bands ::
      r.value[i] == BandAt(i, bands, sampleRate, fftSize, fMin, fMax, ln, exp)
  {
    if bands < 0 {
      return Failure("Illegal Capacity");
    }
    if bands == 0 {
      return Success([]);
    }
    if fftSize / 2 < 1 {
      return Failure("Cannot coerce value to an empty range");
    }
    var f0 := LowEdge(fMin);
    var f1 := HighEdge(sampleRate, fMax);
    var ranges: seq<BandBinRange> := [];
    var i := 0;
    while i < bands
      invariant 0 <= i <= bands && |ranges| == i
      invariant forall k | 0 <= k < i ::
        ranges[k] == BandAt(k, bands, sampleRate, fftSize, fMin, fMax, ln, exp)
    {
      var t0 := i as real / bands as real;
      var t1 := (i + 1) as real / bands as real;
      var fhz0 := EdgeHz(t0, f0, f1, ln, exp);
      var fhz1 := EdgeHz(t1, f0, f1, ln, exp);
      var b0 := HzToBin(fhz0, sampleRate, fftSize);
      var b1 := HzToBin(fhz1, sampleRate, fftSize);
      if b1 < b0 + 1 {
        b1 := b0 + 1;
      }
      ranges := ranges + [BandBinRange(b0, b1)];
      i := i + 1;
    }
    return Success(ranges);
  }

  /** Every band starts inside the half spectrum, past the DC bin, is never empty, and ends
      at most one past the last bin. */
  lemma BandBounds(i: nat, bands: nat, sampleRate: int, fftSize: int, fMin: real, fMax: real,
                   ln: real -> real, exp: real -> real)
    requires i < bands && sampleRate != 0 && 2 <= fftSize <= INT_MAX
    ensures var b := BandAt(i, bands, sampleRate, fftSize, fMin, fMax, ln, exp);
      1 <= b.startBin <= fftSize / 2 && b.startBin + 1 <= b.endBin <= fftSize / 2 + 1
  {
  }

  /** Neighbouring bands leave no gap: band `i + 1` starts no later than band `i` ends,
      because both are computed from the same edge frequency. */
  lemma NoGaps(i: nat, bands: nat, sampleRate: int, fftSize: int, fMin: real, fMax: real,
               ln: real -> real, exp: real -> real)
    requires i + 1 < bands && sampleRate != 0 && 2 <= fftSize <= INT_MAX
    ensures BandAt(i + 1, bands, sampleRate, fftSize, fMin, fMax, ln, exp).startBin
         <= BandAt(i, bands, sampleRate, fftSize, fMin, fMax, ln, exp).endBin
  {
  }

  /** When `exp` is increasing and the range is not inverted, the edges rise with `t`. */
  lemma EdgeMonotone(t: real, t': real, f0: real, f1: real, ln: real -> real, exp: real -> real)
    requires forall u, v | u <= v :: exp(u) <= exp(v)
    requires ln(f0) <= ln(f1)
    requires t <= t'
    ensures EdgeHz(t, f0, f1, ln, exp) <= EdgeHz(t', f0, f1, ln, exp)
  {
    var d := ln(f1) - ln(f0);
    assert d * t <= d * t' by {
      assert d * (t' - t) >= 0.0;
    }
  }

  /** Under the same conditions the bands start in ascending bin order. */
  lemma StartsAscend(i: nat, bands: nat, sampleRate: int, fftSize: int, fMin: real, fMax: real,
                     ln: real -> real, exp: real -> real)
    requires i + 1 < bands && sampleRate > 0 && 2 <= fftSize <= INT_MAX
    requires forall u, v | u <= v :: exp(u) <= exp(v)
    requires ln(LowEdge(fMin)) <= ln(HighEdge(sampleRate, fMax))
    ensures BandAt(i, bands, sampleRate, fftSize, fMin, fMax, ln, exp).startBin
         <= BandAt(i + 1, bands, sampleRate, fftSize, fMin, fMax, ln, exp).startBin
  {
    var f0 := LowEdge(fMin);
    var f1 := HighEdge(sampleRate, fMax);
    var t0 := i as real / bands as real;
    var t1 := (i + 1) as real / bands as real;
    assert t0 <= t1;
    EdgeMonotone(t0, t1, f0, f1, ln, exp);
    HzToBinMonotone(EdgeHz(t0, f0, f1, ln, exp), EdgeHz(t1, f0, f1, ln, exp), sampleRate, fftSize);
  }
}
