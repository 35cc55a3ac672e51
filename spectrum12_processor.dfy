/** `dsp/Spectrum12Processor.kt`: turns one PCM frame into `bands` display levels in 0..255.
    The frame is windowed, transformed, reduced to half-spectrum magnitudes, averaged per
    logarithmic band, mapped to decibels, offset by `floorDb`, smoothed across frames and
    scaled by `rangeDb`. `cos`, `sqrt`, `log10` and the twiddle factors are parameters. */
module Spectrum12 {
  import opened Wrappers
  import opened KotlinStd
  import Fft
  import LogBands

  /** `Math.PI`. */
  const PI: real := 3.141592653589793

  /** The weight of the new value in the smoothing update (`a`). */
  const ALPHA: real := 0.35

  /** The term that keeps `log10` away from zero (`eps`). */
  const EPS: real := 0.000000000001

  /** The default `floorDb` of the constructor, used when a caller leaves it out. */
  const DEFAULT_FLOOR_DB: real := 27.0

  /** The default `rangeDb` of the constructor, used when a caller leaves it out. */
  const DEFAULT_RANGE_DB: real := 60.0

  /** Sample `i` of the Hann window of length `n`. */
  function Hann(i: nat, n: int, cos: real -> real): real
    requires n >= 2
  {
    0.5 - 0.5 * cos(2.0 * PI * i as real / (n - 1) as real)
  }

  /** The frame multiplied sample by sample with the window. */
  function Windowed(frame: seq<real>, window: seq<real>): (w: seq<real>)
    requires |frame| == |window|
    ensures |w| == |frame|
    ensures forall i | 0 <= i < |w| :: w[i] == frame[i] * window[i]
  {
    seq(|frame|, i requires 0 <= i < |frame| => frame[i] * window[i])
  }

  /** The squared magnitude of the complex value `x + iy`. */
  function Power(x: real, y: real): real {
    x * x + y * y
  }

  /** The magnitudes of bins `0..half` of the spectrum; bin 0 (DC) is left at zero. */
  function Magnitudes(re: seq<real>, im: seq<real>, half: nat, sqrt: real -> real): (m: seq<real>)
    requires half < |re| && half < |im|
    ensures |m| == half + 1 && m[0] == 0.0
    ensures forall k | 1 <= k <= half :: m[k] == sqrt(Power(re[k], im[k]))
  {
    seq(half + 1, k requires 0 <= k <= half => if k == 0 then 0.0 else sqrt(Power(re[k], im[k])))
  }

  /** With a square root that never goes negative on non-negative input, every magnitude is
      non-negative: the squared magnitude never is. */
  lemma MagnitudesNonNegative(re: seq<real>, im: seq<real>, half: nat, sqrt: real -> real)
    requires half < |re| && half < |im|
    requires forall x | 0.0 <= x :: 0.0 <= sqrt(x)
    ensures forall k | 0 <= k <= half :: 0.0 <= Magnitudes(re, im, half, sqrt)[k]
  {
    var m := Magnitudes(re, im, half, sqrt);
    forall k | 1 <= k <= half
      ensures 0.0 <= m[k]
    {
      PowerNonNegative(re[k], im[k]);
    }
  }

  lemma PowerNonNegative(x: real, y: real)
    ensures 0.0 <= Power(x, y)
  {
    if x < 0.0 { assert x * x == (-x) * (-x); }
    if y < 0.0 { assert y * y == (-y) * (-y); }
  }

  /** A band's bin range lies inside bins `0 until n`. */
  predicate Within(r: LogBands.BandBinRange, n: nat) {
    0 <= r.startBin && r.endBin <= n
  }

  /** The mean magnitude over the band's bins; a band without bins averages to zero. */
  ghost function BandAverage(mags: seq<real>, r: LogBands.BandBinRange): real
    requires Within(r, |mags|)
  {
    if r.startBin < r.endBin then Average(Fft.Sum(mags[r.startBin..r.endBin]), r.endBin - r.startBin)
    else 0.0
  }

  /** `avgMag`: the sum over the count, or zero when there is nothing to average. */
  function Average(sum: real, cnt: int): real {
    if cnt > 0 then sum / cnt as real else 0.0
  }

  /** The band's level in decibels, offset by `floorDb` and cut off below at zero. */
  ghost function BandLevel(mags: seq<real>, r: LogBands.BandBinRange, floorDb: real, log10: real -> real): real
    requires Within(r, |mags|)
  {
    Offset(BandAverage(mags, r), floorDb, log10)
  }

  /** The decibel value of an average magnitude, offset by `floorDb` and cut off below at zero. */
  function Offset(avg: real, floorDb: real, log10: real -> real): (v: real)
    ensures v >= 0.0
    ensures v == 0.0 || v == 20.0 * log10(avg + EPS) + floorDb
    ensures 20.0 * log10(avg + EPS) + floorDb <= v
  {
    var db := 20.0 * log10(avg + EPS);
    if 0.0 < db + floorDb then db + floorDb else 0.0
  }

  /** One smoothing step from `prev` toward `v`. */
  function Smoothed(prev: real, v: real): real {
    prev * (1.0 - ALPHA) + v * ALPHA
  }

  /** A displayed level: the smoothed value scaled so that `rangeDb` maps to 255, truncated and
      clamped. */
  function Level(s: real, rangeDb: real): (n: int)
    requires rangeDb != 0.0
    ensures 0 <= n <= 255
  {
    ToLevel(Scale(s, 255.0 / rangeDb))
  }

  /** `smooth[i] * inv`. */
  function Scale(s: real, inv: real): real {
    s * inv
  }

  /** `n.toInt().coerceIn(0, 255)`. */
  function ToLevel(n: real): (b: int)
    ensures 0 <= b <= 255
  {
    CoerceIn(RealToInt(n), 0, 255)
  }

  class Spectrum12Processor {
    const sampleRate: int
    const fftSize: int
    const bands: int
    const fMin: real
    const fMax: real
    var floorDb: real
    var rangeDb: real
    const window: array<real>
    const re: array<real>
    const im: array<real>
    const bandRanges: seq<LogBands.BandBinRange>
    const smooth: array<real>

    /** The processor's state is consistent: buffers of the right sizes that do not alias,
        bands inside the half spectrum, and smoothing values that are never negative. */
    predicate Valid()
      reads this, smooth
    {
      2 <= fftSize <= INT_MAX && 0 <= bands && sampleRate != 0
      && window.Length == fftSize && re.Length == fftSize && im.Length == fftSize
      && re != im && window != re && window != im
      && smooth.Length == bands && smooth != re && smooth != im && smooth != window
      && |bandRanges| == bands
      && (forall i | 0 <= i < bands :: 1 <= bandRanges[i].startBin && Within(bandRanges[i], fftSize / 2 + 1))
      && rangeDb != 0.0
      && (forall i | 0 <= i < bands :: smooth[i] >= 0.0)
    }

    /** The constructor. A zero `rangeDb` would divide by zero in `process`, and a size below
        two gives no half spectrum to split into bands. Callers that rely on the source's
        default arguments pass `DEFAULT_FLOOR_DB` and `DEFAULT_RANGE_DB`. */
    constructor (sampleRate: int, fftSize: int, bands: int, fMin: real, fMax: real,
                 floorDb: real, rangeDb: real,
                 cos: real -> real, ln: real -> real, exp: real -> real)
      requires sampleRate != 0 && 2 <= fftSize <= INT_MAX && 0 <= bands && rangeDb != 0.0
      ensures Valid()
      ensures this.sampleRate == sampleRate && this.fftSize == fftSize && this.bands == bands
      ensures this.fMin == fMin && this.fMax == fMax
      ensures this.floorDb == floorDb && this.rangeDb == rangeDb
      ensures forall i | 0 <= i < fftSize :: window[i] == Hann(i, fftSize, cos)
      ensures forall i | 0 <= i < bands ::
        bandRanges[i] == LogBands.BandAt(i, bands, sampleRate, fftSize, fMin, fMax, ln, exp)
      ensures forall i | 0 <= i < bands :: smooth[i] == 0.0
      ensures fresh(window) && fresh(re) && fresh(im) && fresh(smooth)
    {
      var ranges := LogBands.MakeLogBands(sampleRate, fftSize, bands, fMin, fMax, ln, exp);
      this.sampleRate := sampleRate;
      this.fftSize := fftSize;
      this.bands := bands;
      this.fMin := fMin;
      this.fMax := fMax;
      this.floorDb := floorDb;
      this.rangeDb := rangeDb;
      window := new real[fftSize](i requires 0 <= i < fftSize => Hann(i, fftSize, cos));
      re := new real[fftSize];
      im := new real[fftSize];
      bandRanges := ranges.value;
      smooth := new real[bands](i => 0.0);
      new;
      forall i | 0 <= i < bands
        ensures 1 <= bandRanges[i].startBin && Within(bandRanges[i], fftSize / 2 + 1)
      {
        LogBands.BandBounds(i, bands, sampleRate, fftSize, fMin, fMax, ln, exp);
      }
    }

    /** `setFloorDb`: stores the offset as given. */
    method SetFloorDb(db: real)
      requires Valid()
      modifies this
      ensures Valid()
      ensures floorDb == db && rangeDb == old(rangeDb)
    {
      floorDb := db;
    }

    /** `setRangeDb`: stores the range, raised to at least 1 dB. */
    method SetRangeDb(db: real)
      requires Valid()
      modifies this
      ensures Valid()
      ensures rangeDb >= 1.0
      ensures rangeDb == if db < 1.0 then 1.0 else db
      ensures floorDb == old(floorDb)
    {
      rangeDb := if db < 1.0 then 1.0 else db;
    }

    /** `process`. Fails the `require` on a frame of the wrong size, and fails inside the FFT
        when `fftSize` is not a power of two. */
    method Process(frame: seq<real>, wpr: nat -> real, wpi: nat -> real,
                   sqrt: real -> real, log10: real -> real)
      returns (r: Result<seq<int>, string>, ghost mags: seq<real>, ghost levels: seq<real>)
      requires Valid()
      modifies re, im, smooth
      ensures Valid()
      ensures |frame| != fftSize ==> r == Failure("frame size must be fftSize=" + IntToString(fftSize))
      ensures |frame| == fftSize && !Fft.IsPow2(fftSize) ==> r == Failure("n must be power of 2")
      ensures r.Success? <==> |frame| == fftSize && Fft.IsPow2(fftSize)
      ensures r.Failure? ==> smooth[..] == old(smooth[..])
      ensures r.Success? ==> re[0] == Fft.Sum(Windowed(frame, window[..]))
      ensures r.Success? ==> mags == Magnitudes(re[..], im[..], fftSize / 2, sqrt)
      ensures r.Success? ==> |levels| == bands && forall i | 0 <= i < bands ::
        levels[i] == BandLevel(mags, bandRanges[i], floorDb, log10)
      ensures r.Success? ==> forall i | 0 <= i < bands :: smooth[i] == Smoothed(old(smooth[i]), levels[i])
      ensures r.Success? ==> |r.value| == bands && forall i | 0 <= i < bands ::
        r.value[i] == Level(smooth[i], rangeDb)
    {
      mags, levels := [], [];
      if |frame| != fftSize {
        return Failure("frame size must be fftSize=" + IntToString(fftSize)), mags, levels;
      }
      LoadFrame(frame);
      ghost var w := re[..];
      var fft := Fft.FftInPlace(re, im, wpr, wpi);
      if fft.Fail? {
        return Failure(fft.error), mags, levels;
      }
      var m := ComputeMagnitudes(sqrt);
      mags := m[..];
      levels := UpdateSmoothing(m, log10);
      var out := Normalize();
      r := Success(out);
    }

    /** The `window + copy` loop: the windowed frame into `re`, zeros into `im`. */
    method LoadFrame(frame: seq<real>)
      requires re.Length == im.Length == window.Length == |frame|
      requires re != im && window != re && window != im
      modifies re, im
      ensures re[..] == Windowed(frame, window[..]) && Fft.AllZero(im[..])
    {
      var i := 0;
      while i < |frame|
        invariant 0 <= i <= |frame|
        invariant forall k | 0 <= k < i :: re[k] == Windowed(frame, window[..])[k] && im[k] == 0.0
      {
        re[i] := frame[i] * window[i];
        im[i] := 0.0;
        i := i + 1;
      }
    }

    /** The half-spectrum magnitude loop over bins `1..fftSize/2`. */
    method ComputeMagnitudes(sqrt: real -> real) returns (m: array<real>)
      requires Valid()
      ensures fresh(m)
      ensures m[..] == Magnitudes(re[..], im[..], fftSize / 2, sqrt)
    {
      var half := fftSize / 2;
      m := new real[half + 1](k => 0.0);
      assert m != re && m != im;
      var k := 1;
      while k < m.Length
        invariant 1 <= k <= m.Length
        invariant m[0] == 0.0
        invariant forall j | 1 <= j < k :: m[j] == sqrt(Power(re[j], im[j]))
      {
        m[k] := sqrt(Power(re[k], im[k]));
        k := k + 1;
      }
      assert forall j | 0 <= j < m.Length :: m[j] == Magnitudes(re[..], im[..], half, sqrt)[j];
    }

    /** The band loop: average, decibels, floor offset and smoothing, band by band. */
    method UpdateSmoothing(m: array<real>, log10: real -> real) returns (ghost levels: seq<real>)
      requires Valid() && m.Length == fftSize / 2 + 1 && m != smooth
      modifies smooth
      ensures Valid()
      ensures |levels| == bands
      ensures forall i | 0 <= i < bands :: levels[i] == BandLevel(m[..], bandRanges[i], floorDb, log10)
      ensures forall i | 0 <= i < bands :: smooth[i] == Smoothed(old(smooth[i]), levels[i])
    {
      levels := [];
      var i := 0;
      while i < bands
        invariant 0 <= i <= bands && |levels| == i
        invariant forall j | 0 <= j < i :: levels[j] == BandLevel(m[..], bandRanges[j], floorDb, log10)
        invariant forall j | 0 <= j < i :: smooth[j] == Smoothed(old(smooth[j]), levels[j])
        invariant forall j | i <= j < bands :: smooth[j] == old(smooth[j])
        invariant forall j | 0 <= j < bands :: smooth[j] >= 0.0
      {
        var range := bandRanges[i];
        var sum, cnt := SumBins(m, range.startBin, range.endBin);
        var avgMag := Average(sum, cnt);
        var v := Offset(avgMag, floorDb, log10);
        SmoothedBetween(smooth[i], v);
        smooth[i] := smooth[i] * (1.0 - ALPHA) + v * ALPHA;
        levels := levels + [v];
        i := i + 1;
      }
    }

    /** The final loop: every smoothed value scaled into 0..255. */
    method Normalize() returns (out: seq<int>)
      requires rangeDb != 0.0 && smooth.Length == bands
      ensures |out| == bands
      ensures forall i | 0 <= i < bands :: out[i] == Level(smooth[i], rangeDb)
    {
      var a := new int[bands];
      var inv := 255.0 / rangeDb;
      var i := 0;
      while i < bands
        invariant 0 <= i <= bands
        invariant forall j | 0 <= j < i :: a[j] == Level(smooth[j], rangeDb)
      {
        var n := Scale(smooth[i], inv);
        a[i] := ToLevel(n);
        i := i + 1;
      }
      out := a[..];
    }
  }

  /** The inner `for (k in startBin until endBin)` loop: the sum and the count of the bins. */
  method SumBins(m: array<real>, lo: int, hi: int) returns (sum: real, cnt: int)
    requires 0 <= lo && hi <= m.Length
    ensures cnt == if lo < hi then hi - lo else 0
    ensures lo < hi ==> sum == Fft.Sum(m[lo..hi])
  {
    sum, cnt := 0.0, 0;
    var k := lo;
    while k < hi
      invariant lo < hi ==> lo <= k <= hi && cnt == k - lo && sum == Fft.Sum(m[lo..k])
      invariant hi <= lo ==> k == lo && cnt == 0
    {
      assert m[lo..k + 1] == m[lo..k] + [m[k]];
      Fft.SumAppend(m[lo..k], [m[k]]);
      sum := sum + m[k];
      cnt := cnt + 1;
      k := k + 1;
    }
  }

  /** The smoothed value lies between the previous value and the new one. */
  lemma SmoothedBetween(prev: real, v: real)
    ensures prev <= v ==> prev <= Smoothed(prev, v) <= v
    ensures v <= prev ==> v <= Smoothed(prev, v) <= prev
  {
  }

  /** Starting from zero and fed only non-negative levels, smoothing never goes negative. */
  lemma SmoothedNonNegative(prev: real, v: real)
    requires prev >= 0.0 && v >= 0.0
    ensures Smoothed(prev, v) >= 0.0
  {
    SmoothedBetween(prev, v);
  }

  /** A sum of `|a|` values within `[lo, hi]` lies within `[|a| * lo, |a| * hi]`. */
  lemma {:induction false} SumBounds(a: seq<real>, lo: real, hi: real)
    requires forall k | 0 <= k < |a| :: lo <= a[k] <= hi
    ensures |a| as real * lo <= Fft.Sum(a) <= |a| as real * hi
  {
    if |a| > 0 {
      SumBounds(a[1..], lo, hi);
      assert |a| as real * lo == lo + (|a| - 1) as real * lo;
      assert |a| as real * hi == hi + (|a| - 1) as real * hi;
    }
  }

  /** The average of a non-empty band lies between its smallest and largest magnitude. */
  lemma AverageWithin(mags: seq<real>, r: LogBands.BandBinRange, lo: real, hi: real)
    requires Within(r, |mags|) && r.startBin < r.endBin
    requires forall k | r.startBin <= k < r.endBin :: lo <= mags[k] <= hi
    ensures lo <= BandAverage(mags, r) <= hi
  {
    var bins := mags[r.startBin..r.endBin];
    var n := (r.endBin - r.startBin) as real;
    SumBounds(bins, lo, hi);
    assert n * lo <= Fft.Sum(bins) <= n * hi;
    DivideBounds(Fft.Sum(bins), n, lo, hi);
  }

  lemma DivideBounds(sum: real, n: real, lo: real, hi: real)
    requires n > 0.0 && n * lo <= sum <= n * hi
    ensures lo <= sum / n <= hi
  {
  }

  /** With a positive range a larger smoothed value never shows as a lower level. */
  lemma LevelMonotone(s: real, s': real, rangeDb: real)
    requires rangeDb > 0.0 && s <= s'
    ensures Level(s, rangeDb) <= Level(s', rangeDb)
  {
    var inv := 255.0 / rangeDb;
    assert Scale(s, inv) <= Scale(s', inv) by {
      assert Scale(s', inv) - Scale(s, inv) == (s' - s) * inv;
    }
    RealToIntMonotone(Scale(s, inv), Scale(s', inv));
  }

  /** A smoothed value of zero shows as 0, and one of at least `rangeDb` shows as 255. */
  lemma LevelEnds(s: real, rangeDb: real)
    requires rangeDb > 0.0
    ensures s <= 0.0 ==> Level(s, rangeDb) == 0
    ensures rangeDb <= s ==> Level(s, rangeDb) == 255
  {
    var inv := 255.0 / rangeDb;
    if s <= 0.0 {
      assert Scale(s, inv) <= 0.0;
    }
    if rangeDb <= s {
      assert Scale(s, inv) >= 255.0 by {
        assert rangeDb * inv == 255.0;
        assert s * inv - rangeDb * inv == (s - rangeDb) * inv;
      }
    }
  }
}
