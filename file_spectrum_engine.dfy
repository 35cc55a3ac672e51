/** `dsp/FileSpectrumEngine.kt`: decoded audio from a media file is mixed down to mono, pushed
    into a circular buffer, and every `hopSize` samples (once the buffer is full) the last
    `fftSize` samples go to the processor. The extractor, codec, audio track, thread and
    real-time pacing are outside the model; the engine's flags and the decode loop's local
    state are modelled, the latter as the fields of `DecodeLoop`. */
module FileSpectrum {
  import opened Wrappers
  import opened KotlinStd
  import opened Ring
  import Fft

  /** `AudioFormat.ENCODING_PCM_FLOAT`; every other encoding is read as 16-bit PCM. */
  const ENCODING_PCM_FLOAT: int := 4

  // ---------------------------------------------------------------- decoding

  /** A little-endian signed 16-bit value. */
  function ShortOf(lo: byte, hi: byte): (v: int)
    ensures -32768 <= v <= 32767
  {
    var u := lo as int + 256 * hi as int;
    if u >= 32768 then u - 65536 else u
  }

  /** The buffer read as 16-bit samples, each scaled by `1/32768`; a trailing odd byte is not
      read. */
  function Shorts(data: seq<byte>): (v: seq<real>)
    ensures |v| == |data| / 2
  {
    seq(|data| / 2, i requires 0 <= i < |data| / 2 => ShortOf(data[2 * i], data[2 * i + 1]) as real / 32768.0)
  }

  /** The buffer read as little-endian 32-bit floats (`floatOf` decodes four bytes); up to three
      trailing bytes are not read. */
  function Floats(data: seq<byte>, floatOf: (byte, byte, byte, byte) -> real): (v: seq<real>)
    ensures |v| == |data| / 4
  {
    seq(|data| / 4, i requires 0 <= i < |data| / 4 =>
      floatOf(data[4 * i], data[4 * i + 1], data[4 * i + 2], data[4 * i + 3]))
  }

  function Clamp1(x: real): (r: real)
    ensures -1.0 <= r <= 1.0
    ensures -1.0 <= x <= 1.0 ==> r == x
    ensures x < -1.0 ==> r == -1.0
    ensures 1.0 < x ==> r == 1.0
  {
    CoerceInReal(x, -1.0, 1.0)
  }

  /** Consecutive groups of `ch` values averaged and clamped to `[-1, 1]`; an incomplete last
      group is dropped. */
  ghost function Mono(v: seq<real>, ch: int): (out: seq<real>)
    requires ch >= 1
    decreases |v|
  {
    if |v| < ch then [] else [Clamp1(Fft.Sum(v[..ch]) / ch as real)] + Mono(v[ch..], ch)
  }

  /** One mono sample per complete group of channels. */
  lemma {:induction false} MonoLength(v: seq<real>, ch: int)
    requires ch >= 1
    ensures |Mono(v, ch)| == |v| / ch
    decreases |v|
  {
    if |v| >= ch {
      MonoLength(v[ch..], ch);
      DivStep(|v|, ch);
    }
  }

  /** Every mono sample lies in `[-1, 1]`. */
  lemma {:induction false} MonoInRange(v: seq<real>, ch: int)
    requires ch >= 1
    ensures forall i | 0 <= i < |Mono(v, ch)| :: -1.0 <= Mono(v, ch)[i] <= 1.0
    decreases |v|
  {
    if |v| >= ch {
      MonoInRange(v[ch..], ch);
    }
  }

  lemma DivStep(a: int, b: int)
    requires 1 <= b <= a
    ensures (a - b) / b == a / b - 1
  {
    var q, r := a / b, a % b;
    var q', r' := (a - b) / b, (a - b) % b;
    assert a == q * b + r && 0 <= r < b;
    assert a - b == q' * b + r' && 0 <= r' < b;
    assert (q' + 1) * b + r' == q * b + r by {
      assert (q' + 1) * b == q' * b + b;
    }
    DivUnique(q' + 1, r', q, r, b);
  }

  /** Euclidean division has one quotient. */
  lemma DivUnique(q1: int, r1: int, q2: int, r2: int, b: int)
    requires b >= 1 && 0 <= r1 < b && 0 <= r2 < b && q1 * b + r1 == q2 * b + r2
    ensures q1 == q2
  {
    assert (q1 - q2) * b == q1 * b - q2 * b;
    assert (q2 - q1) * b == q2 * b - q1 * b;
    if q1 > q2 {
      MulAtLeast(q1 - q2, b);
    } else if q2 > q1 {
      MulAtLeast(q2 - q1, b);
    }
  }

  lemma MulAtLeast(x: int, b: int)
    requires x >= 1 && b >= 1
    ensures x * b >= b
  {
  }

  /** Taking one group off the front of the values. */
  lemma MonoStep(v: seq<real>, idx: int, ch: int)
    requires ch >= 1 && 0 <= idx && idx + ch <= |v|
    ensures Mono(v[idx..], ch) == [Clamp1(Fft.Sum(v[idx..idx + ch]) / ch as real)] + Mono(v[idx + ch..], ch)
  {
    var w := v[idx..];
    assert w[..ch] == v[idx..idx + ch] && w[ch..] == v[idx + ch..];
  }

  /** A group is left while a mono sample is still owed. */
  lemma MonoNonEmpty(w: seq<real>, ch: int)
    requires ch >= 1 && |Mono(w, ch)| >= 1
    ensures ch <= |w|
  {
  }

  /** `decodePcmToMonoFloat`: with `ch = max(1, channels)`, float PCM gives one sample per `ch`
      floats and 16-bit PCM one per `ch` shorts, each the clamped channel average. */
  method DecodePcmToMonoFloat(data: seq<byte>, channels: int, pcmEncoding: int,
                              floatOf: (byte, byte, byte, byte) -> real)
    returns (out: seq<real>)
    ensures var ch := if channels < 1 then 1 else channels;
      out == Mono(if pcmEncoding == ENCODING_PCM_FLOAT then Floats(data, floatOf) else Shorts(data), ch)
    ensures var ch := if channels < 1 then 1 else channels;
      |out| == (if pcmEncoding == ENCODING_PCM_FLOAT then |data| / 4 else |data| / 2) / ch
    ensures forall i | 0 <= i < |out| :: -1.0 <= out[i] <= 1.0
  {
    var ch := if channels < 1 then 1 else channels;
    MonoInRange(if pcmEncoding == ENCODING_PCM_FLOAT then Floats(data, floatOf) else Shorts(data), ch);
    if pcmEncoding == ENCODING_PCM_FLOAT {
      out := MixDown(Floats(data, floatOf), ch);
    } else {
      out := MixDown(Shorts(data), ch);
    }
  }

  /** The two nested loops shared by both branches: per output frame, sum `ch` values, divide,
      clamp. */
  method MixDown(v: seq<real>, ch: int) returns (out: seq<real>)
    requires ch >= 1
    ensures out == Mono(v, ch) && |out| == |v| / ch
  {
    var frames := |v| / ch;
    MonoLength(v, ch);
    var a := new real[frames];
    var idx := 0;
    for i := 0 to frames
      invariant 0 <= idx <= |v|
      invariant a[..i] + Mono(v[idx..], ch) == Mono(v, ch)
      invariant |Mono(v[idx..], ch)| == frames - i
    {
      MonoNonEmpty(v[idx..], ch);
      var sum := SumGroup(v, idx, ch);
      ghost var done := a[..i];
      MixStep(v, idx, ch, done, Clamp1(sum / ch as real));
      a[i] := Clamp1(sum / ch as real);
      assert a[..i + 1] == done + [a[i]];
      idx := idx + ch;
    }
    out := a[..];
  }

  /** One pass of the frame loop extends the mixed prefix by the next frame's average. */
  lemma MixStep(v: seq<real>, idx: int, ch: int, done: seq<real>, x: real)
    requires ch >= 1 && 0 <= idx && idx + ch <= |v|
    requires done + Mono(v[idx..], ch) == Mono(v, ch)
    requires x == Clamp1(Fft.Sum(v[idx..idx + ch]) / ch as real)
    ensures (done + [x]) + Mono(v[idx + ch..], ch) == Mono(v, ch)
    ensures |Mono(v[idx + ch..], ch)| == |Mono(v[idx..], ch)| - 1
  {
    MonoStep(v, idx, ch);
    var rest := Mono(v[idx + ch..], ch);
    assert (done + [x]) + rest == done + ([x] + rest);
  }

  /** The inner `for (c in 0 until ch)` loop: the sum of the next `ch` values. */
  method SumGroup(v: seq<real>, idx: int, ch: int) returns (sum: real)
    requires ch >= 1 && 0 <= idx && idx + ch <= |v|
    ensures sum == Fft.Sum(v[idx..idx + ch])
  {
    sum := 0.0;
    var c := 0;
    while c < ch
      invariant 0 <= c <= ch
      invariant sum == Fft.Sum(v[idx..idx + c])
    {
      assert v[idx..idx + c + 1] == v[idx..idx + c] + [v[idx + c]];
      Fft.SumAppend(v[idx..idx + c], [v[idx + c]]);
      sum := sum + v[idx + c];
      c := c + 1;
    }
  }

  // ---------------------------------------------------------------- the engine's flags

  class FileSpectrumEngine {
    const fftSize: int
    var running: bool
    /** The pending seek in microseconds, or -1 for none. */
    var seekToUs: int

    constructor (fftSize: int)
      ensures this.fftSize == fftSize && !running && seekToUs == -1
    {
      this.fftSize := fftSize;
      running := false;
      seekToUs := -1;
    }

    /** `start`: a running engine answers `true` without doing anything. */
    method Start() returns (ok: bool)
      modifies this
      ensures ok && running
      ensures seekToUs == old(seekToUs)
    {
      if running {
        return true;
      }
      running := true;
      return true;
    }

    /** `stop`: stops and drops any pending seek. */
    method Stop()
      modifies this
      ensures !running && seekToUs == -1
    {
      running := false;
      seekToUs := -1;
    }

    /** `seekTo`: requests a seek, never to a negative position. */
    method SeekTo(positionUs: int)
      modifies this
      ensures seekToUs == if positionUs < 0 then 0 else positionUs
      ensures seekToUs >= 0 && running == old(running)
    {
      seekToUs := if positionUs < 0 then 0 else positionUs;
    }
  }

  // ---------------------------------------------------------------- the decode loop

  /** The buffer counters that decide when a window is taken. */
  datatype Counters = Counters(filled: int, hop: int)

  /** The counters after one more sample, before the hop check. */
  function Pushed(c: Counters, n: int): (c': Counters)
    ensures c'.filled <= n && c'.hop == c.hop + 1
  {
    Counters(Min(n, c.filled + 1), c.hop + 1)
  }

  /** A window is taken when the buffer is full and a hop has passed. */
  predicate Fires(c: Counters, n: int, hopSize: int) {
    c.filled >= n && c.hop >= hopSize
  }

  /** The counters after the hop check: the hop count restarts when a window is taken. */
  function Settled(c: Counters, n: int, hopSize: int): Counters {
    if Fires(c, n, hopSize) then c.(hop := 0) else c
  }

  /** The windows handed to the processor while `frames` are pushed after `history`, each the
      last `n` samples at the moment it is taken. */
  ghost function Emitted(history: seq<real>, c: Counters, frames: seq<real>, n: int, hopSize: int)
    : (ws: seq<seq<real>>)
    requires n >= 1 && c.filled == Min(n, |history|)
    ensures forall k | 0 <= k < |ws| :: |ws[k]| == n
    decreases |frames|
  {
    if |frames| == 0 then []
    else
      var h := history + [frames[0]];
      var c' := Pushed(c, n);
      (if Fires(c', n, hopSize) then [h[|h| - n..]] else [])
      + Emitted(h, Settled(c', n, hopSize), frames[1..], n, hopSize)
  }

  /** The counters after `frames` are pushed. */
  function After(c: Counters, frames: seq<real>, n: int, hopSize: int): Counters
    decreases |frames|
  {
    if |frames| == 0 then c else After(Settled(Pushed(c, n), n, hopSize), frames[1..], n, hopSize)
  }

  class DecodeLoop {
    const fftSize: int
    var hopSize: int
    const ring: array<real>
    var ringPos: int
    var filled: int
    var hopCounter: int
    /** The samples pushed since the buffer was last reset. */
    ghost var history: seq<real>

    ghost predicate Valid()
      reads this, ring
    {
      ring.Length == fftSize && hopSize >= 1 && Holds(ring[..], ringPos, filled, history)
    }

    /** The loop's set-up: `hopSize = max(1, hopSizeProvider(sampleRate))` and an empty buffer. */
    constructor (fftSize: int, providedHop: int)
      requires fftSize >= 1
      ensures Valid()
      ensures hopSize == if providedHop < 1 then 1 else providedHop
      ensures ringPos == 0 && filled == 0 && hopCounter == 0 && history == []
    {
      this.fftSize := fftSize;
      hopSize := if providedHop < 1 then 1 else providedHop;
      ring := new real[fftSize](i => 0.0);
      ringPos, filled, hopCounter := 0, 0, 0;
      history := [];
      new;
      HoldsEmpty(fftSize);
      assert ring[..] == seq(fftSize, i => 0.0);
    }

    /** A format change: the hop is recomputed for the new sample rate, still at least 1. */
    method FormatChanged(providedHop: int)
      requires Valid()
      modifies this
      ensures Valid()
      ensures hopSize == if providedHop < 1 then 1 else providedHop
      ensures ringPos == old(ringPos) && filled == old(filled) && hopCounter == old(hopCounter)
      ensures history == old(history)
    {
      hopSize := if providedHop < 1 then 1 else providedHop;
    }

    /** The top of each iteration: `seekToUs.getAndSet(-1)`; a pending seek empties the buffer.
        Returns the request, which the extractor then seeks to. */
    method TakeSeek(engine: FileSpectrumEngine) returns (seekReq: int)
      requires Valid()
      modifies this, engine
      ensures Valid()
      ensures seekReq == old(engine.seekToUs) && engine.seekToUs == -1
      ensures engine.running == old(engine.running)
      ensures seekReq >= 0 ==> ringPos == 0 && filled == 0 && hopCounter == 0 && history == []
      ensures seekReq < 0 ==> ringPos == old(ringPos) && filled == old(filled)
      ensures seekReq < 0 ==> hopCounter == old(hopCounter) && history == old(history)
      ensures hopSize == old(hopSize)
    {
      seekReq := engine.seekToUs;
      engine.seekToUs := -1;
      if seekReq >= 0 {
        ringPos, filled, hopCounter := 0, 0, 0;
        history := [];
      }
    }

    /** The `for (f in frames)` loop over one decoded buffer. */
    method PushFrames(frames: seq<real>) returns (windows: seq<seq<real>>)
      requires Valid()
      modifies this, ring
      ensures Valid() && hopSize == old(hopSize)
      ensures history == old(history) + frames
      ensures windows == Emitted(old(history), Counters(old(filled), old(hopCounter)), frames, fftSize, hopSize)
      ensures Counters(filled, hopCounter) == After(Counters(old(filled), old(hopCounter)), frames, fftSize, hopSize)
    {
      windows := [];
      ghost var h0, c0 := history, Counters(filled, hopCounter);
      var i := 0;
      while i < |frames|
        invariant 0 <= i <= |frames|
        invariant Valid() && hopSize == old(hopSize)
        invariant history == h0 + frames[..i]
        invariant windows + Emitted(history, Counters(filled, hopCounter), frames[i..], fftSize, hopSize)
          == Emitted(h0, c0, frames, fftSize, hopSize)
        invariant After(Counters(filled, hopCounter), frames[i..], fftSize, hopSize)
          == After(c0, frames, fftSize, hopSize)
      {
        ghost var h, c := history, Counters(filled, hopCounter);
        var window := Step(frames[i]);
        PushStep(h, c, frames[i..], fftSize, hopSize, windows, Emitted(h0, c0, frames, fftSize, hopSize),
                 window, history, Counters(filled, hopCounter));
        assert frames[i..][1..] == frames[i + 1..];
        if window.Some? {
          windows := windows + [window.value];
        } else {
          assert windows + [] == windows;
        }
        assert frames[..i + 1] == frames[..i] + [frames[i]];
        i := i + 1;
      }
      assert frames[..i] == frames;
    }

    /** One pass of the loop body: push the sample, count the hop, and take a window when one
        is due. */
    method Step(f: real) returns (window: Option<seq<real>>)
      requires Valid()
      modifies this, ring
      ensures Valid() && hopSize == old(hopSize)
      ensures history == old(history) + [f]
      ensures Counters(filled, hopCounter) == Settled(Pushed(Counters(old(filled), old(hopCounter)), fftSize), fftSize, hopSize)
      ensures window.Some? <==> Fires(Pushed(Counters(old(filled), old(hopCounter)), fftSize), fftSize, hopSize)
      ensures window.Some? ==> window.value == history[|history| - fftSize..]
    {
      Push(f);
      hopCounter := hopCounter + 1;
      window := None;
      if filled >= fftSize && hopCounter >= hopSize {
        hopCounter := 0;
        var frame := Extract();
        window := Some(frame);
      }
    }

    /** Write, advance and count one sample. */
    method Push(f: real)
      requires Valid()
      modifies this, ring
      ensures Valid()
      ensures history == old(history) + [f]
      ensures filled == Min(fftSize, old(filled) + 1)
      ensures hopSize == old(hopSize) && hopCounter == old(hopCounter)
    {
      HoldsPush(ring[..], ringPos, filled, history, f);
      ring[ringPos] := f;
      ringPos := (ringPos + 1) % fftSize;
      filled := Min(fftSize, filled + 1);
      history := history + [f];
    }

    /** The copy loop: the last `fftSize` samples, oldest first from `ringPos`. */
    method Extract() returns (frame: seq<real>)
      requires Valid() && filled == fftSize
      ensures frame == history[|history| - fftSize..]
    {
      var a := new real[fftSize];
      var p := ringPos;
      var i := 0;
      while i < fftSize
        invariant 0 <= i <= fftSize && 0 <= p < fftSize
        invariant p == Wrap(ringPos + i, fftSize)
        invariant forall j | 0 <= j < i :: a[j] == ring[Wrap(ringPos + j, fftSize)]
      {
        a[i] := ring[p];
        p := p + 1;
        if p == fftSize {
          p := 0;
        }
        i := i + 1;
      }
      frame := a[..];
      assert frame == Unroll(ring[..], ringPos);
      FullUnrollIsSuffix(ring[..], ringPos, history);
    }
  }

  /** The windows of a non-empty run of samples: those of the first, then the rest. */
  /** One pass of the loop keeps the windows found so far plus those still to come equal to the
      windows of the whole buffer, and keeps the final counters. */
  lemma PushStep(h: seq<real>, c: Counters, rest: seq<real>, n: int, hopSize: int,
                 ws: seq<seq<real>>, all: seq<seq<real>>, window: Option<seq<real>>,
                 h': seq<real>, c': Counters)
    requires n >= 1 && c.filled == Min(n, |h|) && |rest| > 0
    requires ws + Emitted(h, c, rest, n, hopSize) == all
    requires h' == h + [rest[0]] && c' == Settled(Pushed(c, n), n, hopSize)
    requires window.Some? <==> Fires(Pushed(c, n), n, hopSize)
    requires window.Some? ==> n <= |h'| && window.value == h'[|h'| - n..]
    ensures (ws + (if window.Some? then [window.value] else [])) + Emitted(h', c', rest[1..], n, hopSize) == all
    ensures After(c', rest[1..], n, hopSize) == After(c, rest, n, hopSize)
  {
    EmittedCons(h, c, rest, n, hopSize);
    var taken: seq<seq<real>> := if window.Some? then [window.value] else [];
    var later := Emitted(h', c', rest[1..], n, hopSize);
    var firing := Fires(Pushed(c, n), n, hopSize);
    if firing {
      assert taken == [h'[|h'| - n..]];
    } else {
      assert taken == [];
    }
    assert Emitted(h, c, rest, n, hopSize) == taken + later;
    Associative(ws, taken, later);
  }

  lemma Associative<T>(a: seq<T>, b: seq<T>, c: seq<T>)
    ensures a + (b + c) == (a + b) + c
  {
  }

  lemma EmittedCons(history: seq<real>, c: Counters, frames: seq<real>, n: int, hopSize: int)
    requires n >= 1 && c.filled == Min(n, |history|) && |frames| > 0
    ensures var h := history + [frames[0]];
      var c' := Pushed(c, n);
      Emitted(history, c, frames, n, hopSize)
        == (if Fires(c', n, hopSize) then [h[|h| - n..]] else []) + Emitted(h, Settled(c', n, hopSize), frames[1..], n, hopSize)
      && After(c, frames, n, hopSize) == After(Settled(c', n, hopSize), frames[1..], n, hopSize)
  {
  }

  /** After the hop check a window is never still due. */
  lemma SettledNeverDue(c: Counters, n: int, hopSize: int)
    requires hopSize >= 1
    ensures !Fires(Settled(c, n, hopSize), n, hopSize)
  {
  }

  /** With the buffer full, windows come exactly once every `hopSize` samples: from hop count
      `c.hop`, pushing `frames` yields `(c.hop + |frames|) / hopSize` windows. */
  lemma {:induction false} WindowsPerHop(history: seq<real>, c: Counters, frames: seq<real>, n: int, hopSize: int)
    requires n >= 1 && hopSize >= 1 && c.filled == n && n <= |history|
    requires 0 <= c.hop < hopSize
    ensures |Emitted(history, c, frames, n, hopSize)| == (c.hop + |frames|) / hopSize
    decreases |frames|
  {
    if |frames| > 0 {
      var h := history + [frames[0]];
      var c' := Pushed(c, n);
      WindowsPerHop(h, Settled(c', n, hopSize), frames[1..], n, hopSize);
      if c.hop + 1 == hopSize {
        DivStep(c.hop + |frames|, hopSize);
      } else {
        assert Settled(c', n, hopSize).hop == c.hop + 1;
      }
    } else {
      assert c.hop / hopSize == 0;
    }
  }
}
