/** `dsp/MicSpectrumEngine.kt`: microphone samples are pushed into a circular buffer and,
    once it is full, every successful read hands the last `fftSize` samples, oldest first, to
    the processor. The recorder, the thread and the processor call itself are outside the
    model: one iteration of the read loop returns the frame it would hand over. */
module MicSpectrum {
  import opened Wrappers
  import opened KotlinStd
  import opened Ring

  /** One 16-bit sample scaled to a float and clamped to `[-1, 1]`. */
  function Sample(pcm: int): (f: real)
    ensures -1.0 <= f <= 1.0
    ensures -32768 <= pcm <= 32767 ==> f == pcm as real / 32768.0
  {
    CoerceInReal(pcm as real / 32768.0, -1.0, 1.0)
  }

  /** The samples a read of `n` values contributes, in order. */
  function Samples(pcm: seq<int>): (s: seq<real>)
    ensures |s| == |pcm| && forall i | 0 <= i < |pcm| :: s[i] == Sample(pcm[i])
  {
    seq(|pcm|, i requires 0 <= i < |pcm| => Sample(pcm[i]))
  }

  class MicSpectrumEngine {
    const sampleRate: int
    const fftSize: int
    const hopSize: int
    var running: bool
    const ring: array<real>
    var ringPos: int
    var filled: int
    /** The samples written since the buffer was last reset. */
    ghost var history: seq<real>

    ghost predicate Valid()
      reads this, ring
    {
      ring.Length == fftSize && Holds(ring[..], ringPos, filled, history)
    }

    /** The constructor; a buffer of no slots would divide by zero at the first sample. */
    constructor (sampleRate: int, fftSize: int, hopSize: int)
      requires fftSize >= 1
      ensures Valid() && !running
      ensures this.sampleRate == sampleRate && this.fftSize == fftSize && this.hopSize == hopSize
      ensures ringPos == 0 && filled == 0 && history == []
    {
      this.sampleRate := sampleRate;
      this.fftSize := fftSize;
      this.hopSize := hopSize;
      running := false;
      ring := new real[fftSize](i => 0.0);
      ringPos := 0;
      filled := 0;
      history := [];
      new;
      HoldsEmpty(fftSize);
      assert ring[..] == seq(fftSize, i => 0.0);
    }

    /** `start`: a running engine answers `true` and changes nothing; otherwise it starts when
        the recorder could be created and initialised (`recorderReady`). */
    method Start(recorderReady: bool) returns (ok: bool)
      requires Valid()
      modifies this
      ensures Valid()
      ensures old(running) ==> ok && running
      ensures !old(running) ==> ok == recorderReady && running == recorderReady
      ensures ringPos == old(ringPos) && filled == old(filled) && history == old(history)
    {
      if running {
        return true;
      }
      if !recorderReady {
        return false;
      }
      running := true;
      return true;
    }

    /** `stop`: stops and empties the buffer. */
    method Stop()
      requires Valid()
      modifies this
      ensures Valid()
      ensures !running && ringPos == 0 && filled == 0 && history == []
    {
      running := false;
      ringPos := 0;
      filled := 0;
      history := [];
    }

    /** One pass of the `for (i in 0 until n)` body: write, advance, count. */
    method Push(f: real)
      requires Valid()
      modifies this, ring
      ensures Valid()
      ensures history == old(history) + [f]
      ensures running == old(running)
    {
      HoldsPush(ring[..], ringPos, filled, history, f);
      ring[ringPos] := f;
      ringPos := (ringPos + 1) % fftSize;
      filled := Min(fftSize, filled + 1);
      history := history + [f];
    }

    /** One iteration of the read loop after `read` returned `n` samples in `pcm`. A read of
        nothing changes nothing; otherwise the first `n` samples are pushed, and a full buffer
        yields the frame for the processor. */
    method ReadStep(pcm: seq<int>, n: int) returns (frame: Option<seq<real>>)
      requires Valid() && n <= |pcm|
      modifies this, ring
      ensures Valid() && running == old(running)
      ensures n <= 0 ==> frame == None && history == old(history)
      ensures n <= 0 ==> ring[..] == old(ring[..]) && ringPos == old(ringPos) && filled == old(filled)
      ensures n > 0 ==> history == old(history) + Samples(pcm[..n])
      ensures frame.Some? <==> n > 0 && |history| >= fftSize
      ensures frame.Some? ==> frame.value == history[|history| - fftSize..]
    {
      if n <= 0 {
        return None;
      }
      var i := 0;
      while i < n
        invariant 0 <= i <= n
        invariant Valid() && running == old(running)
        invariant history == old(history) + Samples(pcm[..i])
      {
        assert Samples(pcm[..i + 1]) == Samples(pcm[..i]) + [Sample(pcm[i])];
        Push(Sample(pcm[i]));
        i := i + 1;
      }
      if filled >= fftSize {
        var window := Extract();
        return Some(window);
      }
      return None;
    }

    /** The copy loop: the buffer read from `ringPos`, which is the last `fftSize` samples
        once the buffer is full. */
    method Extract() returns (frame: seq<real>)
      requires Valid() && filled == fftSize
      ensures frame == history[|history| - fftSize..]
    {
      var a := new real[fftSize];
      var p := ringPos;
      var i := 0;
      while i < fftSize
        invariant 0 <= i <= fftSize && 0 <= p < fftSize
        invariant p == Wrap(ringPos + i, fftSize)
        invariant forall j | 0 <= j < i :: a[j] == ring[Wrap(ringPos + j, fftSize)]
      {
        a[i] := ring[p];
        p := p + 1;
        if p == fftSize {
          p := 0;
        }
        i := i + 1;
      }
      frame := a[..];
      assert frame == Unroll(ring[..], ringPos);
      FullUnrollIsSuffix(ring[..], ringPos, history);
    }
  }
}
