/** The circular sample buffer that both spectrum engines keep: `ring` of `fftSize` slots,
    the next slot to write `ringPos`, and the number of valid samples `filled`. The facts
    here are stated on the buffer's contents as a sequence, against the history of samples
    written since the last reset. */
module Ring {

  /** `(pos + 1) % n` for a position inside the buffer. */
  function NextPos(pos: int, n: int): (q: int)
    requires 0 <= pos < n
    ensures 0 <= q < n && q == (pos + 1) % n
  {
    if pos + 1 == n then 0 else pos + 1
  }

  /** The slot holding the sample written `k` writes before the one at `pos - 1`. */
  function Slot(pos: int, k: int, n: int): int {
    if pos - 1 - k >= 0 then pos - 1 - k else pos - 1 - k + n
  }

  /** Index `q` folded back into the buffer once. */
  function Wrap(q: int, n: int): int {
    if q >= n then q - n else q
  }

  function Min(a: int, b: int): int {
    if a <= b then a else b
  }

  /** The buffer state matches the history: `ringPos` is a slot, `filled` counts the history
      up to the buffer size, and the last `filled` samples sit just before `ringPos`, newest
      first going backwards. */
  ghost predicate Holds(ring: seq<real>, pos: int, filled: int, history: seq<real>) {
    var n := |ring|;
    1 <= n && 0 <= pos < n && filled == Min(n, |history|)
    && forall k | 0 <= k < filled :: 0 <= Slot(pos, k, n) < n && ring[Slot(pos, k, n)] == history[|history| - 1 - k]
  }

  /** The buffer read from `pos` onwards, wrapping once: the order the extraction loop copies. */
  function Unroll(ring: seq<real>, pos: int): (frame: seq<real>)
    requires 0 <= pos < |ring|
    ensures |frame| == |ring|
  {
    seq(|ring|, i requires 0 <= i < |ring| => ring[Wrap(pos + i, |ring|)])
  }

  lemma HoldsEmpty(n: nat)
    requires n >= 1
    ensures Holds(seq(n, i => 0.0), 0, 0, [])
  {
  }

  /** Writing one sample at `pos` and advancing keeps the buffer in step with the history. */
  lemma HoldsPush(ring: seq<real>, pos: int, filled: int, history: seq<real>, x: real)
    requires Holds(ring, pos, filled, history)
    ensures Holds(ring[pos := x], NextPos(pos, |ring|), Min(|ring|, filled + 1), history + [x])
  {
    var n := |ring|;
    var ring', pos', filled', history' := ring[pos := x], NextPos(pos, n), Min(n, filled + 1), history + [x];
    forall k | 0 <= k < filled'
      ensures 0 <= Slot(pos', k, n) < n && ring'[Slot(pos', k, n)] == history'[|history'| - 1 - k]
    {
      if k == 0 {
        assert Slot(pos', 0, n) == pos;
      } else {
        assert Slot(pos', k, n) == Slot(pos, k - 1, n);
        assert Slot(pos, k - 1, n) != pos;
      }
    }
  }

  /** Once the buffer is full, unrolling from `ringPos` gives the last `n` samples, oldest
      first. */
  lemma FullUnrollIsSuffix(ring: seq<real>, pos: int, history: seq<real>)
    requires Holds(ring, pos, |ring|, history)
    ensures |ring| <= |history|
    ensures Unroll(ring, pos) == history[|history| - |ring|..]
  {
    var n := |ring|;
    forall i | 0 <= i < n
      ensures Unroll(ring, pos)[i] == history[|history| - n + i]
    {
      var k := n - 1 - i;
      assert Slot(pos, k, n) == Wrap(pos + i, n);
    }
  }
}
