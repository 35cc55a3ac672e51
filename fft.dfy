/** `dsp/Fft.kt`: the in-place radix-2 FFT and its bit-reversal permutation. `Float` values are
    modelled as reals, and the integer bit operations as functions on naturals. */
module Fft {
  import opened Wrappers

  function Pow2(k: nat): (p: nat)
    ensures p >= 1
  {
    if k == 0 then 1 else 2 * Pow2(k - 1)
  }

  /** `Int` `and` on non-negative values. */
  function And(a: nat, b: nat): nat {
    if a == 0 || b == 0 then 0 else 2 * And(a / 2, b / 2) + (if a % 2 == 1 && b % 2 == 1 then 1 else 0)
  }

  /** `Int` `xor` on non-negative values. */
  function Xor(a: nat, b: nat): nat {
    if a == 0 then b else if b == 0 then a else 2 * Xor(a / 2, b / 2) + (if a % 2 != b % 2 then 1 else 0)
  }

  predicate IsPow2(n: nat) {
    n == 1 || (n >= 2 && n % 2 == 0 && IsPow2(n / 2))
  }

  lemma {:induction false} AndSelf(m: nat)
    ensures And(m, m) == m
  {
    if m > 0 { AndSelf(m / 2); }
  }

  /** `n and (n - 1) == 0` holds for positive `n` exactly when `n` is a power of two. */
  lemma {:induction false} PowerOfTwoTest(n: nat)
    requires n >= 1
    ensures And(n, n - 1) == 0 <==> IsPow2(n)
  {
    if n == 1 {
    } else if n % 2 == 0 {
      PowerOfTwoTest(n / 2);
      assert (n - 1) / 2 == n / 2 - 1;
    } else {
      AndSelf(n / 2);
      assert (n - 1) / 2 == n / 2;
    }
  }

  lemma {:induction false} AndPow(j: nat, t: nat)
    requires j < 2 * Pow2(t)
    ensures And(j, Pow2(t)) != 0 <==> j >= Pow2(t)
  {
    if t > 0 {
      AndPow(j / 2, t - 1);
    }
  }

  lemma {:induction false} XorPow(j: nat, t: nat)
    requires j < 2 * Pow2(t)
    ensures Xor(j, Pow2(t)) == if j >= Pow2(t) then j - Pow2(t) else j + Pow2(t)
  {
    if t > 0 && j > 0 {
      XorPow(j / 2, t - 1);
    }
  }

  /** The low `L` bits of `x` in reverse order. */
  function Rev(x: nat, L: nat): (r: nat)
    ensures r < Pow2(L)
  {
    if L == 0 then 0 else (if x % 2 == 1 then Pow2(L - 1) else 0) + Rev(x / 2, L - 1)
  }

  /** Adding a top bit to the input adds a bottom bit to the reversal. */
  lemma {:induction false} RevTopBit(r: nat, top: nat, L: nat)
    requires L >= 1 && r < Pow2(L - 1) && (top == 0 || top == Pow2(L - 1))
    ensures Rev(r + top, L) == 2 * Rev(r, L - 1) + (if top == 0 then 0 else 1)
  {
    if L >= 2 {
      var half := if top == 0 then 0 else Pow2(L - 2);
      assert top == 2 * half;
      assert (r + top) % 2 == r % 2 && (r + top) / 2 == r / 2 + half;
      RevTopBit(r / 2, half, L - 1);
    }
  }

  /** Reversing twice gives back every `L`-bit value. */
  lemma {:induction false} RevInvolution(x: nat, L: nat)
    requires x < Pow2(L)
    ensures Rev(Rev(x, L), L) == x
  {
    if L > 0 {
      RevInvolution(x / 2, L - 1);
      var top := if x % 2 == 0 then 0 else Pow2(L - 1);
      RevTopBit(Rev(x / 2, L - 1), top, L);
      assert Rev(x, L) == Rev(x / 2, L - 1) + top;
    }
  }

  /** `z` shifted left by `k` bits. */
  function Shl(z: nat, k: nat): nat {
    if k == 0 then z else 2 * Shl(z, k - 1)
  }

  lemma {:induction false} ShlAdd(a: nat, b: nat, k: nat)
    ensures Shl(a + b, k) == Shl(a, k) + Shl(b, k)
  {
    if k > 0 { ShlAdd(a, b, k - 1); }
  }

  lemma {:induction false} ShlOne(k: nat)
    ensures Shl(1, k) == Pow2(k)
  {
    if k > 0 { ShlOne(k - 1); }
  }

  lemma {:induction false} ShlDouble(z: nat, k: nat)
    ensures Shl(2 * z, k) == Shl(z, k + 1)
  {
    if k > 0 { ShlDouble(z, k - 1); }
  }

  /** `k` trailing zero bits become `k` leading zero bits. */
  lemma {:induction false} RevShift(z: nat, L: nat, k: nat)
    requires k <= L
    ensures Rev(Shl(z, k), L) == Rev(z, L - k)
  {
    if k > 0 {
      var w := Shl(z, k - 1);
      assert Shl(z, k) == 2 * w;
      assert (2 * w) % 2 == 0 && (2 * w) / 2 == w;
      RevShift(z, L - 1, k - 1);
    }
  }

  /** The exponent of a power of two. */
  function Log2(n: nat): (k: nat)
    requires IsPow2(n)
    ensures Pow2(k) == n
  {
    if n == 1 then 0 else 1 + Log2(n / 2)
  }

  lemma {:induction false} RevZero(L: nat)
    ensures Rev(0, L) == 0
  {
    if L > 0 { RevZero(L - 1); }
  }

  /** Where the value now at index `k` came from, once the indices below `i` are done. */
  ghost function Src(k: nat, i: nat, L: nat): nat {
    if k < i || Rev(k, L) < i then Rev(k, L) else k
  }

  /** `a` holds `a0` with the indices below `i` (and their partners) already exchanged. */
  ghost predicate Placed(a: seq<real>, a0: seq<real>, i: nat, L: nat) {
    |a| == |a0| == Pow2(L) && forall k | 0 <= k < |a| :: a[k] == a0[Src(k, i, L)]
  }

  /** `a` with the elements at `i` and `j` exchanged when `i < j`, as the loop body does. */
  function Exchange(a: seq<real>, i: nat, j: nat): (b: seq<real>)
    requires i < |a| && j < |a|
    ensures |b| == |a|
  {
    if i < j then a[i := a[j]][j := a[i]] else a
  }

  lemma PlacedStart(a: seq<real>, L: nat)
    requires |a| == Pow2(L)
    ensures Placed(a, a, 1, L)
  {
    RevZero(L);
    forall k | 0 <= k < |a| ensures Src(k, 1, L) == k {
      RevInvolution(k, L);
    }
  }

  /** Handling index `i` moves the invariant on by one. */
  lemma PlacedStep(a: seq<real>, a0: seq<real>, i: nat, L: nat)
    requires Placed(a, a0, i, L) && i < |a|
    ensures Placed(Exchange(a, i, Rev(i, L)), a0, i + 1, L)
  {
    forall k | 0 <= k < |a| ensures Exchange(a, i, Rev(i, L))[k] == a0[Src(k, i + 1, L)] {
      PlacedAt(a, a0, i, L, k);
    }
  }

  lemma PlacedAt(a: seq<real>, a0: seq<real>, i: nat, L: nat, k: nat)
    requires Placed(a, a0, i, L) && i < |a| && k < |a|
    ensures Exchange(a, i, Rev(i, L))[k] == a0[Src(k, i + 1, L)]
  {
    var j := Rev(i, L);
    if k == i || k == j {
      PartnersAt(a, a0, i, L);
    } else {
      RevNotPartner(k, i, L);
      SrcUntouched(k, i, L);
      assert a[k] == a0[Src(k, i, L)];
    }
  }

  /** An index that is neither `i` nor its partner keeps its source at step `i`. */
  lemma SrcUntouched(k: nat, i: nat, L: nat)
    requires k != i && Rev(k, L) != i
    ensures Src(k, i + 1, L) == Src(k, i, L)
  {
  }

  /** Only the partner of `i` reverses to `i`. */
  lemma RevNotPartner(k: nat, i: nat, L: nat)
    requires k < Pow2(L) && k != Rev(i, L)
    ensures Rev(k, L) != i
  {
    RevInvolution(k, L);
  }

  /** The two indices that change hands at step `i` receive the right values. */
  lemma PartnersAt(a: seq<real>, a0: seq<real>, i: nat, L: nat)
    requires Placed(a, a0, i, L) && i < |a|
    ensures var j := Rev(i, L);
      j < |a| && Exchange(a, i, j)[i] == a0[Src(i, i + 1, L)]
      && Exchange(a, i, j)[j] == a0[Src(j, i + 1, L)]
  {
    var j := Rev(i, L);
    RevInvolution(i, L);
    SrcOfPartner(i, L);
    assert a[i] == a0[Src(i, i, L)];
    assert a[j] == a0[Src(j, i, L)];
    if i < j {
      assert Src(j, i + 1, L) == i;
    }
  }

  /** Where index `i` takes its value from, before and after its own turn. */
  lemma SrcOfPartner(i: nat, L: nat)
    requires i < Pow2(L)
    ensures Src(i, i + 1, L) == Rev(i, L)
    ensures Rev(i, L) >= i ==> Src(Rev(i, L), i, L) == Rev(i, L) && Src(i, i, L) == i
  {
    RevInvolution(i, L);
  }

  lemma PlacedDone(a: seq<real>, a0: seq<real>, L: nat)
    requires Placed(a, a0, Pow2(L), L)
    ensures a == Reversed(a0, L)
  {
  }

  /** `bitReversePermute` on `n = 2^L` elements: the element at index `k` moves to the
      index whose `L` bits are those of `k` reversed. */
  method BitReversePermute(re: array<real>, im: array<real>, ghost L: nat)
    requires re != im && re.Length == im.Length == Pow2(L)
    modifies re, im
    ensures re[..] == Reversed(old(re[..]), L) && im[..] == Reversed(old(im[..]), L)
  {
    var n := re.Length;
    ghost var re0, im0 := re[..], im[..];
    PlacedStart(re0, L);
    PlacedStart(im0, L);
    RevZero(L);
    var j := 0;
    var i := 1;
    while i < n
      invariant 1 <= i <= n && j == Rev(i - 1, L)
      invariant Placed(re[..], re0, i, L) && Placed(im[..], im0, i, L)
    {
      j := NextReversed(i, j, n, L);
      ghost var a, b := re[..], im[..];
      PlacedStep(a, re0, i, L);
      PlacedStep(b, im0, i, L);
      if i < j {
        re[i], re[j] := re[j], re[i];
        im[i], im[j] := im[j], im[i];
      }
      assert re[..] == Exchange(a, i, j) && im[..] == Exchange(b, i, j);
      i := i + 1;
    }
    PlacedDone(re[..], re0, L);
    PlacedDone(im[..], im0, L);
  }

  /** Testing and clearing the top bit of `Rev(y, m)` looks at the low bit of `y`. */
  lemma BitTest(y: nat, m: nat)
    requires m >= 1
    ensures And(Rev(y, m), Pow2(m - 1)) != 0 <==> y % 2 == 1
    ensures y % 2 == 1 ==> Xor(Rev(y, m), Pow2(m - 1)) == Rev(y / 2, m - 1)
    ensures y % 2 == 0 ==> Xor(Rev(y, m), Pow2(m - 1)) == Rev(y + 1, m)
  {
    var j := Rev(y, m);
    assert j == (if y % 2 == 1 then Pow2(m - 1) else 0) + Rev(y / 2, m - 1);
    AndPow(j, m - 1);
    XorPow(j, m - 1);
    if y % 2 == 0 {
      assert (y + 1) % 2 == 1 && (y + 1) / 2 == y / 2;
    }
  }

  /** A carry that passes bit `k` of `i - 1`; it cannot pass the top bit while `i < 2^L`. */
  lemma CarryStep(y: nat, k: nat, i: nat, L: nat)
    requires y % 2 == 1 && k < L && i == Shl(y, k) + Pow2(k) && i < Pow2(L)
    ensures k + 1 < L && i == Shl(y / 2, k + 1) + Pow2(k + 1)
    ensures Pow2(L - 1 - k) / 2 == Pow2(L - 1 - (k + 1))
  {
    ShlDouble(y / 2, k);
    ShlAdd(2 * (y / 2), 1, k);
    ShlOne(k);
    if k + 1 == L {
      assert false;
    }
  }

  /** `i` whose low `k` bits are zero. */
  lemma CarryDone(y: nat, k: nat)
    ensures Shl(y, k) + Pow2(k) == Shl(y + 1, k)
  {
    ShlAdd(y, 1, k);
    ShlOne(k);
  }

  /** One turn of the inner loop: bit `L-1-k` of `j` is set, so it is cleared and the carry moves on. */
  lemma InnerStep(y: nat, k: nat, i: nat, L: nat)
    requires k < L && i == Shl(y, k) + Pow2(k) && i < Pow2(L)
    requires And(Rev(y, L - k), Pow2(L - 1 - k)) != 0
    ensures k + 1 < L && i == Shl(y / 2, k + 1) + Pow2(k + 1)
    ensures Xor(Rev(y, L - k), Pow2(L - 1 - k)) == Rev(y / 2, L - (k + 1))
    ensures Pow2(L - 1 - k) / 2 == Pow2(L - 1 - (k + 1))
  {
    BitTest(y, L - k);
    CarryStep(y, k, i, L);
  }

  /** The end of the inner loop: bit `L-1-k` of `j` is clear, and setting it gives `Rev(i, L)`. */
  lemma InnerExit(y: nat, k: nat, i: nat, L: nat)
    requires k < L && i == Shl(y, k) + Pow2(k)
    requires And(Rev(y, L - k), Pow2(L - 1 - k)) == 0
    ensures Xor(Rev(y, L - k), Pow2(L - 1 - k)) == Rev(i, L)
  {
    BitTest(y, L - k);
    CarryDone(y, k);
    RevShift(y + 1, L, k);
  }

  /** The inner `while` of `bitReversePermute`: a reversed increment of `j`. */
  method NextReversed(i: nat, j: nat, n: nat, ghost L: nat) returns (j': nat)
    requires 1 <= i < n == Pow2(L) && j == Rev(i - 1, L)
    ensures j' == Rev(i, L)
  {
    j' := j;
    var bit := n / 2;
    ghost var k := 0;
    ghost var y: nat := i - 1;
    ShlOne(0);
    while And(j', bit) != 0
      invariant k < L && bit == Pow2(L - 1 - k)
      invariant j' == Rev(y, L - k)
      invariant i == Shl(y, k) + Pow2(k)
      decreases L - k
    {
      InnerStep(y, k, i, L);
      j' := Xor(j', bit);
      bit := bit / 2;
      k := k + 1;
      y := y / 2;
    }
    InnerExit(y, k, i, L);
    j' := Xor(j', bit);
  }

  lemma {:induction false} ShlZero(k: nat)
    ensures Shl(0, k) == 0
  {
    if k > 0 { ShlZero(k - 1); }
  }

  lemma {:induction false} Pow2Grows(a: nat, b: nat)
    requires a < b
    ensures Pow2(a) < Pow2(b)
  {
    if a + 1 < b { Pow2Grows(a, b - 1); }
  }

  lemma Pow2Le(a: nat, b: nat)
    ensures Pow2(a) <= Pow2(b) ==> a <= b
  {
    if b < a { Pow2Grows(b, a); }
  }

  lemma {:induction false} Pow2Add(a: nat, b: nat)
    ensures Pow2(a + b) == Shl(Pow2(a), b)
  {
    if b > 0 { Pow2Add(a, b - 1); }
  }

  lemma ShlMono(a: nat, b: nat, k: nat)
    requires a <= b
    ensures Shl(a, k) <= Shl(b, k)
  {
    ShlAdd(a, b - a, k);
  }

  /** Blocks of `2^k` elements that start at `Shl(a, k)` and `Shl(b, k)` do not overlap. */
  lemma ShlApart(a: nat, b: nat, k: nat)
    ensures a < b ==> Shl(a, k) + Pow2(k) <= Shl(b, k)
  {
    if a < b {
      ShlAdd(a, b - a, k);
      ShlAdd(b - a - 1, 1, k);
      ShlOne(k);
    }
  }

  // ---------------------------------------------------------------- sums

  /** The sum of a sequence, exact on reals. */
  ghost function Sum(a: seq<real>): real {
    if |a| == 0 then 0.0 else a[0] + Sum(a[1..])
  }

  lemma {:induction false} SumAppend(a: seq<real>, b: seq<real>)
    ensures Sum(a + b) == Sum(a) + Sum(b)
  {
    if |a| > 0 {
      assert (a + b)[1..] == a[1..] + b;
      SumAppend(a[1..], b);
    } else {
      assert a + b == b;
    }
  }

  /** The sum of `p[lo..hi]`. */
  ghost function RangeSum(p: seq<real>, lo: nat, hi: nat): real {
    if lo <= hi <= |p| then Sum(p[lo..hi]) else 0.0
  }

  lemma RangeSumSplit(p: seq<real>, lo: nat, mid: nat, hi: nat)
    requires lo <= mid <= hi <= |p|
    ensures RangeSum(p, lo, hi) == RangeSum(p, lo, mid) + RangeSum(p, mid, hi)
  {
    assert p[lo..hi] == p[lo..mid] + p[mid..hi];
    SumAppend(p[lo..mid], p[mid..hi]);
  }

  /** `x` and `y` taken alternately. */
  function Interleave(x: seq<real>, y: seq<real>): (r: seq<real>)
    requires |x| == |y|
    ensures |r| == 2 * |x|
  {
    if |x| == 0 then [] else [x[0], y[0]] + Interleave(x[1..], y[1..])
  }

  lemma {:induction false} InterleaveAt(x: seq<real>, y: seq<real>, m: nat)
    requires |x| == |y| && m < |x|
    ensures Interleave(x, y)[2 * m] == x[m] && Interleave(x, y)[2 * m + 1] == y[m]
  {
    if m > 0 {
      InterleaveAt(x[1..], y[1..], m - 1);
    }
  }

  lemma {:induction false} SumInterleave(x: seq<real>, y: seq<real>)
    requires |x| == |y|
    ensures Sum(Interleave(x, y)) == Sum(x) + Sum(y)
  {
    if |x| > 0 {
      var rest := Interleave(x[1..], y[1..]);
      assert ([x[0], y[0]] + rest)[1..] == [y[0]] + rest;
      assert ([y[0]] + rest)[1..] == rest;
      SumInterleave(x[1..], y[1..]);
    }
  }

  /** `a` listed in bit-reversed order. */
  ghost function Reversed(a: seq<real>, L: nat): (p: seq<real>)
    requires |a| == Pow2(L)
    ensures |p| == |a|
  {
    seq(|a|, k requires 0 <= k < |a| => a[Rev(k, L)])
  }

  lemma ReversedOne(a: seq<real>)
    requires |a| == 1
    ensures Reversed(a, 0) == a
  {
  }

  /** The even positions of the bit-reversed order list the first half, the odd ones the second. */
  lemma RevHalves(a: seq<real>, L: nat)
    requires L >= 1 && |a| == Pow2(L)
    ensures Reversed(a, L) ==
      Interleave(Reversed(a[..Pow2(L - 1)], L - 1), Reversed(a[Pow2(L - 1)..], L - 1))
  {
    var h := Pow2(L - 1);
    var p, px, py := Reversed(a, L), Reversed(a[..h], L - 1), Reversed(a[h..], L - 1);
    forall k | 0 <= k < |p| ensures p[k] == Interleave(px, py)[k] {
      RevHalvesAt(a, L, k / 2);
    }
  }

  lemma RevHalvesAt(a: seq<real>, L: nat, m: nat)
    requires L >= 1 && |a| == Pow2(L) && m < Pow2(L - 1)
    ensures Reversed(a, L)[2 * m] == Interleave(Reversed(a[..Pow2(L - 1)], L - 1), Reversed(a[Pow2(L - 1)..], L - 1))[2 * m]
    ensures Reversed(a, L)[2 * m + 1] == Interleave(Reversed(a[..Pow2(L - 1)], L - 1), Reversed(a[Pow2(L - 1)..], L - 1))[2 * m + 1]
  {
    var h := Pow2(L - 1);
    InterleaveAt(Reversed(a[..h], L - 1), Reversed(a[h..], L - 1), m);
    assert (2 * m) % 2 == 0 && (2 * m) / 2 == m;
    assert (2 * m + 1) % 2 == 1 && (2 * m + 1) / 2 == m;
  }

  /** Listing `a` in bit-reversed order does not change its sum. */
  lemma {:induction false} SumRev(a: seq<real>, L: nat)
    requires |a| == Pow2(L)
    ensures Sum(Reversed(a, L)) == Sum(a)
  {
    if L == 0 {
      assert Reversed(a, L) == a;
    } else {
      var h := Pow2(L - 1);
      SumRev(a[..h], L - 1);
      SumRev(a[h..], L - 1);
      RevHalves(a, L);
      SumInterleave(Reversed(a[..h], L - 1), Reversed(a[h..], L - 1));
      assert a == a[..h] + a[h..];
      SumAppend(a[..h], a[h..]);
    }
  }

  // ---------------------------------------------------------------- the transform

  predicate AllZero(a: seq<real>) {
    forall k | 0 <= k < |a| :: a[k] == 0.0
  }

  /** Both parts of a complex signal are zero. */
  predicate Zero(re: seq<real>, im: seq<real>) {
    AllZero(re) && AllZero(im)
  }

  /** Block `m` of `2^s` elements of `p` has its sum at its first index in `a`. */
  ghost predicate HasBlockSum(a: seq<real>, p: seq<real>, s: nat, m: nat) {
    Shl(m, s) < |a| && a[Shl(m, s)] == RangeSum(p, Shl(m, s), Shl(m + 1, s))
  }

  /** `HasBlockSum` for the blocks numbered `lo` to `hi - 1`. */
  ghost predicate BlockSums(a: seq<real>, p: seq<real>, s: nat, lo: nat, hi: nat)
    decreases hi - lo
  {
    lo >= hi || (HasBlockSum(a, p, s, lo) && BlockSums(a, p, s, lo + 1, hi))
  }

  /** `BlockSums` for the real and the imaginary parts. */
  ghost predicate Sums(re: seq<real>, im: seq<real>, pr: seq<real>, pi: seq<real>, s: nat, lo: nat, hi: nat) {
    BlockSums(re, pr, s, lo, hi) && BlockSums(im, pi, s, lo, hi)
  }

  lemma {:induction false} BlockSumsExtend(a: seq<real>, p: seq<real>, s: nat, lo: nat, hi: nat)
    requires lo <= hi && BlockSums(a, p, s, lo, hi) && HasBlockSum(a, p, s, hi)
    ensures BlockSums(a, p, s, lo, hi + 1)
    decreases hi - lo
  {
    if lo < hi {
      BlockSumsExtend(a, p, s, lo + 1, hi);
    }
  }

  /** Block sums of the blocks before block `m` survive changes from the start of block `m` on. */
  lemma {:induction false} KeepBefore(a: seq<real>, b: seq<real>, p: seq<real>, s: nat, lo: nat, m: nat,
                                      from: nat, to: nat)
    requires lo <= m && Shl(m, s) <= from
    requires BlockSums(a, p, s, lo, m) && SameOutside(a, b, from, to)
    ensures BlockSums(b, p, s, lo, m)
    decreases m - lo
  {
    if lo < m {
      ShlApart(lo, m, s);
      KeepBefore(a, b, p, s, lo + 1, m, from, to);
    }
  }

  /** Block sums of the blocks from block `lo` on survive changes before the start of block `lo`. */
  lemma {:induction false} KeepFrom(a: seq<real>, b: seq<real>, p: seq<real>, t: nat, lo: nat, hi: nat,
                                    from: nat, to: nat)
    requires to <= Shl(lo, t)
    requires BlockSums(a, p, t, lo, hi) && SameOutside(a, b, from, to)
    ensures BlockSums(b, p, t, lo, hi)
    decreases hi - lo
  {
    if lo < hi {
      ShlMono(lo, lo + 1, t);
      KeepFrom(a, b, p, t, lo + 1, hi, from, to);
    }
  }

  /** The first two of the blocks `lo` to `hi - 1`. */
  lemma TakePair(a: seq<real>, p: seq<real>, s: nat, lo: nat, hi: nat)
    requires lo + 2 <= hi && BlockSums(a, p, s, lo, hi)
    ensures HasBlockSum(a, p, s, lo) && HasBlockSum(a, p, s, lo + 1) && BlockSums(a, p, s, lo + 2, hi)
  {
    assert BlockSums(a, p, s, lo + 1, hi);
  }

  /** Two neighbouring half-blocks combine into one block whose first element holds the sum. */
  lemma NewBlock(a: seq<real>, b: seq<real>, p: seq<real>, s: nat, m: nat)
    requires s >= 1 && |a| == |b| && Shl(m + 1, s) <= |p|
    requires HasBlockSum(a, p, s - 1, 2 * m) && HasBlockSum(a, p, s - 1, 2 * m + 1)
    requires Shl(2 * m + 1, s - 1) == Shl(m, s) + Pow2(s - 1) && Shl(2 * m + 2, s - 1) == Shl(m + 1, s)
    requires b[Shl(m, s)] == a[Shl(m, s)] + a[Shl(m, s) + Pow2(s - 1)]
    ensures HasBlockSum(b, p, s, m)
  {
    var t := s - 1;
    ShlDouble(m, t);
    ShlApart(2 * m, 2 * m + 1, t);
    ShlApart(2 * m + 1, 2 * m + 2, t);
    RangeSumSplit(p, Shl(2 * m, t), Shl(2 * m + 1, t), Shl(2 * m + 2, t));
  }

  /** Before the first stage every element is the sum of its own one-element block. */
  lemma {:induction false} InitialSums(a: seq<real>, lo: nat)
    requires lo <= |a|
    ensures BlockSums(a, a, 0, lo, |a|)
    decreases |a| - lo
  {
    if lo < |a| {
      InitialSums(a, lo + 1);
      assert Shl(lo, 0) == lo && Shl(lo + 1, 0) == lo + 1;
      assert a[lo..lo + 1] == [a[lo]];
      assert Sum([a[lo]]) == a[lo] + Sum([]);
    }
  }

  /** After the last stage the one block is the whole array. */
  lemma FinalSum(a: seq<real>, p: seq<real>, L: nat)
    requires |a| == |p| == Pow2(L) && BlockSums(a, p, L, 0, 1)
    ensures a[0] == Sum(p)
  {
    assert HasBlockSum(a, p, L, 0);
    ShlZero(L);
    ShlOne(L);
    assert p[0..|p|] == p;
  }

  /** The butterflies of one block `[i, i + 2*halfLen)`, with the twiddle reset to `1` and
      turned by `(cr, ci)` after each butterfly. */
  method Butterflies(re: array<real>, im: array<real>, i: nat, halfLen: nat, cr: real, ci: real)
    requires re != im && re.Length == im.Length && 1 <= halfLen && i + 2 * halfLen <= re.Length
    modifies re, im
    ensures SameOutside(old(re[..]), re[..], i, i + 2 * halfLen)
    ensures SameOutside(old(im[..]), im[..], i, i + 2 * halfLen)
    ensures re[i] == old(re[i]) + old(re[i + halfLen]) && im[i] == old(im[i]) + old(im[i + halfLen])
    ensures Zero(old(re[..]), old(im[..])) ==> Zero(re[..], im[..])
  {
    ghost var zero := Zero(re[..], im[..]);
    var wr, wi := 1.0, 0.0;
    for j := 0 to halfLen
      invariant j == 0 ==> wr == 1.0 && wi == 0.0
      invariant forall k | 0 <= k < re.Length && !(i <= k < i + j) && !(i + halfLen <= k < i + halfLen + j) ::
        re[k] == old(re[k]) && im[k] == old(im[k])
      invariant j >= 1 ==> re[i] == old(re[i]) + old(re[i + halfLen]) && im[i] == old(im[i]) + old(im[i + halfLen])
      invariant zero ==> Zero(re[..], im[..])
    {
      var i0 := i + j;
      var i1 := i0 + halfLen;
      var tr := wr * re[i1] - wi * im[i1];
      var ti := wr * im[i1] + wi * re[i1];
      re[i1] := re[i0] - tr;
      im[i1] := im[i0] - ti;
      re[i0] := re[i0] + tr;
      im[i0] := im[i0] + ti;
      wr, wi := wr * cr - wi * ci, wr * ci + wi * cr;
    }
  }

  /** Where block `m` of `2^s` elements lies: it ends where block `m + 1` begins, which is
      also where half-block `2m + 2` begins, and inside an array of `count` blocks. */
  lemma BlockLayout(m: nat, s: nat, count: nat)
    requires s >= 1 && m < count
    ensures Shl(m + 1, s) == Shl(m, s) + 2 * Pow2(s - 1)
    ensures Shl(2 * m + 1, s - 1) == Shl(m, s) + Pow2(s - 1)
    ensures Shl(2 * m + 2, s - 1) == Shl(m + 1, s)
    ensures Shl(m + 1, s) <= Shl(count, s)
  {
    var t := s - 1;
    ShlApart(m + 1, count, s);
    ShlDouble(m, t);
    ShlDouble(m + 1, t);
    ShlAdd(2 * m, 1, t);
    ShlAdd(2 * m + 1, 1, t);
    ShlOne(t);
  }

  /** `a` and `b` have the same length and differ at most in `[lo, hi)`. */
  ghost predicate SameOutside(a: seq<real>, b: seq<real>, lo: nat, hi: nat) {
    |a| == |b| && forall k | 0 <= k < |a| && (k < lo || hi <= k) :: b[k] == a[k]
  }

  /** What the butterflies of block `m` do to the block sums of one part (real or imaginary):
      `a` before them, `b` after. */
  lemma CombineBlock(a: seq<real>, b: seq<real>, p: seq<real>, s: nat, m: nat, count: nat)
    requires s >= 1 && m < count && |a| == |p| == Shl(count, s)
    requires BlockSums(a, p, s, 0, m) && BlockSums(a, p, s - 1, 2 * m, 2 * count)
    requires SameOutside(a, b, Shl(m, s), Shl(m, s) + 2 * Pow2(s - 1))
    requires Shl(m, s) + Pow2(s - 1) < |a|
    requires b[Shl(m, s)] == a[Shl(m, s)] + a[Shl(m, s) + Pow2(s - 1)]
    ensures BlockSums(b, p, s, 0, m + 1) && BlockSums(b, p, s - 1, 2 * m + 2, 2 * count)
  {
    var t, i := s - 1, Shl(m, s);
    BlockLayout(m, s, count);
    TakePair(a, p, t, 2 * m, 2 * count);
    KeepBefore(a, b, p, s, 0, m, i, i + 2 * Pow2(t));
    NewBlock(a, b, p, s, m);
    BlockSumsExtend(b, p, s, 0, m);
    KeepFrom(a, b, p, t, 2 * m + 2, 2 * count, i, i + 2 * Pow2(t));
  }

  /** The butterflies of block `m` of a stage, and what they do to the block sums. */
  method BlockStep(re: array<real>, im: array<real>, i: nat, halfLen: nat, cr: real, ci: real,
                   ghost m: nat, ghost s: nat, ghost count: nat, ghost pr: seq<real>, ghost pi: seq<real>)
    requires re != im && re.Length == im.Length == |pr| == |pi| == Shl(count, s)
    requires s >= 1 && halfLen == Pow2(s - 1) && m < count && i == Shl(m, s)
    requires Sums(re[..], im[..], pr, pi, s, 0, m) && Sums(re[..], im[..], pr, pi, s - 1, 2 * m, 2 * count)
    modifies re, im
    ensures Sums(re[..], im[..], pr, pi, s, 0, m + 1) && Sums(re[..], im[..], pr, pi, s - 1, 2 * m + 2, 2 * count)
    ensures Zero(old(re[..]), old(im[..])) ==> Zero(re[..], im[..])
    ensures Shl(m + 1, s) == i + 2 * halfLen
  {
    BlockLayout(m, s, count);
    ghost var r0, i0 := re[..], im[..];
    Butterflies(re, im, i, halfLen, cr, ci);
    CombineBlock(r0, re[..], pr, s, m, count);
    CombineBlock(i0, im[..], pi, s, m, count);
  }

  /** One pass of the `for (i in 0 until n step len)` loop: the blocks of `len = 2^s` elements
      combine pairs of blocks of `2^(s-1)`, so the first element of each block becomes the
      sum of the block (the twiddle of the first butterfly is exactly `1`). */
  method Stage(re: array<real>, im: array<real>, len: nat, wpr: nat -> real, wpi: nat -> real,
               ghost s: nat, ghost L: nat, ghost pr: seq<real>, ghost pi: seq<real>)
    requires re != im && re.Length == im.Length == Pow2(L) && 1 <= s <= L && len == Pow2(s)
    requires |pr| == |pi| == re.Length
    requires Sums(re[..], im[..], pr, pi, s - 1, 0, Pow2(L + 1 - s))
    modifies re, im
    ensures Sums(re[..], im[..], pr, pi, s, 0, Pow2(L - s))
    ensures Zero(old(re[..]), old(im[..])) ==> Zero(re[..], im[..])
  {
    var n := re.Length;
    var halfLen := len / 2;
    ghost var zero := Zero(re[..], im[..]);
    ghost var count := Pow2(L - s);
    ghost var m: nat := 0;
    Pow2Add(L - s, s);
    assert Pow2(L + 1 - s) == 2 * count;
    assert halfLen == Pow2(s - 1) && len == 2 * halfLen;
    ShlZero(s);
    var i := 0;
    while i < n
      invariant m <= count && i == Shl(m, s)
      invariant Sums(re[..], im[..], pr, pi, s, 0, m) && Sums(re[..], im[..], pr, pi, s - 1, 2 * m, 2 * count)
      invariant zero ==> Zero(re[..], im[..])
      decreases count - m
    {
      BlockStep(re, im, i, halfLen, wpr(len), wpi(len), m, s, count, pr, pi);
      i := i + len;
      m := m + 1;
    }
    ShlApart(m, count, s);
  }

  /** The `while (len <= n)` loop of `Fft.fft` on the bit-reversed arrays: it runs the stages
      `len = 2, 4, ..., n`, after which the first element is the sum of all elements. */
  method Stages(re: array<real>, im: array<real>, wpr: nat -> real, wpi: nat -> real, ghost L: nat)
    requires re != im && re.Length == im.Length == Pow2(L)
    modifies re, im
    ensures re[0] == Sum(old(re[..])) && im[0] == Sum(old(im[..]))
    ensures L == 0 ==> re[..] == old(re[..]) && im[..] == old(im[..])
    ensures Zero(old(re[..]), old(im[..])) ==> Zero(re[..], im[..])
  {
    var n := re.Length;
    ghost var pr, pi := re[..], im[..];
    ghost var zero := Zero(pr, pi);
    InitialSums(pr, 0);
    InitialSums(pi, 0);
    var len := 2;
    ghost var s := 1;
    while len <= n
      invariant 1 <= s <= L + 1 && len == Pow2(s)
      invariant Sums(re[..], im[..], pr, pi, s - 1, 0, Pow2(L + 1 - s))
      invariant L == 0 ==> re[..] == pr && im[..] == pi
      invariant zero ==> Zero(re[..], im[..])
      decreases L + 1 - s
    {
      Pow2Le(s, L);
      Stage(re, im, len, wpr, wpi, s, L, pr, pi);
      len := len * 2;
      s := s + 1;
    }
    Pow2Le(L, s);
    assert s == L + 1;
    FinalSum(re[..], pr, L);
    FinalSum(im[..], pi, L);
  }

  /** `Fft.fft`: the iterative radix-2 transform in place. `wpr(len)` and `wpi(len)` are
      the `Float` cosine and sine of `-2*PI/len` that the source computes. Whatever their
      values, the first output bin is the sum of the input (the DFT at frequency zero). */
  method FftInPlace(re: array<real>, im: array<real>, wpr: nat -> real, wpi: nat -> real)
    returns (r: Outcome<string>)
    requires re != im
    modifies re, im
    ensures re.Length != im.Length ==> r == Fail("real/imag size mismatch")
    ensures re.Length == im.Length && !(re.Length == 0 || IsPow2(re.Length)) ==>
      r == Fail("n must be power of 2")
    ensures r.Pass? <==> re.Length == im.Length && (re.Length == 0 || IsPow2(re.Length))
    ensures r.Fail? || re.Length <= 1 ==> re[..] == old(re[..]) && im[..] == old(im[..])
    ensures r.Pass? && re.Length >= 1 ==> re[0] == Sum(old(re[..])) && im[0] == Sum(old(im[..]))
    ensures Zero(old(re[..]), old(im[..])) ==> Zero(re[..], im[..])
  {
    var n := re.Length;
    if n != im.Length {
      return Fail("real/imag size mismatch");
    }
    // In two's complement `0 and -1` is `0`, so an empty array passes the test.
    if n != 0 {
      PowerOfTwoTest(n);
      if And(n, n - 1) != 0 {
        return Fail("n must be power of 2");
      }
    }
    if n == 0 {
      return Pass;
    }
    ghost var L := Log2(n);
    BitReversePermute(re, im, L);
    if n == 1 {
      ReversedOne(old(re[..]));
      ReversedOne(old(im[..]));
    }
    Stages(re, im, wpr, wpi, L);
    SumRev(old(re[..]), L);
    SumRev(old(im[..]), L);
    r := Pass;
  }
}
