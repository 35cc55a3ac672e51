/** The pure helpers of `MainActivity.kt`: the one-line parameter parsers behind the audio and
    file settings fields, the block-size normaliser and the hop choice made when the
    microphone spectrum starts, and the `mm:ss` progress formatter. Integer parsing is
    `KotlinStd.ParseInt` (ASCII digits only); `toFloatOrNull` is the parameter `floatOf`. */
module MainActivityHelpers {
  import opened Wrappers
  import opened KotlinStd
  import Fft

  // ---------------------------------------------------------------- the settings fields

  /** The audio settings; the defaults are 48000 Hz, 512 samples and a 20 dB floor. */
  datatype AudioParams = AudioParams(sampleRate: int, blockSize: int, floorDb: real)

  const DEFAULT_PARAMS: AudioParams := AudioParams(48000, 512, 20.0)

  /** The characters the fields are split on. */
  const DELIMS: set<char> := {',', ' ', '/', ';', '|'}

  /** A trimmed, non-empty piece. */
  predicate IsToken(s: string) {
    s != [] && !IsWhitespace(s[0]) && !IsWhitespace(s[|s| - 1])
  }

  /** `.map { it.trim() }.filter { it.isNotEmpty() }`. */
  function Compact(parts: seq<string>): (ts: seq<string>)
    ensures |ts| <= |parts|
    ensures forall i | 0 <= i < |ts| :: IsToken(ts[i])
  {
    if |parts| == 0 then []
    else
      var t := Trim(parts[0]);
      (if t == [] then [] else [t]) + Compact(parts[1..])
  }

  /** The tokens of a field after `trim`. */
  function Tokens(t: string): seq<string> {
    Compact(Split(t, DELIMS))
  }

  /** `parseAudioParamsSingleField`: one token replaces the floor only; three tokens give
      sample rate, block size and floor, both integers positive; anything else is `null`. */
  function ParseAudioParamsSingleField(input: string, current: AudioParams,
                                       floatOf: string -> Option<real>): (r: Option<AudioParams>)
    ensures r.Some? ==> Trim(input) != [] && |Tokens(Trim(input))| in {1, 3}
    ensures r.Some? && |Tokens(Trim(input))| == 1 ==>
      r.value.sampleRate == current.sampleRate && r.value.blockSize == current.blockSize
      && floatOf(Tokens(Trim(input))[0]) == Some(r.value.floorDb)
    ensures r.Some? && |Tokens(Trim(input))| == 3 ==>
      var ts := Tokens(Trim(input));
      0 < r.value.sampleRate && 0 < r.value.blockSize
      && ParseInt(ts[0]) == Some(r.value.sampleRate) && ParseInt(ts[1]) == Some(r.value.blockSize)
      && floatOf(ts[2]) == Some(r.value.floorDb)
  {
    var t := Trim(input);
    if t == [] then None
    else
      var parts := Tokens(t);
      if |parts| == 1 then
        match floatOf(parts[0])
        case None => None
        case Some(f) => Some(current.(floorDb := f))
      else if |parts| == 3 then
        match (ParseInt(parts[0]), ParseInt(parts[1]), floatOf(parts[2]))
        case (Some(sr), Some(bs), Some(fl)) =>
          if sr <= 0 || bs <= 0 then None else Some(AudioParams(sr, bs, fl))
        case _ => None
      else None
  }

  /** `parseFileParams`: exactly two tokens, floor then range; a range that is not positive or
      a negative floor is refused. */
  function ParseFileParams(input: string, floatOf: string -> Option<real>): (r: Option<(real, real)>)
    ensures r.Some? ==> |Tokens(Trim(input))| == 2 && 0.0 <= r.value.0 && 0.0 < r.value.1
    ensures r.Some? ==> floatOf(Tokens(Trim(input))[0]) == Some(r.value.0)
    ensures r.Some? ==> floatOf(Tokens(Trim(input))[1]) == Some(r.value.1)
  {
    var t := Trim(input);
    if t == [] then None
    else
      var parts := Tokens(t);
      if |parts| == 2 then
        match (floatOf(parts[0]), floatOf(parts[1]))
        case (Some(floor), Some(range)) =>
          if range <= 0.0 || floor < 0.0 then None else Some((floor, range))
        case _ => None
      else None
  }

  /** A piece of text that the tokeniser keeps whole: not empty, no delimiter, no whitespace. */
  predicate Plain(s: string) {
    s != [] && forall i | 0 <= i < |s| :: s[i] !in DELIMS && !IsWhitespace(s[i])
  }

  lemma IntTextPlain(n: int)
    ensures Plain(IntToString(n))
  {
    var s := IntToString(n);
    if n < 0 {
      assert s == "-" + NatToString(-n);
      forall i | 0 <= i < |s|
        ensures s[i] !in DELIMS && !IsWhitespace(s[i])
      {
        if i > 0 {
          assert s[i] == NatToString(-n)[i - 1];
        }
      }
    }
  }

  /** A plain piece is its own trim and its own only token. */
  lemma PlainTokens(s: string)
    requires Plain(s)
    ensures Trim(s) == s && Tokens(s) == [s]
  {
    TrimKeeps(s);
    SplitNone(s, DELIMS);
    CompactPlain([s]);
  }

  /** Pieces that are already tokens pass the trim-and-filter step unchanged. */
  lemma {:induction false} CompactPlain(parts: seq<string>)
    requires forall i | 0 <= i < |parts| :: Plain(parts[i])
    ensures Compact(parts) == parts
  {
    if |parts| > 0 {
      TrimKeeps(parts[0]);
      CompactPlain(parts[1..]);
      assert [parts[0]] + parts[1..] == parts;
    }
  }

  /** Plain pieces joined by one delimiter split back into those pieces. */
  lemma SplitJoined(a: string, c: char, b: string)
    requires Plain(a) && c in DELIMS
    ensures Split(a + [c] + b, DELIMS) == [a] + Split(b, DELIMS)
  {
    SplitFirst(a, c, b, DELIMS);
  }

  /** Three plain pieces joined by commas come back as those three tokens. */
  lemma ThreeTokens(a: string, b: string, c: string)
    requires Plain(a) && Plain(b) && Plain(c)
    ensures Trim(a + "," + b + "," + c) == a + "," + b + "," + c
    ensures Tokens(a + "," + b + "," + c) == [a, b, c]
  {
    var tail := b + [','] + c;
    assert a + "," + b + "," + c == a + [','] + tail;
    assert tail[|tail| - 1] == c[|c| - 1];
    JoinedTrimmed(a, tail);
    SplitThree(a, b, c);
    CompactPlain([a, b, c]);
  }

  lemma SplitThree(a: string, b: string, c: string)
    requires Plain(a) && Plain(b) && Plain(c)
    ensures Split(a + [','] + (b + [','] + c), DELIMS) == [a, b, c]
  {
    SplitJoined(a, ',', b + [','] + c);
    SplitJoined(b, ',', c);
    SplitNone(c, DELIMS);
  }

  /** A plain piece, a comma and a string ending in a non-blank are already trimmed. */
  lemma JoinedTrimmed(a: string, tail: string)
    requires Plain(a) && tail != [] && !IsWhitespace(tail[|tail| - 1])
    ensures Trim(a + [','] + tail) == a + [','] + tail
  {
    var s := a + [','] + tail;
    assert s[0] == a[0] && s[|s| - 1] == tail[|tail| - 1];
    TrimKeeps(s);
  }

  /** Two plain pieces joined by a comma come back as those two tokens. */
  lemma TwoTokens(a: string, b: string)
    requires Plain(a) && Plain(b)
    ensures Trim(a + "," + b) == a + "," + b
    ensures Tokens(a + "," + b) == [a, b]
  {
    var s := a + [','] + b;
    assert a + "," + b == s;
    JoinedTrimmed(a, b);
    SplitJoined(a, ',', b);
    SplitNone(b, DELIMS);
    CompactPlain([a, b]);
  }

  /** The text the audio field is pre-filled with, `"<sampleRate>,<blockSize>,<floor>"`, the
      floor written as `floorDb.toInt()`. */
  function AudioText(p: AudioParams): string {
    IntToString(p.sampleRate) + "," + IntToString(p.blockSize) + "," + IntToString(RealToInt(p.floorDb))
  }

  /** Parsing the pre-filled text gives back the settings it was made from, except that the
      floor comes back truncated toward zero (and saturated to `Int`). */
  lemma AudioParamsRoundTrip(p: AudioParams, current: AudioParams, floatOf: string -> Option<real>)
    requires 0 < p.sampleRate <= INT_MAX && 0 < p.blockSize <= INT_MAX
    requires floatOf(IntToString(RealToInt(p.floorDb))) == Some(RealToInt(p.floorDb) as real)
    ensures ParseAudioParamsSingleField(AudioText(p), current, floatOf)
            == Some(p.(floorDb := RealToInt(p.floorDb) as real))
  {
    var floorText := IntToString(RealToInt(p.floorDb));
    IntTextPlain(p.sampleRate);
    IntTextPlain(p.blockSize);
    IntTextPlain(RealToInt(p.floorDb));
    ThreeTokens(IntToString(p.sampleRate), IntToString(p.blockSize), floorText);
    ParseIntRoundTrip(p.sampleRate);
    ParseIntRoundTrip(p.blockSize);
  }

  /** Settings whose floor is a whole number in `Int` range survive the pre-fill unchanged; a
      floor with a fractional part does not. */
  lemma AudioParamsRoundTripExact(p: AudioParams, current: AudioParams, floatOf: string -> Option<real>)
    requires 0 < p.sampleRate <= INT_MAX && 0 < p.blockSize <= INT_MAX
    requires floatOf(IntToString(RealToInt(p.floorDb))) == Some(RealToInt(p.floorDb) as real)
    ensures ParseAudioParamsSingleField(AudioText(p), current, floatOf) == Some(p)
            <==> p.floorDb == p.floorDb.Floor as real && IsInt32(p.floorDb.Floor)
  {
    AudioParamsRoundTrip(p, current, floatOf);
    var k := RealToInt(p.floorDb);
    if p.floorDb == p.floorDb.Floor as real && IsInt32(p.floorDb.Floor) {
      assert k == p.floorDb.Floor;
    }
  }

  /** A lone floor value changes the floor and keeps the rest. */
  lemma FloorOnly(current: AudioParams, floorText: string, floatOf: string -> Option<real>, f: real)
    requires Plain(floorText) && floatOf(floorText) == Some(f)
    ensures ParseAudioParamsSingleField(floorText, current, floatOf) == Some(current.(floorDb := f))
  {
    PlainTokens(floorText);
  }

  /** Two comma-separated values are refused exactly when the floor is negative or the range
      is not positive. */
  lemma FileParamsRoundTrip(floorText: string, rangeText: string, floatOf: string -> Option<real>,
                            floor: real, range: real)
    requires Plain(floorText) && Plain(rangeText)
    requires floatOf(floorText) == Some(floor) && floatOf(rangeText) == Some(range)
    ensures ParseFileParams(floorText + "," + rangeText, floatOf)
      == if range <= 0.0 || floor < 0.0 then None else Some((floor, range))
  {
    TwoTokens(floorText, rangeText);
  }

  /** A blank field is always refused by both parsers. */
  lemma BlankRefused(input: string, current: AudioParams, floatOf: string -> Option<real>)
    requires IsBlank(input)
    ensures ParseAudioParamsSingleField(input, current, floatOf) == None
    ensures ParseFileParams(input, floatOf) == None
  {
    BlankTrimsEmpty(input);
  }

  lemma {:induction false} BlankTrimsEmpty(s: string)
    requires IsBlank(s)
    ensures TrimStart(s) == [] && Trim(s) == []
  {
    if |s| > 0 {
      assert IsBlank(s[1..]) by {
        forall i | 0 <= i < |s| - 1
          ensures IsWhitespace(s[1..][i])
        {
          assert s[1..][i] == s[i + 1];
        }
      }
      BlankTrimsEmpty(s[1..]);
    }
  }

  // ---------------------------------------------------------------- block size

  /** `v shl 1` on a Kotlin `Int`: the doubled value wrapped into 32 bits. */
  function Shl1(v: int): (r: int)
    ensures IsInt32(r)
  {
    (2 * v - INT_MIN) % 0x1_0000_0000 + INT_MIN
  }

  /** The loop variable of `normalizeBlockSize` after `k` passes of `v = v shl 1`, as written. */
  function Doubled(k: nat): int {
    if k == 0 then 1 else Shl1(Doubled(k - 1))
  }

  /** Two powers of two that differ are at least a factor of two apart. */
  lemma {:induction false} Pow2Gap(a: nat, b: nat)
    requires Fft.IsPow2(a) && Fft.IsPow2(b) && a < b
    ensures 2 * a <= b
    decreases b
  {
    if a != 1 {
      Pow2Gap(a / 2, b / 2);
    }
  }

  lemma {:induction false} ProductPow2(a: nat, b: nat)
    requires Fft.IsPow2(a) && Fft.IsPow2(b)
    ensures Fft.IsPow2(a * b)
    decreases a
  {
    if a != 1 {
      ProductPow2(a / 2, b);
      assert a * b == 2 * ((a / 2) * b);
      assert (a * b) / 2 == (a / 2) * b;
    }
  }

  /** 2^30, the largest power of two an `Int` holds. */
  lemma TopPow2()
    ensures Fft.IsPow2(0x4000_0000)
  {
    assert Fft.IsPow2(0x8000);
    ProductPow2(0x8000, 0x8000);
  }

  lemma Shl1Small(u: int)
    requires 0 <= u < 0x4000_0000
    ensures Shl1(u) == 2 * u
  {
  }

  /** `shl` past 2^30 overflows to `Int.MIN_VALUE`, and from there to 0, where it stays. */
  lemma Shl1Overflow()
    ensures Shl1(0x4000_0000) == INT_MIN && Shl1(INT_MIN) == 0 && Shl1(0) == 0
  {
  }

  /** As written, the loop variable only ever takes the values 1, 2, ..., 2^30, then the
      overflowed `Int.MIN_VALUE`, then 0 for ever. */
  lemma {:induction false} DoubledValues(k: nat)
    ensures var v := Doubled(k);
      v == 0 || v == INT_MIN || (1 <= v <= 0x4000_0000 && Fft.IsPow2(v))
  {
    if k > 0 {
      DoubledValues(k - 1);
      var u := Doubled(k - 1);
      Shl1Overflow();
      if 0 < u < 0x4000_0000 {
        TopPow2();
        Pow2Gap(u, 0x4000_0000);
        Shl1Small(u);
        assert Fft.IsPow2(2 * u) by {
          assert (2 * u) / 2 == u;
        }
      }
    }
  }

  /** The defect: for a block size above 2^30 the guard `v < n` holds after every pass, so
      `normalizeBlockSize` never returns. */
  lemma BlockSizeLoopNeverExits(n: int, k: nat)
    requires 0x4000_0000 < n <= INT_MAX
    ensures Doubled(k) < n
  {
    DoubledValues(k);
  }

  /** `normalizeBlockSize` with its doubling stopped at the 8192 cap, which is all the clamp
      afterwards lets through: 512 for a size that is not positive, otherwise the smallest
      power of two not below `n`, clamped to 128..8192. */
  method NormalizeBlockSize(n: int) returns (r: int)
    ensures 128 <= r <= 8192 && Fft.IsPow2(r)
    ensures n <= 0 ==> r == 512
    ensures 0 < n <= 128 ==> r == 128
    ensures 128 < n <= 8192 ==> n <= r < 2 * n
    ensures 8192 < n ==> r == 8192
  {
    assert Fft.IsPow2(128) && Fft.IsPow2(256) && Fft.IsPow2(8192);
    if n <= 0 {
      return 512;
    }
    var v := 1;
    while v < n && v < 8192
      invariant Fft.IsPow2(v) && 1 <= v <= 8192 && v < 2 * n
    {
      Pow2Gap(v, 8192);
      assert (2 * v) / 2 == v;
      v := 2 * v;
    }
    if v < 128 {
      r := 128;
    } else {
      r := v;
    }
    if n <= 128 {
      if v < 256 {
        Pow2Gap(v, 256);
      }
    }
  }

  /** Up to 2^30, where the loop as written does return, it returns the same value as the
      capped one: the first power of two not below `n`, clamped. */
  lemma AsWrittenAgrees(n: int, k: nat)
    requires 0 < n <= 0x4000_0000
    requires Doubled(k) >= n && forall j | 0 <= j < k :: Doubled(j) < n
    ensures Fft.IsPow2(Doubled(k)) && n <= Doubled(k) < 2 * n
  {
    DoubledValues(k);
    if k > 0 {
      DoubledValues(k - 1);
      var u := Doubled(k - 1);
      assert u < n;
      Shl1Overflow();
      if 0 < u {
        Shl1Small(u);
      }
    }
  }

  /** The settings `startMicSpectrum` derives: the sample rate clamped to 8000..192000 Hz, the
      normalised block size, and a hop of `sr / 400` samples (400 frames a second) but at
      least 80 and at most half a block. */
  method MicSpectrumParams(p: AudioParams) returns (sr: int, fft: int, hop: int)
    ensures sr == CoerceIn(p.sampleRate, 8000, 192000)
    ensures 128 <= fft <= 8192 && Fft.IsPow2(fft)
    ensures p.blockSize <= 0 ==> fft == 512
    ensures 0 < p.blockSize <= 128 ==> fft == 128
    ensures 8192 < p.blockSize ==> fft == 8192
    ensures 128 < p.blockSize <= 8192 ==> p.blockSize <= fft < 2 * p.blockSize
    ensures 64 <= hop && 2 * hop <= fft
    ensures hop == if fft / 2 < sr / 400 || fft / 2 < 80 then fft / 2 else if sr / 400 < 80 then 80 else sr / 400
  {
    sr := CoerceIn(p.sampleRate, 8000, 192000);
    fft := NormalizeBlockSize(p.blockSize);
    var h := if 80 < sr / 400 then sr / 400 else 80;
    hop := if fft / 2 < h then fft / 2 else h;
  }

  /** The hop the file engine asks for at a sample rate: `max(80, sr / 400)`. */
  function FileHop(sr: int): (h: int)
    ensures 80 <= h
    ensures 32000 <= sr ==> h == sr / 400
    ensures sr < 32000 ==> h == 80
  {
    var q := TruncDiv(sr, 400);
    if 80 < q then q else 80
  }

  // ---------------------------------------------------------------- mm:ss

  /** `fmtMmSs`: whole seconds (never negative) as two-digit minutes, a colon and two-digit
      seconds; the minutes field grows past two digits from 100 minutes on. Digits are ASCII, as
      in a default locale whose zero digit is `'0'`. */
  function FmtMmSs(ms: int): (out: string)
    ensures |out| >= 5 && out[|out| - 3] == ':'
    ensures AllDigits(out[..|out| - 3]) && AllDigits(out[|out| - 2..])
    ensures DigitsValue(out[|out| - 2..]) < 60
    ensures DigitsValue(out[..|out| - 3]) * 60 + DigitsValue(out[|out| - 2..]) == Seconds(ms)
  {
    var s := Seconds(ms);
    var mm, ss := Pad2(s / 60), Pad2(s % 60);
    Pad2Short(s % 60);
    var out := mm + ":" + ss;
    assert out[..|out| - 3] == mm && out[|out| - 2..] == ss;
    out
  }

  /** `max(0, ms / 1000)` with Kotlin's truncating division. */
  function Seconds(ms: int): (s: nat)
    ensures ms < 1000 ==> s == 0
    ensures 0 <= ms ==> s * 1000 <= ms < s * 1000 + 1000
  {
    var q := TruncDiv(ms, 1000);
    if q < 0 then 0 else q
  }

  lemma Pad2Short(n: nat)
    requires n < 100
    ensures |Pad2(n)| == 2
  {
    if n >= 10 {
      assert |NatToString(n / 10)| == 1;
    }
  }

  /** Under a second, and any negative position, show as `00:00`. */
  lemma FmtMmSsZero(ms: int)
    requires ms < 1000
    ensures FmtMmSs(ms) == "00:00"
  {
    assert Seconds(ms) == 0;
    Pad2Zero();
  }

  lemma Pad2Zero()
    ensures Pad2(0) == "00"
  {
    assert NatToString(0) == "0";
  }
}
