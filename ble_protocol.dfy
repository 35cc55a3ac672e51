/** The 16-byte band frame `[0x01][0x20][12 band bytes][CRC-lo][CRC-hi]` and the
    CRC-16/MODBUS checksum that protects it (BleProtocol.kt, constants from BleConstants.kt).
    The checksum is the one of section 6.2.2 of the MODBUS over Serial Line Specification
    and Implementation Guide V1.02: register preset to 0xFFFF, reflected polynomial 0xA001,
    least significant bit first, no final XOR, low byte transmitted first. */
module BleProtocol {
  import opened Wrappers
  import opened KotlinStd

  const FIXED_ADDR: byte := 0x01
  const FIXED_FUNC: byte := 0x20
  const BAND_COUNT: nat := 12
  const FRAME_LEN: nat := 16
  const CRC_INIT: bv16 := 0xFFFF
  const POLY: bv16 := 0xA001

  // ---------------------------------------------------------------- CRC specification

  /** One of the eight steps per byte: shift right, then XOR the polynomial if the bit shifted out was 1. */
  function ShiftStep(crc: bv16): bv16 {
    if crc & 1 != 0 then (crc >> 1) ^ POLY else crc >> 1
  }

  /** `k` shift steps. */
  function ShiftSteps(crc: bv16, k: nat): bv16
    decreases k
  {
    if k == 0 then crc else ShiftSteps(ShiftStep(crc), k - 1)
  }

  /** Folding one byte into the register: XOR it into the low 8 bits, then eight steps. */
  function CrcUpdate(crc: bv16, b: byte): bv16 {
    ShiftSteps(crc ^ b, 8)
  }

  /** The register after folding the bytes of `s`, first to last, into `init`. */
  function CrcFrom(init: bv16, s: seq<byte>): bv16 {
    if |s| == 0 then init else CrcUpdate(CrcFrom(init, s[..|s| - 1]), s[|s| - 1])
  }

  /** CRC-16/MODBUS of `s`. */
  function Crc16(s: seq<byte>): bv16 {
    CrcFrom(CRC_INIT, s)
  }

  /** The byte sent first (low) and second (high). */
  function Lo(crc: bv16): byte {
    crc & 0xFF
  }

  function Hi(crc: bv16): byte {
    crc >> 8
  }

  /** A frame whose last two bytes are the CRC of everything before them, low byte first. */
  predicate CrcValid(f: seq<byte>) {
    |f| >= 2 && f[|f| - 2] == Lo(Crc16(f[..|f| - 2])) && f[|f| - 1] == Hi(Crc16(f[..|f| - 2]))
  }

  // ---------------------------------------------------------------- the shift step is invertible

  /** The step undone: a set top bit means the polynomial (whose top bit is set) was XORed in,
      and then the bit shifted out was 1. */
  function Unstep(r: bv16): bv16 {
    if r & 0x8000 != 0 then ((r ^ POLY) << 1) | 1 else r << 1
  }

  lemma UnstepStep(c: bv16)
    ensures Unstep(ShiftStep(c)) == c
  {
  }

  function Unsteps(r: bv16, k: nat): bv16
    decreases k
  {
    if k == 0 then r else Unstep(Unsteps(r, k - 1))
  }

  lemma {:induction false} UnstepsSteps(c: bv16, k: nat)
    ensures Unsteps(ShiftSteps(c, k), k) == c
    decreases k
  {
    if k > 0 {
      UnstepsSteps(ShiftStep(c), k - 1);
      UnstepStep(c);
    }
  }

  /** Different registers stay different however many steps are taken. */
  lemma StepsInjective(a: bv16, b: bv16, k: nat)
    ensures ShiftSteps(a, k) == ShiftSteps(b, k) ==> a == b
  {
    UnstepsSteps(a, k);
    UnstepsSteps(b, k);
  }

  lemma {:induction false} ZeroStaysZero(k: nat)
    ensures ShiftSteps(0, k) == 0
    decreases k
  {
    if k > 0 {
      assert ShiftStep(0) == 0;
      ZeroStaysZero(k - 1);
    }
  }

  lemma EvenStep(v: bv16)
    requires v & 1 == 0
    ensures ShiftStep(v) == v >> 1
  {
  }

  /** A register whose low byte is clear is just shifted down by a byte. */
  lemma HighByteOut(h: bv16)
    requires h & 0xFF == 0
    ensures ShiftSteps(h, 8) == h >> 8
  {
    LowBitsClear(h);
    StepDown(h, 7);
    StepDown(h >> 1, 6);
    StepDown(h >> 2, 5);
    StepDown(h >> 3, 4);
    StepDown(h >> 4, 3);
    StepDown(h >> 5, 2);
    StepDown(h >> 6, 1);
    StepDown(h >> 7, 0);
  }

  /** A step on a register with a clear low bit is a plain shift by one. */
  lemma StepDown(g: bv16, k: nat)
    requires g & 1 == 0
    ensures ShiftSteps(g, k + 1) == ShiftSteps(g >> 1, k)
  {
    EvenStep(g);
  }

  lemma LowBitsClear(h: bv16)
    requires h & 0xFF == 0
    ensures h & 1 == 0 && (h >> 1) & 1 == 0 && (h >> 2) & 1 == 0 && (h >> 3) & 1 == 0
    ensures (h >> 4) & 1 == 0 && (h >> 5) & 1 == 0 && (h >> 6) & 1 == 0 && (h >> 7) & 1 == 0
    ensures h >> 1 >> 1 == h >> 2 && h >> 2 >> 1 == h >> 3 && h >> 3 >> 1 == h >> 4
    ensures h >> 4 >> 1 == h >> 5 && h >> 5 >> 1 == h >> 6 && h >> 6 >> 1 == h >> 7
    ensures h >> 7 >> 1 == h >> 8
  {
  }

  // Single bit-vector facts, kept apart so that each is decided on its own.

  lemma SplitRegister(c: bv16, m: bv16, h: bv16)
    requires m == c & 0xFF && h == c >> 8
    ensures (c ^ m) & 0xFF == 0 && (c ^ m) >> 8 == h
  {
  }

  lemma XorSelf(h: bv16)
    ensures h ^ h == 0
  {
  }

  lemma XorZero(p: bv16, q: bv16)
    requires p ^ q == 0
    ensures p == q
  {
  }

  lemma ByteOfShift(v: bv16, h: bv16)
    requires v < 0x100 && h == v << 8
    ensures h & 0xFF == 0 && h >> 8 == v
  {
  }

  lemma RegisterBytes(c: bv16, x: bv16, y: bv16)
    requires x < 0x100 && y < 0x100 && c ^ x == y << 8
    ensures x == c & 0xFF && y == c >> 8
  {
  }

  lemma XorRightInjective(p: bv16, q: bv16, c: bv16)
    requires p != q
    ensures p ^ c != q ^ c
  {
  }

  lemma XorLeftInjective(c: bv16, p: bv16, q: bv16)
    requires p != q
    ensures c ^ p != c ^ q
  {
  }

  // ---------------------------------------------------------------- CRC properties

  /** The CRC is a left fold: a message split in two is checked by carrying the register across. */
  lemma CrcFromLast(init: bv16, s: seq<byte>)
    requires |s| > 0
    ensures CrcFrom(init, s) == CrcUpdate(CrcFrom(init, s[..|s| - 1]), s[|s| - 1])
  {
  }

  lemma {:induction false} CrcFromAppend(init: bv16, s: seq<byte>, t: seq<byte>)
    ensures CrcFrom(init, s + t) == CrcFrom(CrcFrom(init, s), t)
    decreases |t|
  {
    if |t| == 0 {
      assert s + t == s;
    } else {
      var u, t' := s + t, t[..|t| - 1];
      assert u[..|u| - 1] == s + t' && u[|u| - 1] == t[|t| - 1];
      CrcFromAppend(init, s, t');
      CrcFromLast(init, u);
      CrcFromLast(CrcFrom(init, s), t);
    }
  }

  /** Feeding a register's own value, low byte first, brings it to zero. */
  lemma ResidueSound(c: bv16)
    ensures CrcUpdate(CrcUpdate(c, Lo(c)), Hi(c)) == 0
  {
    var m, h := Lo(c), Hi(c);
    SplitRegister(c, m, h);
    HighByteOut(c ^ m);
    assert CrcUpdate(c, m) == h;
    XorSelf(h);
    ZeroStaysZero(8);
  }

  /** The only byte that brings a register to zero is the register itself. */
  lemma ResidueLast(c: bv16, y: byte)
    requires CrcUpdate(c, y) == 0
    ensures c == y
  {
    ZeroStaysZero(8);
    StepsInjective(c ^ y, 0, 8);
    XorZero(c, y);
  }

  /** The only two bytes that bring a register to zero are its own, low byte first. */
  lemma ResidueExact(c: bv16, x: byte, y: byte)
    requires CrcUpdate(CrcUpdate(c, x), y) == 0
    ensures x == Lo(c) && y == Hi(c)
  {
    ResidueLast(CrcUpdate(c, x), y);
    var h := y << 8;
    ByteOfShift(y, h);
    HighByteOut(h);
    StepsInjective(c ^ x, h, 8);
    RegisterBytes(c, x, y);
  }

  /** Appending the register, low byte first, drives it to zero, and only those two bytes do. */
  lemma Residue(c: bv16, x: byte, y: byte)
    ensures CrcUpdate(CrcUpdate(c, x), y) == 0 <==> x == Lo(c) && y == Hi(c)
  {
    if x == Lo(c) && y == Hi(c) {
      ResidueSound(c);
    } else if CrcUpdate(CrcUpdate(c, x), y) == 0 {
      ResidueExact(c, x, y);
    }
  }

  /** A frame carries a valid CRC exactly when the CRC of the whole frame is zero. */
  lemma CrcValidIffZero(f: seq<byte>)
    requires |f| >= 2
    ensures CrcValid(f) <==> Crc16(f) == 0
  {
    var n := |f|;
    assert f[..n - 1][..n - 2] == f[..n - 2];
    CrcFromLast(CRC_INIT, f);
    CrcFromLast(CRC_INIT, f[..n - 1]);
    Residue(Crc16(f[..n - 2]), f[n - 2], f[n - 1]);
  }

  /** With the byte fixed, different registers stay different. */
  lemma UpdateInjectiveInRegister(c1: bv16, c2: bv16, b: byte)
    requires c1 != c2
    ensures CrcUpdate(c1, b) != CrcUpdate(c2, b)
  {
    XorRightInjective(c1, c2, b);
    StepsInjective(c1 ^ b, c2 ^ b, 8);
  }

  /** With the register fixed, different bytes give different registers. */
  lemma UpdateInjectiveInByte(c: bv16, x: byte, y: byte)
    requires x != y
    ensures CrcUpdate(c, x) != CrcUpdate(c, y)
  {
    XorLeftInjective(c, x, y);
    StepsInjective(c ^ x, c ^ y, 8);
  }

  /** Registers that differ before a common suffix still differ after it. */
  lemma {:induction false} CrcFromInjective(c1: bv16, c2: bv16, t: seq<byte>)
    requires c1 != c2
    ensures CrcFrom(c1, t) != CrcFrom(c2, t)
  {
    if |t| > 0 {
      CrcFromInjective(c1, c2, t[..|t| - 1]);
      UpdateInjectiveInRegister(CrcFrom(c1, t[..|t| - 1]), CrcFrom(c2, t[..|t| - 1]), t[|t| - 1]);
    }
  }

  /** Changing any single byte of a message changes its CRC. */
  lemma SingleByteChangeDetected(s: seq<byte>, k: nat, b: byte)
    requires k < |s| && s[k] != b
    ensures Crc16(s[k := b]) != Crc16(s)
  {
    var s' := s[k := b];
    var pre, post := s[..k], s[k + 1..];
    assert s == pre + [s[k]] + post;
    assert s' == pre + [b] + post;
    CrcFromAppend(CRC_INIT, pre + [s[k]], post);
    CrcFromAppend(CRC_INIT, pre + [b], post);
    assert (pre + [s[k]])[..k] == pre;
    assert (pre + [b])[..k] == pre;
    UpdateInjectiveInByte(Crc16(pre), s[k], b);
    CrcFromInjective(Crc16(pre + [s[k]]), Crc16(pre + [b]), post);
  }

  /** A frame with a valid CRC stops being valid when any one of its bytes is corrupted. */
  lemma CorruptedFrameRejected(f: seq<byte>, k: nat, b: byte)
    requires CrcValid(f) && k < |f| && f[k] != b
    ensures !CrcValid(f[k := b])
  {
    CrcValidIffZero(f);
    CrcValidIffZero(f[k := b]);
    SingleByteChangeDetected(f, k, b);
  }

  /** `crc16Modbus(data, len)`: the CRC of `data[0..len)`; reading past the end of `data`
      throws. The Kotlin register is an `Int` that never leaves 0..0xFFFF, so 16 bits hold it. */
  method Crc16Modbus(data: array<byte>, len: int) returns (r: Result<bv16, string>)
    ensures r.Success? <==> len <= data.Length
    ensures r.Success? && len <= 0 ==> r.value == CRC_INIT
    ensures r.Success? && 0 <= len ==> r.value == Crc16(data[..len])
  {
    if data.Length < len {
      return Failure("ArrayIndexOutOfBoundsException");
    }
    var n := if len < 0 then 0 else len;
    var crc: bv16 := 0xFFFF;
    for i := 0 to n
      invariant crc == Crc16(data[..i])
    {
      ghost var before := crc;
      crc := crc ^ data[i];
      for k := 0 to 8
        invariant ShiftSteps(crc, 8 - k) == CrcUpdate(before, data[i])
      {
        crc := if crc & 1 != 0 then (crc >> 1) ^ 0xA001 else crc >> 1;
      }
      assert data[..i + 1][..i] == data[..i];
    }
    return Success(crc);
  }

  // ---------------------------------------------------------------- the band frame

  /** The band value carried in a frame: clamped to 0..255, then narrowed to a byte. */
  function BandByte(v: int): (b: byte)
    ensures b as int == CoerceIn(v, 0, 255)
  {
    // `toByte()` of a value already in 0..255 keeps it
    ByteOf(CoerceIn(v, 0, 255))
  }

  /** Bytes 0..13 of the frame: address, function code and the twelve band bytes. */
  function BandHead(bands: seq<int>): (h: seq<byte>)
    requires |bands| == BAND_COUNT
  {
    [FIXED_ADDR, FIXED_FUNC] + seq(BAND_COUNT, i requires 0 <= i < BAND_COUNT => BandByte(bands[i]))
  }

  /** The frame `buildFrame` sends for twelve band values. */
  function BandFrame(bands: seq<int>): (f: seq<byte>)
    requires |bands| == BAND_COUNT
  {
    var head := BandHead(bands);
    head + [Lo(Crc16(head)), Hi(Crc16(head))]
  }

  /** The band values a frame carries, read back from bytes 2..13. */
  function FrameBands(f: seq<byte>): (bands: seq<int>)
    requires |f| == FRAME_LEN
    ensures |bands| == BAND_COUNT && forall i | 0 <= i < BAND_COUNT :: 0 <= bands[i] <= 255
  {
    seq(BAND_COUNT, i requires 0 <= i < BAND_COUNT => f[2 + i] as int)
  }

  /** The layout: 16 bytes, fixed address and function code, the bands clamped to 0..255 in
      order, and the CRC of bytes 0..13 in bytes 14 (low) and 15 (high). */
  lemma BandFrameLayout(bands: seq<int>)
    requires |bands| == BAND_COUNT
    ensures var f := BandFrame(bands);
      && |f| == FRAME_LEN && f[0] == FIXED_ADDR && f[1] == FIXED_FUNC
      && FrameBands(f) == seq(BAND_COUNT, i requires 0 <= i < BAND_COUNT => CoerceIn(bands[i], 0, 255))
      && f[14] == Lo(Crc16(f[..14])) && f[15] == Hi(Crc16(f[..14]))
  {
    var f, head := BandFrame(bands), BandHead(bands);
    assert f[..14] == head;
    forall i | 0 <= i < BAND_COUNT
      ensures FrameBands(f)[i] == CoerceIn(bands[i], 0, 255)
    {
      assert f[2 + i] == BandByte(bands[i]);
    }
  }

  /** Every frame built from twelve bands passes the receiver's CRC check, and its CRC over
      all sixteen bytes is zero. */
  lemma BandFrameChecks(bands: seq<int>)
    requires |bands| == BAND_COUNT
    ensures CrcValid(BandFrame(bands)) && Crc16(BandFrame(bands)) == 0
  {
    var f := BandFrame(bands);
    BandFrameLayout(bands);
    CrcValidIffZero(f);
  }

  /** Band values already in 0..255 survive the frame unchanged. */
  lemma BandFrameRoundTrip(bands: seq<int>)
    requires |bands| == BAND_COUNT
    requires forall i | 0 <= i < BAND_COUNT :: 0 <= bands[i] <= 255
    ensures FrameBands(BandFrame(bands)) == bands
  {
    BandFrameLayout(bands);
  }

  /** `buildFrame`: throws unless given exactly twelve bands, otherwise fills a fresh 16-byte
      array and returns it. */
  method BuildFrame(bands12: array<int>) returns (r: Result<seq<byte>, string>)
    ensures r.Success? <==> bands12.Length == BAND_COUNT
    ensures r.Success? ==> r.value == BandFrame(bands12[..])
  {
    if bands12.Length != BAND_COUNT {
      return Failure("IllegalArgumentException: bands12 must be length=12");
    }
    var frame := new byte[FRAME_LEN];
    frame[0] := FIXED_ADDR;
    frame[1] := FIXED_FUNC;
    for i := 0 to BAND_COUNT
      invariant frame[0] == FIXED_ADDR && frame[1] == FIXED_FUNC
      invariant forall k | 0 <= k < i :: frame[2 + k] == BandByte(bands12[k])
    {
      frame[2 + i] := BandByte(bands12[i]);
    }
    HeadFromBytes(frame[..], bands12[..]);
    assert frame[..14] == frame[..][..14];
    var crc := Crc16Modbus(frame, 14);
    frame[14] := crc.value & 0xFF;
    frame[15] := (crc.value >> 8) & 0xFF;
    FrameFromBytes(frame[..], bands12[..]);
    return Success(frame[..]);
  }

  /** Byte `2 + i` of the head is band `i`. */
  lemma HeadByte(bands: seq<int>, i: nat)
    requires |bands| == BAND_COUNT && i < BAND_COUNT
    ensures BandHead(bands)[2 + i] == BandByte(bands[i])
  {
    var tail := seq(BAND_COUNT, i requires 0 <= i < BAND_COUNT => BandByte(bands[i]));
    assert BandHead(bands)[2 + i] == tail[i];
  }

  /** A 16-byte buffer whose first fourteen bytes were filled as `buildFrame` fills them. */
  lemma HeadFromBytes(s: seq<byte>, bands: seq<int>)
    requires |s| == FRAME_LEN && |bands| == BAND_COUNT && s[0] == FIXED_ADDR && s[1] == FIXED_FUNC
    requires forall k | 0 <= k < BAND_COUNT :: s[2 + k] == BandByte(bands[k])
    ensures s[..14] == BandHead(bands)
  {
    forall j | 2 <= j < 14
      ensures s[j] == BandHead(bands)[j]
    {
      HeadByte(bands, j - 2);
    }
  }

  /** ... and whose last two bytes then received the CRC, low byte first. */
  lemma FrameFromBytes(s: seq<byte>, bands: seq<int>)
    requires |s| == FRAME_LEN && |bands| == BAND_COUNT && s[0] == FIXED_ADDR && s[1] == FIXED_FUNC
    requires forall k | 0 <= k < BAND_COUNT :: s[2 + k] == BandByte(bands[k])
    requires s[14] == Crc16(BandHead(bands)) & 0xFF
    requires s[15] == (Crc16(BandHead(bands)) >> 8) & 0xFF
    ensures s == BandFrame(bands)
  {
    HeadFromBytes(s, bands);
    var c := Crc16(BandHead(bands));
    assert (c >> 8) & 0xFF == c >> 8;
    assert s == s[..14] + [s[14], s[15]];
  }
}
