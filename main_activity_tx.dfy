/** The transmit side of `MainActivity.kt`: the activity's own copies of the frame builder and
    CRC (the ones `sendBandsFrame` calls), the 400 Hz tick that sends a saw test pattern or the
    latest spectrum bands, its drift-free schedule, and the STOP/SAW/MIC/FILE toggles. The
    Bluetooth write, the handler queue, the clock and the engines themselves are outside the
    model: a tick takes the current time and returns the frame it sends and the delay it posts,
    and the engines appear as the flags `micActive` and `fileActive`. */
module MainActivityTx {
  import opened Wrappers
  import opened KotlinStd
  import BleProtocol

  // ---------------------------------------------------------------- the activity's frame builder

  /** Band `i` as the private `buildFrame` stores it: a missing band is 0, and the value is
      narrowed with `toByte`, which wraps modulo 256 instead of clamping. */
  function PrivateBandByte(bands: seq<int>, i: nat): (b: byte)
    ensures b as int == (if i < |bands| then bands[i] else 0) % 256
  {
    ToByte(if i < |bands| then bands[i] else 0)
  }

  /** Bytes 0..13 of the private frame. */
  function PrivateHead(bands: seq<int>): (h: seq<byte>)
    ensures |h| == 14
  {
    [BleProtocol.FIXED_ADDR, BleProtocol.FIXED_FUNC]
    + seq(12, i requires 0 <= i < 12 => PrivateBandByte(bands, i))
  }

  /** The frame the private `buildFrame` returns for any number of bands. */
  function PrivateFrame(bands: seq<int>): seq<byte> {
    var head := PrivateHead(bands);
    head + [BleProtocol.Lo(BleProtocol.Crc16(head)), BleProtocol.Hi(BleProtocol.Crc16(head))]
  }

  /** The private `crc16Modbus(data)`: the CRC of the first fourteen bytes, whatever the
      array's length; an array shorter than that throws. */
  method PrivateCrc16Modbus(data: array<byte>) returns (r: Result<bv16, string>)
    ensures r.Success? <==> 14 <= data.Length
    ensures r.Success? ==> r.value == BleProtocol.Crc16(data[..14])
  {
    if data.Length < 14 {
      return Failure("ArrayIndexOutOfBoundsException");
    }
    var crc: bv16 := 0xFFFF;
    for i := 0 to 14
      invariant crc == BleProtocol.Crc16(data[..i])
    {
      ghost var before := crc;
      crc := crc ^ data[i];
      for k := 0 to 8
        invariant BleProtocol.ShiftSteps(crc, 8 - k) == BleProtocol.CrcUpdate(before, data[i])
      {
        crc := if crc & 1 != 0 then (crc >> 1) ^ 0xA001 else crc >> 1;
      }
      assert data[..i + 1][..i] == data[..i];
    }
    return Success(crc);
  }

  /** The private `buildFrame`: fills a 16-byte array in place and appends the CRC. */
  method PrivateBuildFrame(bands12: seq<int>) returns (frame: seq<byte>)
    ensures frame == PrivateFrame(bands12)
  {
    var out := new byte[16];
    out[0] := 0x01;
    out[1] := 0x20;
    for i := 0 to 12
      invariant out[0] == 0x01 && out[1] == 0x20
      invariant forall k | 0 <= k < i :: out[2 + k] == PrivateBandByte(bands12, k)
    {
      out[2 + i] := ToByte(if i < |bands12| then bands12[i] else 0);
    }
    HeadFromBytes(out[..], bands12);
    assert out[..14] == out[..][..14];
    var crc := PrivateCrc16Modbus(out);
    out[14] := crc.value & 0xFF;
    out[15] := (crc.value >> 8) & 0xFF;
    FrameFromBytes(out[..], bands12);
    return out[..];
  }

  /** A 16-byte buffer whose first fourteen bytes were filled as the builder fills them. */
  lemma HeadFromBytes(s: seq<byte>, bands: seq<int>)
    requires |s| == 16 && s[0] == 0x01 && s[1] == 0x20
    requires forall k | 0 <= k < 12 :: s[2 + k] == PrivateBandByte(bands, k)
    ensures s[..14] == PrivateHead(bands)
  {
    forall j | 2 <= j < 14
      ensures s[j] == PrivateHead(bands)[j]
    {
      HeadByte(bands, j - 2);
    }
  }

  /** ... and whose last two bytes then received the CRC, low byte first. */
  lemma FrameFromBytes(s: seq<byte>, bands: seq<int>)
    requires |s| == 16 && s[0] == 0x01 && s[1] == 0x20
    requires forall k | 0 <= k < 12 :: s[2 + k] == PrivateBandByte(bands, k)
    requires s[14] == BleProtocol.Crc16(PrivateHead(bands)) & 0xFF
    requires s[15] == (BleProtocol.Crc16(PrivateHead(bands)) >> 8) & 0xFF
    ensures s == PrivateFrame(bands)
  {
    HeadFromBytes(s, bands);
    var c := BleProtocol.Crc16(PrivateHead(bands));
    assert (c >> 8) & 0xFF == c >> 8;
    assert s == s[..14] + [s[14], s[15]];
  }

  /** Byte `2 + i` of the head is band `i`. */
  lemma HeadByte(bands: seq<int>, i: nat)
    requires i < 12
    ensures PrivateHead(bands)[2 + i] == PrivateBandByte(bands, i)
  {
    var tail := seq(12, i requires 0 <= i < 12 => PrivateBandByte(bands, i));
    assert PrivateHead(bands)[2 + i] == tail[i];
  }

  /** The private frame has the protocol's layout for any band count: 16 bytes, address and
      function code, then band `i` (or 0 when missing) as `PrivateBandByte` narrows it. */
  lemma PrivateFrameLayout(bands: seq<int>)
    ensures var f := PrivateFrame(bands);
      && |f| == BleProtocol.FRAME_LEN
      && f[0] == BleProtocol.FIXED_ADDR && f[1] == BleProtocol.FIXED_FUNC
      && forall i | 0 <= i < 12 :: f[2 + i] == PrivateBandByte(bands, i)
  {
    var f, head := PrivateFrame(bands), PrivateHead(bands);
    forall i | 0 <= i < 12
      ensures f[2 + i] == PrivateBandByte(bands, i)
    {
      assert f[2 + i] == head[2 + i];
      HeadByte(bands, i);
    }
  }

  /** Bytes 14 and 15 are the CRC of the first fourteen, low byte first, so every private
      frame passes the receiver's check. */
  lemma PrivateFrameChecks(bands: seq<int>)
    ensures BleProtocol.CrcValid(PrivateFrame(bands)) && BleProtocol.Crc16(PrivateFrame(bands)) == 0
  {
    var f, head := PrivateFrame(bands), PrivateHead(bands);
    assert f[..14] == head;
    BleProtocol.CrcValidIffZero(f);
  }

  /** For twelve bands already in 0..255 (what the spectrum processor produces) the private
      builder and `BleProtocol.buildFrame` send the same bytes. */
  lemma PrivateMatchesProtocol(bands: seq<int>)
    requires |bands| == 12 && forall i | 0 <= i < 12 :: 0 <= bands[i] <= 255
    ensures PrivateFrame(bands) == BleProtocol.BandFrame(bands)
  {
    assert PrivateHead(bands) == BleProtocol.BandHead(bands) by {
      forall j | 2 <= j < 14
        ensures PrivateHead(bands)[j] == BleProtocol.BandHead(bands)[j]
      {
        HeadByte(bands, j - 2);
        BleProtocol.HeadByte(bands, j - 2);
        SameByte(bands[j - 2]);
      }
    }
  }

  /** For an in-range band, wrapping and clamping give the same byte. */
  lemma SameByte(v: int)
    requires 0 <= v <= 255
    ensures ToByte(v) == BleProtocol.BandByte(v)
  {
    assert v % 256 == v;
  }

  /** Out of range the two builders part ways: a band above 255 is clamped to 255 by one and
      wrapped by the other, so 256 reaches the device as 255 or as 0. */
  lemma PrivateWrapsWhereProtocolClamps(bands: seq<int>, i: nat)
    requires |bands| == 12 && i < 12 && 255 < bands[i]
    ensures BleProtocol.BandFrame(bands)[2 + i] == 255
    ensures PrivateFrame(bands)[2 + i] as int == bands[i] % 256
  {
    PrivateFrameLayout(bands);
    BleProtocol.BandFrameLayout(bands);
    assert PrivateFrame(bands)[2 + i] == PrivateBandByte(bands, i);
    assert BleProtocol.FrameBands(BleProtocol.BandFrame(bands))[i] == 255;
  }

  // ---------------------------------------------------------------- the saw test pattern

  /** Band `i` of the saw pattern is `(i * 20 + phase) and 0xFF`; `and 0xFF` on a two's
      complement `Int` is the Euclidean remainder modulo 256. */
  function SawBands(phase: int): (b: seq<int>)
    ensures |b| == 12 && forall i | 0 <= i < 12 :: 0 <= b[i] < 256
  {
    seq(12, i requires 0 <= i < 12 => (i * 20 + phase) % 256)
  }

  /** `testPhase = (testPhase + 10) and 0xFF`. */
  function NextPhase(p: int): (q: int)
    ensures 0 <= q < 256
  {
    (p + 10) % 256
  }

  /** The phase after `k` ticks. */
  function PhaseAfter(p: int, k: nat): int {
    if k == 0 then p else NextPhase(PhaseAfter(p, k - 1))
  }

  /** Each band is the previous one plus 20, modulo 256. */
  lemma SawRamp(phase: int, i: nat)
    requires i < 11
    ensures SawBands(phase)[i + 1] == (SawBands(phase)[i] + 20) % 256
  {
  }

  /** After `k` ticks the phase has moved by `10 k` modulo 256. */
  lemma {:induction false} PhaseAfterIs(p: int, k: nat)
    requires 0 <= p < 256
    ensures PhaseAfter(p, k) == (p + 10 * k) % 256
  {
    if k > 0 {
      PhaseAfterIs(p, k - 1);
      var a := p + 10 * (k - 1);
      var x, q := a % 256 + 10, a / 256;
      assert p + 10 * k == x + 256 * q;
      ModShift(x, q);
    }
  }

  lemma ModShift(x: int, q: int)
    ensures (x + 256 * q) % 256 == x % 256
  {
  }

  /** The pattern repeats every 128 ticks (0.32 s at 400 Hz). */
  lemma SawPeriod(p: int)
    requires 0 <= p < 256
    ensures PhaseAfter(p, 128) == p && SawBands(PhaseAfter(p, 128)) == SawBands(p)
  {
    PhaseAfterIs(p, 128);
    assert p + 10 * 128 == p + 256 * 5;
    ModShift(p, 5);
    assert p % 256 == p;
  }

  // ---------------------------------------------------------------- the schedule

  /** `1000.0 / 400.0` milliseconds. */
  const TX_PERIOD_MS: real := 2.5

  /** The time a tick schedules from: the stored one, or now if none is stored yet. */
  function Anchor(next: real, now: real): real {
    if next == 0.0 then now else next
  }

  /** The stored next time after ticks at the times `nows`. */
  function NextAfter(next: real, nows: seq<real>): real
    decreases |nows|
  {
    if |nows| == 0 then next else NextAfter(Anchor(next, nows[0]) + TX_PERIOD_MS, nows[1..])
  }

  /** The delay a tick posts: the time left until the next tick, never negative, cut to whole
      milliseconds by `toLong`. */
  function DelayMs(next: real, now: real): (d: int)
    ensures 0 <= d && d as real <= if next < now then 0.0 else next - now
    ensures now <= next ==> next - now < d as real + 1.0
  {
    (if next - now < 0.0 then 0.0 else next - now).Floor
  }

  /** The schedule does not drift: once anchored at the first tick's time, the `k`-th next time
      is the anchor plus `k` periods, however late or early the ticks themselves run. */
  lemma {:induction false} DriftFree(next: real, nows: seq<real>)
    requires 0.0 < next
    ensures NextAfter(next, nows) == next + |nows| as real * TX_PERIOD_MS
    decreases |nows|
  {
    if |nows| > 0 {
      DriftFree(next + TX_PERIOD_MS, nows[1..]);
    }
  }

  /** From a stopped schedule the first tick anchors at its own time. */
  lemma DriftFreeFromStart(nows: seq<real>)
    requires |nows| > 0 && 0.0 <= nows[0]
    ensures NextAfter(0.0, nows) == nows[0] + |nows| as real * TX_PERIOD_MS
  {
    DriftFree(nows[0] + TX_PERIOD_MS, nows[1..]);
  }

  // ---------------------------------------------------------------- the transmit state

  /** `TxSource`: what each tick sends. */
  datatype TxSource = SawSource | MicSource | FileSource

  /** `TxUiMode`: the button state of the transmit screen. */
  datatype TxUiMode = StopMode | SawMode | MicMode | FileMode

  /** The mode that transmits from a source. */
  function ModeOf(s: TxSource): TxUiMode {
    match s
    case SawSource => SawMode
    case MicSource => MicMode
    case FileSource => FileMode
  }

  function Zeros12(): (z: seq<int>)
    ensures |z| == 12
  {
    seq(12, i => 0)
  }

  class TxController {
    var txRunning: bool
    var txSource: TxSource
    var testPhase: int
    var txNextTimeMs: real
    var mode: TxUiMode
    /** `micEngine != null` and `fileEngine != null`. */
    var micActive: bool
    var fileActive: bool
    /** `latestBandsRef`: the last bands an engine delivered. */
    var latestBands: seq<int>

    /** The phase is a byte, a stopped schedule has no stored time, and the mode matches what
        runs: STOP runs nothing, SAW no engine, MIC no file engine, FILE no microphone, and a
        running transmitter sends from the mode's own source. */
    predicate Valid()
      reads this
    {
      0 <= testPhase < 256 && 0.0 <= txNextTimeMs
      && (!txRunning ==> txNextTimeMs == 0.0)
      && (mode == StopMode ==> !txRunning && !micActive && !fileActive)
      && (mode == SawMode ==> !micActive && !fileActive)
      && (mode == MicMode ==> !fileActive)
      && (mode == FileMode ==> !micActive)
      && (txRunning ==> mode == ModeOf(txSource))
    }

    constructor ()
      ensures Valid()
      ensures !txRunning && txSource == SawSource && testPhase == 0 && txNextTimeMs == 0.0
      ensures mode == StopMode && !micActive && !fileActive && latestBands == Zeros12()
    {
      txRunning := false;
      txSource := SawSource;
      testPhase := 0;
      txNextTimeMs := 0.0;
      mode := StopMode;
      micActive := false;
      fileActive := false;
      latestBands := Zeros12();
    }

    /** `startTx400HZ`: needs the Bluetooth permission (`permitted`) and a connected write
        characteristic (`linked`); then switches the source, and starts the ticks if they
        were not running. */
    method StartTx(source: TxSource, permitted: bool, linked: bool)
      modifies this
      ensures txSource == if permitted && linked then source else old(txSource)
      ensures txRunning == (old(txRunning) || (permitted && linked))
      ensures txNextTimeMs == old(txNextTimeMs) && testPhase == old(testPhase)
      ensures mode == old(mode) && micActive == old(micActive) && fileActive == old(fileActive)
      ensures latestBands == old(latestBands)
    {
      if !permitted {
        return;
      }
      if !linked {
        return;
      }
      txSource := source;
      if txRunning {
        return;
      }
      txRunning := true;
    }

    /** `stopTx400HZ`: a running transmitter stops and forgets its schedule. */
    method StopTx()
      modifies this
      ensures !txRunning
      ensures txNextTimeMs == if old(txRunning) then 0.0 else old(txNextTimeMs)
      ensures txSource == old(txSource) && testPhase == old(testPhase) && mode == old(mode)
      ensures micActive == old(micActive) && fileActive == old(fileActive)
      ensures latestBands == old(latestBands)
    {
      if !txRunning {
        return;
      }
      txRunning := false;
      txNextTimeMs := 0.0;
    }

    /** `startMicSpectrum`: a running engine is kept; otherwise the engine runs when the
        permission is there and `MicSpectrumEngine.start` succeeds (`ready`). */
    method StartMic(ready: bool)
      modifies this
      ensures micActive == (old(micActive) || ready)
      ensures txRunning == old(txRunning) && txSource == old(txSource) && testPhase == old(testPhase)
      ensures txNextTimeMs == old(txNextTimeMs) && mode == old(mode) && fileActive == old(fileActive)
      ensures latestBands == old(latestBands)
    {
      if micActive {
        return;
      }
      micActive := ready;
    }

    /** `stopMicSpectrum`: drops the engine and zeroes the latest bands. */
    method StopMic()
      modifies this
      ensures !micActive && latestBands == Zeros12()
      ensures txRunning == old(txRunning) && txSource == old(txSource) && testPhase == old(testPhase)
      ensures txNextTimeMs == old(txNextTimeMs) && mode == old(mode) && fileActive == old(fileActive)
    {
      micActive := false;
      latestBands := Zeros12();
    }

    /** `startFileSpectrum`: a running engine is kept; otherwise the engine runs when a file is
        chosen and `FileSpectrumEngine.start` succeeds (`ready`). */
    method StartFile(ready: bool)
      modifies this
      ensures fileActive == (old(fileActive) || ready)
      ensures txRunning == old(txRunning) && txSource == old(txSource) && testPhase == old(testPhase)
      ensures txNextTimeMs == old(txNextTimeMs) && mode == old(mode) && micActive == old(micActive)
      ensures latestBands == old(latestBands)
    {
      if fileActive {
        return;
      }
      fileActive := ready;
    }

    /** `stopFileSpectrum`: drops the engine and zeroes the latest bands. */
    method StopFile()
      modifies this
      ensures !fileActive && latestBands == Zeros12()
      ensures txRunning == old(txRunning) && txSource == old(txSource) && testPhase == old(testPhase)
      ensures txNextTimeMs == old(txNextTimeMs) && mode == old(mode) && micActive == old(micActive)
    {
      fileActive := false;
      latestBands := Zeros12();
    }

    /** `stopAllTx`: everything stops and the mode is STOP. */
    method StopAllTx()
      requires Valid()
      modifies this
      ensures Valid()
      ensures mode == StopMode && !txRunning && !micActive && !fileActive
      ensures txNextTimeMs == 0.0 && latestBands == Zeros12()
      ensures txSource == old(txSource) && testPhase == old(testPhase)
    {
      StopTx();
      StopMic();
      StopFile();
      mode := StopMode;
    }

    /** `onToggleSaw`: pressing the active SAW button stops everything; otherwise everything
        stops, the saw source starts if it can, and the mode is SAW either way. */
    method ToggleSaw(permitted: bool, linked: bool)
      requires Valid()
      modifies this
      ensures Valid()
      ensures old(mode) == SawMode ==> mode == StopMode && !txRunning
      ensures old(mode) != SawMode ==> mode == SawMode && txRunning == (permitted && linked)
      ensures txSource == if old(mode) != SawMode && permitted && linked then SawSource else old(txSource)
      ensures !micActive && !fileActive
      ensures latestBands == Zeros12() && txNextTimeMs == 0.0 && testPhase == old(testPhase)
    {
      if mode == SawMode {
        StopAllTx();
      } else {
        StopAllTx();
        StartTx(SawSource, permitted, linked);
        mode := SawMode;
      }
    }

    /** `onToggleMic`: pressing the active MIC button stops everything; otherwise the
        transmitter and both engines stop, the microphone engine starts (`micReady`), the
        transmitter starts from it if it can, and the mode is MIC either way. */
    method ToggleMic(permitted: bool, linked: bool, micReady: bool)
      requires Valid()
      modifies this
      ensures Valid()
      ensures old(mode) == MicMode ==> mode == StopMode && !txRunning && !micActive
      ensures old(mode) != MicMode ==> mode == MicMode && micActive == micReady
      ensures old(mode) != MicMode ==> txRunning == (permitted && linked)
      ensures txSource == if old(mode) != MicMode && permitted && linked then MicSource else old(txSource)
      ensures !fileActive
      ensures latestBands == Zeros12() && txNextTimeMs == 0.0 && testPhase == old(testPhase)
    {
      if mode == MicMode {
        StopAllTx();
      } else {
        StopTx();
        StopFile();
        StopMic();
        StartMic(micReady);
        StartTx(MicSource, permitted, linked);
        mode := MicMode;
      }
    }

    /** `onToggleFile`: as `onToggleMic`, with the file engine (`fileReady`). */
    method ToggleFile(permitted: bool, linked: bool, fileReady: bool)
      requires Valid()
      modifies this
      ensures Valid()
      ensures old(mode) == FileMode ==> mode == StopMode && !txRunning && !fileActive
      ensures old(mode) != FileMode ==> mode == FileMode && fileActive == fileReady
      ensures old(mode) != FileMode ==> txRunning == (permitted && linked)
      ensures txSource == if old(mode) != FileMode && permitted && linked then FileSource else old(txSource)
      ensures !micActive
      ensures latestBands == Zeros12() && txNextTimeMs == 0.0 && testPhase == old(testPhase)
    {
      if mode == FileMode {
        StopAllTx();
      } else {
        StopTx();
        StopMic();
        StopFile();
        StartFile(fileReady);
        StartTx(FileSource, permitted, linked);
        mode := FileMode;
      }
    }

    /** An engine delivering bands through its callback. */
    method DeliverBands(bands: seq<int>)
      modifies this
      ensures latestBands == bands
      ensures txRunning == old(txRunning) && txSource == old(txSource) && testPhase == old(testPhase)
      ensures txNextTimeMs == old(txNextTimeMs) && mode == old(mode)
      ensures micActive == old(micActive) && fileActive == old(fileActive)
    {
      latestBands := bands;
    }

    /** `txRunnable.run` at time `now`: a stopped transmitter does nothing; otherwise it picks
        the bands (the saw pattern, advancing its phase, or the latest engine bands), sends
        their frame when still connected (`linked`), and schedules the next tick one period
        after the previous one. */
    method Tick(now: real, linked: bool) returns (sent: Option<seq<byte>>, delayMs: Option<int>)
      requires Valid() && 0.0 <= now
      modifies this
      ensures Valid()
      ensures !old(txRunning) ==> sent == None && delayMs == None && testPhase == old(testPhase)
      ensures !old(txRunning) ==> txNextTimeMs == old(txNextTimeMs)
      ensures old(txRunning) ==> txNextTimeMs == Anchor(old(txNextTimeMs), now) + TX_PERIOD_MS
      ensures old(txRunning) ==> delayMs == Some(DelayMs(txNextTimeMs, now))
      ensures old(txRunning) && txSource == SawSource ==> testPhase == NextPhase(old(testPhase))
      ensures old(txRunning) && txSource != SawSource ==> testPhase == old(testPhase)
      ensures old(txRunning) && linked && txSource == SawSource ==> sent == Some(PrivateFrame(SawBands(old(testPhase))))
      ensures old(txRunning) && linked && txSource != SawSource ==> sent == Some(PrivateFrame(latestBands))
      ensures !linked ==> sent == None
      ensures txRunning == old(txRunning) && txSource == old(txSource) && mode == old(mode)
      ensures micActive == old(micActive) && fileActive == old(fileActive)
      ensures latestBands == old(latestBands)
    {
      if !txRunning {
        return None, None;
      }
      var bands: seq<int>;
      if txSource == SawSource {
        bands := SawBands(testPhase);
        testPhase := (testPhase + 10) % 256;
      } else {
        bands := latestBands;
      }
      sent := None;
      if linked {
        var frame := PrivateBuildFrame(bands);
        sent := Some(frame);
      }
      if txNextTimeMs == 0.0 {
        txNextTimeMs := now;
      }
      txNextTimeMs := txNextTimeMs + TX_PERIOD_MS;
      var delay := if txNextTimeMs - now < 0.0 then 0.0 else txNextTimeMs - now;
      delayMs := Some(delay.Floor);
    }
  }
}
