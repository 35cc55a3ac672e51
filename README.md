# Nichirin: band frames, spectrum windowing and transmit control, in Dafny

This project models the core of the Nichirin Android app. The app turns live audio, from the
microphone or a decoded media file, into twelve band levels (0..255). It sends the levels to a
lighting peripheral over Bluetooth LE, as fixed 16-byte CRC-16/MODBUS frames, 400 times a second.

Every Kotlin file below is under `app/src/main/java/com/example/nichirin/`. The model covers:

- **`BleProtocol.kt`** (`BleProtocol`)
  - `buildFrame` fills a 16-byte array in place: `[0x01][0x20][12 bands][CRC-lo][CRC-hi]`.
  - `crc16Modbus` is the CRC loop. It is proved against a fold over bytes (`Crc16`).
  - That fold is the CRC-16/MODBUS algorithm of section 6.2.2 of the MODBUS over Serial Line
    Specification and Implementation Guide V1.02: initial value 0xFFFF, reflected polynomial
    0xA001, least significant bit first, no final XOR.
- **`BleUtils.kt`** (`BleUtils`): `toHex`, the space-separated upper-case hex dump, written as a
  loop over a builder.
- **`dsp/Fft.kt`** (`Fft`)
  - The size checks.
  - The in-place bit-reversal permutation, proved to be exactly the bit-reversed order.
  - The stage and butterfly loops, with the twiddle factors abstract. They are proved to keep
    every index in bounds, to leave bin 0 holding the sum of the input, and to keep zeros zero.
- **`dsp/LogBands.kt`** (`LogBands`): `makeLogBands` and its `hzToBin`. `ln` and `exp` are
  parameters.
- **`dsp/Spectrum12Processor.kt`** (`Spectrum12`): the processor as a class.
  - The setters.
  - `process`: windowing, FFT, magnitudes, band averages, floor offset, the smoothing array
    updated in place, and the 0..255 scaling.
  - `sqrt`, `log10` and `cos` are parameters.
- **`dsp/MicSpectrumEngine.kt`** (`MicSpectrum`, with the shared ring-buffer invariant in `Ring`)
  - `start` and `stop`.
  - The push and extract part of the capture loop.
- **`dsp/FileSpectrumEngine.kt`** (`FileSpectrum`)
  - `start`, `stop` and `seekTo`.
  - The decode loop's ring, hop counter and seek handling, as the `DecodeLoop` class.
  - `decodePcmToMonoFloat`.
- **`MainActivity.kt`**, in two modules:
  - `MainActivityHelpers`: the parameter parsers, `normalizeBlockSize`, the hop computations and
    `fmtMmSs`.
  - `MainActivityTx`: the private frame builder and CRC, the saw test pattern, the drift-free
    400 Hz scheduler, and the TX flags and STOP/SAW/MIC/FILE toggles as the `TxController` class.
- **`CharacterRepository.kt`** (`CharacterRepository`): `resolveImagePath`, `normalizeHex`, and
  the per-entry mapping of `loadCharacters` followed by `filterNotNull`.

The shared modules `Wrappers` (`Option`, `Result`, `Outcome`) and `KotlinStd` give Kotlin's
library behaviour in Dafny terms:

- `coerceIn`, truncating division and `Double.toInt`;
- `trim`, `isBlank`, `startsWith`, `removePrefix` and `split`;
- `toIntOrNull`, restricted to ASCII digits, and `%02d` in a locale whose digits are ASCII.

Kotlin `Byte` values are held as their unsigned bit pattern. Float and double values are held
as `real`.

Facts about the code that the model keeps:

- The transmitter sends one 16-byte frame with function code 0x20. There are no register
  frames, no MTU chunking and no send queue.
- `hzToBin` truncates with `toInt`; it does not round.
- The microphone source analyses once per successful read once its buffer is full. It has no
  hop counter.

## Model

| member | source | states |
|---|---|---|
| BleProtocol.Crc16Modbus | app/src/main/java/com/example/nichirin/BleProtocol.kt:18-31 | Succeeds exactly when `len` does not run past the array. A `len` ≤ 0 gives 0xFFFF. Otherwise the value is the CRC-16/MODBUS fold of `data[0..len)`, so bytes at or after `len` never matter. |
| BleProtocol.CrcFromAppend | app/src/main/java/com/example/nichirin/BleProtocol.kt:20-29 | The CRC is a left fold: the CRC of `s + t` is `t` folded into the register left by `s`. |
| BleProtocol.Residue | app/src/main/java/com/example/nichirin/BleProtocol.kt:12-14 | Folding two more bytes into a register gives 0 exactly when they are its low byte and then its high byte. |
| BleProtocol.CrcValidIffZero | app/src/main/java/com/example/nichirin/BleProtocol.kt:12-14 | A frame ends with the CRC of the rest, low byte first, exactly when the CRC of the whole frame is 0. |
| BleProtocol.CrcFromInjective | app/src/main/java/com/example/nichirin/BleProtocol.kt:20-29 | Two different registers stay different after folding in the same bytes. |
| BleProtocol.SingleByteChangeDetected | app/src/main/java/com/example/nichirin/BleProtocol.kt:18-31 | Changing any one byte of the data changes its CRC. |
| BleProtocol.CorruptedFrameRejected | app/src/main/java/com/example/nichirin/BleProtocol.kt:12-14 | A frame with a valid CRC, with any one byte changed, no longer has a valid CRC. |
| BleProtocol.BandByte | app/src/main/java/com/example/nichirin/BleProtocol.kt:10 | The byte's unsigned value is the band clamped to [0, 255]. |
| BleProtocol.BuildFrame | app/src/main/java/com/example/nichirin/BleProtocol.kt:4-16 | Fails, as `require` does, unless there are exactly 12 bands. Otherwise the array it fills is the frame `BandFrame` of those bands. |
| BleProtocol.BandFrameLayout | app/src/main/java/com/example/nichirin/BleProtocol.kt:3-16 | The frame is 16 bytes: 0x01, 0x20, the twelve clamped bands in order, then the low and high byte of the CRC of bytes 0..13. |
| BleProtocol.BandFrameChecks | app/src/main/java/com/example/nichirin/BleProtocol.kt:12-14 | Every built frame passes the CRC check, and the CRC of the whole frame is 0. |
| BleProtocol.BandFrameRoundTrip | app/src/main/java/com/example/nichirin/BleProtocol.kt:9-11 | Bands already in 0..255 are read back unchanged from bytes 2..13. |
| BleUtils.SignedByteHex | app/src/main/java/com/example/nichirin/BleUtils.kt:5 | `%02X` of a Kotlin byte k in -128..127 reads back as k when k ≥ 0 and as k + 256 when k < 0, so -1 prints `FF` and -128 prints `80`. |
| BleUtils.Hex2RoundTrip | app/src/main/java/com/example/nichirin/BleUtils.kt:5 | The two upper-case digits of a byte read back as its unsigned value. |
| BleUtils.ToHex | app/src/main/java/com/example/nichirin/BleUtils.kt:3-7 | The builder loop followed by `trim` produces exactly `HexDump` of the bytes. |
| BleUtils.TrimTokens | app/src/main/java/com/example/nichirin/BleUtils.kt:5-6 | `trim` on the `"%02X "` tokens removes exactly the trailing space. |
| BleUtils.HexDumpLength | app/src/main/java/com/example/nichirin/BleUtils.kt:3-7 | An empty array gives the empty string. Otherwise the dump is 3·size − 1 characters long. |
| BleUtils.HexDumpTokens | app/src/main/java/com/example/nichirin/BleUtils.kt:5-6 | Characters 3k and 3k+1 are the two digits of byte k. Tokens are separated by single spaces, and there is no trailing space. |
| BleUtils.HexDumpRoundTrip | app/src/main/java/com/example/nichirin/BleUtils.kt:3-7 | Reading the dump back, token by token, gives the unsigned values of all bytes in order. |
| BleUtils.HexDumpInjective | app/src/main/java/com/example/nichirin/BleUtils.kt:3-7 | Different byte arrays give different dumps. |
| Fft.PowerOfTwoTest | app/src/main/java/com/example/nichirin/dsp/Fft.kt:15 | For n ≥ 1, `n and (n - 1) == 0` holds exactly when n is a power of two. |
| Fft.RevInvolution | app/src/main/java/com/example/nichirin/dsp/Fft.kt:54-69 | Reversing the bits of an L-bit index twice gives the index back. |
| Fft.NextReversed | app/src/main/java/com/example/nichirin/dsp/Fft.kt:58-63 | The `bit` loop turns the reversal of i − 1 into the reversal of i. |
| Fft.BitReversePermute | app/src/main/java/com/example/nichirin/dsp/Fft.kt:54-69 | Swapping each pair once, only when i < j, leaves `real` and `imag` both in exactly bit-reversed order. |
| Fft.SumRev | app/src/main/java/com/example/nichirin/dsp/Fft.kt:54-69 | The bit-reversal permutation keeps the sum of the values. |
| Fft.Butterflies | app/src/main/java/com/example/nichirin/dsp/Fft.kt:31-48 | One block's butterflies touch only indices inside the block, all in bounds. Position i ends up holding the sum of the old values at i and i + halfLen. Zeros stay zero. |
| Fft.Stage | app/src/main/java/com/example/nichirin/dsp/Fft.kt:21-49 | One stage turns the block sums of size len/2 into block sums of size len, whatever the twiddle factors. Zeros stay zero. |
| Fft.Stages | app/src/main/java/com/example/nichirin/dsp/Fft.kt:19-51 | After all log2 n stages bin 0 of each array holds the sum of its input, whatever the twiddle factors. For n = 1 the arrays are unchanged. Zeros stay zero. |
| Fft.FftInPlace | app/src/main/java/com/example/nichirin/dsp/Fft.kt:12-52 | Fails with the source's messages on a size mismatch or a length that is not a power of two; n = 0 passes. On failure, or for n ≤ 1, the arrays are unchanged. After a pass, bin 0 holds the sum of the input. An all-zero input stays all zero. |
| LogBands.LowEdge | app/src/main/java/com/example/nichirin/dsp/LogBands.kt:22 | f0 = max(1, fMin). |
| LogBands.HighEdge | app/src/main/java/com/example/nichirin/dsp/LogBands.kt:21-23 | f1 = min(sampleRate/2, fMax). |
| LogBands.HzToBin | app/src/main/java/com/example/nichirin/dsp/LogBands.kt:29-32 | The bin is the scaled frequency truncated toward zero, then clamped to [1, fftSize/2], so DC is never used. |
| LogBands.HzToBinMonotone | app/src/main/java/com/example/nichirin/dsp/LogBands.kt:29-32 | A higher frequency never maps to a lower bin. |
| LogBands.MakeLogBands | app/src/main/java/com/example/nichirin/dsp/LogBands.kt:14-46 | For a 32-bit fftSize: a negative count fails as the `ArrayList` constructor does. With bands but fftSize < 2, it fails as `coerceIn` does. Otherwise it returns exactly `bands` ranges, range i being band i. |
| LogBands.BandBounds | app/src/main/java/com/example/nichirin/dsp/LogBands.kt:40-41 | Every startBin lies in [1, fftSize/2]. Every endBin lies in [startBin + 1, fftSize/2 + 1], so each range is non-empty and inside the half spectrum. |
| LogBands.NoGaps | app/src/main/java/com/example/nichirin/dsp/LogBands.kt:35-41 | Band i+1 starts at or before the end of band i. |
| LogBands.StartsAscend | app/src/main/java/com/example/nichirin/dsp/LogBands.kt:29-40 | With a monotone `exp` and f0 ≤ f1 in log terms, start bins never decrease. |
| Spectrum12.Spectrum12Processor.constructor | app/src/main/java/com/example/nichirin/dsp/Spectrum12Processor.kt:17-46 | Stores the arguments; `rangeDb` is not clamped here. The window is the Hann window, the band ranges are those `makeLogBands` builds, and the smoothing values start at 0. |
| Spectrum12.Spectrum12Processor.SetFloorDb | app/src/main/java/com/example/nichirin/dsp/Spectrum12Processor.kt:27-29 | Stores the floor unchanged and leaves the range as it was. |
| Spectrum12.Spectrum12Processor.SetRangeDb | app/src/main/java/com/example/nichirin/dsp/Spectrum12Processor.kt:31-33 | Stores max(db, 1), so the range is at least 1 afterwards. The floor is unchanged. |
| Spectrum12.Spectrum12Processor.Process | app/src/main/java/com/example/nichirin/dsp/Spectrum12Processor.kt:48-103 | A frame of the wrong size fails with the source's message, and smoothing is untouched. Otherwise: bin 0 of the FFT holds the windowed sum; each band's smoothing value moves to 0.65·old + 0.35·level; the result has one value in 0..255 per band, the scaled smoothing value. |
| Spectrum12.Spectrum12Processor.LoadFrame | app/src/main/java/com/example/nichirin/dsp/Spectrum12Processor.kt:52-55 | `real` becomes the frame times the window, element by element, and `imag` becomes all zeros. |
| Spectrum12.Spectrum12Processor.ComputeMagnitudes | app/src/main/java/com/example/nichirin/dsp/Spectrum12Processor.kt:61-66 | Magnitudes exist only for bins 1..fftSize/2; bin 0 stays 0. |
| Spectrum12.Spectrum12Processor.UpdateSmoothing | app/src/main/java/com/example/nichirin/dsp/Spectrum12Processor.kt:74-94 | Each band's smoothing value becomes the convex mix of its old value and that band's offset level. It stays non-negative (class invariant). |
| Spectrum12.Spectrum12Processor.Normalize | app/src/main/java/com/example/nichirin/dsp/Spectrum12Processor.kt:97-101 | Output i is `Level(smooth[i], rangeDb)`, which is truncated and clamped to 0..255. |
| Spectrum12.Offset | app/src/main/java/com/example/nichirin/dsp/Spectrum12Processor.kt:85-88 | The offset level is max(0, dB + floor): never negative, and never below dB + floor. |
| Spectrum12.MagnitudesNonNegative | app/src/main/java/com/example/nichirin/dsp/Spectrum12Processor.kt:61-66 | Given a square root that is non-negative on non-negative input, every magnitude, bin 0 included, is non-negative. |
| Spectrum12.Level | app/src/main/java/com/example/nichirin/dsp/Spectrum12Processor.kt:97-101 | The output byte of a smoothing value lies in 0..255 for every range. |
| Spectrum12.ToLevel | app/src/main/java/com/example/nichirin/dsp/Spectrum12Processor.kt:100 | `toInt().coerceIn(0, 255)` always lands in 0..255. |
| Spectrum12.SumBins | app/src/main/java/com/example/nichirin/dsp/Spectrum12Processor.kt:76-82 | An empty bin range gives a count of 0, so the average is 0. Otherwise the count is the range's length and the sum is the sum of its magnitudes. |
| Spectrum12.SmoothedBetween | app/src/main/java/com/example/nichirin/dsp/Spectrum12Processor.kt:91-92 | The smoothed value lies between the old value and the new level. |
| Spectrum12.SmoothedNonNegative | app/src/main/java/com/example/nichirin/dsp/Spectrum12Processor.kt:88-92 | Smoothing two non-negative values gives a non-negative value. |
| Spectrum12.AverageWithin | app/src/main/java/com/example/nichirin/dsp/Spectrum12Processor.kt:76-82 | A band average lies between the least and the greatest magnitude in the band. |
| Spectrum12.LevelMonotone | app/src/main/java/com/example/nichirin/dsp/Spectrum12Processor.kt:97-101 | A larger smoothing value never gives a smaller output level. |
| Spectrum12.LevelEnds | app/src/main/java/com/example/nichirin/dsp/Spectrum12Processor.kt:97-101 | Values ≤ 0 give 0, and values ≥ rangeDb give 255. |
| Ring.NextPos | app/src/main/java/com/example/nichirin/dsp/MicSpectrumEngine.kt:107 | The write position advances modulo fftSize and stays in [0, fftSize). |
| Ring.HoldsPush | app/src/main/java/com/example/nichirin/dsp/MicSpectrumEngine.kt:104-109 | Writing at `ringPos`, advancing it and setting `filled = min(fftSize, filled + 1)` keeps the ring invariant with the sample appended to the history. |
| Ring.FullUnrollIsSuffix | app/src/main/java/com/example/nichirin/dsp/MicSpectrumEngine.kt:111-119 | Once the buffer is full, reading it from `ringPos` onwards, wrapping once, gives the last fftSize samples, oldest first. |
| MicSpectrum.Sample | app/src/main/java/com/example/nichirin/dsp/MicSpectrumEngine.kt:105 | A sample is pcm/32768 clamped to [-1, 1]; a 16-bit sample needs no clamping. |
| MicSpectrum.MicSpectrumEngine.constructor | app/src/main/java/com/example/nichirin/dsp/MicSpectrumEngine.kt:26-33 | Not running, with an empty ring: position 0, nothing filled. |
| MicSpectrum.MicSpectrumEngine.Start | app/src/main/java/com/example/nichirin/dsp/MicSpectrumEngine.kt:36-73 | A running engine answers true and changes nothing. Otherwise it starts exactly when the recorder could be set up. The buffer state is untouched. |
| MicSpectrum.MicSpectrumEngine.Stop | app/src/main/java/com/example/nichirin/dsp/MicSpectrumEngine.kt:75-86 | Stops and resets `ringPos` and `filled` to 0. |
| MicSpectrum.MicSpectrumEngine.Push | app/src/main/java/com/example/nichirin/dsp/MicSpectrumEngine.kt:104-109 | One sample is appended to the history, and the ring invariant holds. |
| MicSpectrum.MicSpectrumEngine.ReadStep | app/src/main/java/com/example/nichirin/dsp/MicSpectrumEngine.kt:99-123 | A read of n ≤ 0 changes nothing. Otherwise exactly the first n samples, scaled and clamped, are appended. A frame comes out exactly when the buffer is full, once per read however many samples it returned. The frame is the last fftSize samples, oldest first. |
| MicSpectrum.MicSpectrumEngine.Extract | app/src/main/java/com/example/nichirin/dsp/MicSpectrumEngine.kt:111-119 | The copy loop from `ringPos` returns the last fftSize samples, oldest first. |
| FileSpectrum.Clamp1 | app/src/main/java/com/example/nichirin/dsp/FileSpectrumEngine.kt:341 | `coerceIn(-1, 1)`: values in range are kept, values below -1 become -1 and values above 1 become 1. |
| FileSpectrum.MonoLength | app/src/main/java/com/example/nichirin/dsp/FileSpectrumEngine.kt:329-348 | The mono signal has (samples / ch) frames. |
| FileSpectrum.MonoInRange | app/src/main/java/com/example/nichirin/dsp/FileSpectrumEngine.kt:336-355 | Every mono sample lies in [-1, 1]. |
| FileSpectrum.MonoStep | app/src/main/java/com/example/nichirin/dsp/FileSpectrumEngine.kt:336-341 | The next mono sample is the clamped average of the next ch samples, followed by the mono signal of the rest. |
| FileSpectrum.DecodePcmToMonoFloat | app/src/main/java/com/example/nichirin/dsp/FileSpectrumEngine.kt:323-359 | With ch = max(1, channels), the output is the mono mix of the 16-bit samples (scaled by 1/32768) or of the float samples. Its length is (sizeBytes/2)/ch or (sizeBytes/4)/ch, and every value is in [-1, 1]. |
| FileSpectrum.MixDown | app/src/main/java/com/example/nichirin/dsp/FileSpectrumEngine.kt:333-342 | The frame loop fills exactly the mono mix, |v|/ch values. |
| FileSpectrum.SumGroup | app/src/main/java/com/example/nichirin/dsp/FileSpectrumEngine.kt:337-340 | The channel loop sums exactly the ch samples of one frame. |
| FileSpectrum.FileSpectrumEngine.Start | app/src/main/java/com/example/nichirin/dsp/FileSpectrumEngine.kt:40-49 | Always answers true and leaves the engine running. A pending seek is kept. |
| FileSpectrum.FileSpectrumEngine.Stop | app/src/main/java/com/example/nichirin/dsp/FileSpectrumEngine.kt:51-65 | Stops the engine and clears any pending seek to -1. |
| FileSpectrum.FileSpectrumEngine.SeekTo | app/src/main/java/com/example/nichirin/dsp/FileSpectrumEngine.kt:67-69 | Stores max(position, 0) as the pending seek. |
| FileSpectrum.FileSpectrumEngine.constructor | app/src/main/java/com/example/nichirin/dsp/FileSpectrumEngine.kt:33-35 | Not running, with no seek pending (-1). |
| FileSpectrum.DecodeLoop.constructor | app/src/main/java/com/example/nichirin/dsp/FileSpectrumEngine.kt:104-123 | The hop size is max(1, provided). The ring, position, fill count and hop counter start empty. |
| FileSpectrum.DecodeLoop.FormatChanged | app/src/main/java/com/example/nichirin/dsp/FileSpectrumEngine.kt:236-244 | A format change sets the hop size to max(1, provided) and nothing else. |
| FileSpectrum.DecodeLoop.TakeSeek | app/src/main/java/com/example/nichirin/dsp/FileSpectrumEngine.kt:134-143 | The pending seek is read and replaced by -1, so it is consumed once. A seek ≥ 0 resets `ringPos`, `filled` and `hopCounter` to 0; otherwise nothing changes. |
| FileSpectrum.DecodeLoop.Step | app/src/main/java/com/example/nichirin/dsp/FileSpectrumEngine.kt:198-214 | A sample is pushed and the hop counter incremented. A window is taken exactly when the buffer is full and the counter has reached the hop size, and then the counter restarts at 0. The window is the last fftSize samples, oldest first. |
| FileSpectrum.DecodeLoop.PushFrames | app/src/main/java/com/example/nichirin/dsp/FileSpectrumEngine.kt:198-215 | Pushing a decoded buffer appends it to the history. It yields exactly the windows `Emitted` describes, and leaves the counters `After` describes. |
| FileSpectrum.DecodeLoop.Push | app/src/main/java/com/example/nichirin/dsp/FileSpectrumEngine.kt:199-201 | One sample is appended to the history. `filled` grows by one up to fftSize, and the hop counter and hop size are unchanged. |
| FileSpectrum.DecodeLoop.Extract | app/src/main/java/com/example/nichirin/dsp/FileSpectrumEngine.kt:206-212 | With a full buffer, the copy loop returns the last fftSize samples, oldest first. |
| FileSpectrum.EmittedCons | app/src/main/java/com/example/nichirin/dsp/FileSpectrumEngine.kt:198-214 | The windows from a buffer are the window, if any, from its first sample followed by those from the rest. The counters carry over. |
| FileSpectrum.SettledNeverDue | app/src/main/java/com/example/nichirin/dsp/FileSpectrumEngine.kt:204-205 | After the hop check, no further window is due until another sample is pushed. |
| FileSpectrum.WindowsPerHop | app/src/main/java/com/example/nichirin/dsp/FileSpectrumEngine.kt:198-214 | Once the buffer is full, pushing m samples yields (hopCounter + m) / hopSize windows, one per hop. |
| MainActivityHelpers.ParseAudioParamsSingleField | app/src/main/java/com/example/nichirin/MainActivity.kt:729-753 | A result needs a non-blank input with 1 or 3 tokens. One token replaces only the floor, with the parsed float. Three tokens give sample rate and block size, both parsed and positive, and the floor. |
| MainActivityHelpers.ParseFileParams | app/src/main/java/com/example/nichirin/MainActivity.kt:755-770 | A result needs exactly two tokens, parsed as floor ≥ 0 and range > 0. |
| MainActivityHelpers.AudioParamsRoundTrip | app/src/main/java/com/example/nichirin/MainActivity.kt:644-660 | Parsing the pre-filled text "sampleRate,blockSize,floorDb.toInt()" of valid settings gives back the sample rate and block size, and the floor truncated toward zero. |
| MainActivityHelpers.AudioParamsRoundTripExact | app/src/main/java/com/example/nichirin/MainActivity.kt:644-660 | The pre-filled text gives the settings back unchanged exactly when the floor is a whole number in `Int` range. |
| MainActivityHelpers.FloorOnly | app/src/main/java/com/example/nichirin/MainActivity.kt:740-743 | A single number changes only the floor. |
| MainActivityHelpers.FileParamsRoundTrip | app/src/main/java/com/example/nichirin/MainActivity.kt:764-769 | "floor,range" parses to that pair exactly when range > 0 and floor ≥ 0, and to null otherwise. |
| MainActivityHelpers.BlankRefused | app/src/main/java/com/example/nichirin/MainActivity.kt:729-757 | Blank input gives null in both parsers. |
| MainActivityHelpers.DoubledValues | app/src/main/java/com/example/nichirin/MainActivity.kt:785-786 | With 32-bit `shl`, v takes only the values 2^k up to 2^30, then -2^31, then 0. |
| MainActivityHelpers.BlockSizeLoopNeverExits | app/src/main/java/com/example/nichirin/MainActivity.kt:783-788 | For n > 2^30 no value of v ever reaches n, so the loop as written never ends (see Findings). |
| MainActivityHelpers.NormalizeBlockSize | app/src/main/java/com/example/nichirin/MainActivity.kt:783-788 | Always a power of two in [128, 8192]. n ≤ 0 gives 512 and n ≤ 128 gives 128. For 128 < n ≤ 8192 it is the power of two in [n, 2n), and above that 8192. |
| MainActivityHelpers.AsWrittenAgrees | app/src/main/java/com/example/nichirin/MainActivity.kt:785-786 | For n ≤ 2^30, the first doubled value ≥ n is a power of two in [n, 2n), as the corrected loop assumes. |
| MainActivityHelpers.MicSpectrumParams | app/src/main/java/com/example/nichirin/MainActivity.kt:1100-1105 | sr is clamped to [8000, 192000]. fft is a power of two in [128, 8192]: 128 for block sizes up to 128, 8192 above 8192. hop = min(max(80, sr/400), fft/2), so 64 ≤ hop and 2·hop ≤ fft. |
| MainActivityHelpers.FileHop | app/src/main/java/com/example/nichirin/MainActivity.kt:1166 | The file engine's hop is max(80, sr/400): exactly 80 below 32000 Hz, and sr/400 from 32000 Hz up. |
| MainActivityHelpers.FmtMmSs | app/src/main/java/com/example/nichirin/MainActivity.kt:1312-1317 | "mm:ss": digits, a colon, then two digits. The seconds are below 60, and minutes·60 + seconds = max(0, ms/1000) with truncating division. |
| MainActivityHelpers.FmtMmSsZero | app/src/main/java/com/example/nichirin/MainActivity.kt:1312-1317 | Anything below one second, negative included, prints as "00:00". |
| MainActivityTx.PrivateBandByte | app/src/main/java/com/example/nichirin/MainActivity.kt:1293 | A missing band is 0, and every value wraps modulo 256 through `toByte`. |
| MainActivityTx.PrivateCrc16Modbus | app/src/main/java/com/example/nichirin/MainActivity.kt:1301-1310 | The CRC of exactly the first 14 bytes. An array shorter than that fails. |
| MainActivityTx.PrivateBuildFrame | app/src/main/java/com/example/nichirin/MainActivity.kt:1287-1299 | The array it fills is `PrivateFrame` of the bands, for any number of bands. |
| MainActivityTx.PrivateFrameLayout | app/src/main/java/com/example/nichirin/MainActivity.kt:1287-1299 | 16 bytes: 0x01, 0x20, then band i (or 0 when missing) modulo 256. |
| MainActivityTx.PrivateFrameChecks | app/src/main/java/com/example/nichirin/MainActivity.kt:1295-1297 | The frame ends in its CRC, low byte first, so the CRC of the whole frame is 0. |
| MainActivityTx.PrivateMatchesProtocol | app/src/main/java/com/example/nichirin/MainActivity.kt:1287-1299 | For twelve bands in 0..255 the private frame equals the one `BleProtocol.kt` builds. |
| MainActivityTx.PrivateWrapsWhereProtocolClamps | app/src/main/java/com/example/nichirin/MainActivity.kt:1293 | A band above 255 is sent as 255 by `BleProtocol.kt` but as its value modulo 256 by the private builder. |
| MainActivityTx.SawBands | app/src/main/java/com/example/nichirin/MainActivity.kt:1024 | Twelve bands, each (i·20 + phase) and 0xFF. |
| MainActivityTx.SawRamp | app/src/main/java/com/example/nichirin/MainActivity.kt:1024 | Each saw band is the previous one plus 20, modulo 256. |
| MainActivityTx.PhaseAfterIs | app/src/main/java/com/example/nichirin/MainActivity.kt:1025 | After k ticks the phase is (phase + 10k) mod 256. |
| MainActivityTx.SawPeriod | app/src/main/java/com/example/nichirin/MainActivity.kt:1022-1025 | The pattern repeats every 128 ticks. |
| MainActivityTx.DelayMs | app/src/main/java/com/example/nichirin/MainActivity.kt:1035-1036 | The posted delay is max(0, next − now), truncated to whole milliseconds. |
| MainActivityTx.DriftFree | app/src/main/java/com/example/nichirin/MainActivity.kt:1033-1034 | Once anchored, the next time after k ticks is the anchor plus k·2.5 ms, however late each tick ran. |
| MainActivityTx.DriftFreeFromStart | app/src/main/java/com/example/nichirin/MainActivity.kt:1032-1034 | The first tick anchors the schedule at its own time, and from there it advances exactly 2.5 ms per tick. |
| MainActivityTx.TxController.StartTx | app/src/main/java/com/example/nichirin/MainActivity.kt:1040-1058 | Without permission or a link, nothing changes. Otherwise the source is switched, and the transmitter runs. |
| MainActivityTx.TxController.StopTx | app/src/main/java/com/example/nichirin/MainActivity.kt:1060-1067 | The transmitter stops. A running one also resets the stored next time to 0. |
| MainActivityTx.TxController.StartMic | app/src/main/java/com/example/nichirin/MainActivity.kt:1096-1142 | The microphone engine is active afterwards if it already was or it started. Nothing else changes. |
| MainActivityTx.TxController.StopMic | app/src/main/java/com/example/nichirin/MainActivity.kt:1144-1149 | The microphone engine is gone and the latest bands are twelve zeros. |
| MainActivityTx.TxController.StartFile | app/src/main/java/com/example/nichirin/MainActivity.kt:1151-1219 | The file engine is active afterwards if it already was or it started. Nothing else changes. |
| MainActivityTx.TxController.StopFile | app/src/main/java/com/example/nichirin/MainActivity.kt:1221-1229 | The file engine is gone and the latest bands are twelve zeros. |
| MainActivityTx.TxController.StopAllTx | app/src/main/java/com/example/nichirin/MainActivity.kt:1231-1236 | Everything stops: mode STOP, no transmitter, no engine, next time 0, zero bands. |
| MainActivityTx.TxController.ToggleSaw | app/src/main/java/com/example/nichirin/MainActivity.kt:249-257 | Toggling SAW while in SAW stops everything. Otherwise the mode becomes SAW, even if the transmitter could not start; it runs exactly when permitted and linked, and the source becomes SAW only then. No engine is active, the bands are zeroed, the next send time is reset and the test phase is kept. |
| MainActivityTx.TxController.ToggleMic | app/src/main/java/com/example/nichirin/MainActivity.kt:258-270 | Toggling MIC while in MIC stops everything. Otherwise the mode becomes MIC, the file engine is stopped, the microphone runs if it could start, and the transmitter runs exactly when permitted and linked, the source becoming MIC only then. The bands are zeroed, the next send time is reset and the test phase is kept. |
| MainActivityTx.TxController.ToggleFile | app/src/main/java/com/example/nichirin/MainActivity.kt:271-283 | Toggling FILE while in FILE stops everything. Otherwise the mode becomes FILE, the microphone is stopped, the file engine runs if it could start, and the transmitter runs exactly when permitted and linked, the source becoming FILE only then. The bands are zeroed, the next send time is reset and the test phase is kept. |
| MainActivityTx.TxController.DeliverBands | app/src/main/java/com/example/nichirin/MainActivity.kt:1123-1125 | An engine's callback replaces the latest bands and nothing else. |
| MainActivityTx.TxController.Tick | app/src/main/java/com/example/nichirin/MainActivity.kt:1017-1037 | A stopped transmitter does nothing. A running one sends, when linked, the private frame of the saw pattern (then advancing the phase by 10) or of the latest bands. It anchors the schedule on its first tick, adds 2.5 ms, and posts max(0, next − now). |
| CharacterRepository.ResolveImagePath | app/src/main/java/com/example/nichirin/CharacterRepository.kt:36-44 | Blank gives null. A trimmed `http://`, `https://` or `file://` path is returned as is. Anything else becomes `file:///android_asset/` plus the path, without at most one leading `/` and then one leading `assets/`. Every result is a trimmed URL. |
| CharacterRepository.ResolveIdempotent | app/src/main/java/com/example/nichirin/CharacterRepository.kt:36-44 | Resolving a resolved path gives it back unchanged. |
| CharacterRepository.AssetSpellings | app/src/main/java/com/example/nichirin/CharacterRepository.kt:42-43 | `name`, `assets/name` and `/assets/name` all resolve to the same asset URL. |
| CharacterRepository.NormalizeHex | app/src/main/java/com/example/nichirin/CharacterRepository.kt:46-52 | A result exists exactly when the trimmed input, without one leading `#`, is six hex digits. It is `#` followed by those digits upper-cased, 7 characters. |
| CharacterRepository.NormalizeHexIdempotent | app/src/main/java/com/example/nichirin/CharacterRepository.kt:46-52 | Every normalised colour normalises to itself. |
| CharacterRepository.NormalizeHexIgnoresCase | app/src/main/java/com/example/nichirin/CharacterRepository.kt:49-51 | Spellings that differ only in letter case and a leading `#` normalise alike. |
| CharacterRepository.ColorOf | app/src/main/java/com/example/nichirin/CharacterRepository.kt:26 | The entry's colour when it normalises, otherwise `#FF66AA`. Always a normal colour. |
| CharacterRepository.ToCharacter | app/src/main/java/com/example/nichirin/CharacterRepository.kt:19-28 | An entry gives a character exactly when it is an object with a non-blank trimmed name. The name, band and image are trimmed, and the colour is `ColorOf` the entry's colour. |
| CharacterRepository.FilterNotNullMembers | app/src/main/java/com/example/nichirin/CharacterRepository.kt:29 | A value survives `filterNotNull` exactly when it was present. |
| CharacterRepository.FilterNotNullAppend | app/src/main/java/com/example/nichirin/CharacterRepository.kt:29 | `filterNotNull` keeps order. |
| CharacterRepository.CharactersMembers | app/src/main/java/com/example/nichirin/CharacterRepository.kt:19-29 | A character is in the list exactly when some entry maps to it. Every listed character has a non-blank name and a normal colour. |
| CharacterRepository.NamedEntryKept | app/src/main/java/com/example/nichirin/CharacterRepository.kt:21-22 | Every entry with a non-blank name is represented in the list. |
| CharacterRepository.CharactersAppend | app/src/main/java/com/example/nichirin/CharacterRepository.kt:19-29 | Entries keep their order: the list for two runs of entries is the two lists concatenated. |
| KotlinStd.ParseIntRoundTrip | app/src/main/java/com/example/nichirin/MainActivity.kt:736 | `toIntOrNull` reads back every 32-bit integer from its decimal text. |

## Left out

- Android UI, lifecycle, permission prompts and status strings (`txState`, `micState`, `fileState` texts): these are display only.
- BLE scanning, GATT and `writeCharacteristic`: platform I/O. A transmit tick returns the frame it would write, and `linked` stands for `gatt` and `writeChar` being present.
- Audio capture (`AudioRecord`) and media decoding (`MediaExtractor`, `MediaCodec`, `AudioTrack`): platform I/O. A read and a decoded buffer are parameters.
- Threads, atomics, `interrupt`/`join` and the handler queue: each engine and the transmitter run as sequential code. `running` is a plain flag, and `getAndSet` is a read followed by a write.
- Wall-clock pacing and progress reporting in the file engine: these are driven by `System.nanoTime` and `Thread.sleep`. The uptime clock of the transmitter is a parameter.
- `ForegroundKeepAliveService`, JSON asset loading in `loadCharacters`, and `CardRepository.kt`: platform I/O. An entry of the JSON array is a parameter, as the four strings `optString` returns, or absent.
- `applyFloorToProcessorIfPossible` uses reflection. It is the direct `SetFloorDb` call it finds.
- The engine objects inside `MainActivity.kt` are flags of `TxController`. The processor call inside each engine's loop is the window the loop hands over.
- The file engine keeps its ring in locals of `loop`. They are gathered into the `DecodeLoop` class.
- `toFloatOrNull`, `cos`, `sin`, `sqrt`, `log10`, `ln`, `exp` and little-endian float32 decoding are function parameters with no properties assumed; `toIntOrNull` is modelled concretely, as `KotlinStd.ParseInt`.
- KotlinStd.ParseInt: accepts ASCII digits `0`-`9` only. The JVM's `toIntOrNull` goes through `Character.digit` and also accepts other Unicode decimal digits, such as full-width or Arabic-Indic ones.
- MainActivityHelpers.FmtMmSs: assumes a default locale whose zero digit is `'0'`. `String.format("%02d:%02d", m, r)` passes no locale, so under a locale such as Arabic (Egypt) or Persian Java's `Formatter` prints that locale's digits, whereas the model's result is ASCII digits only.
- Spectrum12.Spectrum12Processor.Process: float32 arithmetic is `real` arithmetic, so rounding, NaN and infinities are not modelled. The dB value, the band average and the Hann window are exact over the abstract functions.
- Spectrum12.Spectrum12Processor.constructor: requires fftSize ≥ 2, rangeDb ≠ 0, sampleRate ≠ 0 and bands ≥ 0. The source's float division by zero would give infinities or NaN, which `real` cannot hold, and a negative `bands` makes the `ArrayList` constructor throw. The default arguments floorDb = 27 and rangeDb = 60 are the constants `Spectrum12.DEFAULT_FLOOR_DB` and `Spectrum12.DEFAULT_RANGE_DB`; callers pass them explicitly.
- LogBands.MakeLogBands: requires sampleRate ≠ 0 for the same reason. `Double`/`Float` conversions of the edges are exact.
- MicSpectrum.MicSpectrumEngine.constructor: requires fftSize ≥ 1. With fftSize 0 the source throws on the first sample (`% 0`).
- FileSpectrum.DecodeLoop.constructor: requires fftSize ≥ 1, for the same reason.
- Fft.FftInPlace: requires `real` and `imag` to be different arrays; aliasing is not modelled. The stage loop's `len *= 2` overflow at n = 2^30 is not modelled, since it needs a 4 GiB array.
- MainActivityTx.DelayMs: `toLong` of a non-negative double is its floor; the 64-bit range is not modelled.
- MainActivityTx.TxController.Tick: the handler post is the returned delay. Frames are the private builder's, as `sendBandsFrame` calls it.

## Findings

| source | as written | input that shows it | evidently intended | confidence | as-written member | corrected member |
|---|---|---|---|---|---|---|
| app/src/main/java/com/example/nichirin/MainActivity.kt:783-788 | `v = v shl 1` wraps in 32 bits: from 2^30 it becomes -2^31, then 0, and stays 0. So `while (v < n)` never ends for n > 2^30, and the UI thread hangs. | block size 2000000000 typed into the audio field: `parseAudioParamsSingleField` accepts it because it is positive, and the Apply button's handler (MainActivity.kt:665) passes it to `normalizeBlockSize` on the UI thread. | The smallest power of two ≥ n, clamped to [128, 8192], which is 8192 for every n > 8192. | high; not executed | MainActivityHelpers.BlockSizeLoopNeverExits | MainActivityHelpers.NormalizeBlockSize |
