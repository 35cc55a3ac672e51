/** `ByteArray.toHex()` (BleUtils.kt): every byte as two uppercase hexadecimal digits of its
    unsigned value, the pairs separated by single spaces. */
module BleUtils {
  import opened KotlinStd

  const HEX_DIGITS: string := "0123456789ABCDEF"

  /** The unsigned value of a byte. */
  function ByteValue(b: byte): (n: int)
    ensures 0 <= n < 256
  {
    ByteValueBound(b);
    b as int
  }

  lemma ByteValueBound(b: byte)
    ensures 0 <= b as int < 256
  {
  }

  /** Two bytes with the same unsigned value are the same byte. */
  lemma ByteValueInjective(a: byte, b: byte)
    requires ByteValue(a) == ByteValue(b)
    ensures a == b
  {
  }

  function HexDigit(d: int): (c: char)
    requires 0 <= d < 16
  {
    HEX_DIGITS[d]
  }

  /** The value of an uppercase hexadecimal digit, or -1. */
  function HexValue(c: char): (d: int)
    ensures -1 <= d < 16
    ensures d >= 0 ==> HexDigit(d) == c
  {
    if '0' <= c <= '9' then c as int - '0' as int
    else if 'A' <= c <= 'F' then c as int - 'A' as int + 10
    else -1
  }

  lemma HexValueOfDigit(d: int)
    requires 0 <= d < 16
    ensures HexValue(HexDigit(d)) == d
  {
  }

  /** `String.format("%02X", b)`: Java formats a negative `Byte` as its value plus 256. */
  function Hex2(b: byte): (s: string)
    ensures |s| == 2
  {
    [HexDigit(ByteValue(b) / 16), HexDigit(ByteValue(b) % 16)]
  }

  /** Reads a two-digit token back. */
  function Unhex2(hi: char, lo: char): int {
    HexValue(hi) * 16 + HexValue(lo)
  }

  lemma Hex2RoundTrip(b: byte)
    ensures Unhex2(Hex2(b)[0], Hex2(b)[1]) == ByteValue(b)
  {
    HexValueOfDigit(ByteValue(b) / 16);
    HexValueOfDigit(ByteValue(b) % 16);
  }

  /** `%02X` of a Kotlin `Byte` in -128..127: the two digits read back as the byte's value,
      plus 256 when it is negative (so -1 prints `FF` and -128 prints `80`). */
  lemma SignedByteHex(k: int)
    requires -128 <= k < 128
    ensures Unhex2(Hex2(ToByte(k))[0], Hex2(ToByte(k))[1]) == if k < 0 then k + 256 else k
  {
    SignedByteValue(k);
    Hex2RoundTrip(ToByte(k));
  }

  lemma SignedByteValue(k: int)
    requires -128 <= k < 128
    ensures ByteValue(ToByte(k)) == if k < 0 then k + 256 else k
  {
    var b := ToByte(k);
    if k < 0 {
      assert k == -1 * 256 + (k + 256);
    }
  }

  /** What the `StringBuilder` holds after the loop: one `"XX "` token per byte. */
  function Tokens(bs: seq<byte>): (s: string)
    ensures |s| == 3 * |bs|
  {
    if |bs| == 0 then [] else Tokens(bs[..|bs| - 1]) + Hex2(bs[|bs| - 1]) + " "
  }

  /** The tokens joined by single spaces, with nothing before the first or after the last. */
  function HexDump(bs: seq<byte>): (s: string)
  {
    if |bs| == 0 then []
    else if |bs| == 1 then Hex2(bs[0])
    else HexDump(bs[..|bs| - 1]) + " " + Hex2(bs[|bs| - 1])
  }

  /** The dump is `3n - 1` characters long for `n` bytes, and empty for none. */
  lemma {:induction false} HexDumpLength(bs: seq<byte>)
    ensures |bs| == 0 ==> HexDump(bs) == []
    ensures |bs| > 0 ==> |HexDump(bs)| == 3 * |bs| - 1
  {
    if |bs| > 1 {
      HexDumpLength(bs[..|bs| - 1]);
    }
  }

  /** Token `k` of the dump is byte `k`, and a single space follows every token but the last. */
  lemma {:induction false} HexDumpTokens(bs: seq<byte>, k: nat)
    requires k < |bs|
    ensures |HexDump(bs)| == 3 * |bs| - 1
    ensures HexDump(bs)[3 * k] == Hex2(bs[k])[0] && HexDump(bs)[3 * k + 1] == Hex2(bs[k])[1]
    ensures k + 1 < |bs| ==> HexDump(bs)[3 * k + 2] == ' '
  {
    HexDumpLength(bs);
    if |bs| > 1 {
      var init := bs[..|bs| - 1];
      HexDumpLength(init);
      if k < |init| {
        HexDumpTokens(init, k);
      }
    }
  }

  /** The bytes read back from a dump, one per three characters. */
  function ReadHexDump(s: string): (bs: seq<int>)
  {
    var n := (|s| + 1) / 3;
    seq(n, k requires 0 <= k < n => if 3 * k + 1 < |s| then Unhex2(s[3 * k], s[3 * k + 1]) else -1)
  }

  /** Reading a dump back gives the unsigned values of the bytes, in order. */
  lemma HexDumpRoundTrip(bs: seq<byte>)
    ensures ReadHexDump(HexDump(bs)) == seq(|bs|, k requires 0 <= k < |bs| => ByteValue(bs[k]))
  {
    HexDumpLength(bs);
    forall k | 0 <= k < |bs|
      ensures ReadHexDump(HexDump(bs))[k] == ByteValue(bs[k])
    {
      ReadToken(bs, k);
    }
  }

  lemma ReadToken(bs: seq<byte>, k: nat)
    requires k < |bs|
    ensures |ReadHexDump(HexDump(bs))| == |bs|
    ensures ReadHexDump(HexDump(bs))[k] == ByteValue(bs[k])
  {
    var s := HexDump(bs);
    HexDumpTokens(bs, k);
    Hex2RoundTrip(bs[k]);
    assert ReadHexDump(s)[k] == Unhex2(s[3 * k], s[3 * k + 1]);
  }

  /** Different byte arrays give different dumps. */
  lemma HexDumpInjective(a: seq<byte>, b: seq<byte>)
    requires HexDump(a) == HexDump(b)
    ensures a == b
  {
    HexDumpRoundTrip(a);
    HexDumpRoundTrip(b);
    HexDumpLength(a);
    HexDumpLength(b);
    assert |a| == |b| by {
      if |a| == 0 || |b| == 0 {
        assert |a| == 0 && |b| == 0;
      }
    }
    forall k | 0 <= k < |a|
      ensures a[k] == b[k]
    {
      assert ReadHexDump(HexDump(a))[k] == ByteValue(a[k]);
      assert ReadHexDump(HexDump(b))[k] == ByteValue(b[k]);
      ByteValueInjective(a[k], b[k]);
    }
  }

  /** The buffer is the dump with one trailing space. */
  lemma {:induction false} TokensAreDumpPlusSpace(bs: seq<byte>)
    requires |bs| > 0
    ensures Tokens(bs) == HexDump(bs) + " "
  {
    if |bs| > 1 {
      TokensAreDumpPlusSpace(bs[..|bs| - 1]);
    } else {
      assert bs[..0] == [];
    }
  }

  lemma HexDigitNotWhitespace(d: int)
    requires 0 <= d < 16
    ensures !IsWhitespace(HexDigit(d))
  {
  }

  /** `trim` takes off exactly the trailing space. */
  lemma TrimTokens(bs: seq<byte>)
    ensures Trim(Tokens(bs)) == HexDump(bs)
  {
    if |bs| > 0 {
      TokensAreDumpPlusSpace(bs);
      var d := HexDump(bs);
      HexDumpTokens(bs, 0);
      HexDumpTokens(bs, |bs| - 1);
      HexDigitNotWhitespace(ByteValue(bs[0]) / 16);
      HexDigitNotWhitespace(ByteValue(bs[|bs| - 1]) % 16);
      assert TrimStart(d + " ") == d + " ";
      assert (d + " ")[..|d|] == d;
      assert TrimEnd(d) == d;
    }
  }

  /** `toHex`: appends `"%02X "` per byte to a buffer, then trims it. */
  method ToHex(bytes: array<byte>) returns (s: string)
    ensures s == HexDump(bytes[..])
  {
    var sb: string := [];
    for i := 0 to bytes.Length
      invariant sb == Tokens(bytes[..i])
    {
      sb := sb + Hex2(bytes[i]) + " ";
      assert bytes[..i + 1][..i] == bytes[..i];
    }
    assert bytes[..bytes.Length] == bytes[..];
    s := Trim(sb);
    TrimTokens(bytes[..]);
  }
}
