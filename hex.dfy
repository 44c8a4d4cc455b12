/** Text encodings of numbers used by the core: lowercase hexadecimal of a
    byte string (what `digest('hex')` and `ObjectId.toHexString()` produce)
    and the decimal form of a natural number (what `${Date.now()}` produces). */
module Hex {
  import opened Wrappers

  type byte = b: int | 0 <= b < 256

  const LowerHexDigits: string := "0123456789abcdef"

  function HexChar(d: nat): (c: char)
    requires d < 16
  {
    LowerHexDigits[d]
  }

  predicate IsLowerHex(c: char) {
    ('0' <= c <= '9') || ('a' <= c <= 'f')
  }

  /** The value of one hexadecimal digit; both cases are accepted when parsing. */
  function HexValue(c: char): (r: Option<nat>)
    ensures r.Some? ==> r.value < 16
  {
    if '0' <= c <= '9' then Some(c as int - '0' as int)
    else if 'a' <= c <= 'f' then Some(c as int - 'a' as int + 10)
    else if 'A' <= c <= 'F' then Some(c as int - 'A' as int + 10)
    else None
  }

  lemma HexCharValue(d: nat)
    requires d < 16
    ensures IsLowerHex(HexChar(d)) && HexValue(HexChar(d)) == Some(d)
  {
  }

  lemma LowerHexCharOfValue(c: char)
    requires IsLowerHex(c)
    ensures HexValue(c).Some? && HexChar(HexValue(c).value) == c
  {
  }

  /** Two lowercase hexadecimal digits per byte, high nibble first. */
  function BytesToHex(bs: seq<byte>): (r: string)
    ensures |r| == 2 * |bs|
    ensures forall i | 0 <= i < |r| :: IsLowerHex(r[i])
  {
    if bs == [] then ""
    else HexPair(bs[0]) + BytesToHex(bs[1..])
  }

  /** One byte as two lowercase digits, high nibble first. */
  function HexPair(b: byte): (r: string)
    ensures |r| == 2 && IsLowerHex(r[0]) && IsLowerHex(r[1])
  {
    HexCharValue(b / 16);
    HexCharValue(b % 16);
    [HexChar(b / 16), HexChar(b % 16)]
  }

  /** Parses an even-length string of hexadecimal digits (either case). */
  function HexToBytes(s: string): (r: Option<seq<byte>>)
    ensures r.Some? ==> 2 * |r.value| == |s|
  {
    if s == [] then Some([])
    else if |s| == 1 then None
    else
      var hi, lo, rest := HexValue(s[0]), HexValue(s[1]), HexToBytes(s[2..]);
      if hi.Some? && lo.Some? && rest.Some? then Some([ByteOf(hi.value, lo.value)] + rest.value)
      else None
  }

  /** Parsing succeeds exactly on even-length strings of hexadecimal digits. */
  lemma {:induction false} HexToBytesDefined(s: string)
    ensures HexToBytes(s).Some? <==> |s| % 2 == 0 && forall i | 0 <= i < |s| :: HexValue(s[i]).Some?
    decreases |s|
  {
    if |s| >= 2 {
      HexToBytesDefined(s[2..]);
      assert forall i | 2 <= i < |s| :: s[i] == s[2..][i - 2];
    }
  }

  /** The byte with the given high and low nibbles. */
  function ByteOf(hi: nat, lo: nat): (b: byte)
    requires hi < 16 && lo < 16
    ensures b / 16 == hi && b % 16 == lo
  {
    hi * 16 + lo
  }

  lemma NibblesOf(b: byte)
    ensures b / 16 < 16 && ByteOf(b / 16, b % 16) == b
  {
  }

  /** Parsing the hexadecimal form gives back the bytes. */
  lemma {:induction false} HexRoundTrip(bs: seq<byte>)
    ensures HexToBytes(BytesToHex(bs)) == Some(bs)
  {
    if bs != [] {
      HexRoundTrip(bs[1..]);
      HexToBytesCons(bs[0], BytesToHex(bs[1..]));
      assert bs == [bs[0]] + bs[1..];
    }
  }

  /** Parsing reads one byte back from its two digits, then the rest. */
  lemma HexToBytesCons(b: byte, rest: string)
    requires HexToBytes(rest).Some?
    ensures HexToBytes(HexPair(b) + rest) == Some([b] + HexToBytes(rest).value)
  {
    var s := HexPair(b) + rest;
    HexCharValue(b / 16);
    HexCharValue(b % 16);
    NibblesOf(b);
    assert s[0] == HexChar(b / 16) && s[1] == HexChar(b % 16) && s[2..] == rest;
  }

  /** A lowercase hexadecimal string is the hexadecimal form of what it parses to. */
  lemma {:induction false} HexRoundTripFromText(s: string)
    requires |s| % 2 == 0
    requires forall i | 0 <= i < |s| :: IsLowerHex(s[i])
    ensures HexToBytes(s).Some? && BytesToHex(HexToBytes(s).value) == s
    decreases |s|
  {
    if s != [] {
      LowerHexCharOfValue(s[0]);
      LowerHexCharOfValue(s[1]);
      HexRoundTripFromText(s[2..]);
      var hi, lo := HexValue(s[0]).value, HexValue(s[1]).value;
      var bs := HexToBytes(s).value;
      assert bs[0] == ByteOf(hi, lo) && bs[1..] == HexToBytes(s[2..]).value;
      assert BytesToHex(bs) == [HexChar(hi), HexChar(lo)] + BytesToHex(bs[1..]);
      assert s == [s[0], s[1]] + s[2..];
    }
  }

  /** The hexadecimal form determines the bytes. */
  lemma HexInjective(a: seq<byte>, b: seq<byte>)
    requires BytesToHex(a) == BytesToHex(b)
    ensures a == b
  {
    HexRoundTrip(a);
    HexRoundTrip(b);
  }

  predicate IsDigit(c: char) {
    '0' <= c <= '9'
  }

  function DigitChar(d: nat): (c: char)
    requires d < 10
    ensures IsDigit(c)
  {
    ('0' as int + d) as char
  }

  /** `String(n)` for a non-negative integer: decimal digits, no leading zero. */
  function NatToDecimal(n: nat): (r: string)
    ensures |r| >= 1
    ensures forall i | 0 <= i < |r| :: IsDigit(r[i])
    ensures r[0] == '0' ==> n == 0 && r == "0"
  {
    if n < 10 then [DigitChar(n)]
    else NatToDecimal(n / 10) + [DigitChar(n % 10)]
  }

  function DigitValue(c: char): (d: nat)
    requires IsDigit(c)
    ensures d < 10 && DigitChar(d) == c
  {
    c as int - '0' as int
  }

  /** The number a string of decimal digits denotes. */
  function DecimalValue(s: string): nat
    requires forall i | 0 <= i < |s| :: IsDigit(s[i])
  {
    if s == [] then 0
    else 10 * DecimalValue(s[..|s| - 1]) + DigitValue(s[|s| - 1])
  }

  /** Reading the decimal form back gives the number. */
  lemma {:induction false} DecimalRoundTrip(n: nat)
    ensures DecimalValue(NatToDecimal(n)) == n
  {
    var r := NatToDecimal(n);
    if n >= 10 {
      DecimalRoundTrip(n / 10);
      assert r[..|r| - 1] == NatToDecimal(n / 10);
    }
  }

  /** The decimal form determines the number. */
  lemma DecimalInjective(m: nat, n: nat)
    requires NatToDecimal(m) == NatToDecimal(n)
    ensures m == n
  {
    DecimalRoundTrip(m);
    DecimalRoundTrip(n);
  }
}
