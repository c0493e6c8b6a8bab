/** The encodings that authhmac/authhmac.go takes from Go's library: big-endian integers,
    decimal integers (strconv) and lower-case hex (section 8 of RFC 4648). Go strings are
    sequences of bytes here. */
module Codec {
  import opened Wrappers
  import opened Integers

  newtype byte = x: int | 0 <= x < 256

  type Bytes = seq<byte>

  // ----- big-endian -----

  /** The low width bytes of n, most significant first. */
  function BigEndian(n: nat, width: nat): (b: Bytes)
    ensures |b| == width
  {
    if width == 0 then [] else BigEndian(n / 256, width - 1) + [(n % 256) as byte]
  }

  function FromBigEndian(b: Bytes): nat {
    if b == [] then 0 else FromBigEndian(b[..|b| - 1]) * 256 + b[|b| - 1] as int
  }

  function Pow256(width: nat): (p: nat)
    ensures p > 0
  {
    if width == 0 then 1 else 256 * Pow256(width - 1)
  }

  lemma {:induction false} BigEndianRoundTrip(n: nat, width: nat)
    requires n < Pow256(width)
    ensures FromBigEndian(BigEndian(n, width)) == n
  {
    if width == 0 {
    } else {
      BigEndianRoundTrip(n / 256, width - 1);
      assert BigEndian(n, width)[..width - 1] == BigEndian(n / 256, width - 1);
    }
  }

  lemma Widths()
    ensures Pow256(2) == 0x1_0000 && Pow256(4) == 0x1_0000_0000 && Pow256(8) == TWO64
  {
    assert Pow256(3) == 256 * Pow256(2);
    assert Pow256(5) == 256 * Pow256(4);
    assert Pow256(7) == 256 * 256 * Pow256(5);
  }

  /** Every byte of the encoding is the digit of its place, in base 256. */
  lemma {:induction false} BigEndianAt(n: nat, width: nat, i: nat)
    requires i < width
    ensures BigEndian(n, width)[width - 1 - i] as int == n / Pow256(i) % 256
  {
    if i == 0 {
    } else {
      BigEndianAt(n / 256, width - 1, i - 1);
      DivTwice(n, 256, Pow256(i - 1));
    }
  }

  /** What exceeds the width is cut off. */
  lemma {:induction false} BigEndianTruncates(n: nat, width: nat)
    ensures BigEndian(n % Pow256(width), width) == BigEndian(n, width)
  {
    if width == 0 {
    } else {
      BigEndianTruncates(n / 256, width - 1);
      ModMul(n / 256, 256, Pow256(width - 1), n % 256);
    }
  }

  // ----- decimal -----

  const ZERO: int := '0' as int
  const MINUS: byte := '-' as int as byte
  const PLUS: byte := '+' as int as byte

  function Digits(n: nat): (b: Bytes)
    ensures b != []
  {
    if n < 10 then [(ZERO + n) as byte] else Digits(n / 10) + [(ZERO + n % 10) as byte]
  }

  /** strconv.FormatInt(n, 10). */
  function FormatInt(n: int): Bytes {
    if n < 0 then [MINUS] + Digits(-n) else Digits(n)
  }

  predicate IsDigit(b: byte) {
    ZERO <= b as int <= ZERO + 9
  }

  function ParseDigits(s: Bytes): (r: Option<int>)
    ensures r.Some? ==> r.value >= 0
  {
    if s == [] then None
    else
      var last := s[|s| - 1];
      if !IsDigit(last) then None
      else if |s| == 1 then Some(last as int - ZERO)
      else
        match ParseDigits(s[..|s| - 1])
        case None => None
        case Some(v) => Some(10 * v + (last as int - ZERO))
  }

  /** strconv.ParseInt(s, 10, 64): an optional sign, then digits, in int64 range. */
  function ParseInt(s: Bytes): (r: Option<int>)
    ensures r.Some? ==> IsInt64(r.value)
  {
    if s == [] then None
    else
      var negative := s[0] == MINUS;
      var body := if negative || s[0] == PLUS then s[1..] else s;
      match ParseDigits(body)
      case None => None
      case Some(v) =>
        var n := if negative then -v else v;
        if IsInt64(n) then Some(n) else None
  }

  lemma {:induction false} DigitsRoundTrip(n: nat)
    ensures ParseDigits(Digits(n)) == Some(n)
    ensures IsDigit(Digits(n)[0])
  {
    if n < 10 {
    } else {
      DigitsRoundTrip(n / 10);
      var b := Digits(n);
      assert b[..|b| - 1] == Digits(n / 10);
    }
  }

  function Pow10(k: nat): (p: nat)
    ensures p > 0
  {
    if k == 0 then 1 else 10 * Pow10(k - 1)
  }

  /** The k-th digit from the right is that of 10^k, and there is no leading zero. */
  lemma {:induction false} DigitsAt(n: nat, k: nat)
    requires k < |Digits(n)|
    ensures Digits(n)[|Digits(n)| - 1 - k] as int == '0' as int + n / Pow10(k) % 10
    ensures n > 0 ==> Digits(n)[0] as int != '0' as int
  {
    if n < 10 {
    } else {
      DigitsAt(n / 10, if k == 0 then 0 else k - 1);
      if k > 0 {
        DivTwice(n, 10, Pow10(k - 1));
      }
    }
  }

  /** What FormatInt writes before the digits. */
  lemma FormatSigns(n: int)
    ensures n >= 0 ==> FormatInt(n) == Digits(n)
    ensures n < 0 ==> FormatInt(n)[0] as int == '-' as int && FormatInt(n)[1..] == Digits(-n)
  {
  }

  /** Exactly the non-empty strings of digits are numbers; leading zeros do not count. */
  lemma {:induction false} ParseDigitsExactly(s: Bytes)
    ensures ParseDigits(s).Some? <==>
      s != [] && forall k :: 0 <= k < |s| ==> '0' as int <= s[k] as int <= '9' as int
  {
    if s == [] {
    } else if |s| > 1 {
      var init := s[..|s| - 1];
      ParseDigitsExactly(init);
      assert forall k :: 0 <= k < |init| ==> init[k] == s[k];
    }
  }

  lemma {:induction false} LeadingZero(s: Bytes)
    requires ParseDigits(s).Some?
    ensures ParseDigits(['0' as int as byte] + s) == ParseDigits(s)
  {
    var t := ['0' as int as byte] + s;
    if |s| == 1 {
      assert t[..1] == ['0' as int as byte];
    } else {
      LeadingZero(s[..|s| - 1]);
      assert t[..|t| - 1] == ['0' as int as byte] + s[..|s| - 1];
    }
  }

  /** With digits after an optional sign, ParseInt gives their value where it fits; without,
      nothing. */
  lemma ParseIntExactly(s: Bytes, d: Bytes)
    ensures s == d && s != [] && s[0] as int != '-' as int && s[0] as int != '+' as int ==>
      ParseInt(s) == (if ParseDigits(d).Some? && ParseDigits(d).value < TWO63 then ParseDigits(d) else None)
    ensures s == ['+' as int as byte] + d ==>
      ParseInt(s) == (if ParseDigits(d).Some? && ParseDigits(d).value < TWO63 then ParseDigits(d) else None)
    ensures s == ['-' as int as byte] + d ==>
      ParseInt(s) ==
        if ParseDigits(d).Some? && ParseDigits(d).value <= TWO63 then Some(-ParseDigits(d).value) else None
    ensures ParseInt([]) == None
  {
    assert s == ['+' as int as byte] + d ==> s[1..] == d;
    assert s == ['-' as int as byte] + d ==> s[1..] == d;
  }

  lemma ParseUnsigned(b: Bytes)
    requires b != [] && IsDigit(b[0]) && ParseDigits(b).Some? && ParseDigits(b).value <= TWO63
    ensures ParseDigits(b).value < TWO63 ==> ParseInt(b) == ParseDigits(b)
    ensures ParseInt([MINUS] + b) == Some(-ParseDigits(b).value)
  {
    assert ([MINUS] + b)[1..] == b;
  }

  lemma DecimalRoundTrip(n: int)
    requires IsInt64(n)
    ensures ParseInt(FormatInt(n)) == Some(n)
  {
    var m := if n < 0 then -n else n;
    DigitsRoundTrip(m);
    ParseUnsigned(Digits(m));
  }

  // ----- hex -----

  function HexDigit(v: nat): byte
    requires v < 16
  {
    if v < 10 then (ZERO + v) as byte else ('a' as int + v - 10) as byte
  }

  /** Both cases are accepted when decoding. */
  function HexValue(c: byte): (r: Option<nat>)
    ensures r.Some? ==> r.value < 16
  {
    var x := c as int;
    if ZERO <= x <= ZERO + 9 then Some(x - ZERO)
    else if 'a' as int <= x <= 'f' as int then Some(x - 'a' as int + 10)
    else if 'A' as int <= x <= 'F' as int then Some(x - 'A' as int + 10)
    else None
  }

  /** hex.EncodeToString. */
  function HexEncode(b: Bytes): (s: Bytes)
    ensures |s| == 2 * |b|
  {
    if b == [] then []
    else [HexDigit(b[0] as int / 16), HexDigit(b[0] as int % 16)] + HexEncode(b[1..])
  }

  /** hex.DecodeString; None stands for its error, on an odd length or a foreign byte. */
  function HexDecode(s: Bytes): Option<Bytes> {
    if s == [] then Some([])
    else if |s| == 1 then None
    else
      match (HexValue(s[0]), HexValue(s[1]), HexDecode(s[2..]))
      case (Some(hi), Some(lo), Some(rest)) => Some([(16 * hi + lo) as byte] + rest)
      case _ => None
  }

  function Lower(s: Bytes): Bytes {
    if s == [] then []
    else [LowerByte(s[0])] + Lower(s[1..])
  }

  function LowerByte(c: byte): byte {
    if 'A' as int <= c as int <= 'Z' as int then (c as int + 32) as byte else c
  }

  lemma {:induction false} HexRoundTrip(b: Bytes)
    ensures HexDecode(HexEncode(b)) == Some(b)
  {
    if b == [] {
    } else {
      HexRoundTrip(b[1..]);
      var hi, lo := b[0] as int / 16, b[0] as int % 16;
      assert HexEncode(b)[2..] == HexEncode(b[1..]);
      assert HexValue(HexDigit(hi)) == Some(hi) && HexValue(HexDigit(lo)) == Some(lo);
      assert (16 * hi + lo) as byte == b[0];
      assert [b[0]] + b[1..] == b;
    }
  }

  lemma HexEncodeFirst(v: nat, rest: Bytes)
    requires v < 256
    ensures HexEncode([v as byte] + rest) == [HexDigit(v / 16), HexDigit(v % 16)] + HexEncode(rest)
  {
    assert ([v as byte] + rest)[1..] == rest;
  }

  lemma LowerTwo(s: Bytes)
    requires |s| >= 2
    ensures Lower(s) == [LowerByte(s[0]), LowerByte(s[1])] + Lower(s[2..])
  {
    assert s[1..][1..] == s[2..];
  }

  lemma HexPair(c: byte, d: byte)
    requires HexValue(c).Some? && HexValue(d).Some?
    ensures var v := 16 * HexValue(c).value + HexValue(d).value;
      0 <= v < 256 && HexDigit(v / 16) == LowerByte(c) && HexDigit(v % 16) == LowerByte(d)
  {
  }

  /** Decoding forgets nothing but the case of the digits. */
  lemma {:induction false} HexDecodeExactly(s: Bytes)
    requires HexDecode(s).Some?
    ensures HexEncode(HexDecode(s).value) == Lower(s)
  {
    if s == [] {
    } else {
      HexDecodeExactly(s[2..]);
      HexPair(s[0], s[1]);
      LowerTwo(s);
      HexEncodeFirst(16 * HexValue(s[0]).value + HexValue(s[1]).value, HexDecode(s[2..]).value);
    }
  }

  const HEX_DIGITS: string := "0123456789abcdef"

  /** Two lower-case digits per byte, the high half first. */
  lemma {:induction false} HexEncodeAt(b: Bytes, k: nat)
    requires k < |b|
    ensures HexEncode(b)[2 * k] as int == HEX_DIGITS[b[k] as int / 16] as int
    ensures HexEncode(b)[2 * k + 1] as int == HEX_DIGITS[b[k] as int % 16] as int
  {
    if k == 0 {
    } else {
      HexEncodeAt(b[1..], k - 1);
      assert HexEncode(b)[2..] == HexEncode(b[1..]);
      assert HexEncode(b)[2 * k] == HexEncode(b)[2..][2 * k - 2];
      assert HexEncode(b)[2 * k + 1] == HexEncode(b)[2..][2 * k - 1];
    }
  }

  /** A hexadecimal digit in either case. */
  predicate IsHex(c: byte) {
    || '0' as int <= c as int <= '9' as int
    || 'a' as int <= c as int <= 'f' as int
    || 'A' as int <= c as int <= 'F' as int
  }

  /** Exactly the strings of an even number of hexadecimal digits are decoded. */
  lemma {:induction false} HexDecodesExactly(s: Bytes)
    ensures HexDecode(s).Some? <==> |s| % 2 == 0 && forall k :: 0 <= k < |s| ==> IsHex(s[k])
  {
    if |s| < 2 {
    } else {
      var rest := s[2..];
      HexDecodesExactly(rest);
      assert forall k :: 0 <= k < |rest| ==> rest[k] == s[k + 2];
      assert forall k :: 2 <= k < |s| ==> s[k] == rest[k - 2];
    }
  }
}
