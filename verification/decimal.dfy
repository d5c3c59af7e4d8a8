/** Decimal text: the `Number.prototype.toString`, `String.prototype.padStart`
    and `parseInt` behaviour that invoice numbering relies on, restricted to
    non-negative integers. */
module Decimal {
  import opened Wrappers

  predicate IsDigit(c: char) {
    '0' <= c <= '9'
  }

  predicate AllDigits(s: string) {
    forall i :: 0 <= i < |s| ==> IsDigit(s[i])
  }

  function DigitChar(d: nat): (c: char)
    requires d < 10
    ensures IsDigit(c)
  {
    ('0' as int + d) as char
  }

  function DigitValue(c: char): (d: nat)
    requires IsDigit(c)
    ensures d < 10
  {
    c as int - '0' as int
  }

  /** `n.toString()` for a non-negative integer: base ten, no sign, no leading zeros. */
  function ToDecimal(n: nat): (s: string)
    ensures 0 < |s|
    ensures AllDigits(s)
    ensures 1 < |s| ==> s[0] != '0'
  {
    if n < 10 then [DigitChar(n)] else ToDecimal(n / 10) + [DigitChar(n % 10)]
  }

  /** The value of a string of decimal digits (the empty string reads as 0). */
  function ParseDecimal(s: string): nat
    requires AllDigits(s)
  {
    if |s| == 0 then 0 else ParseDecimal(s[..|s| - 1]) * 10 + DigitValue(s[|s| - 1])
  }

  /** Reading back what `ToDecimal` wrote gives the number again. */
  lemma {:induction false} ParseToDecimal(n: nat)
    ensures ParseDecimal(ToDecimal(n)) == n
  {
    var s := ToDecimal(n);
    if n >= 10 {
      ParseToDecimal(n / 10);
      assert s[..|s| - 1] == ToDecimal(n / 10);
    }
  }

  /** `ToDecimal` is one-to-one: different numbers never render alike. */
  lemma ToDecimalInjective(m: nat, n: nat)
    requires ToDecimal(m) == ToDecimal(n)
    ensures m == n
  {
    ParseToDecimal(m);
    ParseToDecimal(n);
  }

  /** `fill` repeated `count` times. */
  function Repeat(count: nat, fill: char): (r: string)
    ensures |r| == count
    ensures forall i :: 0 <= i < count ==> r[i] == fill
  {
    seq(count, _ => fill)
  }

  /** `s.padStart(width, fill)` for a one-character `fill`: `s` itself when it is
      already `width` long, otherwise `s` preceded by enough copies of `fill`. */
  function PadStart(s: string, width: nat, fill: char): (r: string)
    ensures |r| == if |s| < width then width else |s|
    ensures r[|r| - |s|..] == s
    ensures forall i :: 0 <= i < |r| - |s| ==> r[i] == fill
  {
    if |s| < width then Repeat(width - |s|, fill) + s else s
  }

  /** Zeros in front of a digit string do not change its value. */
  lemma {:induction false} LeadingZerosIgnored(z: nat, s: string)
    requires AllDigits(s)
    ensures AllDigits(Repeat(z, '0') + s)
    ensures ParseDecimal(Repeat(z, '0') + s) == ParseDecimal(s)
  {
    var t := Repeat(z, '0') + s;
    if |s| == 0 {
      assert t == Repeat(z, '0');
      ZerosReadAsZero(z);
    } else {
      LeadingZerosIgnored(z, s[..|s| - 1]);
      assert t[..|t| - 1] == Repeat(z, '0') + s[..|s| - 1];
    }
  }

  /** A run of zeros reads as 0. */
  lemma {:induction false} ZerosReadAsZero(z: nat)
    ensures ParseDecimal(Repeat(z, '0')) == 0
  {
    if z > 0 {
      ZerosReadAsZero(z - 1);
      assert Repeat(z, '0')[..z - 1] == Repeat(z - 1, '0');
    }
  }

  /** Padding a rendered number with zeros keeps its value and its digit-only shape. */
  lemma ZeroPaddedRoundTrip(n: nat, width: nat)
    ensures AllDigits(PadStart(ToDecimal(n), width, '0'))
    ensures ParseDecimal(PadStart(ToDecimal(n), width, '0')) == n
  {
    var d := ToDecimal(n);
    ParseToDecimal(n);
    if |d| < width {
      LeadingZerosIgnored(width - |d|, d);
    }
  }

  /** The longest run of digits at the start of `s`. */
  function LeadingDigits(s: string): (r: string)
    ensures r <= s
    ensures AllDigits(r)
    ensures |r| == |s| || !IsDigit(s[|r|])
  {
    if |s| == 0 || !IsDigit(s[0]) then [] else [s[0]] + LeadingDigits(s[1..])
  }

  predicate IsHexDigit(c: char) {
    IsDigit(c) || 'a' <= c <= 'f' || 'A' <= c <= 'F'
  }

  predicate AllHexDigits(s: string) {
    forall i :: 0 <= i < |s| ==> IsHexDigit(s[i])
  }

  function HexDigitValue(c: char): (d: nat)
    requires IsHexDigit(c)
    ensures d < 16
  {
    if IsDigit(c) then DigitValue(c)
    else if 'a' <= c <= 'f' then c as int - 'a' as int + 10
    else c as int - 'A' as int + 10
  }

  /** The value of a string of hexadecimal digits (the empty string reads as 0). */
  function ParseHex(s: string): nat
    requires AllHexDigits(s)
  {
    if |s| == 0 then 0 else ParseHex(s[..|s| - 1]) * 16 + HexDigitValue(s[|s| - 1])
  }

  /** The longest run of hexadecimal digits at the start of `s`. */
  function LeadingHexDigits(s: string): (r: string)
    ensures r <= s
    ensures AllHexDigits(r)
    ensures |r| == |s| || !IsHexDigit(s[|r|])
  {
    if |s| == 0 || !IsHexDigit(s[0]) then [] else [s[0]] + LeadingHexDigits(s[1..])
  }

  /** `0x` or `0X` in front: without a radix, `parseInt` then reads base sixteen. */
  predicate HasHexPrefix(s: string) {
    2 <= |s| && s[0] == '0' && (s[1] == 'x' || s[1] == 'X')
  }

  /** `parseInt(s)` with no radix, on strings without leading white space or
      sign. After a `0x`/`0X` prefix it reads the leading run of hexadecimal
      digits; otherwise the leading run of decimal digits. Whatever follows the
      run is ignored. `None` stands for `NaN`: no digit where the run should start. */
  function ParseInt(s: string): (r: Option<nat>)
    ensures HasHexPrefix(s) ==> (r.None? <==> |s| == 2 || !IsHexDigit(s[2]))
    ensures HasHexPrefix(s) && 2 < |s| && AllHexDigits(s[2..]) ==> r == Some(ParseHex(s[2..]))
    ensures !HasHexPrefix(s) ==> (r.None? <==> |s| == 0 || !IsDigit(s[0]))
    ensures 0 < |s| && AllDigits(s) ==> r == Some(ParseDecimal(s))
  {
    if HasHexPrefix(s) then
      var digits := LeadingHexDigits(s[2..]);
      if |digits| == 0 then None
      else
        assert AllHexDigits(s[2..]) ==> digits == s[2..];
        Some(ParseHex(digits))
    else
      var digits := LeadingDigits(s);
      if |digits| == 0 then None
      else
        assert 0 < |s| && AllDigits(s) ==> digits == s;
        Some(ParseDecimal(digits))
  }

  /** Without a radix, `parseInt("0x10")` is 16 and `parseInt("0x")` is `NaN`,
      while `parseInt("0010")` is 10. */
  lemma HexPrefixExamples()
    ensures ParseInt("0x10") == Some(16)
    ensures ParseInt("0X1f") == Some(31)
    ensures ParseInt("0x") == None
    ensures ParseInt("0xg") == None
    ensures ParseInt("0010") == Some(10)
  {
    assert "0x10"[2..] == "10";
    assert ParseHex("10") == 16 by {
      assert "10"[..1] == "1";
      assert "1"[..0] == "";
    }
    assert "0X1f"[2..] == "1f";
    assert ParseHex("1f") == 31 by {
      assert "1f"[..1] == "1";
      assert "1"[..0] == "";
    }
    assert !HasHexPrefix("0010");
    assert ParseDecimal("0010") == 10 by {
      assert "0010"[..3] == "001";
      assert "001"[..2] == "00";
      assert "00"[..1] == "0";
      assert "0"[..0] == "";
    }
  }
}
