/**
 * The hexadecimal numbers of memory-dump traces, read as Python's int(s, 16)
 * reads them: an optional sign, an optional "0x"/"0X" prefix, then at least
 * one hexadecimal digit of either case.
 */
module DumpHex {
  predicate IsHexDigit(c: char)
  {
    '0' <= c <= '9' || 'a' <= c <= 'f' || 'A' <= c <= 'F'
  }

  function HexDigitValue(c: char): (r: nat)
    requires IsHexDigit(c)
    ensures r < 16
  {
    if '0' <= c <= '9' then c as int - '0' as int
    else if 'a' <= c <= 'f' then c as int - 'a' as int + 10
    else c as int - 'A' as int + 10
  }

  /** The text after an optional leading sign. */
  function Unsigned(s: string): string
  {
    if |s| > 0 && (s[0] == '-' || s[0] == '+') then s[1..] else s
  }

  predicate IsNegative(s: string)
  {
    |s| > 0 && s[0] == '-'
  }

  /** The digits after the sign and an optional "0x"/"0X" prefix. */
  function Digits(s: string): string
  {
    var u := Unsigned(s);
    if |u| >= 2 && u[0] == '0' && (u[1] == 'x' || u[1] == 'X') then u[2..] else u
  }

  /** Every character of `ds` is a hexadecimal digit. */
  predicate AllHexDigits(ds: string)
    decreases |ds|
  {
    ds == [] || (AllHexDigits(ds[..|ds| - 1]) && IsHexDigit(ds[|ds| - 1]))
  }

  /** The strings int(s, 16) accepts; on any other it raises ValueError. */
  predicate IsHexNumeral(s: string)
  {
    |Digits(s)| > 0 && AllHexDigits(Digits(s))
  }

  /** The value of a string of hexadecimal digits, most significant first. */
  function DigitsValue(ds: string): (r: nat)
    requires AllHexDigits(ds)
    decreases |ds|
  {
    if ds == [] then 0 else DigitsValue(ds[..|ds| - 1]) * 16 + HexDigitValue(ds[|ds| - 1])
  }

  /** int(s, 16). */
  function HexValue(s: string): int
    requires IsHexNumeral(s)
  {
    if IsNegative(s) then -(DigitsValue(Digits(s)) as int) else DigitsValue(Digits(s))
  }

  /** A numeral without a minus sign has a value of at least zero. */
  lemma HexValueNonNegative(s: string)
    requires IsHexNumeral(s) && !IsNegative(s)
    ensures HexValue(s) >= 0
  {
  }

  const LowerHexDigits: string := "0123456789abcdef"

  /** Each lower-case digit is a hex digit worth its position. */
  lemma LowerHexDigitValues()
    ensures forall i :: 0 <= i < 16 ==> IsHexDigit(LowerHexDigits[i]) && HexDigitValue(LowerHexDigits[i]) == i
  {
  }

  /** The lower-case hexadecimal digits of n, without leading zeros ("0" for 0). */
  function ToHex(n: nat): (r: string)
    ensures |r| > 0 && AllHexDigits(r) && IsHexDigit(r[0])
  {
    LowerHexDigitValues();
    if n < 16 then
      assert [LowerHexDigits[n]][..0] == [];
      [LowerHexDigits[n]]
    else
      var r := ToHex(n / 16) + [LowerHexDigits[n % 16]];
      assert r[..|r| - 1] == ToHex(n / 16);
      r
  }

  /** hex digits read back as the number they were written from. */
  lemma {:induction false} ToHexRoundTrip(n: nat)
    ensures DigitsValue(ToHex(n)) == n
  {
    var r := ToHex(n);
    LowerHexDigitValues();
    assert r[..|r| - 1] == if n < 16 then [] else ToHex(n / 16);
    if n >= 16 {
      ToHexRoundTrip(n / 16);
    }
  }

  /** The digits of a hex numeral that starts with a digit and has no "0x" are the whole numeral. */
  lemma DigitsOfPlain(h: string)
    requires |h| > 0 && IsHexDigit(h[0])
    requires !(|h| >= 2 && h[0] == '0' && h[1] == 'x') && !(|h| >= 2 && h[0] == '0' && h[1] == 'X')
    ensures Digits(h) == h && !IsNegative(h)
  {
    assert IsHexDigit(h[0]);
  }

  /** The second character of a hex rendering is a digit too. */
  lemma SecondDigit(n: nat)
    requires |ToHex(n)| >= 2
    ensures IsHexDigit(ToHex(n)[1])
  {
    if n >= 16 && |ToHex(n / 16)| >= 2 {
      SecondDigit(n / 16);
    }
  }

  /** The digits after a "0x" prefix. */
  lemma DigitsOfPrefixed(h: string)
    ensures Digits("0x" + h) == h && !IsNegative("0x" + h)
  {
    var px := "0x" + h;
    assert px[0] == '0' && px[1] == 'x' && px[2..] == h;
  }

  /** The digits after a minus sign, when the rest is its own digits. */
  lemma DigitsOfNegated(h: string)
    requires |h| > 0 && IsHexDigit(h[0]) && Digits(h) == h
    ensures Digits("-" + h) == h && IsNegative("-" + h)
  {
    var neg := "-" + h;
    assert neg[0] == '-' && neg[1..] == h;
    assert Unsigned(neg) == h == Unsigned(h);
  }

  /** The rendering of n is its own digits: it starts with a digit and has no "0x". */
  lemma DigitsOfToHex(n: nat)
    ensures Digits(ToHex(n)) == ToHex(n) && !IsNegative(ToHex(n))
  {
    var h := ToHex(n);
    if |h| >= 2 {
      SecondDigit(n);
    }
    DigitsOfPlain(h);
  }

  /** int(s, 16) reads back every number written as hex, with or without "0x" and sign. */
  lemma HexValueOfToHex(n: nat)
    ensures IsHexNumeral(ToHex(n)) && HexValue(ToHex(n)) == n
    ensures IsHexNumeral("0x" + ToHex(n)) && HexValue("0x" + ToHex(n)) == n
    ensures IsHexNumeral("-" + ToHex(n)) && HexValue("-" + ToHex(n)) == -(n as int)
  {
    ToHexRoundTrip(n);
    DigitsOfToHex(n);
    DigitsOfPrefixed(ToHex(n));
    DigitsOfNegated(ToHex(n));
  }

  /** Some readings of int(s, 16): the default "0", a prefixed upper-case value, and a negative one. */
  lemma HexValueExamples()
    ensures IsHexNumeral("0") && HexValue("0") == 0
    ensures IsHexNumeral("0x1A") && HexValue("0x1A") == 26
    ensures IsHexNumeral("-ff") && HexValue("-ff") == -255
    ensures IsHexNumeral("+ff") && HexValue("+ff") == 255
    ensures !IsHexNumeral("") && !IsHexNumeral("0x") && !IsHexNumeral("12g")
  {
    assert Digits("0") == "0" && "0"[..0] == [];
    assert Digits("0x1A") == "1A";
    assert "1A"[..1] == "1" && "1"[..0] == [];
    assert Digits("-ff") == "ff";
    assert "ff"[..1] == "f" && "f"[..0] == [];
    assert Digits("+ff") == "ff";
    assert Digits("12g") == "12g";
  }
}
