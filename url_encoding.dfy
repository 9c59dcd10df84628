/**
 * The hand-written URL percent-encoder (Program.cs: ShouldEncode,
 * HttpEncode) and a percent-decoder that inverts it.
 *
 * C# strings are sequences of UTF-16 code units; a Dafny `string` is a
 * sequence of Unicode scalar values. A scalar value above U+FFFF stands for
 * the two surrogate units C#'s `foreach` would visit, and each of them is
 * escaped on its own.
 */
module UrlEncoding {

  /** Characters copied unchanged besides letters and digits (Program.cs:19). */
  const SAFE_CHARS: string := "-_.()"

  /**
   * `char.IsLetterOrDigit`, exact for code points below U+0100: ASCII letters
   * and digits and the Latin-1 letters (categories Lu, Ll, Lo). Above U+0100
   * every character is treated as neither a letter nor a digit.
   */
  predicate IsLetterOrDigit(c: char)
  {
    var n := c as int;
    || ('0' <= c <= '9') || ('A' <= c <= 'Z') || ('a' <= c <= 'z')
    || n == 0xAA || n == 0xB5 || n == 0xBA
    || (0xC0 <= n <= 0xD6) || (0xD8 <= n <= 0xF6) || (0xF8 <= n <= 0xFF)
  }

  predicate IsAsciiAlphanumeric(c: char)
  {
    ('0' <= c <= '9') || ('A' <= c <= 'Z') || ('a' <= c <= 'z')
  }

  /** ShouldEncode (Program.cs:359-372). */
  function ShouldEncode(c: char): (r: bool)
    ensures c == '%' ==> r
    ensures !r ==> c as int < 0x100
    ensures c as int < 0x80 ==> (!r <==> IsAsciiAlphanumeric(c) || c in "-_.()")
  {
    !IsLetterOrDigit(c) && c !in SAFE_CHARS
  }

  /** An upper-case hexadecimal digit, as the `X` format prints them. */
  predicate IsUpperHexDigit(c: char)
  {
    ('0' <= c <= '9') || ('A' <= c <= 'F')
  }

  predicate IsHexDigit(c: char)
  {
    IsUpperHexDigit(c) || ('a' <= c <= 'f')
  }

  function DigitValue(c: char): (v: nat)
    requires IsHexDigit(c)
    ensures v < 16
  {
    if '0' <= c <= '9' then c as int - '0' as int
    else if 'A' <= c <= 'F' then c as int - 'A' as int + 10
    else c as int - 'a' as int + 10
  }

  function HexDigit(d: nat): (c: char)
    requires d < 16
    ensures IsUpperHexDigit(c) && DigitValue(c) == d
  {
    if d < 10 then ('0' as int + d) as char else ('A' as int + d - 10) as char
  }

  /** The value of a string of hexadecimal digits, most significant first. */
  function HexValue(s: string): nat
    requires forall i :: 0 <= i < |s| ==> IsHexDigit(s[i])
  {
    if s == [] then 0 else 16 * HexValue(s[..|s| - 1]) + DigitValue(s[|s| - 1])
  }

  /** The shortest upper-case hexadecimal numeral of `n`. */
  function Hex(n: nat): (r: string)
    ensures 1 <= |r|
    ensures forall i :: 0 <= i < |r| ==> IsUpperHexDigit(r[i])
    ensures HexValue(r) == n
    ensures n < 0x10 <==> |r| == 1
    ensures n < 0x100 ==> |r| <= 2
    ensures n < 0x10000 ==> |r| <= 4
    ensures |r| > 1 ==> r[0] != '0'
    decreases n
  {
    if n < 16 then [HexDigit(n)]
    else
      var high := Hex(n / 16);
      var r := high + [HexDigit(n % 16)];
      assert r[..|r| - 1] == high;
      assert r[0] == high[0];
      r
  }

  /** The `X2` format: upper-case hexadecimal, padded to at least two digits. */
  function HexX2(n: nat): (r: string)
    ensures 2 <= |r|
    ensures forall i :: 0 <= i < |r| ==> IsUpperHexDigit(r[i])
    ensures HexValue(r) == n
    ensures n < 0x100 ==> |r| == 2
    ensures n < 0x10000 ==> |r| <= 4
    ensures |r| > 2 ==> r[0] != '0'
  {
    var h := Hex(n);
    if n < 16 then
      var r := "0" + h;
      assert r[..1] == "0";
      r
    else h
  }

  /** The UTF-16 code units of one scalar value, as C# stores it. */
  function Utf16Units(c: char): (r: seq<nat>)
    ensures 1 <= |r| <= 2
    ensures |r| == 1 <==> c as int < 0x10000
    ensures |r| == 1 ==> r[0] == c as int
    ensures |r| == 2 ==>
      && 0xD800 <= r[0] < 0xDC00 && 0xDC00 <= r[1] < 0xE000
      && 0x10000 + (r[0] - 0xD800) * 0x400 + (r[1] - 0xDC00) == c as int
  {
    var n := c as int;
    if n < 0x10000 then [n]
    else [0xD800 + (n - 0x10000) / 0x400, 0xDC00 + (n - 0x10000) % 0x400]
  }

  /** `%` and the `X2` numeral of each code unit, in order (Program.cs:222). */
  function EscapeUnits(units: seq<nat>): (r: string)
    ensures forall i :: 0 <= i < |r| ==> r[i] == '%' || IsUpperHexDigit(r[i])
    ensures |units| == 1 ==> r == "%" + HexX2(units[0])
    ensures |units| == 2 ==> r == "%" + HexX2(units[0]) + "%" + HexX2(units[1])
  {
    if units == [] then [] else "%" + HexX2(units[0]) + EscapeUnits(units[1..])
  }

  /** An escape starts with '%' and a numeral of at least two digits; one byte escapes to exactly three characters. */
  lemma EscapeUnitsShape(units: seq<nat>)
    requires 1 <= |units|
    ensures var r := EscapeUnits(units); 3 <= |r| && r[0] == '%' && IsUpperHexDigit(r[1]) && IsUpperHexDigit(r[2])
    ensures |units| == 1 && units[0] < 0x100 ==>
      var r := EscapeUnits(units);
      && |r| == 3 && IsUpperHexDigit(r[1]) && IsUpperHexDigit(r[2])
      && 16 * DigitValue(r[1]) + DigitValue(r[2]) == units[0]
  {
    var h := HexX2(units[0]);
    var r := EscapeUnits(units);
    assert r[..1 + |h|] == "%" + h;
    if |units| == 1 && units[0] < 0x100 {
      assert units[1..] == [];
      assert EscapeUnits(units[1..]) == [];
      assert r == "%" + h;
      assert h[..1] == [h[0]];
    }
  }

  /** What HttpEncode appends for one character (Program.cs:214-223). */
  function EncodeChar(c: char): (r: string)
    ensures !ShouldEncode(c) ==> r == [c]
    ensures ShouldEncode(c) ==>
      && 3 <= |r| && r[0] == '%'
      && forall i :: 0 <= i < |r| ==> r[i] == '%' || IsUpperHexDigit(r[i])
    ensures ShouldEncode(c) && c as int < 0x100 ==>
      && |r| == 3 && IsUpperHexDigit(r[1]) && IsUpperHexDigit(r[2])
      && 16 * DigitValue(r[1]) + DigitValue(r[2]) == c as int
    ensures ShouldEncode(c) && c as int < 0x10000 ==> r == "%" + HexX2(c as int)
    ensures c as int >= 0x10000 ==>
      var u := Utf16Units(c); r == "%" + HexX2(u[0]) + "%" + HexX2(u[1])
  {
    if !ShouldEncode(c) then [c]
    else
      var units := Utf16Units(c);
      EscapeUnitsShape(units);
      EscapeUnits(units)
  }

  /** The string HttpEncode builds, one character at a time. */
  function Encode(s: string): string
  {
    if s == [] then [] else EncodeChar(s[0]) + Encode(s[1..])
  }

  lemma {:induction false} EncodeAppend(s: string, c: char)
    ensures Encode(s + [c]) == Encode(s) + EncodeChar(c)
  {
    if s == [] {
      assert [c][1..] == [];
    } else {
      assert (s + [c])[1..] == s[1..] + [c];
      EncodeAppend(s[1..], c);
    }
  }

  /** Encoding one more character of a prefix appends that character's encoding. */
  lemma EncodePrefix(s: string, i: nat)
    requires i < |s|
    ensures Encode(s[..i + 1]) == Encode(s[..i]) + EncodeChar(s[i])
  {
    assert s[..i + 1] == s[..i] + [s[i]];
    EncodeAppend(s[..i], s[i]);
  }

  /** HttpEncode (Program.cs:208-227): the StringBuilder loop. */
  method HttpEncode(inStr: string) returns (outStr: string)
    ensures outStr == Encode(inStr)
  {
    outStr := [];
    for i := 0 to |inStr|
      invariant outStr == Encode(inStr[..i])
    {
      EncodePrefix(inStr, i);
      outStr := outStr + EncodeChar(inStr[i]);
    }
    assert inStr[..|inStr|] == inStr;
  }

  /** Every output character is a character copied unchanged, '%' or an upper-case hex digit. */
  lemma {:induction false} EncodeAlphabet(s: string)
    ensures forall i :: 0 <= i < |Encode(s)| ==>
      var x := Encode(s)[i]; !ShouldEncode(x) || x == '%' || IsUpperHexDigit(x)
  {
    if s != [] {
      EncodeAlphabet(s[1..]);
      var head := EncodeChar(s[0]);
      forall i | 0 <= i < |Encode(s)|
        ensures var x := Encode(s)[i]; !ShouldEncode(x) || x == '%' || IsUpperHexDigit(x)
      {
        if i >= |head| {
          assert Encode(s)[i] == Encode(s[1..])[i - |head|];
        }
      }
    }
  }

  /** A string of characters that need no encoding is its own encoding. */
  lemma {:induction false} EncodeUnchanged(s: string)
    requires forall i :: 0 <= i < |s| ==> !ShouldEncode(s[i])
    ensures Encode(s) == s
  {
    if s != [] {
      EncodeUnchanged(s[1..]);
      assert s == [s[0]] + s[1..];
    }
  }

  /**
   * Percent-decoding: `%` followed by two hexadecimal digits becomes the
   * character with that code; every other character is kept.
   */
  function Decode(s: string): string
    decreases |s|
  {
    if s == [] then []
    else if 3 <= |s| && s[0] == '%' && IsHexDigit(s[1]) && IsHexDigit(s[2]) then
      [(16 * DigitValue(s[1]) + DigitValue(s[2])) as char] + Decode(s[3..])
    else [s[0]] + Decode(s[1..])
  }

  /** Decoding the encoding of a string whose characters are below U+0100 gives it back. */
  lemma {:induction false} DecodeEncode(s: string)
    requires forall i :: 0 <= i < |s| ==> s[i] as int < 0x100
    ensures Decode(Encode(s)) == s
  {
    if s != [] {
      var c := s[0];
      var head := EncodeChar(c);
      var rest := Encode(s[1..]);
      DecodeEncode(s[1..]);
      if ShouldEncode(c) {
        assert (head + rest)[3..] == rest;
      } else {
        assert c != '%';
        assert (head + rest)[1..] == rest;
      }
      assert s == [c] + s[1..];
    }
  }

  /** Encoding is injective on strings whose characters are below U+0100. */
  lemma EncodeInjective(s: string, t: string)
    requires forall i :: 0 <= i < |s| ==> s[i] as int < 0x100
    requires forall i :: 0 <= i < |t| ==> t[i] as int < 0x100
    requires Encode(s) == Encode(t)
    ensures s == t
  {
    DecodeEncode(s);
    DecodeEncode(t);
  }

  /** `X2` of U+20AC is four digits. */
  lemma HexX2Euro()
    ensures HexX2(0x20AC) == "20AC"
  {
    var h2 := Hex(0x2);
    assert h2 == "2";
    var h20 := Hex(0x20);
    assert h20 == h2 + [HexDigit(0)];
    var h20A := Hex(0x20A);
    assert h20A == h20 + [HexDigit(10)];
    assert Hex(0x20AC) == h20A + [HexDigit(12)];
  }

  /** The space escapes to "%20" and "AC" is copied. */
  lemma EncodeSpaceAC()
    ensures Encode(" AC") == "%20AC"
  {
    assert Hex(0x20) == Hex(0x2) + [HexDigit(0)];
    assert EncodeChar(' ') == "%20";
    assert Encode("AC")[..1] == "A" by { assert " AC"[1..] == "AC"; }
    assert Encode("AC") == "A" + Encode("C") by { assert "AC"[1..] == "C"; }
    assert Encode("C") == "C" + Encode("") by { assert "C"[1..] == ""; }
    assert " AC"[1..] == "AC";
  }

  /**
   * Above U+00FF the round trip fails in the source itself: `X2` prints four
   * digits for U+20AC, so "€" and " AC" share the encoding "%20AC", which
   * decodes to " AC".
   */
  lemma EuroCollides()
    ensures "\U{20AC}" != " AC"
    ensures Encode("\U{20AC}") == Encode(" AC") == "%20AC"
    ensures Decode(Encode("\U{20AC}")) == " AC"
  {
    EncodeEuro();
    EncodeSpaceAC();
    DecodeSpaceAC();
  }

  /** "€" escapes to '%' and the four digits of U+20AC. */
  lemma EncodeEuro()
    ensures Encode("\U{20AC}") == "%20AC"
  {
    HexX2Euro();
    assert Encode("\U{20AC}") == EncodeChar('\U{20AC}') + Encode("");
  }

  /** "%20" decodes to a space; "AC" is kept. */
  lemma DecodeSpaceAC()
    ensures Decode("%20AC") == " AC"
  {
    var e := "%20AC";
    assert Decode(e) == " " + Decode(e[3..]);
    assert e[3..] == "AC";
    assert Decode("AC") == "A" + Decode("C") by { assert "AC"[1..] == "C"; }
    assert Decode("C") == "C" + Decode("") by { assert "C"[1..] == ""; }
  }
}
