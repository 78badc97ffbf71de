/**
 * The `{:#010x}` format spec used to name dump files: "0x" followed by the
 * lowercase hexadecimal digits of the value, zero-padded so that the whole
 * text is at least 10 characters wide (8 digits after the prefix). Wider
 * values are never truncated.
 *
 * `ParseHex` is the reading direction; the lemmas below show that the
 * format is exactly 10 characters wide below 2^32 and that it can be read
 * back, so a formatted value identifies the value it came from.
 */
module HexFormat {

  const Word: nat := 0x1_0000_0000

  predicate IsHexDigit(c: char) {
    ('0' <= c <= '9') || ('a' <= c <= 'f')
  }

  predicate AllHexDigits(s: string) {
    forall i :: 0 <= i < |s| ==> IsHexDigit(s[i])
  }

  /** The lowercase digit for a value below 16. */
  function DigitChar(d: nat): (c: char)
    requires d < 16
    ensures IsHexDigit(c)
  {
    if d < 10 then ('0' as int + d) as char else ('a' as int + d - 10) as char
  }

  /** The value of one lowercase hexadecimal digit. */
  function DigitValue(c: char): (d: nat)
    requires IsHexDigit(c)
    ensures d < 16 && DigitChar(d) == c
  {
    if c <= '9' then c as int - '0' as int else c as int - 'a' as int + 10
  }

  /** The shortest digit string of `v` (what `hex` prints after "0x"). */
  function HexDigits(v: nat): (r: string)
    ensures 1 <= |r|
    ensures AllHexDigits(r)
    ensures |r| > 1 ==> r[0] != '0'
    decreases v
  {
    if v < 16 then [DigitChar(v)] else HexDigits(v / 16) + [DigitChar(v % 16)]
  }

  function Zeros(n: nat): (r: string)
  {
    seq(n, _ => '0')
  }

  /** Left-pads `s` with '0' up to `width` characters. */
  function PadLeft(s: string, width: nat): (r: string)
  {
    if |s| >= width then s else Zeros(width - |s|) + s
  }

  /** Python's `"{:#010x}".format(v)` for a non-negative `v`. */
  function Hex010(v: nat): (r: string)
  {
    "0x" + PadLeft(HexDigits(v), 8)
  }

  /** Reads a string of hexadecimal digits, most significant first. */
  function ParseHex(s: string): (v: nat)
    requires AllHexDigits(s)
  {
    if s == [] then 0 else ParseHex(s[..|s| - 1]) * 16 + DigitValue(s[|s| - 1])
  }

  function Pow16(n: nat): (p: nat)
    ensures p >= 1
  {
    if n == 0 then 1 else 16 * Pow16(n - 1)
  }

  /** Reading back the digits of `v` gives `v`. */
  lemma {:induction false} ParseHexDigits(v: nat)
    ensures ParseHex(HexDigits(v)) == v
    decreases v
  {
    if v >= 16 {
      var prefix := HexDigits(v / 16);
      var s := prefix + [DigitChar(v % 16)];
      assert s[..|s| - 1] == prefix;
      ParseHexDigits(v / 16);
    }
  }

  /** Leading zeros do not change the value read. */
  lemma {:induction false} ParseHexLeadingZeros(n: nat, s: string)
    requires AllHexDigits(s)
    ensures AllHexDigits(Zeros(n) + s)
    ensures ParseHex(Zeros(n) + s) == ParseHex(s)
    decreases |s|
  {
    var t := Zeros(n) + s;
    assert forall i :: 0 <= i < |t| ==> t[i] == if i < n then '0' else s[i - n];
    if s == [] {
      assert t == Zeros(n);
      ParseHexZeros(n);
    } else {
      assert t[..|t| - 1] == Zeros(n) + s[..|s| - 1];
      ParseHexLeadingZeros(n, s[..|s| - 1]);
    }
  }

  lemma {:induction false} ParseHexZeros(n: nat)
    ensures AllHexDigits(Zeros(n))
    ensures ParseHex(Zeros(n)) == 0
  {
    if n > 0 {
      assert Zeros(n)[..n - 1] == Zeros(n - 1);
      ParseHexZeros(n - 1);
    }
  }

  /** `v` has at most `n` digits exactly when it is below 16^n. */
  lemma {:induction false} HexDigitsLength(v: nat, n: nat)
    requires n >= 1
    ensures |HexDigits(v)| <= n <==> v < Pow16(n)
    decreases v
  {
    if v >= 16 {
      if n == 1 {
        assert Pow16(1) == 16;
      } else {
        HexDigitsLength(v / 16, n - 1);
        assert v / 16 < Pow16(n - 1) <==> v < 16 * Pow16(n - 1);
      }
    } else {
      Pow16AtLeast16(n);
    }
  }

  lemma {:induction false} Pow16AtLeast16(n: nat)
    requires n >= 1
    ensures Pow16(n) >= 16
  {
    if n > 1 {
      Pow16AtLeast16(n - 1);
    }
  }

  /**
   * The formatted text starts with "0x", is followed only by lowercase hex
   * digits, and those digits read back to `v`.
   */
  lemma Hex010RoundTrip(v: nat)
    ensures |Hex010(v)| >= 10
    ensures Hex010(v)[..2] == "0x"
    ensures AllHexDigits(Hex010(v)[2..])
    ensures ParseHex(Hex010(v)[2..]) == v
  {
    var digits := HexDigits(v);
    var padded := PadLeft(digits, 8);
    assert Hex010(v)[2..] == padded;
    ParseHexDigits(v);
    if |digits| < 8 {
      ParseHexLeadingZeros(8 - |digits|, digits);
    }
  }

  /** The text is exactly 10 characters wide precisely for 32-bit values. */
  lemma Hex010Width(v: nat)
    ensures |Hex010(v)| == 10 <==> v < Word
  {
    HexDigitsLength(v, 8);
    assert Pow16(8) == Word;
  }

  /** Different values never share a formatted text. */
  lemma Hex010Injective(v: nat, w: nat)
    requires Hex010(v) == Hex010(w)
    ensures v == w
  {
    Hex010RoundTrip(v);
    Hex010RoundTrip(w);
  }
}
