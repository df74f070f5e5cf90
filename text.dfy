/**
 * Bytes and the few text encodings the orchestration code relies on:
 * ASCII encoding of keys, well-formedness of UTF-8 (what Python's
 * `bytes.decode("utf-8")` accepts), decimal rendering of integers
 * (`str(int)`, f-string interpolation) and zero-padded fields (`strftime`).
 */
module Text {

  newtype byte = b: int | 0 <= b < 256

  // ---------------------------------------------------------------- ASCII

  predicate IsAsciiString(s: string) {
    forall i :: 0 <= i < |s| ==> s[i] as int < 128
  }

  predicate IsAsciiBytes(b: seq<byte>) {
    forall i :: 0 <= i < |b| ==> b[i] < 128
  }

  /** The UTF-8 (here: ASCII) encoding of an ASCII string, `s.encode("utf-8")`. */
  function AsciiBytes(s: string): (b: seq<byte>)
    requires IsAsciiString(s)
    ensures |b| == |s| && IsAsciiBytes(b)
  {
    seq(|s|, i requires 0 <= i < |s| => s[i] as int as byte)
  }

  /** Distinct ASCII strings have distinct encodings. */
  lemma AsciiBytesInjective(s: string, t: string)
    requires IsAsciiString(s) && IsAsciiString(t)
    ensures AsciiBytes(s) == AsciiBytes(t) ==> s == t
  {
    if AsciiBytes(s) == AsciiBytes(t) {
      assert |s| == |t|;
      forall i | 0 <= i < |s| ensures s[i] == t[i] {
        assert AsciiBytes(s)[i] == AsciiBytes(t)[i];
      }
    }
  }

  // ---------------------------------------------------------------- UTF-8

  predicate IsContinuation(b: byte) { 0x80 <= b <= 0xBF }

  /**
   * The length of the well-formed UTF-8 byte sequence at the head of `s`,
   * or 0 when its head is ill-formed (Table 3-7 of the Unicode Standard,
   * which is what Python's strict UTF-8 decoder accepts: no overlong forms,
   * no surrogates, nothing above U+10FFFF).
   */
  function HeadLength(s: seq<byte>): (n: nat)
    requires |s| > 0
    ensures n <= |s|
  {
    var b0 := s[0];
    if b0 <= 0x7F then 1
    else if 0xC2 <= b0 <= 0xDF then
      (if |s| >= 2 && IsContinuation(s[1]) then 2 else 0)
    else if b0 == 0xE0 then
      (if |s| >= 3 && 0xA0 <= s[1] <= 0xBF && IsContinuation(s[2]) then 3 else 0)
    else if 0xE1 <= b0 <= 0xEC || 0xEE <= b0 <= 0xEF then
      (if |s| >= 3 && IsContinuation(s[1]) && IsContinuation(s[2]) then 3 else 0)
    else if b0 == 0xED then
      (if |s| >= 3 && 0x80 <= s[1] <= 0x9F && IsContinuation(s[2]) then 3 else 0)
    else if b0 == 0xF0 then
      (if |s| >= 4 && 0x90 <= s[1] <= 0xBF && IsContinuation(s[2]) && IsContinuation(s[3]) then 4 else 0)
    else if 0xF1 <= b0 <= 0xF3 then
      (if |s| >= 4 && IsContinuation(s[1]) && IsContinuation(s[2]) && IsContinuation(s[3]) then 4 else 0)
    else if b0 == 0xF4 then
      (if |s| >= 4 && 0x80 <= s[1] <= 0x8F && IsContinuation(s[2]) && IsContinuation(s[3]) then 4 else 0)
    else 0
  }

  /** `s.decode("utf-8")` succeeds exactly when this holds. */
  predicate ValidUtf8(s: seq<byte>)
    decreases |s|
  {
    |s| == 0 || (HeadLength(s) > 0 && ValidUtf8(s[HeadLength(s)..]))
  }

  /** Every ASCII byte string is well-formed UTF-8. */
  lemma {:induction false} AsciiIsValidUtf8(b: seq<byte>)
    requires IsAsciiBytes(b)
    ensures ValidUtf8(b)
  {
    if |b| > 0 {
      assert HeadLength(b) == 1;
      assert IsAsciiBytes(b[1..]) by {
        forall i | 0 <= i < |b[1..]| ensures b[1..][i] < 128 {
          assert b[1..][i] == b[i + 1];
        }
      }
      AsciiIsValidUtf8(b[1..]);
    }
  }

  // ------------------------------------------------------- decimal digits

  predicate IsDigit(c: char) { '0' <= c <= '9' }

  predicate AllDigits(s: string) {
    forall i :: 0 <= i < |s| ==> IsDigit(s[i])
  }

  function DigitChar(d: nat): (c: char)
    requires d < 10
    ensures IsDigit(c)
  {
    ('0' as int + d) as char
  }

  /** The number a string of decimal digits denotes (most significant first). */
  function DigitsValue(s: string): (v: nat)
    requires AllDigits(s)
  {
    if s == [] then 0
    else DigitsValue(s[..|s| - 1]) * 10 + (s[|s| - 1] as int - '0' as int)
  }

  /** Python's `str(n)` for a natural number: no leading zeros. */
  function NatString(n: nat): (s: string)
    ensures |s| >= 1 && AllDigits(s)
    ensures |s| > 1 ==> s[0] != '0'
  {
    if n < 10 then [DigitChar(n)] else NatString(n / 10) + [DigitChar(n % 10)]
  }

  /** Python's `str(n)` (and `f"{n}"`) for an integer. */
  function IntString(n: int): (s: string)
    ensures |s| >= 1
    ensures forall i :: 0 <= i < |s| ==> IsDigit(s[i]) || (i == 0 && s[i] == '-')
    ensures n >= 0 <==> IsDigit(s[0])
  {
    if n < 0 then "-" + NatString(-n) else NatString(n)
  }

  /** Reading back the digits that `NatString` writes gives the number again. */
  lemma {:induction false} NatStringValue(n: nat)
    ensures DigitsValue(NatString(n)) == n
  {
    if n >= 10 {
      NatStringValue(n / 10);
      var s := NatString(n);
      assert s[..|s| - 1] == NatString(n / 10);
    }
  }

  /** Different naturals are rendered as different strings. */
  lemma NatStringInjective(a: nat, b: nat)
    ensures NatString(a) == NatString(b) ==> a == b
  {
    NatStringValue(a);
    NatStringValue(b);
  }

  /** Different integers are rendered as different strings. */
  lemma IntStringInjective(a: int, b: int)
    ensures IntString(a) == IntString(b) ==> a == b
  {
    if a < 0 && b < 0 {
      var s, t := IntString(a), IntString(b);
      assert s[1..] == NatString(-a) && t[1..] == NatString(-b);
      NatStringInjective(-a, -b);
    } else if a >= 0 && b >= 0 {
      NatStringInjective(a, b);
    }
  }

  function Pow10(k: nat): (p: nat)
    ensures p >= 1
  {
    if k == 0 then 1 else 10 * Pow10(k - 1)
  }

  /** The last `width` decimal digits of `n`, zero-padded (`%02d`, `%06d`). */
  function Padded(n: nat, width: nat): (s: string)
    ensures |s| == width && AllDigits(s)
  {
    if width == 0 then [] else Padded(n / 10, width - 1) + [DigitChar(n % 10)]
  }

  /** A padded field below 10^width denotes the number itself. */
  lemma {:induction false} PaddedValue(n: nat, width: nat)
    requires n < Pow10(width)
    ensures DigitsValue(Padded(n, width)) == n
  {
    if width > 0 {
      PaddedValue(n / 10, width - 1);
      var s := Padded(n, width);
      assert s[..|s| - 1] == Padded(n / 10, width - 1);
    }
  }

  /** Dropping the last three digits of a six-digit field is division by 1000 (`%f` then `[:-3]`). */
  lemma PaddedDropThree(n: nat)
    ensures Padded(n, 6)[..3] == Padded(n / 1000, 3)
  {
    var q := n / 10 / 10 / 10;
    assert Padded(n, 6) == Padded(n / 10, 5) + [DigitChar(n % 10)];
    assert Padded(n / 10, 5) == Padded(n / 10 / 10, 4) + [DigitChar(n / 10 % 10)];
    assert Padded(n / 10 / 10, 4) == Padded(q, 3) + [DigitChar(n / 10 / 10 % 10)];
    assert Padded(n, 6)[..3] == Padded(q, 3);
    assert q == n / 1000;
  }
}
