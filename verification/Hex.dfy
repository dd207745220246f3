/** Hexadecimal text: byte strings, and 256-bit numbers in any radix up to 36. */
module Hex {
  import opened Basics

  type Byte = b: nat | b < 256

  function DigitValue(c: char): Option<nat> {
    if '0' <= c <= '9' then Some((c - '0') as nat)
    else if 'a' <= c <= 'z' then Some((c - 'a') as nat + 10)
    else if 'A' <= c <= 'Z' then Some((c - 'A') as nat + 10)
    else None
  }

  function Digit(d: nat): (c: char)
    requires d < 36
    ensures DigitValue(c) == Some(d)
  {
    if d < 10 then '0' + d as char else 'a' + (d - 10) as char
  }

  // ---- Bytes ------------------------------------------------------------------------

  function Encode(bytes: seq<Byte>): string {
    if bytes == [] then "" else [Digit(bytes[0] / 16), Digit(bytes[0] % 16)] + Encode(bytes[1..])
  }

  /** Fails on an odd length and on any character that is not a hexadecimal digit; either case is accepted. */
  function Decode(s: string): Option<seq<Byte>> {
    if s == "" then Some([])
    else if |s| == 1 then None
    else
      match (DigitValue(s[0]), DigitValue(s[1]), Decode(s[2..]))
      case (Some(hi), Some(lo), Some(rest)) => if hi < 16 && lo < 16 then Some([16 * hi + lo] + rest) else None
      case _ => None
  }

  lemma {:induction false} DecodeEncode(bytes: seq<Byte>)
    ensures |Encode(bytes)| == 2 * |bytes|
    ensures Decode(Encode(bytes)) == Some(bytes)
  {
    if |bytes| > 0 {
      DecodeEncode(bytes[1..]);
      var hex := Encode(bytes);
      assert hex[0] == Digit(bytes[0] / 16) && hex[1] == Digit(bytes[0] % 16) && hex[2..] == Encode(bytes[1..]);
      assert [16 * (bytes[0] / 16) + bytes[0] % 16] + bytes[1..] == bytes;
    }
  }

  lemma EncodeInjective(a: seq<Byte>, b: seq<Byte>)
    ensures Encode(a) == Encode(b) <==> a == b
  {
    DecodeEncode(a);
    DecodeEncode(b);
  }

  // ---- Numbers ----------------------------------------------------------------------

  function Appended(high: nat, radix: nat, digit: nat): nat {
    high * radix + digit
  }

  /** Value of the digits so far times the radix plus the rest; underscores are skipped. */
  function ParseDigits(s: string, radix: nat): Option<nat>
    requires 2 <= radix <= 36
  {
    if s == "" then Some(0)
    else
      var n, c := |s| - 1, s[|s| - 1];
      match ParseDigits(s[..n], radix)
      case None => None
      case Some(high) =>
        if c == '_' then Some(high)
        else if DigitValue(c).Some? && DigitValue(c).value < radix then Some(Appended(high, radix, DigitValue(c).value))
        else None
  }

  function ParseU256(s: string, radix: nat): Option<nat>
    requires 2 <= radix <= 36
  {
    var v := ParseDigits(s, radix);
    if v.Some? && v.value < U256_LIMIT then v else None
  }

  /** The digits of `n`, without leading zeros. */
  function Print(n: nat, radix: nat): string
    requires 2 <= radix <= 36
    decreases n
  {
    if n < radix then [Digit(n)] else (Shrinks(n, radix); Print(n / radix, radix) + [Digit(n % radix)])
  }

  lemma Shrinks(n: nat, radix: nat)
    requires 2 <= radix <= n
    ensures 0 < n / radix < n && n == Appended(n / radix, radix, n % radix) && 0 <= n % radix < radix
  {}

  /** `{:x}`. */
  function LowerHex(n: nat): string {
    Print(n, 16)
  }

  /** `{:02x}`. */
  function LowerHex2(n: nat): string {
    if n < 16 then "0" + LowerHex(n) else LowerHex(n)
  }

  /** Parsing undoes printing, in every radix. */
  lemma {:induction false} ParsePrint(n: nat, radix: nat)
    requires 2 <= radix <= 36
    ensures ParseDigits(Print(n, radix), radix) == Some(n)
    ensures Print(n, radix) != "" && forall k :: 0 <= k < |Print(n, radix)| ==> DigitValue(Print(n, radix)[k]).Some?
    decreases n
  {
    var s := Print(n, radix);
    if n < radix {
      assert s[..0] == "";
    } else {
      Shrinks(n, radix);
      ParsePrint(n / radix, radix);
      assert s[..|s| - 1] == Print(n / radix, radix);
    }
  }

  /** A number has exactly the digits printing gives it: no leading zero, unless it is zero itself. */
  lemma {:induction false} PrintLeads(n: nat, radix: nat)
    requires 2 <= radix <= 36
    ensures Print(n, radix) != "" && (n > 0 ==> Print(n, radix)[0] != '0') && (n == 0 ==> Print(n, radix) == "0")
    decreases n
  {
    if n >= radix {
      Shrinks(n, radix);
      PrintLeads(n / radix, radix);
    }
  }

  /** Parsing undoes printing, for every 256-bit number; larger ones do not parse. */
  lemma ParsePrintU256(n: nat, radix: nat)
    requires 2 <= radix <= 36
    ensures ParseU256(Print(n, radix), radix) == if n < U256_LIMIT then Some(n) else None
  {
    ParsePrint(n, radix);
  }

  lemma ParseZeroDigit(d: nat)
    requires d < 16
    ensures ParseDigits(['0', Digit(d)], 16) == Some(d)
  {
    ParseDigitsStep("", '0', 16);
    ParseDigitsStep("" + ['0'], Digit(d), 16);
    assert "" + ['0'] + [Digit(d)] == ['0', Digit(d)];
  }

  /** A hexadecimal number printed with at least two digits parses back. */
  lemma ParseLowerHex2(n: nat)
    requires n < U256_LIMIT
    ensures ParseU256(LowerHex2(n), 16) == Some(n)
    ensures |LowerHex2(n)| >= 2 && DigitValue(LowerHex2(n)[0]).Some? && (|LowerHex2(n)| > 2 ==> LowerHex2(n)[0] != '0')
  {
    if n < 16 {
      ParseZeroDigit(n);
      assert LowerHex2(n) == ['0', Digit(n)];
    } else {
      ParsePrint(n, 16);
      PrintLeads(n, 16);
      TwoDigits(n);
    }
  }

  lemma TwoDigits(n: nat)
    requires n >= 16
    ensures |Print(n, 16)| >= 2
  {
    Shrinks(n, 16);
    PrintLeads(n / 16, 16);
  }

  // ---- Spelling ---------------------------------------------------------------------------

  /** Hexadecimal is written in lower case. */
  predicate IsLowerDigit(c: char) {
    '0' <= c <= '9' || 'a' <= c <= 'f'
  }

  /** Each byte is its two digits, the high one first, in lower case. */
  lemma {:induction false} EncodeDigits(bytes: seq<Byte>, k: nat)
    requires k < |bytes|
    ensures |Encode(bytes)| == 2 * |bytes|
    ensures IsLowerDigit(Encode(bytes)[2 * k]) && IsLowerDigit(Encode(bytes)[2 * k + 1])
    ensures DigitValue(Encode(bytes)[2 * k]) == Some(bytes[k] / 16) && DigitValue(Encode(bytes)[2 * k + 1]) == Some(bytes[k] % 16)
  {
    DecodeEncode(bytes);
    var hex := Encode(bytes);
    if k == 0 {
      assert hex[0] == Digit(bytes[0] / 16) && hex[1] == Digit(bytes[0] % 16);
    } else {
      EncodeDigits(bytes[1..], k - 1);
      assert hex[2..] == Encode(bytes[1..]);
      assert hex[2 * k] == hex[2..][2 * (k - 1)] && hex[2 * k + 1] == hex[2..][2 * (k - 1) + 1];
    }
  }

  /** Digits count from zero to nine and on through the letters of either case; nothing else is a digit. */
  lemma DigitValueIs(c: char)
    ensures DigitValue(c)
         == if 48 <= c as int <= 57 then Some(c as int - 48)
            else if 97 <= c as int <= 122 then Some(c as int - 87)
            else if 65 <= c as int <= 90 then Some(c as int - 55)
            else None
  {}

  /** Underscores are skipped, and every other digit counts times the radix. */
  lemma ParseDigitsStep(s: string, c: char, radix: nat)
    requires 2 <= radix <= 36 && ParseDigits(s, radix).Some?
    ensures ParseDigits(s + [c], radix)
         == if c == '_' then ParseDigits(s, radix)
            else if DigitValue(c).Some? && DigitValue(c).value < radix then Some(ParseDigits(s, radix).value * radix + DigitValue(c).value)
            else None
  {
    assert (s + [c])[..|s|] == s;
  }
}
