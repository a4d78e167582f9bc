/**
 * The few Foundation string services the cron model relies on:
 * `components(separatedBy:)`, `CharacterSet.decimalDigits`, `CharacterSet.whitespaces`,
 * `Int(String)` on a digit string, and `String(format: "%d")` / `String(format: "%02d")`.
 */
module Strings {

  // ---------------------------------------------------------------------------
  // Digits and decimal numerals
  // ---------------------------------------------------------------------------

  /** `CharacterSet.decimalDigits`, restricted to ASCII. */
  predicate IsDigit(c: char) {
    '0' <= c <= '9'
  }

  predicate AllDigits(s: string) {
    forall i :: 0 <= i < |s| ==> IsDigit(s[i])
  }

  /** `String.isNumber`: not empty and no character outside the decimal digits. */
  predicate IsNumber(s: string) {
    |s| > 0 && AllDigits(s)
  }

  function DigitValue(c: char): nat
    requires IsDigit(c)
  {
    (c as int) - ('0' as int)
  }

  function DigitChar(d: nat): (c: char)
    requires d < 10
    ensures IsDigit(c) && DigitValue(c) == d
  {
    (('0' as int) + d) as char
  }

  /** The number a string of decimal digits denotes (the empty string denotes 0). */
  function DigitsValue(s: string): nat
    requires AllDigits(s)
    decreases |s|
  {
    if s == [] then 0 else DigitsValue(s[..|s| - 1]) * 10 + DigitValue(s[|s| - 1])
  }

  /** The shortest decimal numeral of `n`. */
  function NatToDecimal(n: nat): (s: string)
    ensures IsNumber(s) && DigitsValue(s) == n
    ensures s[0] == '0' ==> n == 0 && |s| == 1
    ensures |s| == 1 <==> n < 10
    ensures n < 100 ==> |s| <= 2
    decreases n
  {
    if n < 10 then [DigitChar(n)]
    else
      var prefix := NatToDecimal(n / 10);
      var s := prefix + [DigitChar(n % 10)];
      assert s[..|s| - 1] == prefix;
      s
  }

  /** A leading `0` does not change the number a digit string denotes. */
  lemma {:induction false} LeadingZeroIgnored(s: string)
    requires AllDigits(s)
    ensures AllDigits("0" + s) && DigitsValue("0" + s) == DigitsValue(s)
    decreases |s|
  {
    var z := "0" + s;
    assert AllDigits(z) by {
      forall i | 0 <= i < |z| ensures IsDigit(z[i]) {
        if i > 0 { assert z[i] == s[i - 1]; }
      }
    }
    if s != [] {
      var init := s[..|s| - 1];
      assert z[..|z| - 1] == "0" + init;
      assert z[|z| - 1] == s[|s| - 1];
      LeadingZeroIgnored(init);
    }
  }

  /** 2^31: the first integer a 32-bit C `int` cannot hold. */
  const Int32Limit: int := 0x8000_0000

  /**
   * The C `int` that `%d` and `%02d` read when handed a Swift `Int`: its low 32 bits,
   * as a two's-complement number.
   */
  function CInt(n: int): (w: int)
    ensures -Int32Limit <= w < Int32Limit
    ensures (n - w) % (2 * Int32Limit) == 0
    ensures -Int32Limit <= n < Int32Limit ==> w == n
  {
    var low := n % (2 * Int32Limit);
    if low < Int32Limit then low else low - 2 * Int32Limit
  }

  /** Values 2^32 apart are the same C `int`. */
  lemma CIntPeriodic(n: int)
    ensures CInt(n + 2 * Int32Limit) == CInt(n)
  {
    assert (n + 2 * Int32Limit) % (2 * Int32Limit) == n % (2 * Int32Limit);
  }

  /** `String(format: "%d", n)`: an optional minus sign, then the shortest numeral of `CInt(n)`. */
  function Decimal(n: int): (s: string)
    ensures CInt(n) >= 0 ==> IsNumber(s) && DigitsValue(s) == CInt(n)
    ensures 0 <= n < Int32Limit ==> IsNumber(s) && DigitsValue(s) == n
    ensures CInt(n) >= 0 && s[0] == '0' ==> |s| == 1
    ensures CInt(n) < 0 ==> |s| >= 2 && s[0] == '-'
    ensures forall i :: 0 <= i < |s| ==> IsDigit(s[i]) || s[i] == '-'
  {
    if 0 <= n < Int32Limit then NatToDecimal(n)
    else
      var w := CInt(n);
      if w < 0 then "-" + NatToDecimal(-w) else NatToDecimal(w)
  }

  /** `String(format: "%02d", n)`: as `Decimal`, padded on the left with `0` to two characters. */
  function ZeroPadded(n: int): (s: string)
    ensures CInt(n) >= 0 ==> IsNumber(s) && DigitsValue(s) == CInt(n)
    ensures 0 <= n < Int32Limit ==> IsNumber(s) && DigitsValue(s) == n
    ensures |s| >= 2
    ensures 0 <= CInt(n) < 100 ==> |s| == 2
    ensures forall i :: 0 <= i < |s| ==> IsDigit(s[i]) || s[i] == '-'
  {
    if 0 <= n < 10 then
      LeadingZeroIgnored(NatToDecimal(n));
      "0" + NatToDecimal(n)
    else if 0 <= n < Int32Limit then NatToDecimal(n)
    else
      var w := CInt(n);
      if 0 <= w < 10 then
        LeadingZeroIgnored(NatToDecimal(w));
        "0" + NatToDecimal(w)
      else
        Decimal(n)
  }

  // ---------------------------------------------------------------------------
  // Splitting at separator characters
  // ---------------------------------------------------------------------------

  /** `CharacterSet.whitespaces`: the Unicode space separators (category Zs) and TAB. */
  predicate IsWhitespace(c: char) {
    var u := c as int;
    u == 0x09 || u == 0x20 || u == 0xA0 || u == 0x1680 || 0x2000 <= u <= 0x200A
    || u == 0x202F || u == 0x205F || u == 0x3000
  }

  predicate IsColon(c: char) {
    c == ':'
  }

  /** No character of `s` is a separator. */
  predicate NoneIn(s: string, isSep: char -> bool) {
    forall i :: 0 <= i < |s| ==> !isSep(s[i])
  }

  /** How many separator characters `s` holds. */
  function Count(s: string, isSep: char -> bool): nat
    decreases |s|
  {
    if s == [] then 0 else (if isSep(s[0]) then 1 else 0) + Count(s[1..], isSep)
  }

  /** The separator characters of `s`, in the order they occur. */
  function Separators(s: string, isSep: char -> bool): (seps: string)
    ensures |seps| == Count(s, isSep)
    ensures forall i :: 0 <= i < |seps| ==> isSep(seps[i])
    decreases |s|
  {
    if s == [] then []
    else if isSep(s[0]) then [s[0]] + Separators(s[1..], isSep)
    else Separators(s[1..], isSep)
  }

  /** The pieces with the given separator characters put back between them, in order. */
  function Interleave(parts: seq<string>, seps: string): string
    requires |parts| == |seps| + 1
    decreases |seps|
  {
    if seps == [] then parts[0] else parts[0] + [seps[0]] + Interleave(parts[1..], seps[1..])
  }

  /**
   * `components(separatedBy:)` with a character set (or a one-character string):
   * cut at every separator, keeping the empty pieces between adjacent separators
   * and at either end.
   */
  function Split(s: string, isSep: char -> bool): (parts: seq<string>)
    ensures |parts| == Count(s, isSep) + 1
    ensures forall i :: 0 <= i < |parts| ==> NoneIn(parts[i], isSep)
    decreases |s|
  {
    if s == [] then [""]
    else
      var rest := Split(s[1..], isSep);
      if isSep(s[0]) then [""] + rest
      else
        var first := [s[0]] + rest[0];
        assert NoneIn(first, isSep) by {
          forall i | 0 <= i < |first| ensures !isSep(first[i]) {
            if i > 0 { assert first[i] == rest[0][i - 1]; }
          }
        }
        [first] + rest[1..]
  }

  /** The pieces joined with one separator between each two: the inverse of `Split`. */
  function Join(parts: seq<string>, sep: char): string
    requires |parts| >= 1
    decreases |parts|
  {
    if |parts| == 1 then parts[0] else parts[0] + [sep] + Join(parts[1..], sep)
  }

  lemma {:induction false} SplitNoSeparator(s: string, isSep: char -> bool)
    requires NoneIn(s, isSep)
    ensures Split(s, isSep) == [s]
    decreases |s|
  {
    if s != [] {
      SplitNoSeparator(s[1..], isSep);
      assert [s[0]] + s[1..] == s;
    }
  }

  lemma {:induction false} SplitAfterToken(a: string, c: char, b: string, isSep: char -> bool)
    requires NoneIn(a, isSep) && isSep(c)
    ensures Split(a + [c] + b, isSep) == [a] + Split(b, isSep)
    decreases |a|
  {
    var s := a + [c] + b;
    if a == [] {
      assert s[1..] == b;
    } else {
      assert s[1..] == a[1..] + [c] + b;
      SplitAfterToken(a[1..], c, b, isSep);
      assert [a[0]] + a[1..] == a;
    }
  }

  /**
   * The pieces of `Split` are the text between the separators: putting the input's
   * own separator characters back between them, in order, gives the input.
   */
  lemma {:induction false} SplitRejoin(s: string, isSep: char -> bool)
    ensures Interleave(Split(s, isSep), Separators(s, isSep)) == s
    decreases |s|
  {
    if s != [] {
      var rest := Split(s[1..], isSep);
      SplitRejoin(s[1..], isSep);
      if isSep(s[0]) {
        assert ([""] + rest)[1..] == rest;
      } else {
        var parts := [[s[0]] + rest[0]] + rest[1..];
        assert parts[1..] == rest[1..];
      }
      assert [s[0]] + s[1..] == s;
    }
  }

  /** Interleaving with a run of one repeated separator is joining with it. */
  lemma {:induction false} InterleaveOneSeparator(parts: seq<string>, seps: string, sep: char)
    requires |parts| == |seps| + 1
    requires forall i :: 0 <= i < |seps| ==> seps[i] == sep
    ensures Interleave(parts, seps) == Join(parts, sep)
    decreases |seps|
  {
    if seps != [] {
      InterleaveOneSeparator(parts[1..], seps[1..], sep);
    }
  }

  /** Cutting at `:` and joining the pieces with `:` gives the input back. */
  lemma ColonSplitRejoin(s: string)
    ensures Join(Split(s, IsColon), ':') == s
  {
    SplitRejoin(s, IsColon);
    InterleaveOneSeparator(Split(s, IsColon), Separators(s, IsColon), ':');
  }

  /** Joining separator-free pieces and splitting the result gives the pieces back. */
  lemma {:induction false} SplitJoin(parts: seq<string>, sep: char, isSep: char -> bool)
    requires |parts| >= 1 && isSep(sep)
    requires forall i :: 0 <= i < |parts| ==> NoneIn(parts[i], isSep)
    ensures Split(Join(parts, sep), isSep) == parts
    decreases |parts|
  {
    if |parts| == 1 {
      SplitNoSeparator(parts[0], isSep);
    } else {
      SplitJoin(parts[1..], sep, isSep);
      SplitAfterToken(parts[0], sep, Join(parts[1..], sep), isSep);
      assert [parts[0]] + parts[1..] == parts;
    }
  }
}
