/** Digits and positional numerals. */
module Numerals {
  predicate DecDigit(c: char) { '0' <= c <= '9' }

  predicate HexDigit(c: char) { DecDigit(c) || 'a' <= c <= 'f' || 'A' <= c <= 'F' }

  function DigitValue(c: char): (v: int)
    requires HexDigit(c)
    ensures 0 <= v < 16 && (DecDigit(c) ==> v < 10)
  {
    if DecDigit(c) then c as int - '0' as int
    else if 'a' <= c <= 'f' then c as int - 'a' as int + 10
    else c as int - 'A' as int + 10
  }

  predicate AllHex(s: string) { forall i :: 0 <= i < |s| ==> HexDigit(s[i]) }

  function Value(s: string, radix: int): (v: int)
    requires AllHex(s) && radix >= 1
    ensures v >= 0
  {
    if s == "" then 0 else Value(s[..|s| - 1], radix) * radix + DigitValue(s[|s| - 1])
  }

  function Digit(v: int): (c: char)
    requires 0 <= v < 16
    ensures HexDigit(c) && DigitValue(c) == v && (v < 10 ==> DecDigit(c))
  {
    if v < 10 then (v + '0' as int) as char else (v - 10 + 'a' as int) as char
  }

  function Over(n: nat, radix: nat): (q: nat)
    requires radix == 10 || radix == 16
    ensures n >= radix ==> q < n
    ensures 0 <= n - q * radix < radix
  {
    if radix == 10 then n / 10 else n / 16
  }

  function Numeral(n: nat, radix: nat): (s: string)
    requires radix == 10 || radix == 16
    ensures s != "" && AllHex(s) && (radix == 10 ==> forall i :: 0 <= i < |s| ==> DecDigit(s[i]))
  {
    if n < radix then [Digit(n)] else Numeral(Over(n, radix), radix) + [Digit(n - Over(n, radix) * radix)]
  }

  lemma {:induction false} NumeralValue(n: nat, radix: nat)
    requires radix == 10 || radix == 16
    ensures Value(Numeral(n, radix), radix) == n
  {
    hide Over;
    var s := Numeral(n, radix);
    if n < radix {
      assert s[..|s| - 1] == "";
    } else {
      NumeralValue(Over(n, radix), radix);
      assert s[..|s| - 1] == Numeral(Over(n, radix), radix);
    }
  }

  lemma NumeralLengths(n: nat)
    ensures n < 256 ==> |Numeral(n, 10)| <= 3
    ensures n < 65536 ==> |Numeral(n, 16)| <= 4
  {
    hide Numeral;
    NumeralShrinks(n, 10);
    NumeralShrinks(Over(n, 10), 10);
    NumeralShrinks(Over(Over(n, 10), 10), 10);
    NumeralShrinks(n, 16);
    NumeralShrinks(Over(n, 16), 16);
    NumeralShrinks(Over(Over(n, 16), 16), 16);
    NumeralShrinks(Over(Over(Over(n, 16), 16), 16), 16);
  }

  lemma NumeralShrinks(n: nat, radix: nat)
    requires radix == 10 || radix == 16
    ensures |Numeral(n, radix)| == if n < radix then 1 else 1 + |Numeral(Over(n, radix), radix)|
  {
  }
}
