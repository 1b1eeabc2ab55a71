/**
 * The pieces of Python's string formatting the decoder relies on: `str(n)` / `'{}'.format(n)`
 * (decimal), `'{:X}'` (upper-case hexadecimal), `bin(n)` (binary) and `','.join(...)`.
 */
module Text {

  /** The digit character for d in base 16 or below, upper-case as `'{:X}'` prints it. */
  function DigitChar(d: nat): (c: char)
    requires d < 16
    ensures IsDigit(c, 16)
  {
    if d < 10 then ('0' as int + d) as char else ('A' as int + d - 10) as char
  }

  predicate IsDigit(c: char, base: nat)
  {
    ('0' <= c <= '9' && (c as int - '0' as int) < base)
    || ('A' <= c <= 'F' && (c as int - 'A' as int + 10) < base)
  }

  function DigitValue(c: char, base: nat): (d: nat)
    requires IsDigit(c, base)
    ensures d < base
  {
    if '0' <= c <= '9' then c as int - '0' as int else c as int - 'A' as int + 10
  }

  predicate AllDigits(s: string, base: nat)
  {
    forall i :: 0 <= i < |s| ==> IsDigit(s[i], base)
  }

  /** The bases the decoder prints in: `bin`, `str` and `'{:X}'`. */
  predicate IsBase(base: nat)
  {
    base == 2 || base == 10 || base == 16
  }

  /** The numeral of n in the given base, most significant digit first, without leading zeros. */
  function Numeral(n: nat, base: nat): (s: string)
    requires IsBase(base)
    ensures 1 <= |s| && AllDigits(s, base)
    ensures s[0] == '0' ==> n == 0
    decreases n
  {
    if n < base then [DigitChar(n)]
    else DivModBase(n, base); Numeral(n / base, base) + [DigitChar(n % base)]
  }

  /** Reads a numeral back (Horner's rule from the last digit). */
  function NumeralValue(s: string, base: nat): nat
    requires AllDigits(s, base)
  {
    if s == [] then 0
    else base * NumeralValue(s[..|s| - 1], base) + DigitValue(s[|s| - 1], base)
  }

  lemma DivModBase(n: nat, base: nat)
    requires IsBase(base)
    ensures n == base * (n / base) + n % base && n % base < base
    ensures n >= base ==> n / base >= 1
  {
    if base == 2 {
    } else if base == 10 {
    } else {
    }
  }

  lemma DigitRoundTrip(d: nat, base: nat)
    requires d < base <= 16
    ensures DigitValue(DigitChar(d), base) == d
  {
  }

  /** One more digit multiplies the value read so far by the base and adds the digit. */
  lemma NumeralValueSnoc(s: string, c: char, base: nat)
    requires AllDigits(s, base) && IsDigit(c, base)
    ensures AllDigits(s + [c], base)
    ensures NumeralValue(s + [c], base) == base * NumeralValue(s, base) + DigitValue(c, base)
  {
    assert (s + [c])[..|s|] == s;
  }

  /** A number below the base prints as one digit that reads back as the number. */
  lemma NumeralDigit(n: nat, base: nat)
    requires IsBase(base) && n < base
    ensures NumeralValue(Numeral(n, base), base) == n
  {
    assert Numeral(n, base)[..0] == [];
    DigitRoundTrip(n, base);
  }

  /** If the quotient's numeral reads back as the quotient, the numeral of n reads back as n. */
  lemma NumeralStep(n: nat, base: nat)
    requires IsBase(base) && n >= base
    requires NumeralValue(Numeral(n / base, base), base) == n / base
    ensures NumeralValue(Numeral(n, base), base) == n
  {
    DivModBase(n, base);
    NumeralValueSnoc(Numeral(n / base, base), DigitChar(n % base), base);
    DigitRoundTrip(n % base, base);
  }

  /** Printing a number and reading it back gives the number. */
  lemma {:induction false} NumeralRoundTrip(n: nat, base: nat)
    requires IsBase(base)
    ensures NumeralValue(Numeral(n, base), base) == n
    decreases n
  {
    if n < base {
      NumeralDigit(n, base);
    } else {
      NumeralRoundTrip(n / base, base);
      NumeralStep(n, base);
    }
  }

  /** A leading zero does not change the value a numeral denotes. */
  lemma {:induction false} LeadingZero(s: string, base: nat)
    requires IsBase(base) && AllDigits(s, base)
    ensures AllDigits("0" + s, base) && NumeralValue("0" + s, base) == NumeralValue(s, base)
  {
    if s != [] {
      assert ("0" + s)[..|s|] == "0" + s[..|s| - 1];
      LeadingZero(s[..|s| - 1], base);
    }
  }

  /** `str(n)`, also what `'{}'.format(n)` prints for a non-negative integer. */
  function Dec(n: nat): string
  {
    Numeral(n, 10)
  }

  /** `','.join(xs)`. */
  function Join(xs: seq<string>): string
  {
    if |xs| == 0 then "" else if |xs| == 1 then xs[0] else xs[0] + "," + Join(xs[1..])
  }

  /** Joining entries that contain no comma puts exactly one comma between neighbours. */
  lemma {:induction false} JoinCommas(xs: seq<string>)
    requires forall i :: 0 <= i < |xs| ==> ',' !in xs[i]
    ensures |xs| > 0 ==> multiset(Join(xs))[','] == |xs| - 1
    ensures xs == [] ==> Join(xs) == ""
  {
    if |xs| > 1 {
      JoinCommas(xs[1..]);
      assert multiset(xs[0] + "," + Join(xs[1..])) == multiset(xs[0]) + multiset{','} + multiset(Join(xs[1..]));
      assert multiset(xs[0])[','] == 0;
    } else if |xs| == 1 {
      assert multiset(xs[0])[','] == 0;
    }
  }

  /** Joining non-empty entries gives the empty string only for the empty list. */
  lemma {:induction false} JoinEmpty(xs: seq<string>)
    requires forall i :: 0 <= i < |xs| ==> xs[i] != ""
    ensures Join(xs) == "" <==> xs == []
  {
    if |xs| > 1 {
      assert |Join(xs)| >= |xs[0]| > 0;
    }
  }
}
