/**
 * The value formatters of decoders/ad5592r/lists.py: each turns the numeric value of a
 * register field into the text shown after the field's name.
 */
module Formatters {
  import opened Seqs
  import opened Bits
  import opened Text

  /** `disabled_enabled`: a flag bit shown as a word. */
  function DisabledEnabled(v: nat): (s: string)
    ensures s == "Disabled" <==> v == 0
    ensures s == "Enabled" <==> v != 0
  {
    if v == 0 then "Disabled" else "Enabled"
  }

  /** `dac_ch`: a DAC channel number shown as `DAC<n>`; the number can be read back. */
  function DacCh(v: nat): (s: string)
    ensures |s| > 3 && s[..3] == "DAC" && AllDigits(s[3..], 10) && NumeralValue(s[3..], 10) == v
  {
    var s := "DAC" + Dec(v);
    assert s[3..] == Dec(v);
    NumeralRoundTrip(v, 10);
    s
  }

  /** `adc_chn`: an ADC channel number shown as `ADC<n>`; the number can be read back. */
  function AdcChn(v: nat): (s: string)
    ensures |s| > 3 && s[..3] == "ADC" && AllDigits(s[3..], 10) && NumeralValue(s[3..], 10) == v
  {
    var s := "ADC" + Dec(v);
    assert s[3..] == Dec(v);
    NumeralRoundTrip(v, 10);
    s
  }

  /** `empty_str`: the field is shown by its name alone. */
  function EmptyStr(v: nat): string
  {
    ""
  }

  /** The field of length 1 or 2 zero-padded to two characters, as the `02` in `'{0:02X}'`. */
  function Pad2(s: string): string
  {
    if |s| < 2 then "0" + s else s
  }

  /** `dec_to_hex`: `'0x{0:02X}'.format(v)`. */
  function DecToHex(v: nat): string
  {
    "0x" + Pad2(Numeral(v, 16))
  }

  /**
   * `dec_to_hex` prints `0x` and at least two upper-case hexadecimal digits that read back
   * as v; exactly two when v fits in a byte.
   */
  lemma DecToHexReadsBack(v: nat)
    ensures var s := DecToHex(v);
      |s| >= 4 && s[..2] == "0x" && AllDigits(s[2..], 16) && NumeralValue(s[2..], 16) == v
      && (v < 256 <==> |s| == 4)
  {
    var h := Numeral(v, 16);
    var s := DecToHex(v);
    assert s[2..] == Pad2(h);
    NumeralRoundTrip(v, 16);
    if |h| < 2 {
      LeadingZero(h, 16);
    }
    if v >= 16 {
      assert h == Numeral(v / 16, 16) + [DigitChar(v % 16)];
      if v >= 256 {
        assert v / 16 >= 16;
        assert |Numeral(v / 16, 16)| >= 2;
      }
    }
  }

  /** The two `GEN_CTRL_REG` range lambdas: `'0V to ' + ['Vref', '2xVref'][v]`. */
  function VrefRange(v: nat): (s: string)
    requires v < 2
  {
    "0V to " + ["Vref", "2xVref"][v]
  }

  /** `bin(n)`: the `0b` prefix and the binary digits. */
  function PyBin(n: nat): string
  {
    "0b" + Numeral(n, 2)
  }

  /** `bin(n).count('1')`, the channel count the state machine uses, counted bit by bit. */
  function PopCount(n: nat): nat
    decreases n
  {
    if n == 0 then 0 else n % 2 + PopCount(n / 2)
  }

  /** The indices of the set bits of n, each offset by i, in the order the loop of `bit_indices` meets them. */
  function SetBits(n: nat, i: nat): (r: seq<nat>)
    ensures forall k :: 0 <= k < |r| ==> r[k] >= i
    ensures forall a, b :: 0 <= a < b < |r| ==> r[a] < r[b]
    decreases n
  {
    if n == 0 then [] else (if n % 2 == 1 then [i] else []) + SetBits(n / 2, i + 1)
  }

  /** The decimal text of each index. */
  function DecList(xs: seq<nat>): (r: seq<string>)
    ensures |r| == |xs|
  {
    seq(|xs|, k requires 0 <= k < |xs| => Dec(xs[k]))
  }

  /** What `bit_indices(n)` returns: the decimal indices of the set bits, comma-separated. */
  function BitIndicesText(n: nat): string
  {
    Join(DecList(SetBits(n, 0)))
  }

  /** `bit_indices`: a loop that shifts n right, collecting the index of every 1 it meets. */
  method BitIndices(num: nat) returns (s: string)
    ensures s == BitIndicesText(num)
  {
    var res: seq<string> := [];
    var n, i := num, 0;
    while n != 0
      invariant DecList(SetBits(num, 0)) == res + DecList(SetBits(n, i))
      decreases n
    {
      DecListStep(n, i);
      if n % 2 == 1 {
        AppendAssoc(res, [Dec(i)], DecList(SetBits(n / 2, i + 1)));
        res := res + [Dec(i)];
      }
      n := n / 2;
      i := i + 1;
    }
    assert SetBits(n, i) == [];
    assert DecList(SetBits(num, 0)) == res + [];
    assert res + [] == res;
    s := Join(res);
  }

  /** One step of the loop of `bit_indices`: the lowest bit contributes its index or nothing. */
  lemma DecListStep(n: nat, i: nat)
    requires n != 0
    ensures n % 2 == 1 ==> DecList(SetBits(n, i)) == [Dec(i)] + DecList(SetBits(n / 2, i + 1))
    ensures n % 2 == 0 ==> DecList(SetBits(n, i)) == DecList(SetBits(n / 2, i + 1))
  {
    var pre := if n % 2 == 1 then [i] else [];
    assert SetBits(n, i) == pre + SetBits(n / 2, i + 1);
    DecListAppend(pre, SetBits(n / 2, i + 1));
    if n % 2 == 0 {
      assert DecList(pre) == [];
    }
  }

  lemma DecListAppend(a: seq<nat>, b: seq<nat>)
    ensures DecList(a + b) == DecList(a) + DecList(b)
  {
    assert forall k :: 0 <= k < |a + b| ==> DecList(a + b)[k] == (DecList(a) + DecList(b))[k];
  }

  lemma {:induction false} SetBitsCount(n: nat, i: nat)
    ensures |SetBits(n, i)| == multiset(Numeral(n, 2))['1']
    decreases n
  {
    if n >= 2 {
      SetBitsCount(n / 2, i + 1);
      assert Numeral(n, 2) == Numeral(n / 2, 2) + [DigitChar(n % 2)];
    }
  }

  lemma {:induction false} SetBitsPopCount(n: nat, i: nat)
    ensures |SetBits(n, i)| == PopCount(n)
    decreases n
  {
    if n > 0 {
      SetBitsPopCount(n / 2, i + 1);
    }
  }

  /** The number of indices `bit_indices` lists is `bin(n).count('1')`. */
  lemma PopCountIsSetBits(n: nat)
    ensures |SetBits(n, 0)| == PopCount(n)
  {
    SetBitsPopCount(n, 0);
  }

  /** Counting the one bits is counting the digits `1` that `bin(n)` prints. */
  lemma PopCountIsBinCount(n: nat)
    ensures PopCount(n) == multiset(PyBin(n))['1']
  {
    SetBitsPopCount(n, 0);
    SetBitsCount(n, 0);
    assert multiset(PyBin(n)) == multiset("0b") + multiset(Numeral(n, 2));
  }

  lemma DivPow2Step(n: nat, j: nat)
    requires 0 < j
    ensures n / Pow2(j) == (n / 2) / Pow2(j - 1)
  {
    var p := Pow2(j - 1);
    var q, r := (n / 2) / p, (n / 2) % p;
    assert n / 2 == q * p + r;
    MulDoubleRight(q, p);
    assert n == q * (2 * p) + (2 * r + n % 2);
    DivModUnique(n, 2 * p, q, 2 * r + n % 2);
  }

  lemma MulDoubleRight(q: nat, p: nat)
    ensures 2 * (q * p) == q * (2 * p)
  {
  }

  /** An index is listed exactly when that bit of n is 1. */
  lemma {:induction false} SetBitsMembers(n: nat, i: nat, k: nat)
    ensures k in SetBits(n, i) <==> i <= k && FieldOf(n, k - i, 1) == 1
    decreases n
  {
    if n > 0 {
      SetBitsMembers(n / 2, i + 1, k);
      if i < k {
        DivPow2Step(n, k - i);
      }
    }
  }

  lemma DecHasNoComma(n: nat)
    ensures ',' !in Dec(n) && Dec(n) != ""
  {
  }

  lemma SetBitsNonEmpty(n: nat, i: nat)
    ensures n > 0 <==> |SetBits(n, i)| > 0
  {
    if n > 0 && n % 2 == 0 {
      assert SetBits(n, i) == SetBits(n / 2, i + 1);
      SetBitsNonEmpty(n / 2, i + 1);
    }
  }

  /** `bit_indices(0)` is empty, and otherwise it lists popcount(n) entries between commas. */
  lemma BitIndicesShape(n: nat)
    ensures BitIndicesText(n) == "" <==> n == 0
    ensures n > 0 ==> multiset(BitIndicesText(n))[','] == PopCount(n) - 1
  {
    var xs := DecList(SetBits(n, 0));
    forall k | 0 <= k < |xs|
      ensures ',' !in xs[k] && xs[k] != ""
    {
      DecHasNoComma(SetBits(n, 0)[k]);
    }
    JoinCommas(xs);
    JoinEmpty(xs);
    PopCountIsSetBits(n);
    SetBitsNonEmpty(n, 0);
  }
}
