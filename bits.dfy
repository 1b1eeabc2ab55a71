/**
 * Bit events and bit-field extraction (`decode_bits` in decoders/ad5592r/pd.py and the
 * `bitpack_lsb` helper it calls). A word is held least-significant bit first, so a field
 * is addressed by an LSB-relative offset and a width.
 */
module Bits {

  /** A sampled line level: the framing layer only reports 0 or 1. */
  type Bin = b: nat | b < 2

  /** One bit event `(bit, ss, es)`: its level and the sample range it occupies. */
  datatype Bit = Bit(value: Bin, ss: int, es: int)

  /** The value of a field together with the sample span it covers. */
  datatype Extract = Extract(value: nat, ss: int, es: int)

  function Min(a: int, b: int): int { if a <= b then a else b }

  function Pow2(n: nat): (r: nat)
    ensures r >= 1
  {
    if n == 0 then 1 else 2 * Pow2(n - 1)
  }

  lemma {:induction false} Pow2Mono(a: nat, b: nat)
    requires a <= b
    ensures Pow2(a) <= Pow2(b)
  {
    if a < b {
      Pow2Mono(a, b - 1);
    }
  }

  /** `bitpack_lsb(bits, 0)`: element i of the list contributes its level times 2^i. */
  function Pack(s: seq<Bit>): (r: nat)
    ensures r < Pow2(|s|)
  {
    if s == [] then 0 else s[0].value + 2 * Pack(s[1..])
  }

  /** Python's `bits[offset:][:width]`: clipped at the end of the list, never an error. */
  function Slice(bits: seq<Bit>, offset: nat, width: nat): (r: seq<Bit>)
    ensures |r| <= width
    ensures offset + width <= |bits| ==> |r| == width
    ensures forall i :: 0 <= i < |r| ==> offset + i < |bits| && r[i] == bits[offset + i]
  {
    var lo := Min(offset, |bits|);
    var hi := Min(offset + width, |bits|);
    bits[lo..hi]
  }

  /**
   * `decode_bits`: the packed value of the slice, starting at the highest-offset bit of the
   * slice (earliest on the wire) and ending at the bit at `offset`. An empty slice makes the
   * source index an empty list and raise, which the precondition excludes.
   */
  function DecodeBits(bits: seq<Bit>, offset: nat, width: nat): (r: Extract)
    requires offset < |bits| && 0 < width
    ensures r.value < Pow2(width)
    ensures r.ss == bits[Min(offset + width, |bits|) - 1].ss
    ensures r.es == bits[offset].es
  {
    var s := Slice(bits, offset, width);
    Pow2Mono(|s|, width);
    Extract(Pack(s), s[|s| - 1].ss, s[0].es)
  }

  /** Reference definition: the sum of bits[offset + i] * 2^i for i below width. */
  function WeightedSum(bits: seq<Bit>, offset: nat, width: nat): nat
    requires offset + width <= |bits|
  {
    if width == 0 then 0
    else WeightedSum(bits, offset, width - 1) + bits[offset + width - 1].value * Pow2(width - 1)
  }

  /** The field of a plain number: `(word >> offset) & (2^width - 1)`. */
  function FieldOf(word: nat, offset: nat, width: nat): nat
  {
    (word / Pow2(offset)) % Pow2(width)
  }

  lemma {:induction false} PackSnoc(s: seq<Bit>, b: Bit)
    ensures Pack(s + [b]) == Pack(s) + b.value * Pow2(|s|)
  {
    if s == [] {
      assert [b][1..] == [];
    } else {
      assert (s + [b])[1..] == s[1..] + [b];
      PackSnoc(s[1..], b);
    }
  }

  lemma {:induction false} PackIsWeightedSum(bits: seq<Bit>, offset: nat, width: nat)
    requires offset + width <= |bits|
    ensures Pack(bits[offset..offset + width]) == WeightedSum(bits, offset, width)
  {
    if width > 0 {
      var s := bits[offset..offset + width - 1];
      assert bits[offset..offset + width] == s + [bits[offset + width - 1]];
      PackIsWeightedSum(bits, offset, width - 1);
      PackSnoc(s, bits[offset + width - 1]);
    }
  }

  /** A field that lies inside the word decodes to the weighted sum of its bits. */
  lemma DecodeBitsIsWeightedSum(bits: seq<Bit>, offset: nat, width: nat)
    requires 0 < width && offset + width <= |bits|
    ensures DecodeBits(bits, offset, width).value == WeightedSum(bits, offset, width)
  {
    assert Slice(bits, offset, width) == bits[offset..offset + width];
    PackIsWeightedSum(bits, offset, width);
  }

  lemma {:induction false} PackAppend(a: seq<Bit>, b: seq<Bit>)
    ensures Pack(a + b) == Pack(a) + Pow2(|a|) * Pack(b)
  {
    if a == [] {
      assert a + b == b;
    } else {
      assert (a + b)[1..] == a[1..] + b;
      PackAppend(a[1..], b);
      var x, p, y := Pack(a[1..]), Pow2(|a| - 1), Pack(b);
      calc {
        Pack(a + b);
        a[0].value + 2 * Pack(a[1..] + b);
        a[0].value + 2 * (x + p * y);
        { DoubleMul(p, y); }
        a[0].value + 2 * x + (2 * p) * y;
      }
    }
  }

  lemma DoubleMul(p: nat, y: nat)
    ensures 2 * (p * y) == (2 * p) * y
  {
  }

  lemma {:induction false} MulAtLeast(k: nat, d: nat)
    requires 1 <= k
    ensures k * d >= d
  {
    if k > 1 {
      MulAtLeast(k - 1, d);
      assert k * d == (k - 1) * d + d;
    }
  }

  lemma DivModUnique(x: nat, d: nat, q: nat, r: nat)
    requires 0 < d && r < d && x == q * d + r
    ensures x / d == q && x % d == r
  {
    var q', r' := x / d, x % d;
    assert x == q' * d + r';
    if q' > q {
      MulAtLeast(q' - q, d);
      assert false;
    } else if q' < q {
      MulAtLeast(q - q', d);
      assert false;
    }
  }

  lemma PackSplit(bits: seq<Bit>, k: nat)
    requires k <= |bits|
    ensures Pack(bits) == Pack(bits[k..]) * Pow2(k) + Pack(bits[..k])
  {
    assert bits == bits[..k] + bits[k..];
    PackAppend(bits[..k], bits[k..]);
  }

  lemma FieldArith(x: nat, lo: nat, up: nat, mid: nat, hi: nat, po: nat, pw: nat)
    requires 0 < po && 0 < pw && lo < po && mid < pw
    requires x == up * po + lo && up == hi * pw + mid
    ensures (x / po) % pw == mid
  {
    DivModUnique(x, po, up, lo);
    DivModUnique(up, pw, hi, mid);
  }

  /** `decode_bits` reads exactly `FieldOf` of the whole word's packed value. */
  lemma DecodeBitsField(bits: seq<Bit>, offset: nat, width: nat)
    requires 0 < width && offset + width <= |bits|
    ensures DecodeBits(bits, offset, width).value == FieldOf(Pack(bits), offset, width)
  {
    var rest := bits[offset..];
    assert Slice(bits, offset, width) == rest[..width];
    PackSplit(bits, offset);
    PackSplit(rest, width);
    FieldArith(Pack(bits), Pack(bits[..offset]), Pack(rest), Pack(rest[..width]), Pack(rest[width..]),
      Pow2(offset), Pow2(width));
  }

  /** Writes the low |s| bits of v into the levels of s, keeping every timestamp. */
  function Unpack(s: seq<Bit>, v: nat): (r: seq<Bit>)
    ensures |r| == |s|
    ensures forall i :: 0 <= i < |s| ==> r[i].ss == s[i].ss && r[i].es == s[i].es
  {
    if s == [] then [] else [s[0].(value := v % 2)] + Unpack(s[1..], v / 2)
  }

  /** Encodes v into the field at offset/width of a word, leaving everything else as it was. */
  function WriteField(bits: seq<Bit>, offset: nat, width: nat, v: nat): (r: seq<Bit>)
    requires offset + width <= |bits|
    ensures |r| == |bits|
    ensures forall i :: 0 <= i < |bits| ==> r[i].ss == bits[i].ss && r[i].es == bits[i].es
    ensures forall i :: 0 <= i < |bits| && !(offset <= i < offset + width) ==> r[i] == bits[i]
  {
    bits[..offset] + Unpack(bits[offset..offset + width], v) + bits[offset + width..]
  }

  lemma {:induction false} PackUnpack(s: seq<Bit>, v: nat)
    requires v < Pow2(|s|)
    ensures Pack(Unpack(s, v)) == v
  {
    if s != [] {
      PackUnpack(s[1..], v / 2);
    }
  }

  lemma {:induction false} UnpackPack(s: seq<Bit>)
    ensures Unpack(s, Pack(s)) == s
  {
    if s != [] {
      UnpackPack(s[1..]);
    }
  }

  /** Field round trip: a value written into a field is the value decoded from it. */
  lemma FieldRoundTrip(bits: seq<Bit>, offset: nat, width: nat, v: nat)
    requires 0 < width && offset + width <= |bits| && v < Pow2(width)
    ensures DecodeBits(WriteField(bits, offset, width, v), offset, width).value == v
  {
    var w := WriteField(bits, offset, width, v);
    var u := Unpack(bits[offset..offset + width], v);
    assert Slice(w, offset, width) == u;
    PackUnpack(bits[offset..offset + width], v);
  }

  /** The other direction: writing back what was decoded leaves the word unchanged. */
  lemma FieldWriteBack(bits: seq<Bit>, offset: nat, width: nat)
    requires 0 < width && offset + width <= |bits|
    ensures WriteField(bits, offset, width, DecodeBits(bits, offset, width).value) == bits
  {
    assert Slice(bits, offset, width) == bits[offset..offset + width];
    UnpackPack(bits[offset..offset + width]);
    assert bits[..offset] + bits[offset..offset + width] + bits[offset + width..] == bits;
  }
}
