/**
 * Emitted annotations and the field interpreter (`decode_field`, `annotate_fields` in
 * decoders/ad5592r/pd.py): each field descriptor becomes one annotation covering exactly
 * the bits of the field.
 */
module Annotations {
  import opened Wrappers
  import opened Bits
  import opened Text
  import opened Catalog

  /** The four annotation rows: MOSI register, MOSI field, MISO register, MISO field. */
  datatype Row = MosiReg | MosiField | MisoReg | MisoField

  /** What `putg(ss, es, row, [text])` emits. */
  datatype Annotation = Annotation(ss: int, es: int, row: Row, text: string)

  /** A descriptor `decode_bits` can slice out of the word and whose formatter accepts the value. */
  predicate Decodable(bits: seq<Bit>, f: Field)
  {
    0 < f.width && f.offset < |bits| && (f.parser == Some(FmtVrefRange) ==> f.width == 1)
  }

  predicate AllDecodable(bits: seq<Bit>, fields: seq<Field>)
  {
    forall i :: 0 <= i < |fields| ==> Decodable(bits, fields[i])
  }

  /** Every catalog field can be decoded out of a 16-bit word. */
  lemma FitsDecodable(bits: seq<Bit>, fields: seq<Field>)
    requires |bits| == 16 && AllFit(fields)
    ensures AllDecodable(bits, fields)
  {
  }

  /** `parser(val) if parser else '{}'.format(val)`. */
  function Formatted(parser: Option<Formatter>, v: nat): string
    requires parser.Some? ==> Applicable(parser.value, v)
  {
    match parser
    case None => Dec(v)
    case Some(p) => Apply(p, v)
  }

  /** `'{name}: {val}'` when the formatted value is non-empty, else just `'{name}'`. */
  function FieldText(name: string, formatted: string): string
  {
    if formatted != "" then name + ": " + formatted else name
  }

  /** `decode_field`: the one annotation a descriptor produces. */
  function FieldAnnotation(bits: seq<Bit>, row: Row, f: Field): Annotation
    requires Decodable(bits, f)
  {
    var x := DecodeBits(bits, f.offset, f.width);
    Annotation(x.ss, x.es, row, FieldText(f.name, Formatted(f.parser, x.value)))
  }

  /** `annotate_fields`: one annotation per descriptor, in descriptor order. */
  function AnnotateFields(bits: seq<Bit>, row: Row, fields: seq<Field>): (r: seq<Annotation>)
    requires AllDecodable(bits, fields)
    ensures |r| == |fields|
  {
    if fields == [] then [] else [FieldAnnotation(bits, row, fields[0])] + AnnotateFields(bits, row, fields[1..])
  }

  /** Exactly one annotation per descriptor, in the order of the descriptors. */
  lemma {:induction false} AnnotateFieldsOnePerField(bits: seq<Bit>, row: Row, fields: seq<Field>)
    requires AllDecodable(bits, fields)
    ensures forall i :: 0 <= i < |fields| ==> AnnotateFields(bits, row, fields)[i] == FieldAnnotation(bits, row, fields[i])
  {
    if fields != [] {
      AnnotateFieldsOnePerField(bits, row, fields[1..]);
    }
  }

  /** Annotating one more descriptor of a list appends its one annotation. */
  lemma AnnotateFieldsPrefix(bits: seq<Bit>, row: Row, fields: seq<Field>, i: nat)
    requires AllDecodable(bits, fields) && i < |fields|
    ensures AllDecodable(bits, fields[..i]) && AllDecodable(bits, fields[..i + 1])
    ensures AnnotateFields(bits, row, fields[..i + 1])
      == AnnotateFields(bits, row, fields[..i]) + [FieldAnnotation(bits, row, fields[i])]
  {
    assert fields[..i + 1] == fields[..i] + [fields[i]];
    AnnotateFieldsSnoc(bits, row, fields[..i], fields[i]);
  }

  lemma AnnotateFieldsSnoc(bits: seq<Bit>, row: Row, fields: seq<Field>, f: Field)
    requires AllDecodable(bits, fields + [f])
    ensures AllDecodable(bits, fields) && Decodable(bits, f)
    ensures AnnotateFields(bits, row, fields + [f]) == AnnotateFields(bits, row, fields) + [FieldAnnotation(bits, row, f)]
  {
    var all := fields + [f];
    assert forall i :: 0 <= i < |fields| ==> all[i] == fields[i];
    assert all[|fields|] == f;
    var lhs := AnnotateFields(bits, row, all);
    var rhs := AnnotateFields(bits, row, fields) + [FieldAnnotation(bits, row, f)];
    AnnotateFieldsOnePerField(bits, row, all);
    AnnotateFieldsOnePerField(bits, row, fields);
    assert |lhs| == |rhs|;
    forall i | 0 <= i < |lhs|
      ensures lhs[i] == rhs[i]
    {
      if i < |fields| {
        assert lhs[i] == FieldAnnotation(bits, row, fields[i]);
      }
    }
  }

  /** The text is the bare name exactly when the formatted value is empty. */
  lemma FieldTextBare(name: string, formatted: string)
    ensures FieldText(name, formatted) == name <==> formatted == ""
  {
    if formatted != "" {
      assert |FieldText(name, formatted)| > |name|;
    }
  }

  /**
   * What one field annotation says: it spans from the field's highest bit to its lowest,
   * it reads `name` alone exactly when the formatter prints nothing (`empty_str`, or
   * `bit_indices` of 0), otherwise `name: text`, with the value in decimal when the
   * descriptor has no formatter.
   */
  lemma FieldAnnotationMeaning(bits: seq<Bit>, row: Row, f: Field)
    requires Decodable(bits, f) && f.offset + f.width <= |bits|
    ensures var a := FieldAnnotation(bits, row, f);
      var v := DecodeBits(bits, f.offset, f.width).value;
      a.row == row && a.ss == bits[f.offset + f.width - 1].ss && a.es == bits[f.offset].es
      && (a.text == f.name <==> f.parser == Some(FmtEmptyStr) || (f.parser == Some(FmtBitIndices) && v == 0))
      && (f.parser.None? ==> a.text == f.name + ": " + Dec(v))
      && (f.parser.Some? && a.text != f.name ==> a.text == f.name + ": " + Apply(f.parser.value, v))
  {
    FieldTextMeaning(f.name, f.parser, DecodeBits(bits, f.offset, f.width).value);
  }

  /** The text of a field: its bare name exactly when the formatter prints nothing. */
  lemma FieldTextMeaning(name: string, parser: Option<Formatter>, v: nat)
    requires parser.Some? ==> Applicable(parser.value, v)
    ensures var t := FieldText(name, Formatted(parser, v));
      (t == name <==> parser == Some(FmtEmptyStr) || (parser == Some(FmtBitIndices) && v == 0))
      && (parser.None? ==> t == name + ": " + Dec(v))
      && (parser.Some? && t != name ==> t == name + ": " + Apply(parser.value, v))
  {
    var t := Formatted(parser, v);
    FieldTextBare(name, t);
    if parser.Some? {
      ApplyEmpty(parser.value, v);
    } else {
      assert t != "";
    }
  }
}
