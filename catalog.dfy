/**
 * The register catalog of decoders/ad5592r/lists.py: control registers keyed by a 4-bit
 * opcode, DAC channels keyed by a 3-bit address, and the return formats of the device's
 * reply. The shared `ADDR_IDX` / `MSB_IDX` keys of the source tables are named constants here.
 */
module Catalog {
  import opened Wrappers
  import opened Formatters

  /** The formatting rule a field descriptor names. */
  datatype Formatter = FmtDecToHex | FmtBitIndices | FmtDisabledEnabled | FmtDacCh | FmtAdcChn | FmtEmptyStr | FmtVrefRange

  /** `(offset, width, name[, formatter])`; a missing formatter prints the value in decimal. */
  datatype Field = Field(offset: nat, width: nat, name: string, parser: Option<Formatter>)

  /** A catalog entry: register name and its field descriptors. */
  datatype Entry = Entry(name: string, fields: seq<Field>)

  /** A bit position shared by all entries of a catalog. */
  datatype Pos = Pos(offset: nat, width: nat)

  const CTRL_ADDR_IDX := Pos(11, 4)
  const CTRL_MSB_IDX := Pos(15, 1)
  const DAC_ADDR_IDX := Pos(12, 3)
  const DAC_MSB_IDX := Pos(15, 1)

  /** The formatters that index a two-element list need a one-bit value. */
  predicate Applicable(f: Formatter, v: nat)
  {
    f == FmtVrefRange ==> v < 2
  }

  /** `parser(val)`. */
  function Apply(f: Formatter, v: nat): string
    requires Applicable(f, v)
  {
    match f
    case FmtDecToHex => DecToHex(v)
    case FmtBitIndices => BitIndicesText(v)
    case FmtDisabledEnabled => DisabledEnabled(v)
    case FmtDacCh => DacCh(v)
    case FmtAdcChn => AdcChn(v)
    case FmtEmptyStr => EmptyStr(v)
    case FmtVrefRange => VrefRange(v)
  }

  /** A formatter prints nothing only for `empty_str`, and for `bit_indices` of 0. */
  lemma ApplyEmpty(f: Formatter, v: nat)
    requires Applicable(f, v)
    ensures Apply(f, v) == "" <==> f == FmtEmptyStr || (f == FmtBitIndices && v == 0)
  {
    match f
    case FmtDecToHex => DecToHexReadsBack(v);
    case FmtBitIndices => BitIndicesShape(v);
    case _ =>
  }

  /** A field that lies in a 16-bit word and whose formatter accepts every value of its width. */
  predicate FieldFits(f: Field)
  {
    1 <= f.width && f.offset + f.width <= 16 && (f.parser == Some(FmtVrefRange) ==> f.width == 1)
  }

  predicate AllFit(fields: seq<Field>)
  {
    forall i :: 0 <= i < |fields| ==> FieldFits(fields[i])
  }

  /** The `REG_ADDR` field every control register ends with. */
  const REG_ADDR := Field(11, 4, "REG_ADDR", Some(FmtDecToHex))

  /** `CTRL_REGISTERS.get(op)`: opcode 0b1110 has no entry. */
  function CtrlRegister(op: nat): (r: Option<Entry>)
    ensures r.None? <==> op == 0xE || op > 0xF
    ensures r.Some? ==> AllFit(r.value.fields) && |r.value.fields| >= 1
    ensures r.Some? ==> r.value.fields[|r.value.fields| - 1] == REG_ADDR
  {
    if op < 0x8 then CtrlRegisterLow(op) else CtrlRegisterHigh(op)
  }

  /** The entries of opcodes 0x0 to 0x7. */
  function CtrlRegisterLow(op: nat): (r: Option<Entry>)
    requires op < 0x8
    ensures r.Some? && AllFit(r.value.fields) && |r.value.fields| >= 1
    ensures r.value.fields[|r.value.fields| - 1] == REG_ADDR
  {
    match op
    case 0x0 => Some(Entry("NOP", [
        Field(11, 4, "REG_ADDR", Some(FmtDecToHex))]))
    case 0x1 => Some(Entry("DAC_RD", [
        Field(0, 3, "DAC_CH_SEL", Some(FmtDacCh)),
        Field(3, 2, "DAC_RD_EN", Some(FmtDisabledEnabled)),
        Field(5, 6, "RESERVED", Some(FmtEmptyStr)),
        Field(11, 4, "REG_ADDR", Some(FmtDecToHex))]))
    case 0x2 => Some(Entry("ADC_SEQ", [
        Field(0, 8, "ADC Channels", Some(FmtBitIndices)),
        Field(8, 1, "Temp Indicator", Some(FmtDisabledEnabled)),
        Field(9, 1, "Repeat", Some(FmtDisabledEnabled)),
        Field(10, 1, "RESERVED", Some(FmtEmptyStr)),
        Field(11, 4, "REG_ADDR", Some(FmtDecToHex))]))
    case 0x3 => Some(Entry("GEN_CTRL_REG", [
        Field(0, 4, "RESERVED", Some(FmtEmptyStr)),
        Field(4, 1, "DAC_RANGE", Some(FmtVrefRange)),
        Field(5, 1, "ADC_RANGE", Some(FmtVrefRange)),
        Field(6, 1, "ALL_DAC", Some(FmtDisabledEnabled)),
        Field(7, 1, "IO_LOCK", Some(FmtDisabledEnabled)),
        Field(8, 1, "ADC_BUF_EN", Some(FmtDisabledEnabled)),
        Field(9, 1, "ADC_BUF_PRECH", Some(FmtDisabledEnabled)),
        Field(10, 1, "RESERVED", Some(FmtEmptyStr)),
        Field(11, 4, "REG_ADDR", Some(FmtDecToHex))]))
    case 0x4 => Some(Entry("ADC_CONFIG", [
        Field(0, 8, "ADC input pins", Some(FmtBitIndices)),
        Field(8, 3, "RESERVED", Some(FmtEmptyStr)),
        Field(11, 4, "REG_ADDR", Some(FmtDecToHex))]))
    case 0x5 => Some(Entry("DAC_CONFIG", [
        Field(0, 8, "DAC output pins", Some(FmtBitIndices)),
        Field(8, 3, "RESERVED", Some(FmtEmptyStr)),
        Field(11, 4, "REG_ADDR", Some(FmtDecToHex))]))
    case 0x6 => Some(Entry("PULLDWN_CONFIG", [
        Field(0, 8, "Weak-pulldown output pins", Some(FmtBitIndices)),
        Field(8, 3, "RESERVED", Some(FmtEmptyStr)),
        Field(11, 4, "REG_ADDR", Some(FmtDecToHex))]))
    case 0x7 => Some(Entry("CONFIG_READ_AND_LDAC", [
        Field(0, 2, "LDAC_MODE", Some(FmtEmptyStr)),
        Field(2, 4, "Read back register", Some(FmtDecToHex)),
        Field(6, 1, "REG_RD_EN", Some(FmtDisabledEnabled)),
        Field(7, 4, "REG_RD_EN", Some(FmtEmptyStr)),
        Field(11, 4, "REG_ADDR", Some(FmtDecToHex))]))
  }

  /** The entries of opcodes 0x8 and up. */
  function CtrlRegisterHigh(op: nat): (r: Option<Entry>)
    requires op >= 0x8
    ensures r.None? <==> op == 0xE || op > 0xF
    ensures r.Some? ==> AllFit(r.value.fields) && |r.value.fields| >= 1
    ensures r.Some? ==> r.value.fields[|r.value.fields| - 1] == REG_ADDR
  {
    match op
    case 0x8 => Some(Entry("GPIO_CONFIG", [
        Field(0, 8, "GPIO output pins", Some(FmtBitIndices)),
        Field(8, 1, "EN_BUSY", Some(FmtDisabledEnabled)),
        Field(9, 2, "RESERVED", Some(FmtEmptyStr)),
        Field(11, 4, "REG_ADDR", Some(FmtDecToHex))]))
    case 0x9 => Some(Entry("GPIO_OUTPUT", [
        Field(0, 8, "Logic \"1\" pins", Some(FmtBitIndices)),
        Field(8, 3, "RESERVED", Some(FmtEmptyStr)),
        Field(11, 4, "REG_ADDR", Some(FmtDecToHex))]))
    case 0xA => Some(Entry("GPIO_INPUT", [
        Field(0, 8, "GPIO input pins", Some(FmtBitIndices)),
        Field(9, 2, "RESERVED", Some(FmtEmptyStr)),
        Field(10, 1, "GPIO_RD_EN", Some(FmtDisabledEnabled)),
        Field(11, 4, "REG_ADDR", Some(FmtDecToHex))]))
    case 0xB => Some(Entry("PD_REF_CTRL", [
        Field(0, 8, "DAC power-down pins", Some(FmtBitIndices)),
        Field(8, 1, "RESERVED", Some(FmtEmptyStr)),
        Field(9, 1, "Internal reference", Some(FmtDisabledEnabled)),
        Field(10, 1, "Power down all", Some(FmtDisabledEnabled)),
        Field(11, 4, "REG_ADDR", Some(FmtDecToHex))]))
    case 0xC => Some(Entry("GPIO_OPENDRAIN_CONFIG", [
        Field(0, 8, "GPIO open-drain pins", Some(FmtBitIndices)),
        Field(8, 3, "RESERVED", Some(FmtEmptyStr)),
        Field(11, 4, "REG_ADDR", Some(FmtDecToHex))]))
    case 0xD => Some(Entry("IO_TS_CONFIG", [
        Field(0, 8, "Three-state output pins", Some(FmtBitIndices)),
        Field(8, 3, "RESERVED", Some(FmtEmptyStr)),
        Field(11, 4, "REG_ADDR", Some(FmtDecToHex))]))
    case 0xF => Some(Entry("SW_RESET", [
        Field(0, 8, "Reset command", Some(FmtDecToHex)),
        Field(11, 4, "REG_ADDR", Some(FmtDecToHex))]))
    case _ => None
  }

  /** The layout every DAC channel write shares. */
  const DAC_WR := Entry("DAC_WR", [Field(0, 12, "DAC data", None), Field(12, 3, "DAC addr", None)])

  /** `DAC_CHANNELS.get(addr)`: eight entries, one per 3-bit address. */
  function DacChannel(addr: nat): (r: Option<Entry>)
    ensures r.Some? <==> addr < 8
    ensures r.Some? ==> r.value == DAC_WR && AllFit(r.value.fields)
  {
    match addr
    case 0 => Some(Entry("DAC_WR", [Field(0, 12, "DAC data", None), Field(12, 3, "DAC addr", None)]))
    case 1 => Some(Entry("DAC_WR", [Field(0, 12, "DAC data", None), Field(12, 3, "DAC addr", None)]))
    case 2 => Some(Entry("DAC_WR", [Field(0, 12, "DAC data", None), Field(12, 3, "DAC addr", None)]))
    case 3 => Some(Entry("DAC_WR", [Field(0, 12, "DAC data", None), Field(12, 3, "DAC addr", None)]))
    case 4 => Some(Entry("DAC_WR", [Field(0, 12, "DAC data", None), Field(12, 3, "DAC addr", None)]))
    case 5 => Some(Entry("DAC_WR", [Field(0, 12, "DAC data", None), Field(12, 3, "DAC addr", None)]))
    case 6 => Some(Entry("DAC_WR", [Field(0, 12, "DAC data", None), Field(12, 3, "DAC addr", None)]))
    case 7 => Some(Entry("DAC_WR", [Field(0, 12, "DAC data", None), Field(12, 3, "DAC addr", None)]))
    case _ => None
  }

  /** The keys of `MISO_READING`. */
  datatype ReturnFormat = ADC_RESULT | TMP_SENSE_RESULT | DAC_DATA_RD | REG_READ

  /** The key as text, which is also the label shown for the reply. */
  function Label(f: ReturnFormat): string
  {
    match f
    case ADC_RESULT => "ADC_RESULT"
    case TMP_SENSE_RESULT => "TMP_SENSE_RESULT"
    case DAC_DATA_RD => "DAC_DATA_RD"
    case REG_READ => "REG_READ"
  }

  /** `MISO_READING[f]`; `REG_READ` has an empty field list. */
  function MisoReading(f: ReturnFormat): (r: seq<Field>)
    ensures AllFit(r)
    ensures r == [] <==> f == REG_READ
  {
    match f
    case ADC_RESULT => [Field(0, 12, "ADC data", None), Field(12, 3, "ADC_ADDR", Some(FmtAdcChn))]
    case TMP_SENSE_RESULT => [Field(0, 12, "Temperature data", None), Field(12, 4, "TEMPSENSE_ADDR", Some(FmtEmptyStr))]
    case DAC_DATA_RD => [Field(0, 12, "DAC data", None), Field(12, 3, "DAC addr", None)]
    case REG_READ => []
  }

  /** Two fields share no bit. */
  predicate Disjoint(f: Field, g: Field)
  {
    f.offset + f.width <= g.offset || g.offset + g.width <= f.offset
  }

  predicate Covers(f: Field, bit: nat)
  {
    f.offset <= bit < f.offset + f.width
  }

  /** No two fields of the list share a bit. */
  predicate PairwiseDisjoint(fields: seq<Field>)
  {
    forall i, j :: 0 <= i < j < |fields| ==> Disjoint(fields[i], fields[j])
  }

  /** Field i is disjoint from every field from index j on. */
  predicate DisjointAfter(fields: seq<Field>, i: nat, j: nat)
    requires i < |fields|
    decreases |fields| - j
  {
    j >= |fields| || (Disjoint(fields[i], fields[j]) && DisjointAfter(fields, i, j + 1))
  }

  /** Every field from index i on is disjoint from all later ones. */
  predicate DisjointFrom(fields: seq<Field>, i: nat)
    decreases |fields| - i
  {
    i >= |fields| || (DisjointAfter(fields, i, i + 1) && DisjointFrom(fields, i + 1))
  }

  lemma {:induction false} DisjointAfterAt(fields: seq<Field>, i: nat, j: nat, k: nat)
    requires i < |fields| && DisjointAfter(fields, i, j) && j <= k < |fields|
    ensures Disjoint(fields[i], fields[k])
    decreases k - j
  {
    if j < k {
      DisjointAfterAt(fields, i, j + 1, k);
    }
  }

  lemma {:induction false} DisjointFromAt(fields: seq<Field>, i: nat, a: nat, b: nat)
    requires DisjointFrom(fields, i) && i <= a < b < |fields|
    ensures Disjoint(fields[a], fields[b])
    decreases a - i
  {
    if i < a {
      DisjointFromAt(fields, i + 1, a, b);
    } else {
      DisjointAfterAt(fields, a, a + 1, b);
    }
  }

  /** The table's entries other than GPIO_INPUT pass the field-by-field disjointness check. */
  lemma CtrlDisjointChecked(op: nat)
    requires CtrlRegister(op).Some? && op != 0xA
    ensures DisjointFrom(CtrlRegister(op).value.fields, 0)
  {
    if op < 0x8 {
      CtrlLowDisjoint(op);
    } else {
      CtrlHighDisjoint(op);
    }
  }

  lemma CtrlLowDisjoint(op: nat)
    requires op < 0x8
    ensures DisjointFrom(CtrlRegisterLow(op).value.fields, 0)
  {
    if op < 0x4 {
      CtrlLowestDisjoint(op);
    } else {
      CtrlMiddleDisjoint(op);
    }
  }

  lemma CtrlLowestDisjoint(op: nat)
    requires op < 0x4
    ensures DisjointFrom(CtrlRegisterLow(op).value.fields, 0)
  {
  }

  lemma CtrlMiddleDisjoint(op: nat)
    requires 0x4 <= op < 0x8
    ensures DisjointFrom(CtrlRegisterLow(op).value.fields, 0)
  {
  }

  lemma CtrlHighDisjoint(op: nat)
    requires op >= 0x8 && CtrlRegisterHigh(op).Some? && op != 0xA
    ensures DisjointFrom(CtrlRegisterHigh(op).value.fields, 0)
  {
  }

  /**
   * The fields of every control register are pairwise disjoint except in `GPIO_INPUT`,
   * whose `RESERVED (9, 2)` and `GPIO_RD_EN (10, 1)` share bit 10 while bit 8 is uncovered.
   */
  lemma FieldOverlap(op: nat)
    requires CtrlRegister(op).Some?
    ensures var fs := CtrlRegister(op).value.fields;
      (op != 0xA <==> PairwiseDisjoint(fs))
      && (op == 0xA ==> Covers(fs[1], 10) && Covers(fs[2], 10) && forall i :: 0 <= i < |fs| ==> !Covers(fs[i], 8))
  {
    var fs := CtrlRegister(op).value.fields;
    if op == 0xA {
      assert !Disjoint(fs[1], fs[2]);
    } else {
      CtrlDisjointChecked(op);
      forall a, b | 0 <= a < b < |fs|
        ensures Disjoint(fs[a], fs[b])
      {
        DisjointFromAt(fs, 0, a, b);
      }
    }
  }

  /** All eight DAC entries are the same `DAC_WR` layout: 12 data bits, then the 3-bit address. */
  lemma DacLayout(addr: nat)
    requires addr < 8
    ensures DacChannel(addr).value.name == "DAC_WR"
    ensures DacChannel(addr).value.fields == [Field(0, 12, "DAC data", None), Field(12, 3, "DAC addr", None)]
    ensures DAC_ADDR_IDX == Pos(12, 3) && DAC_MSB_IDX == Pos(15, 1)
  {
  }

  /** The reply formats: the temperature address is 4 bits wide, the other two addresses 3. */
  lemma ReturnFormatLayout()
    ensures MisoReading(REG_READ) == []
    ensures MisoReading(TMP_SENSE_RESULT)[1].offset == 12 && MisoReading(TMP_SENSE_RESULT)[1].width == 4
    ensures MisoReading(ADC_RESULT)[1].offset == 12 && MisoReading(ADC_RESULT)[1].width == 3
    ensures MisoReading(DAC_DATA_RD)[1].offset == 12 && MisoReading(DAC_DATA_RD)[1].width == 3
  {
  }

  /** The `REG_ADDR` field of every entry sits where the catalog's `ADDR_IDX` says the opcode is. */
  lemma RegAddrIsAddrIdx(op: nat)
    requires CtrlRegister(op).Some?
    ensures var fs := CtrlRegister(op).value.fields;
      fs[|fs| - 1].offset == CTRL_ADDR_IDX.offset && fs[|fs| - 1].width == CTRL_ADDR_IDX.width
  {
  }
}
