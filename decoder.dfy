/**
 * The `Decoder` object of decoders/ad5592r/pd.py: its fields are overwritten step by step as
 * packets arrive, and every method is proved to leave the object in the state the functions
 * of `Protocol` and `Assembler` describe. Two details differ from the source: a READBACK
 * reply with no stored format fails before its `None` label is emitted, and the field
 * ADC_SEQ writes starts out false instead of being created by the first ADC_SEQ.
 * Annotations the source hands to the framework are appended to the `Output` object `outAnn`.
 */
module AD5592R {
  import opened Wrappers
  import opened Seqs
  import opened Bits
  import opened Formatters
  import Catalog
  import opened Annotations
  import opened Protocol
  import opened Assembler
  import Behaviour

  /** The annotation channel the decoder registers with the framework; `putg` appends to it. */
  class Output {
    var anns: seq<Annotation>

    constructor()
      ensures anns == []
    {
      anns := [];
    }

    method Put(a: Annotation)
      modifies this
      ensures anns == old(anns) + [a]
    {
      anns := anns + [a];
    }
  }

  class Decoder {
    // the frame being accumulated (`reset_data`)
    var ssCmd: int
    var esCmd: int
    var nbBitsInFrame: nat
    var mosi: seq<Bit>
    var miso: seq<Bit>
    // the protocol context (`reset_state`)
    var state: St
    var crntMosiRegName: Option<string>
    var misoFieldsFormat: Option<Catalog.ReturnFormat>
    var misoTempRead: nat
    var misoAdcOpRepeat: bool
    var misoAdcOpRep: bool
    var misoAdcOpLen: nat
    var misoDelay: nat
    var misoCrntRead: nat
    // where `putg` sends annotations
    const outAnn: Output

    function Accumulators(): Assembler.Frame
      reads this`ssCmd, this`esCmd, this`nbBitsInFrame, this`mosi, this`miso
    {
      Assembler.Frame(ssCmd, esCmd, nbBitsInFrame, mosi, miso)
    }

    function Context(): Ctx
      reads this`state, this`crntMosiRegName, this`misoFieldsFormat, this`misoTempRead,
        this`misoAdcOpRepeat, this`misoAdcOpRep, this`misoAdcOpLen, this`misoDelay, this`misoCrntRead
    {
      Ctx(state, crntMosiRegName, misoFieldsFormat, misoTempRead, misoAdcOpRepeat, misoAdcOpRep,
          misoAdcOpLen, misoDelay, misoCrntRead)
    }

    function Snapshot(): Session
      reads this, outAnn`anns
    {
      Session(Accumulators(), Context(), outAnn.anns)
    }

    constructor()
      ensures Snapshot() == START && fresh(outAnn)
    {
      misoAdcOpRep := false;
      outAnn := new Output();
      new;
      Reset();
    }

    method Reset()
      modifies this
      ensures Accumulators() == EMPTY && Context() == ResetCtx(old(Context()))
    {
      ResetData();
      ResetState();
    }

    method ResetData()
      modifies this`ssCmd, this`esCmd, this`nbBitsInFrame, this`mosi, this`miso
      ensures Accumulators() == EMPTY
    {
      ssCmd := -1;
      esCmd := -1;
      nbBitsInFrame := 0;
      mosi := [];
      miso := [];
    }

    /** Leaves the flag ADC_SEQ writes as it was, since it has no entry here. */
    method ResetState()
      modifies this`state, this`crntMosiRegName, this`misoFieldsFormat, this`misoTempRead,
        this`misoAdcOpRepeat, this`misoAdcOpLen, this`misoDelay, this`misoCrntRead
      ensures Context() == ResetCtx(old(Context()))
    {
      state, crntMosiRegName, misoFieldsFormat := INVALID, None, None;
      misoTempRead, misoAdcOpRepeat, misoAdcOpLen, misoDelay, misoCrntRead := 0, false, 0, 0, 0;
    }

    method Putg(ss: int, es: int, row: Row, text: string)
      modifies outAnn
      ensures outAnn.anns == old(outAnn.anns) + [Annotation(ss, es, row, text)]
    {
      outAnn.Put(Annotation(ss, es, row, text));
    }

    /** Each chunk arrives least significant bit first; it is stored reversed, in the order seen. */
    method StoreBits(mosiBits: seq<Bit>, misoBits: seq<Bit>)
      requires |mosiBits| == |misoBits|
      modifies this`nbBitsInFrame, this`mosi, this`miso
      ensures Accumulators() == Assembler.StoreBits(old(Accumulators()), mosiBits, misoBits)
    {
      var cpMosiBits := Reverse(mosiBits);
      mosi := mosi + cpMosiBits;
      var cpMisoBits := Reverse(misoBits);
      miso := miso + cpMisoBits;
      nbBitsInFrame := nbBitsInFrame + |cpMosiBits|;
    }

    /** `decode_field`: extract one field, format it and emit its annotation. */
    method DecodeField(bits: seq<Bit>, row: Row, f: Catalog.Field)
      requires Decodable(bits, f)
      modifies outAnn
      ensures outAnn.anns == old(outAnn.anns) + [FieldAnnotation(bits, row, f)]
    {
      var x := DecodeBits(bits, f.offset, f.width);
      var formatted: string;
      if f.parser == Some(Catalog.FmtBitIndices) {
        formatted := BitIndices(x.value);
      } else {
        formatted := Formatted(f.parser, x.value);
      }
      Putg(x.ss, x.es, row, FieldText(f.name, formatted));
    }

    /** `annotate_fields`: one annotation per descriptor, in order; none for an empty list. */
    method AnnotateFields(bits: seq<Bit>, row: Row, fields: seq<Catalog.Field>)
      requires AllDecodable(bits, fields)
      modifies outAnn
      ensures outAnn.anns == old(outAnn.anns) + Annotations.AnnotateFields(bits, row, fields)
    {
      assert AllDecodable(bits, fields[..0]);
      for i := 0 to |fields|
        invariant AllDecodable(bits, fields[..i])
        invariant outAnn.anns == old(outAnn.anns) + Annotations.AnnotateFields(bits, row, fields[..i])
      {
        AnnotateFieldsPrefix(bits, row, fields, i);
        DecodeField(bits, row, fields[i]);
        AppendAssoc(old(outAnn.anns), Annotations.AnnotateFields(bits, row, fields[..i]), [FieldAnnotation(bits, row, fields[i])]);
      }
      assert fields[..|fields|] == fields;
    }

    /** `handle_mosi`, on the word in LSB-first order. */
    method HandleMosi() returns (r: Outcome<Fault>)
      requires IsWord(mosi)
      modifies this`crntMosiRegName, outAnn
      ensures var m := MosiEffect(old(Context()), old(mosi));
        (m.Failure? ==> r == Fail(m.error) && Context() == old(Context()) && outAnn.anns == old(outAnn.anns))
        && (m.Success? ==>
              r == Pass && Context() == m.value
              && outAnn.anns == old(outAnn.anns) + MosiAnnotations(old(ssCmd), old(esCmd), old(mosi)))
    {
      ghost var anns0 := outAnn.anns;
      var title: string;
      var msb := Bits16(mosi, Catalog.CTRL_MSB_IDX.offset, Catalog.CTRL_MSB_IDX.width);
      var fields: seq<Catalog.Field>;
      if msb == 0 {
        var addr := Bits16(mosi, Catalog.CTRL_ADDR_IDX.offset, Catalog.CTRL_ADDR_IDX.width);
        var entry := Catalog.CtrlRegister(addr);
        if entry.None? {
          return Fail(UnknownOpcode(addr));
        }
        crntMosiRegName := Some(entry.value.name);
        title := entry.value.name;
        Putg(ssCmd, esCmd, MosiReg, title);
        fields := entry.value.fields;
      } else {
        var addr := Bits16(mosi, Catalog.DAC_ADDR_IDX.offset, Catalog.DAC_ADDR_IDX.width);
        title := "DAC" + Text.Dec(addr) + " Write";
        Putg(ssCmd, esCmd, MosiReg, title);
        fields := Catalog.DacChannel(addr).value.fields;
      }
      FitsDecodable(mosi, fields);
      AnnotateFields(mosi, MosiField, fields);
      AppendAssoc(anns0, [Annotation(ssCmd, esCmd, MosiReg, title)], Annotations.AnnotateFields(mosi, MosiField, fields));
      r := Pass;
    }

    /** `handle_miso`: the reply is read by the state held before this transaction. */
    method HandleMiso() returns (r: Outcome<Fault>)
      requires IsWord(miso)
      modifies this`misoFieldsFormat, this`misoDelay, this`misoCrntRead, outAnn
      ensures var k := MisoEffect(old(Context()));
        (k.Failure? ==> r == Fail(k.error) && Context() == old(Context()) && outAnn.anns == old(outAnn.anns))
        && (k.Success? ==>
              r == Pass && Context() == k.value.ctx
              && outAnn.anns == old(outAnn.anns) + MisoAnnotations(old(ssCmd), old(esCmd), old(miso), k.value.reply))
    {
      if state == INVALID {
        ghost var invalidOnly := MisoAnnotations(ssCmd, esCmd, miso, InvalidData);
        assert invalidOnly == [Annotation(ssCmd, esCmd, MisoReg, "Invalid data")] + [];
        Putg(ssCmd, esCmd, MisoReg, "Invalid data");
        return Pass;
      }
      if state == READBACK {
        r := ReadbackReply();
      } else {
        r := AdcOpReply();
      }
    }

    /** `handle_miso` in READBACK: the reply is read in the return format the command stored. */
    method ReadbackReply() returns (r: Outcome<Fault>)
      requires IsWord(miso) && state == READBACK
      modifies this`misoCrntRead, outAnn
      ensures var k := MisoEffect(old(Context()));
        (k.Failure? ==> r == Fail(k.error) && Context() == old(Context()) && outAnn.anns == old(outAnn.anns))
        && (k.Success? ==>
              r == Pass && Context() == k.value.ctx
              && outAnn.anns == old(outAnn.anns) + MisoAnnotations(old(ssCmd), old(esCmd), old(miso), k.value.reply))
    {
      if misoFieldsFormat.None? {
        return Fail(MissingReturnFormat);
      }
      ReadReply(misoFieldsFormat.value);
      r := Pass;
    }

    /**
     * `handle_miso` in ADC_OP: the delayed first reply is "Invalid data"; every later one is a
     * result, the temperature opening each round when it was requested.
     */
    method AdcOpReply() returns (r: Outcome<Fault>)
      requires IsWord(miso) && state == ADC_OP
      modifies this`misoFieldsFormat, this`misoDelay, this`misoCrntRead, outAnn
      ensures var k := MisoEffect(old(Context()));
        (k.Failure? ==> r == Fail(k.error) && Context() == old(Context()) && outAnn.anns == old(outAnn.anns))
        && (k.Success? ==>
              r == Pass && Context() == k.value.ctx
              && outAnn.anns == old(outAnn.anns) + MisoAnnotations(old(ssCmd), old(esCmd), old(miso), k.value.reply))
    {
      if misoDelay == 1 {
        ghost var invalidOnly := MisoAnnotations(ssCmd, esCmd, miso, InvalidData);
        assert invalidOnly == [Annotation(ssCmd, esCmd, MisoReg, "Invalid data")] + [];
        Putg(ssCmd, esCmd, MisoReg, "Invalid data");
        misoDelay := 0;
        return Pass;
      }
      if misoAdcOpLen == 0 {
        return Fail(ZeroLengthAcquisition);
      }
      AdcResult();
      r := Pass;
    }

    /** A result of an acquisition past its delay: the temperature opens each round when it was requested. */
    method AdcResult()
      requires IsWord(miso) && state == ADC_OP && misoDelay != 1 && misoAdcOpLen > 0
      modifies this`misoFieldsFormat, this`misoCrntRead, outAnn
      ensures var k := MisoEffect(old(Context())).value;
        Context() == k.ctx && outAnn.anns == old(outAnn.anns) + MisoAnnotations(old(ssCmd), old(esCmd), old(miso), k.reply)
    {
      var format := if misoCrntRead % misoAdcOpLen == 0 && misoTempRead == 1 then Catalog.TMP_SENSE_RESULT else Catalog.ADC_RESULT;
      misoFieldsFormat := Some(format);
      ReadReply(format);
    }

    /** The tail of `handle_miso` on a reply in `format`: its label, its fields, one more read. */
    method ReadReply(format: Catalog.ReturnFormat)
      requires IsWord(miso)
      modifies this`misoCrntRead, outAnn
      ensures Context() == old(Context()).(crntRead := old(misoCrntRead) + 1)
      ensures outAnn.anns == old(outAnn.anns) + MisoAnnotations(ssCmd, esCmd, miso, Reading(format))
    {
      AnnotateReading(format);
      misoCrntRead := misoCrntRead + 1;
    }

    /** The label of a reply in `format` over the whole word, then one annotation per field. */
    method AnnotateReading(format: Catalog.ReturnFormat)
      requires IsWord(miso)
      modifies outAnn
      ensures outAnn.anns == old(outAnn.anns) + MisoAnnotations(ssCmd, esCmd, miso, Reading(format))
    {
      ghost var before := outAnn.anns;
      var fields := Catalog.MisoReading(format);
      Putg(ssCmd, esCmd, MisoReg, Catalog.Label(format));
      FitsDecodable(miso, fields);
      AnnotateFields(miso, MisoField, fields);
      AppendAssoc(before, [Annotation(ssCmd, esCmd, MisoReg, Catalog.Label(format))],
                  Annotations.AnnotateFields(miso, MisoField, fields));
    }

    /** `decode_word`: both words are turned to LSB-first order, then interpreted. */
    method DecodeWord() returns (r: Outcome<Fault>)
      requires IsWord(mosi) && IsWord(miso)
      modifies this`mosi, this`miso, this`crntMosiRegName, this`misoFieldsFormat, this`misoDelay,
        this`misoCrntRead, outAnn
      ensures mosi == Reverse(old(mosi))
      ensures var m := Protocol.HandleMosi(old(Context()), old(ssCmd), old(esCmd), Reverse(old(mosi)));
        (m.Failure? ==> r == Fail(m.error))
        && (m.Success? ==>
              miso == Reverse(old(miso))
              && var k := Protocol.HandleMiso(m.value.ctx, old(ssCmd), old(esCmd), Reverse(old(miso)));
              (k.Failure? ==> r == Fail(k.error))
              && (k.Success? ==> r == Pass && Context() == k.value.ctx && outAnn.anns == old(outAnn.anns) + m.value.anns + k.value.anns))
    {
      mosi := Reverse(mosi);
      r := HandleMosi();
      if r.Fail? {
        return;
      }
      miso := Reverse(miso);
      r := HandleMiso();
    }

    /** `parse_mosi_state_cmd`: returns the next state and sets up the acquisition it arms. */
    method ParseMosiStateCmd() returns (next: St)
      requires IsWord(mosi)
      modifies this`misoFieldsFormat, this`misoTempRead, this`misoAdcOpRep, this`misoAdcOpLen, this`misoDelay,
        this`misoCrntRead
      ensures var d := Protocol.ParseMosiStateCmd(old(Context()), old(mosi));
        next == d.state && Context() == d.(state := old(state))
    {
      if crntMosiRegName == Some("DAC_RD") {
        misoFieldsFormat := Some(Catalog.DAC_DATA_RD);
        return READBACK;
      }
      if crntMosiRegName == Some("CONFIG_READ_AND_LDAC") {
        // the read-enable test is on the (value, span) pair, which is always truthy
        var regRdEn := DecodeBits(mosi, 6, 1);
        return READBACK;
      }
      if crntMosiRegName == Some("ADC_SEQ") {
        var repBit := Bits16(mosi, 9, 1);
        var tempBit := Bits16(mosi, 8, 1);
        var numChannels := PopCount(Bits16(mosi, 0, 8));
        next := ArmAdcSeq(repBit, tempBit, numChannels);
        return;
      }
      if crntMosiRegName == Some("ADC_CONFIG") {
        var numChannels := PopCount(Bits16(mosi, 0, 8));
        next := ArmAdcConfig(numChannels);
        return;
      }
      next := state;
    }

    /** The ADC_SEQ branch of `parse_mosi_state_cmd`, on the bits already decoded. */
    method ArmAdcSeq(repBit: nat, tempBit: nat, numChannels: nat) returns (next: St)
      modifies this`misoFieldsFormat, this`misoTempRead, this`misoAdcOpRep, this`misoAdcOpLen, this`misoDelay,
        this`misoCrntRead
      ensures var d := Protocol.ArmAdcSeq(old(Context()), repBit, tempBit, numChannels);
        next == d.state && Context() == d.(state := old(state))
    {
      if repBit + tempBit + numChannels == 0 {
        return INVALID;
      }
      misoTempRead := tempBit;
      misoDelay := 1;
      misoAdcOpLen := tempBit + numChannels;
      misoAdcOpRep := repBit != 0;
      misoCrntRead := 0;
      return ADC_OP;
    }

    /** The ADC_CONFIG branch of `parse_mosi_state_cmd`, on the channel count already decoded. */
    method ArmAdcConfig(numChannels: nat) returns (next: St)
      modifies this`misoFieldsFormat, this`misoTempRead, this`misoAdcOpRep, this`misoAdcOpLen, this`misoDelay,
        this`misoCrntRead
      ensures var d := Protocol.ArmAdcConfig(old(Context()), numChannels);
        next == d.state && Context() == d.(state := old(state))
    {
      if numChannels == 0 {
        return INVALID;
      }
      misoDelay := 1;
      misoAdcOpLen := numChannels;
      misoCrntRead := 0;
      return ADC_OP;
    }

    method NextStInvalid() returns (next: St)
      requires IsWord(mosi)
      modifies this`misoFieldsFormat, this`misoTempRead, this`misoAdcOpRep, this`misoAdcOpLen, this`misoDelay,
        this`misoCrntRead
      ensures var d := Protocol.NextStInvalid(old(Context()), old(mosi));
        next == d.state && Context() == d.(state := old(state))
    {
      if IsReadCmd(crntMosiRegName) {
        next := ParseMosiStateCmd();
      } else {
        next := INVALID;
      }
    }

    method NextStReadback() returns (next: St)
      requires IsWord(mosi)
      modifies this`misoFieldsFormat, this`misoTempRead, this`misoAdcOpRep, this`misoAdcOpLen, this`misoDelay,
        this`misoCrntRead
      ensures var d := Protocol.NextStReadback(old(Context()), old(mosi));
        next == d.state && Context() == d.(state := old(state))
    {
      if IsReadCmd(crntMosiRegName) {
        next := ParseMosiStateCmd();
      } else {
        next := INVALID;
      }
    }

    method NextStAdcOp() returns (next: St)
      requires IsWord(mosi)
      modifies this`misoFieldsFormat, this`misoTempRead, this`misoAdcOpRep, this`misoAdcOpLen, this`misoDelay,
        this`misoCrntRead
      ensures var d := Protocol.NextStAdcOp(old(Context()), old(mosi));
        next == d.state && Context() == d.(state := old(state))
    {
      if IsReadCmd(crntMosiRegName) {
        next := ParseMosiStateCmd();
      } else if !misoAdcOpRepeat && misoCrntRead == misoAdcOpLen {
        next := INVALID;
      } else {
        next := ADC_OP;
      }
    }

    method HandleState()
      requires IsWord(mosi)
      modifies this`state, this`misoFieldsFormat, this`misoTempRead, this`misoAdcOpRep, this`misoAdcOpLen, this`misoDelay,
        this`misoCrntRead
      ensures Context() == Protocol.HandleState(old(Context()), old(mosi))
    {
      var next: St;
      if state == INVALID {
        next := NextStInvalid();
      } else if state == READBACK {
        next := NextStReadback();
      } else {
        next := NextStAdcOp();
      }
      state := next;
    }

    /**
     * The end of a 16-bit transaction in `decode`, once the command span is known: the span
     * is recorded, then `decode_word` and `handle_state` run on the accumulated words.
     */
    method DecodeTransaction(ss: int, es: int) returns (r: Outcome<Fault>)
      requires IsWord(mosi) && IsWord(miso)
      modifies this`ssCmd, this`esCmd, this`mosi, this`miso, this`state, this`crntMosiRegName, this`misoFieldsFormat,
        this`misoTempRead, this`misoAdcOpRep, this`misoAdcOpLen, this`misoDelay, this`misoCrntRead, outAnn
      ensures ssCmd == ss && esCmd == es
      ensures var t := Transaction(old(Context()), ss, es, Reverse(old(mosi)), Reverse(old(miso)));
        (t.Failure? ==> r == Fail(t.error))
        && (t.Success? ==>
              r == Pass && Context() == t.value.ctx
              && outAnn.anns == old(outAnn.anns) + t.value.mosiAnns + t.value.misoAnns)
    {
      Behaviour.TransactionIsHandlers(Context(), ss, es, Reverse(mosi), Reverse(miso));
      ssCmd := ss;
      esCmd := es;
      r := DecodeWord();
      if r.Fail? {
        return;
      }
      HandleState();
    }

    /**
     * The end of a 16-bit transaction in `decode`: the command span runs from the first bit
     * seen to the last, the transaction is decoded and the frame is cleared.
     */
    method EndTransaction() returns (r: Outcome<Fault>)
      requires Valid(Accumulators()) && nbBitsInFrame == 16
      modifies this`ssCmd, this`esCmd, this`nbBitsInFrame, this`mosi, this`miso, this`state, this`crntMosiRegName,
        this`misoFieldsFormat, this`misoTempRead, this`misoAdcOpRep, this`misoAdcOpLen, this`misoDelay, this`misoCrntRead, outAnn
      ensures var t := Transaction(old(Context()), old(mosi[0].ss), old(mosi[15].es), Reverse(old(mosi)), Reverse(old(miso)));
        (t.Failure? ==> r == Fail(t.error))
        && (t.Success? ==>
              r == Pass && Accumulators() == EMPTY && Context() == t.value.ctx
              && outAnn.anns == old(outAnn.anns) + t.value.mosiAnns + t.value.misoAnns)
    {
      r := DecodeTransaction(mosi[0].ss, mosi[|mosi| - 1].es);
      if r.Fail? {
        return;
      }
      ResetData();
    }

    /** `decode`, for one packet from the SPI layer. */
    method Decode(ev: Event) returns (r: Outcome<Fault>)
      requires Valid(Accumulators()) && EventOk(ev)
      modifies this, outAnn
      ensures var d := Assembler.Decode(old(Snapshot()), ev);
        (d.Failure? ==> r == Fail(d.error))
        && (d.Success? ==> r == Pass && Snapshot() == d.value)
    {
      r := Pass;
      match ev
      case CsChange(before, after) =>
        if CsFallingEdge(before, after) {
          ResetData();
        }
        if CsRisingEdge(before, after) {
          if nbBitsInFrame != 16 {
            ResetData();
            return;
          }
          FullFrameDecoded(Snapshot());
          r := EndTransaction();
        }
      case Bits(mosiBits, misoBits) =>
        StoreBits(mosiBits, misoBits);
      case Other =>
    }
  }
}
