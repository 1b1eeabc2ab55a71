/**
 * What the protocol state machine of decoders/ad5592r/pd.py does, stated over the word's
 * numeric value: how a command word is labelled, how a reply is classified, how an
 * acquisition is armed, which transitions the register names select, how a sequence of
 * transactions reads out an acquisition, and an invariant showing that the ADC_OP modulo
 * never divides by zero.
 */
module Behaviour {
  import opened Wrappers
  import opened Bits
  import opened Text
  import opened Formatters
  import opened Catalog
  import opened Annotations
  import opened Protocol

  /**
   * A control-register write (bit 15 clear) makes the name of the register its opcode
   * (bits 11..14) selects current, and is labelled with that name and the register's
   * fields; the one opcode without an entry is a fault.
   */
  lemma MosiControlWrite(c: Ctx, ss: int, es: int, mosi: seq<Bit>)
    requires IsWord(mosi) && FieldOf(Pack(mosi), 15, 1) == 0
    ensures var op := FieldOf(Pack(mosi), 11, 4);
      var r := MosiEffect(c, mosi);
      (r.Failure? <==> op == 0xE)
      && (r.Failure? ==> r.error == UnknownOpcode(op))
      && (r.Success? ==>
            var e := CtrlRegister(op).value;
            r.value == c.(regName := Some(e.name))
            && MosiAnnotations(ss, es, mosi) == [Annotation(ss, es, MosiReg, e.name)] + AnnotateFields(mosi, MosiField, e.fields))
  {
  }

  /** A DAC write (bit 15 set) is labelled with the channel in bits 12..14 and leaves the context alone. */
  lemma MosiDacWrite(c: Ctx, ss: int, es: int, mosi: seq<Bit>)
    requires IsWord(mosi) && FieldOf(Pack(mosi), 15, 1) == 1
    ensures var n := FieldOf(Pack(mosi), 12, 3);
      n < 8 && MosiEffect(c, mosi) == Success(c)
      && MosiAnnotations(ss, es, mosi) == [Annotation(ss, es, MosiReg, "DAC" + Dec(n) + " Write")] + AnnotateFields(mosi, MosiField, DAC_WR.fields)
  {
  }

  /** Interpreting a command word changes at most the current register name. */
  lemma MosiOnlyNames(c: Ctx, mosi: seq<Bit>)
    requires IsWord(mosi) && MosiEffect(c, mosi).Success?
    ensures var d := MosiEffect(c, mosi).value;
      d == c.(regName := d.regName)
      && (d.regName != c.regName ==> FieldOf(Pack(mosi), 15, 1) == 0)
  {
  }

  /**
   * The last annotation of a control write is its `REG_ADDR` field, which lies where the
   * opcode is read from and so always shows the entry's own opcode in hex.
   */
  lemma RegAddrShowsOpcode(ss: int, es: int, mosi: seq<Bit>)
    requires IsWord(mosi) && FieldOf(Pack(mosi), 15, 1) == 0 && KnownCommand(mosi)
    ensures var anns := MosiAnnotations(ss, es, mosi);
      var op := FieldOf(Pack(mosi), 11, 4);
      REG_ADDR.offset == CTRL_ADDR_IDX.offset && REG_ADDR.width == CTRL_ADDR_IDX.width
      && anns[|anns| - 1] == Annotation(mosi[14].ss, mosi[11].es, MosiField, "REG_ADDR: " + DecToHex(op))
  {
    MosiControlWrite(InitialCtx, ss, es, mosi);
    var op := FieldOf(Pack(mosi), 11, 4);
    var e := CtrlRegister(op).value;
    var fa := AnnotateFields(mosi, MosiField, e.fields);
    AnnotateFieldsOnePerField(mosi, MosiField, e.fields);
    var anns := MosiAnnotations(ss, es, mosi);
    assert anns[|anns| - 1] == fa[|fa| - 1];
    assert fa[|fa| - 1] == FieldAnnotation(mosi, MosiField, REG_ADDR);
    RegAddrAnnotation(mosi);
  }

  lemma RegAddrAnnotation(mosi: seq<Bit>)
    requires IsWord(mosi)
    ensures FieldAnnotation(mosi, MosiField, REG_ADDR)
      == Annotation(mosi[14].ss, mosi[11].es, MosiField, "REG_ADDR: " + DecToHex(FieldOf(Pack(mosi), 11, 4)))
  {
    DecodeBitsField(mosi, 11, 4);
    DecToHexReadsBack(FieldOf(Pack(mosi), 11, 4));
  }

  /** In INVALID the reply is "Invalid data" and nothing changes. */
  lemma MisoInInvalid(c: Ctx, ss: int, es: int, miso: seq<Bit>)
    requires IsWord(miso) && c.state == INVALID
    ensures HandleMiso(c, ss, es, miso) == Success(Step(c, [Annotation(ss, es, MisoReg, "Invalid data")]))
  {
    var a := [Annotation(ss, es, MisoReg, "Invalid data")];
    assert a + [] == a;
    assert MisoAnnotations(ss, es, miso, InvalidData) == a;
  }

  /**
   * In READBACK the reply is labelled with the stored return format and its fields, and
   * the counter advances by one; without a stored format the lookup fails.
   */
  lemma MisoInReadback(c: Ctx, ss: int, es: int, miso: seq<Bit>)
    requires IsWord(miso) && c.state == READBACK
    ensures var r := HandleMiso(c, ss, es, miso);
      (r.Failure? <==> c.fieldsFormat.None?)
      && (r.Failure? ==> r.error == MissingReturnFormat)
      && (r.Success? ==>
            var f := c.fieldsFormat.value;
            r.value.ctx == c.(crntRead := c.crntRead + 1)
            && r.value.anns == [Annotation(ss, es, MisoReg, Label(f))] + AnnotateFields(miso, MisoField, MisoReading(f)))
  {
  }

  /**
   * In ADC_OP the first reply after arming is "Invalid data" and clears the delay without
   * counting; every later one is a temperature result when the counter is at the start of
   * a round and the temperature was requested, an ADC result otherwise, and counts.
   */
  lemma MisoInAdcOp(c: Ctx, ss: int, es: int, miso: seq<Bit>)
    requires IsWord(miso) && c.state == ADC_OP
    ensures var r := HandleMiso(c, ss, es, miso);
      (r.Failure? <==> c.delay != 1 && c.adcOpLen == 0)
      && (r.Failure? ==> r.error == ZeroLengthAcquisition)
      && (c.delay == 1 ==> r == Success(Step(c.(delay := 0), [Annotation(ss, es, MisoReg, "Invalid data")])))
      && (c.delay != 1 && r.Success? ==>
            var f := r.value.ctx.fieldsFormat.value;
            r.value.ctx == c.(fieldsFormat := Some(f), crntRead := c.crntRead + 1)
            && r.value.anns == [Annotation(ss, es, MisoReg, Label(f))] + AnnotateFields(miso, MisoField, MisoReading(f))
            && (f == TMP_SENSE_RESULT <==> c.crntRead % c.adcOpLen == 0 && c.tempRead == 1)
            && (f == ADC_RESULT <==> !(c.crntRead % c.adcOpLen == 0 && c.tempRead == 1)))
  {
    if c.delay == 1 {
      MisoAdcDelayed(c, ss, es, miso);
    } else {
      MisoAdcResult(c, ss, es, miso);
    }
  }

  /** The delayed first reply of an acquisition. */
  lemma MisoAdcDelayed(c: Ctx, ss: int, es: int, miso: seq<Bit>)
    requires IsWord(miso) && c.state == ADC_OP && c.delay == 1
    ensures HandleMiso(c, ss, es, miso) == Success(Step(c.(delay := 0), [Annotation(ss, es, MisoReg, "Invalid data")]))
  {
    var a := [Annotation(ss, es, MisoReg, "Invalid data")];
    assert a + [] == a;
    assert MisoAnnotations(ss, es, miso, InvalidData) == a;
  }

  /** A counted reply of an acquisition, or the fault of a zero length. */
  lemma MisoAdcResult(c: Ctx, ss: int, es: int, miso: seq<Bit>)
    requires IsWord(miso) && c.state == ADC_OP && c.delay != 1
    ensures var r := HandleMiso(c, ss, es, miso);
      (r.Failure? <==> c.adcOpLen == 0)
      && (r.Failure? ==> r.error == ZeroLengthAcquisition)
      && (r.Success? ==>
            var f := r.value.ctx.fieldsFormat.value;
            r.value.ctx == c.(fieldsFormat := Some(f), crntRead := c.crntRead + 1)
            && r.value.anns == [Annotation(ss, es, MisoReg, Label(f))] + AnnotateFields(miso, MisoField, MisoReading(f))
            && (f == TMP_SENSE_RESULT <==> c.crntRead % c.adcOpLen == 0 && c.tempRead == 1)
            && (f == ADC_RESULT <==> !(c.crntRead % c.adcOpLen == 0 && c.tempRead == 1)))
  {
  }

  /** No return format is labelled "Invalid data", so the label tells the two kinds of reply apart. */
  lemma ReplyTextDistinct(r: Reply)
    ensures ReplyText(r) == "Invalid data" <==> r == InvalidData
  {
    if r.Reading? {
      assert |ReplyText(r)| != |"Invalid data"|;
    }
  }

  /**
   * Every reply is either "Invalid data", which leaves the counter alone, or read in a
   * return format, which advances it by exactly one and records the format; the state,
   * the register name and the acquisition parameters never change while labelling.
   */
  lemma MisoCounter(c: Ctx)
    requires MisoEffect(c).Success?
    ensures var k := MisoEffect(c);
      var d := k.value.ctx;
      d.state == c.state && d.regName == c.regName && d.tempRead == c.tempRead
      && d.adcOpLen == c.adcOpLen && d.adcOpRepeat == c.adcOpRepeat && d.adcOpRep == c.adcOpRep
      && (k.value.reply == InvalidData <==> c.state == INVALID || (c.state == ADC_OP && c.delay == 1))
      && (k.value.reply == InvalidData ==> d.crntRead == c.crntRead)
      && (k.value.reply.Reading? ==> d.crntRead == c.crntRead + 1 && d.fieldsFormat == Some(k.value.reply.format))
  {
  }

  /**
   * A transaction is `decode_word` followed by `handle_state`: the command word is
   * interpreted, then the reply by the context it leaves, then the next state is chosen.
   */
  lemma TransactionIsHandlers(c: Ctx, ss: int, es: int, mosi: seq<Bit>, miso: seq<Bit>)
    requires IsWord(mosi) && IsWord(miso)
    ensures var t := Transaction(c, ss, es, mosi, miso);
      var m := HandleMosi(c, ss, es, mosi);
      (m.Failure? ==> t == Failure(m.error))
      && (m.Success? ==>
            var r := HandleMiso(m.value.ctx, ss, es, miso);
            (r.Failure? ==> t == Failure(r.error))
            && (r.Success? ==>
                  t.Success? && t.value.ctx == HandleState(r.value.ctx, mosi)
                  && t.value.mosiAnns == m.value.anns && t.value.misoAnns == r.value.anns
                  && t.value.misoAnns[0].text == ReplyText(t.value.reply)))
  {
  }

  /**
   * After a control write naming ADC_SEQ, from any state: with no channel, no temperature
   * and no repeat bit the decoder returns to INVALID untouched; otherwise it arms an
   * acquisition of one read per channel selected in bits 0..7 plus one for the temperature
   * (bit 8), starting with one delayed reply and the counter at 0.
   */
  lemma ArmAdcSeqEffect(c: Ctx, mosi: seq<Bit>)
    requires IsWord(mosi) && c.regName == Some("ADC_SEQ")
    ensures var w := Pack(mosi);
      var rep := FieldOf(w, 9, 1);
      var temp := FieldOf(w, 8, 1);
      var chans := SetBits(FieldOf(w, 0, 8), 0);
      var d := HandleState(c, mosi);
      (rep + temp + |chans| == 0 ==> d == c.(state := INVALID))
      && (rep + temp + |chans| != 0 ==>
            d == c.(state := ADC_OP, tempRead := temp, delay := 1, adcOpLen := temp + |chans|,
                    adcOpRep := rep == 1, crntRead := 0))
  {
    assert READ_CMDS[2] == "ADC_SEQ";
    assert IsReadCmd(c.regName);
    assert HandleState(c, mosi) == ParseMosiStateCmd(c, mosi);
    PopCountIsSetBits(FieldOf(Pack(mosi), 0, 8));
  }

  /**
   * After a control write naming ADC_CONFIG: no channel selected returns to INVALID;
   * otherwise an acquisition of one read per channel is armed, and the temperature flag of
   * an earlier ADC_SEQ stays as it was.
   */
  lemma ArmAdcConfigEffect(c: Ctx, mosi: seq<Bit>)
    requires IsWord(mosi) && c.regName == Some("ADC_CONFIG")
    ensures var chans := SetBits(FieldOf(Pack(mosi), 0, 8), 0);
      var d := HandleState(c, mosi);
      (|chans| == 0 ==> d == c.(state := INVALID))
      && (|chans| != 0 ==> d == c.(state := ADC_OP, delay := 1, adcOpLen := |chans|, crntRead := 0))
      && d.tempRead == c.tempRead
  {
    assert READ_CMDS[3] == "ADC_CONFIG";
    assert IsReadCmd(c.regName);
    assert HandleState(c, mosi) == ParseMosiStateCmd(c, mosi);
    PopCountIsSetBits(FieldOf(Pack(mosi), 0, 8));
  }

  /** DAC_RD selects readback of DAC data, from any state. */
  lemma DacRdSelectsReadback(c: Ctx, mosi: seq<Bit>)
    requires IsWord(mosi) && c.regName == Some("DAC_RD")
    ensures HandleState(c, mosi) == c.(state := READBACK, fieldsFormat := Some(DAC_DATA_RD))
  {
  }

  /**
   * CONFIG_READ_AND_LDAC selects readback from any state whatever its read-enable bit 6
   * holds, and leaves the return format as it was.
   */
  lemma ConfigReadAlwaysReadback(c: Ctx, mosi: seq<Bit>)
    requires IsWord(mosi) && c.regName == Some("CONFIG_READ_AND_LDAC")
    ensures HandleState(c, mosi) == c.(state := READBACK)
  {
  }

  /**
   * Without a read command as the current register name, INVALID and READBACK fall to
   * INVALID, and ADC_OP falls to INVALID exactly when the counter has reached the
   * acquisition length (the repeat flag being clear); nothing but the state changes.
   */
  lemma NonCommandTransition(c: Ctx, mosi: seq<Bit>)
    requires IsWord(mosi) && !IsReadCmd(c.regName)
    ensures var d := HandleState(c, mosi);
      d == c.(state := d.state)
      && (c.state != ADC_OP ==> d.state == INVALID)
      && (c.state == ADC_OP && !c.adcOpRepeat ==> (d.state == INVALID <==> c.crntRead == c.adcOpLen))
      && (c.state == ADC_OP ==> d.state != READBACK)
  {
  }

  /** Which opcodes name the four read commands. */
  lemma ReadCommandOpcodes(op: nat)
    requires CtrlRegister(op).Some?
    ensures var name := CtrlRegister(op).value.name;
      (name == "DAC_RD" <==> op == 0x1) && (name == "ADC_SEQ" <==> op == 0x2)
      && (name == "ADC_CONFIG" <==> op == 0x4) && (name == "CONFIG_READ_AND_LDAC" <==> op == 0x7)
      && (IsReadCmd(Some(name)) <==> op in {0x1, 0x2, 0x4, 0x7})
  {
  }

  /**
   * A DAC write keeps the register name of the last control write, so after DAC_RD every
   * DAC write is answered as DAC readback again rather than ending the readback.
   */
  lemma DacWriteRepeatsReadback(c: Ctx, mosi: seq<Bit>)
    requires IsWord(mosi) && FieldOf(Pack(mosi), 15, 1) == 1
    requires c.regName == Some("DAC_RD") && c.state == READBACK && c.fieldsFormat == Some(DAC_DATA_RD)
    ensures Control(c, mosi) == Success(Classified(c.(crntRead := c.crntRead + 1), Reading(DAC_DATA_RD)))
  {
  }

  /**
   * A DAC write during an ADC_SEQ acquisition re-runs the ADC_SEQ decision on the DAC
   * word's own bits: the acquisition, if any, starts over with its delayed reply pending.
   */
  lemma DacWriteRestartsAcquisition(c: Ctx, mosi: seq<Bit>)
    requires IsWord(mosi) && FieldOf(Pack(mosi), 15, 1) == 1
    requires c.regName == Some("ADC_SEQ") && Control(c, mosi).Success?
    ensures var d := Control(c, mosi).value.ctx;
      var w := Pack(mosi);
      d.state != READBACK && d.regName == c.regName
      && (d.state == ADC_OP ==>
            d.delay == 1 && d.crntRead == 0
            && d.adcOpLen == FieldOf(w, 8, 1) + |SetBits(FieldOf(w, 0, 8), 0)|)
  {
    var k := MisoEffect(c).value;
    MisoCounter(c);
    ArmAdcSeqEffect(k.ctx, mosi);
  }

  /**
   * The repeat bit of ADC_SEQ is stored in a field nothing reads: a transaction behaves
   * the same whatever that field holds, and never sets the flag the ADC_OP rule reads.
   */
  lemma RepeatBitIsIgnored(c: Ctx, b: bool, mosi: seq<Bit>)
    requires IsWord(mosi)
    ensures var r := Control(c, mosi);
      var s := Control(c.(adcOpRep := b), mosi);
      r.Success? == s.Success?
      && (r.Failure? ==> r.error == s.error)
      && (r.Success? ==>
            r.value.reply == s.value.reply
            && r.value.ctx.(adcOpRep := false) == s.value.ctx.(adcOpRep := false)
            && r.value.ctx.adcOpRepeat == c.adcOpRepeat)
  {
    var m := MosiEffect(c, mosi);
    var m' := MosiEffect(c.(adcOpRep := b), mosi);
    if m.Success? {
      MosiOnlyNames(c, mosi);
      MosiOnlyNames(c.(adcOpRep := b), mosi);
      assert m'.value == m.value.(adcOpRep := b);
      var k := MisoEffect(m.value);
      var k' := MisoEffect(m.value.(adcOpRep := b));
      MisoIgnoresRep(m.value, b);
      if k.Success? {
        MisoCounter(m.value);
        assert k'.value.ctx == k.value.ctx.(adcOpRep := b);
        StateIgnoresRep(k.value.ctx, b, mosi);
      }
    }
  }

  lemma MisoIgnoresRep(c: Ctx, b: bool)
    ensures var k := MisoEffect(c);
      var k' := MisoEffect(c.(adcOpRep := b));
      k.Success? == k'.Success?
      && (k.Failure? ==> k.error == k'.error)
      && (k.Success? ==> k'.value == k.value.(ctx := k.value.ctx.(adcOpRep := b)))
  {
  }

  lemma StateIgnoresRep(c: Ctx, b: bool, mosi: seq<Bit>)
    requires IsWord(mosi)
    ensures HandleState(c, mosi).(adcOpRep := false) == HandleState(c.(adcOpRep := b), mosi).(adcOpRep := false)
    ensures HandleState(c, mosi).adcOpRepeat == c.adcOpRepeat
  {
    var c' := c.(adcOpRep := b);
    if IsReadCmd(c.regName) {
      assert HandleState(c, mosi) == ParseMosiStateCmd(c, mosi);
      assert HandleState(c', mosi) == ParseMosiStateCmd(c', mosi);
      ParseIgnoresRep(c, b, mosi);
    }
  }

  lemma ParseIgnoresRep(c: Ctx, b: bool, mosi: seq<Bit>)
    requires IsWord(mosi)
    ensures ParseMosiStateCmd(c, mosi).(adcOpRep := false) == ParseMosiStateCmd(c.(adcOpRep := b), mosi).(adcOpRep := false)
    ensures ParseMosiStateCmd(c, mosi).adcOpRepeat == c.adcOpRepeat
  {
    // One case per register that selects a branch of `parse_mosi_state_cmd`.
    if c.regName == Some("ADC_SEQ") || c.regName == Some("ADC_CONFIG") {
      ArmIgnoresRep(c, b, Bits16(mosi, 9, 1), Bits16(mosi, 8, 1), PopCount(Bits16(mosi, 0, 8)));
    } else if c.regName == Some("DAC_RD") {
    } else if c.regName == Some("CONFIG_READ_AND_LDAC") {
    }
  }

  /** Neither way of arming an acquisition reads the flag ADC_SEQ writes, nor touches the one ADC_OP reads. */
  lemma ArmIgnoresRep(c: Ctx, b: bool, rep: nat, temp: nat, n: nat)
    ensures ArmAdcSeq(c, rep, temp, n).(adcOpRep := false)
      == ArmAdcSeq(c.(adcOpRep := b), rep, temp, n).(adcOpRep := false)
    ensures ArmAdcConfig(c, n).(adcOpRep := false) == ArmAdcConfig(c.(adcOpRep := b), n).(adcOpRep := false)
    ensures ArmAdcSeq(c, rep, temp, n).adcOpRepeat == c.adcOpRepeat
    ensures ArmAdcConfig(c, n).adcOpRepeat == c.adcOpRepeat
  {
  }

  /**
   * The context a decoder started from reset keeps between transactions: the repeat flag the
   * ADC_OP rule reads stays clear, and in ADC_OP either the delayed first reply is still
   * pending with the counter at 0, or the counter is below the acquisition length.
   */
  predicate Inv(c: Ctx)
  {
    !c.adcOpRepeat
    && (c.state == ADC_OP ==> (c.delay == 1 && c.crntRead == 0) || (c.delay == 0 && c.crntRead < c.adcOpLen))
  }

  /** What holds between labelling the reply and choosing the next state. */
  predicate MidInv(c: Ctx)
  {
    !c.adcOpRepeat && (c.state == ADC_OP ==> c.delay == 0 && c.crntRead <= c.adcOpLen)
  }

  lemma InvInitial()
    ensures Inv(InitialCtx)
  {
  }

  lemma MisoKeepsMidInv(c: Ctx)
    requires Inv(c)
    ensures MisoEffect(c) != Failure(ZeroLengthAcquisition)
    ensures MisoEffect(c).Success? ==> MidInv(MisoEffect(c).value.ctx)
  {
  }

  lemma ParseKeepsInv(c: Ctx, mosi: seq<Bit>)
    requires IsWord(mosi) && MidInv(c) && IsReadCmd(c.regName)
    ensures Inv(ParseMosiStateCmd(c, mosi))
  {
    var n := PopCount(Bits16(mosi, 0, 8));
    if c.regName == Some("ADC_SEQ") {
      ArmKeepsInv(c, ArmAdcSeq(c, Bits16(mosi, 9, 1), Bits16(mosi, 8, 1), n));
    } else if c.regName == Some("ADC_CONFIG") {
      ArmKeepsInv(c, ArmAdcConfig(c, n));
    }
  }

  /** Arming an acquisition, or falling back to INVALID, from a context whose repeat flag is clear. */
  lemma ArmKeepsInv(c: Ctx, d: Ctx)
    requires !c.adcOpRepeat
    requires d == c.(state := INVALID) || (d.state == ADC_OP && d.adcOpRepeat == c.adcOpRepeat && d.delay == 1 && d.crntRead == 0)
    ensures Inv(d)
  {
  }

  lemma StateRestoresInv(c: Ctx, mosi: seq<Bit>)
    requires IsWord(mosi) && MidInv(c)
    ensures Inv(HandleState(c, mosi))
  {
    if IsReadCmd(c.regName) {
      ParseKeepsInv(c, mosi);
    }
  }

  /**
   * From a context satisfying the invariant a transaction never reaches the modulo with a
   * zero acquisition length, and leaves a context satisfying it again.
   */
  lemma InvPreserved(c: Ctx, mosi: seq<Bit>)
    requires IsWord(mosi) && Inv(c)
    ensures Control(c, mosi) != Failure(ZeroLengthAcquisition)
    ensures Control(c, mosi).Success? ==> Inv(Control(c, mosi).value.ctx)
  {
    var m := MosiEffect(c, mosi);
    if m.Success? {
      assert m.value == c.(regName := m.value.regName);
      MisoKeepsMidInv(m.value);
      var k := MisoEffect(m.value);
      if k.Success? {
        StateRestoresInv(k.value.ctx, mosi);
      }
    }
  }

  predicate AllWords(mosis: seq<seq<Bit>>)
  {
    forall i :: 0 <= i < |mosis| ==> IsWord(mosis[i])
  }

  /** The final context and the classification of each reply. */
  datatype Trace = Trace(ctx: Ctx, replies: seq<Reply>)

  /** The state-machine part of a sequence of transactions; the first fault ends it. */
  function Run(c: Ctx, mosis: seq<seq<Bit>>): (r: Result<Trace, Fault>)
    requires AllWords(mosis)
    ensures r.Success? ==> |r.value.replies| == |mosis|
    decreases |mosis|
  {
    if mosis == [] then Success(Trace(c, []))
    else
      match Control(c, mosis[0])
      case Failure(e) => Failure(e)
      case Success(k) =>
        match Run(k.ctx, mosis[1..])
        case Failure(e) => Failure(e)
        case Success(t) => Success(Trace(t.ctx, [k.reply] + t.replies))
  }

  lemma RunCons(c: Ctx, mosis: seq<seq<Bit>>, k: Classified, t: Trace)
    requires AllWords(mosis) && mosis != []
    requires Control(c, mosis[0]) == Success(k) && Run(k.ctx, mosis[1..]) == Success(t)
    ensures Run(c, mosis) == Success(Trace(t.ctx, [k.reply] + t.replies))
  {
  }

  /** From a context satisfying the invariant, no sequence of transactions divides by zero. */
  lemma {:induction false} RunNeverDividesByZero(c: Ctx, mosis: seq<seq<Bit>>)
    requires AllWords(mosis) && Inv(c)
    ensures Run(c, mosis) != Failure(ZeroLengthAcquisition)
    ensures Run(c, mosis).Success? ==> Inv(Run(c, mosis).value.ctx)
    decreases |mosis|
  {
    if mosis != [] {
      InvPreserved(c, mosis[0]);
      var k := Control(c, mosis[0]);
      if k.Success? {
        assert AllWords(mosis[1..]);
        RunNeverDividesByZero(k.value.ctx, mosis[1..]);
      }
    }
  }

  /** In particular from reset: the `% adc_op_len` is never reached with a zero length. */
  lemma RunFromReset(mosis: seq<seq<Bit>>)
    requires AllWords(mosis)
    ensures Run(InitialCtx, mosis) != Failure(ZeroLengthAcquisition)
  {
    InvInitial();
    RunNeverDividesByZero(InitialCtx, mosis);
  }

  /**
   * CONFIG_READ_AND_LDAC as the first command after reset selects readback with no return
   * format stored, so the next transaction fails on the format lookup.
   */
  lemma ConfigReadFirstFails(mosis: seq<seq<Bit>>)
    requires AllWords(mosis) && |mosis| >= 2
    requires FieldOf(Pack(mosis[0]), 15, 1) == 0 && FieldOf(Pack(mosis[0]), 11, 4) == 0x7
    requires KnownCommand(mosis[1])
    ensures Run(InitialCtx, mosis) == Failure(MissingReturnFormat)
  {
    ConfigReadFromInvalid(InitialCtx, mosis[0]);
    var k := Control(InitialCtx, mosis[0]).value;
    var rest := mosis[1..];
    assert rest[0] == mosis[1];
    ReadbackWithoutFormatFails(k.ctx, rest[0]);
    assert Run(k.ctx, rest) == Failure(MissingReturnFormat);
  }

  /** CONFIG_READ_AND_LDAC sent in INVALID: the reply is "Invalid data" and readback follows. */
  lemma ConfigReadFromInvalid(c: Ctx, mosi: seq<Bit>)
    requires IsWord(mosi) && c.state == INVALID
    requires FieldOf(Pack(mosi), 15, 1) == 0 && FieldOf(Pack(mosi), 11, 4) == 0x7
    ensures Control(c, mosi) == Success(Classified(c.(regName := Some("CONFIG_READ_AND_LDAC"), state := READBACK), InvalidData))
  {
    MosiControlWrite(c, 0, 0, mosi);
    var m := MosiEffect(c, mosi).value;
    assert m == c.(regName := Some("CONFIG_READ_AND_LDAC"));
    MisoInInvalidEffect(m);
    ConfigReadAlwaysReadback(m, mosi);
  }

  /** READBACK with no return format stored fails on the reply of any known command. */
  lemma ReadbackWithoutFormatFails(c: Ctx, mosi: seq<Bit>)
    requires IsWord(mosi) && KnownCommand(mosi) && c.state == READBACK && c.fieldsFormat.None?
    ensures Control(c, mosi) == Failure(MissingReturnFormat)
  {
    MosiOnlyNames(c, mosi);
  }

  lemma MisoInInvalidEffect(c: Ctx)
    requires c.state == INVALID
    ensures MisoEffect(c) == Success(Classified(c, InvalidData))
  {
  }

  /** A control write to a register that is not a read command. */
  predicate PlainControlWrite(mosi: seq<Bit>)
  {
    |mosi| == 16 && FieldOf(Pack(mosi), 15, 1) == 0 && FieldOf(Pack(mosi), 11, 4) !in {0x1, 0x2, 0x4, 0x7, 0xE}
  }

  /** Every word of `mosis` is a plain control write. */
  predicate AllPlain(mosis: seq<seq<Bit>>)
    decreases |mosis|
  {
    mosis == [] || (PlainControlWrite(mosis[0]) && AllPlain(mosis[1..]))
  }

  /**
   * A plain control write during an acquisition: the reply is the delayed "Invalid data"
   * or the next result, and the acquisition ends exactly when the counter reaches its length.
   */
  lemma AcquisitionStep(c: Ctx, mosi: seq<Bit>)
    requires PlainControlWrite(mosi)
    requires c.state == ADC_OP && !c.adcOpRepeat && c.adcOpLen > 0 && c.delay <= 1
    ensures var x := Control(c, mosi);
      x.Success?
      && var d := x.value.ctx;
      d.adcOpLen == c.adcOpLen && d.tempRead == c.tempRead && !d.adcOpRepeat && d.delay == 0
      && (c.delay == 1 ==> x.value.reply == InvalidData && d.crntRead == c.crntRead)
      && (c.delay != 1 ==>
            x.value.reply == Reading(AdcFormat(c.crntRead, c.adcOpLen, c.tempRead))
            && d.crntRead == c.crntRead + 1)
      && (d.state == INVALID <==> d.crntRead == c.adcOpLen)
      && (d.state == INVALID || d.state == ADC_OP)
  {
    MosiControlWrite(c, 0, 0, mosi);
    ReadCommandOpcodes(FieldOf(Pack(mosi), 11, 4));
    var n := MosiEffect(c, mosi).value;
    assert !IsReadCmd(n.regName);
    MisoCounter(n);
    var mid := MisoEffect(n).value.ctx;
    NonCommandTransition(mid, mosi);
  }

  /** The return format of read i of a one-shot acquisition: the temperature comes first when it was requested. */
  function OneShotFormat(i: nat, temp: nat): ReturnFormat
  {
    if i == 0 && temp == 1 then TMP_SENSE_RESULT else ADC_RESULT
  }

  /** Within the first round the counter is its own position, so `AdcFormat` is `OneShotFormat`. */
  lemma OneShotIsAdcFormat(i: nat, len: nat, temp: nat)
    requires i < len
    ensures AdcFormat(i, len, temp) == OneShotFormat(i, temp)
  {
    assert i % len == i;
  }

  /** The replies of reads `from .. from+count-1` of a one-shot acquisition. */
  function ResultReplies(from: nat, temp: nat, count: nat): (r: seq<Reply>)
    ensures |r| == count
    ensures forall i :: 0 <= i < count ==> r[i] == Reading(OneShotFormat(from + i, temp))
    decreases count
  {
    if count == 0 then [] else [Reading(OneShotFormat(from, temp))] + ResultReplies(from + 1, temp, count - 1)
  }

  /**
   * Once the delayed reply of an acquisition has been consumed, plain control writes read
   * out the remaining results one per transaction, the temperature leading a round when it
   * was requested, and the last one returns the decoder to INVALID.
   */
  lemma {:induction false} AcquisitionReadsOut(c: Ctx, mosis: seq<seq<Bit>>)
    requires AllWords(mosis) && AllPlain(mosis)
    requires c.state == ADC_OP && !c.adcOpRepeat && c.delay == 0 && c.crntRead < c.adcOpLen
    requires |mosis| == c.adcOpLen - c.crntRead
    ensures var r := Run(c, mosis);
      r.Success? && r.value.ctx.state == INVALID
      && r.value.replies == ResultReplies(c.crntRead, c.tempRead, |mosis|)
    decreases |mosis|
  {
    var d := ReadOutStep(c, mosis);
    if |mosis| == 1 {
      assert mosis[1..] == [];
    } else {
      AcquisitionReadsOut(d, mosis[1..]);
    }
  }

  /** One read of an acquisition past its delay: the result is the reply, then the rest of the run follows from `d`. */
  lemma ReadOutStep(c: Ctx, mosis: seq<seq<Bit>>) returns (d: Ctx)
    requires AllWords(mosis) && AllPlain(mosis) && mosis != []
    requires c.state == ADC_OP && !c.adcOpRepeat && c.delay == 0 && c.crntRead < c.adcOpLen
    ensures d.adcOpLen == c.adcOpLen && d.tempRead == c.tempRead && !d.adcOpRepeat && d.delay == 0
    ensures d.crntRead == c.crntRead + 1 && (d.state == INVALID <==> d.crntRead == c.adcOpLen)
    ensures d.state == INVALID || d.state == ADC_OP
    ensures AllWords(mosis[1..]) && AllPlain(mosis[1..])
    ensures var r := Run(d, mosis[1..]);
      r.Success? ==> Run(c, mosis) == Success(Trace(r.value.ctx, [Reading(OneShotFormat(c.crntRead, c.tempRead))] + r.value.replies))
  {
    AcquisitionStep(c, mosis[0]);
    OneShotIsAdcFormat(c.crntRead, c.adcOpLen, c.tempRead);
    var k := Control(c, mosis[0]).value;
    d := k.ctx;
    if Run(d, mosis[1..]).Success? {
      RunCons(c, mosis, k, Run(d, mosis[1..]).value);
    }
  }

  /**
   * ADC_SEQ selecting channels 0 and 2 and the temperature, sent from INVALID and followed
   * by four plain control writes: the replies read "Invalid data" (the command's own reply),
   * "Invalid data" (the pipeline delay), then a temperature result and two ADC results,
   * after which the decoder is back in INVALID.
   */
  lemma AdcSeqWorkedExample(c: Ctx, mosis: seq<seq<Bit>>)
    requires |mosis| == 5 && AllWords(mosis) && Pack(mosis[0]) == 0x1105 && AllPlain(mosis[1..])
    requires c.state == INVALID && !c.adcOpRepeat
    ensures var r := Run(c, mosis);
      r.Success? && r.value.ctx.state == INVALID
      && r.value.replies
         == [InvalidData, InvalidData, Reading(TMP_SENSE_RESULT), Reading(ADC_RESULT), Reading(ADC_RESULT)]
  {
    WorkedExampleFields(Pack(mosis[0]));
    AdcSeqArmsThree(c, mosis[0]);
    var k0 := Control(c, mosis[0]).value;
    ArmedAcquisitionReadsOut(k0.ctx, mosis[1..]);
    WorkedExampleResults();
    RunCons(c, mosis, k0, Run(k0.ctx, mosis[1..]).value);
  }

  /** The three results of the worked example: the temperature, then two ADC results. */
  lemma WorkedExampleResults()
    ensures ResultReplies(0, 1, 3) == [Reading(TMP_SENSE_RESULT), Reading(ADC_RESULT), Reading(ADC_RESULT)]
  {
  }

  /**
   * An armed acquisition followed by plain control writes: the first reply is the delayed
   * "Invalid data", then every result is read out once, and the decoder is back in INVALID.
   */
  lemma ArmedAcquisitionReadsOut(c: Ctx, mosis: seq<seq<Bit>>)
    requires AllWords(mosis) && AllPlain(mosis)
    requires c.state == ADC_OP && !c.adcOpRepeat && c.delay == 1 && c.crntRead == 0 && c.adcOpLen > 0
    requires |mosis| == c.adcOpLen + 1
    ensures var r := Run(c, mosis);
      r.Success? && r.value.ctx.state == INVALID
      && r.value.replies == [InvalidData] + ResultReplies(0, c.tempRead, c.adcOpLen)
  {
    AcquisitionStep(c, mosis[0]);
    var k := Control(c, mosis[0]).value;
    var rest := mosis[1..];
    AcquisitionReadsOut(k.ctx, rest);
    RunCons(c, mosis, k, Run(k.ctx, rest).value);
  }

  /** The ADC_SEQ word of the worked example arms an acquisition of three reads, temperature first. */
  lemma AdcSeqArmsThree(c: Ctx, mosi: seq<Bit>)
    requires IsWord(mosi) && c.state == INVALID
    requires var w := Pack(mosi);
      FieldOf(w, 15, 1) == 0 && FieldOf(w, 11, 4) == 0x2
      && FieldOf(w, 9, 1) == 0 && FieldOf(w, 8, 1) == 1 && FieldOf(w, 0, 8) == 0x05
    ensures Control(c, mosi)
      == Success(Classified(c.(regName := Some("ADC_SEQ"), state := ADC_OP, tempRead := 1, delay := 1,
                                adcOpLen := 3, adcOpRep := false, crntRead := 0), InvalidData))
  {
    assert SetBits(5, 0) == [0, 2];
    MosiControlWrite(c, 0, 0, mosi);
    var m := MosiEffect(c, mosi).value;
    assert m == c.(regName := Some("ADC_SEQ"));
    MisoInInvalidEffect(m);
    ArmAdcSeqEffect(m, mosi);
  }

  /** The fields of the worked example's command word 0x1105. */
  lemma WorkedExampleFields(w: nat)
    requires w == 0x1105
    ensures FieldOf(w, 15, 1) == 0 && FieldOf(w, 11, 4) == 0x2
    ensures FieldOf(w, 9, 1) == 0 && FieldOf(w, 8, 1) == 1 && FieldOf(w, 0, 8) == 0x05
  {
  }
}
