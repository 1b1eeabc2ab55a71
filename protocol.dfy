/**
 * The protocol state machine of decoders/ad5592r/pd.py as functions over a decoder context:
 * `handle_mosi` labels the command word, `handle_miso` labels the reply using the state from
 * before the transaction, and `handle_state` with `parse_mosi_state_cmd` and the three
 * `_next_ST_*` rules derives the next state. Words are 16 entries in LSB-first order.
 * Errors the source raises are `Fault`s.
 */
module Protocol {
  import opened Wrappers
  import opened Bits
  import opened Text
  import opened Formatters
  import opened Catalog
  import opened Annotations

  datatype St = INVALID | READBACK | ADC_OP

  /**
   * The decoder context that survives between transactions (`reset_state`). `adcOpRepeat`
   * is the flag the ADC_OP rule reads; `adcOpRep` is the one ADC_SEQ writes.
   */
  datatype Ctx = Ctx(
    state: St,
    regName: Option<string>,
    fieldsFormat: Option<ReturnFormat>,
    tempRead: nat,
    adcOpRepeat: bool,
    adcOpRep: bool,
    adcOpLen: nat,
    delay: nat,
    crntRead: nat)

  /** `reset_state`; it does not touch the flag ADC_SEQ writes. */
  function ResetCtx(c: Ctx): (r: Ctx)
  {
    Ctx(INVALID, None, None, 0, false, c.adcOpRep, 0, 0, 0)
  }

  /** The context of a freshly created decoder. */
  const InitialCtx := Ctx(INVALID, None, None, 0, false, false, 0, 0, 0)

  /** The errors the source raises while decoding a word. */
  datatype Fault =
    | UnknownOpcode(op: nat)      // `CTRL_REGISTERS.get(addr)` is None for opcode 0b1110
    | MissingReturnFormat         // `MISO_READING[None]` in READBACK
    | ZeroLengthAcquisition       // `miso_crnt_read % 0` in ADC_OP

  /** How the reply of a transaction is classified: not valid, or read in a return format. */
  datatype Reply = InvalidData | Reading(format: ReturnFormat)

  /** The text of the reply's register annotation. */
  function ReplyText(r: Reply): string
  {
    match r
    case InvalidData => "Invalid data"
    case Reading(f) => Label(f)
  }

  /** The context after labelling the reply, and how it was labelled. */
  datatype Classified = Classified(ctx: Ctx, reply: Reply)

  /** The new context and the annotations of one half of a transaction. */
  datatype Step = Step(ctx: Ctx, anns: seq<Annotation>)

  /** The new context, the reply's classification and the annotations of a whole transaction. */
  datatype Exchange = Exchange(ctx: Ctx, reply: Reply, mosiAnns: seq<Annotation>, misoAnns: seq<Annotation>)

  predicate IsWord(bits: seq<Bit>) { |bits| == 16 }

  /** The value of bits `offset .. offset+width-1` of a word. */
  function Bits16(word: seq<Bit>, offset: nat, width: nat): (v: nat)
    requires IsWord(word) && 0 < width && offset + width <= 16
    ensures v < Pow2(width)
  {
    FieldOf(Pack(word), offset, width)
  }

  /** A command word the catalog describes: a DAC write, or a control write to a known opcode. */
  predicate KnownCommand(mosi: seq<Bit>)
    requires IsWord(mosi)
  {
    Bits16(mosi, CTRL_MSB_IDX.offset, CTRL_MSB_IDX.width) == 1
    || CtrlRegister(Bits16(mosi, CTRL_ADDR_IDX.offset, CTRL_ADDR_IDX.width)).Some?
  }

  /**
   * The context change of `handle_mosi`: a control write (bit 15 clear) makes its register's
   * name current, a DAC write (bit 15 set) leaves the context alone, and a control write to
   * the opcode without an entry fails.
   */
  function MosiEffect(c: Ctx, mosi: seq<Bit>): (r: Result<Ctx, Fault>)
    requires IsWord(mosi)
    ensures r.Success? <==> KnownCommand(mosi)
  {
    if Bits16(mosi, CTRL_MSB_IDX.offset, CTRL_MSB_IDX.width) == 0 then
      var addr := Bits16(mosi, CTRL_ADDR_IDX.offset, CTRL_ADDR_IDX.width);
      match CtrlRegister(addr)
      case None => Failure(UnknownOpcode(addr))
      case Some(e) => Success(c.(regName := Some(e.name)))
    else
      Success(c)
  }

  /**
   * The annotations of `handle_mosi`: the register's name, or `DAC<n> Write` for a DAC
   * write, over the whole word, then one annotation per field of the entry.
   */
  function MosiAnnotations(ss: int, es: int, mosi: seq<Bit>): seq<Annotation>
    requires IsWord(mosi) && KnownCommand(mosi)
  {
    if Bits16(mosi, CTRL_MSB_IDX.offset, CTRL_MSB_IDX.width) == 0 then
      var e := CtrlRegister(Bits16(mosi, CTRL_ADDR_IDX.offset, CTRL_ADDR_IDX.width)).value;
      FitsDecodable(mosi, e.fields);
      [Annotation(ss, es, MosiReg, e.name)] + AnnotateFields(mosi, MosiField, e.fields)
    else
      var addr := Bits16(mosi, DAC_ADDR_IDX.offset, DAC_ADDR_IDX.width);
      var e := DacChannel(addr).value;
      FitsDecodable(mosi, e.fields);
      [Annotation(ss, es, MosiReg, "DAC" + Dec(addr) + " Write")] + AnnotateFields(mosi, MosiField, e.fields)
  }

  /** `handle_mosi`. */
  function HandleMosi(c: Ctx, ss: int, es: int, mosi: seq<Bit>): Result<Step, Fault>
    requires IsWord(mosi)
  {
    match MosiEffect(c, mosi)
    case Failure(e) => Failure(e)
    case Success(d) => Success(Step(d, MosiAnnotations(ss, es, mosi)))
  }

  /**
   * The return format of the ADC_OP reply with counter `crnt` in an acquisition of `len`
   * reads: the temperature leads each round when it was requested.
   */
  function AdcFormat(crnt: nat, len: nat, temp: nat): ReturnFormat
    requires len > 0
  {
    if crnt % len == 0 && temp == 1 then TMP_SENSE_RESULT else ADC_RESULT
  }

  /**
   * The context change of `handle_miso` and how it labels the reply, by the state held
   * before this transaction. Every reply read in a return format advances the counter.
   */
  function MisoEffect(c: Ctx): Result<Classified, Fault>
  {
    match c.state
    case INVALID => Success(Classified(c, InvalidData))
    case READBACK =>
      (match c.fieldsFormat
       case None => Failure(MissingReturnFormat)
       case Some(f) => Success(Classified(c.(crntRead := c.crntRead + 1), Reading(f))))
    case ADC_OP =>
      if c.delay == 1 then Success(Classified(c.(delay := 0), InvalidData))
      else if c.adcOpLen == 0 then Failure(ZeroLengthAcquisition)
      else
        var f := AdcFormat(c.crntRead, c.adcOpLen, c.tempRead);
        Success(Classified(c.(fieldsFormat := Some(f), crntRead := c.crntRead + 1), Reading(f)))
  }

  /** The annotations of `handle_miso`: the label over the whole word, then the format's fields. */
  function MisoAnnotations(ss: int, es: int, miso: seq<Bit>, r: Reply): seq<Annotation>
    requires IsWord(miso)
  {
    [Annotation(ss, es, MisoReg, ReplyText(r))]
    + match r
      case InvalidData => []
      case Reading(f) => FitsDecodable(miso, MisoReading(f)); AnnotateFields(miso, MisoField, MisoReading(f))
  }

  /** `handle_miso`. */
  function HandleMiso(c: Ctx, ss: int, es: int, miso: seq<Bit>): Result<Step, Fault>
    requires IsWord(miso)
  {
    match MisoEffect(c)
    case Failure(e) => Failure(e)
    case Success(k) => Success(Step(k.ctx, MisoAnnotations(ss, es, miso, k.reply)))
  }

  /** `MOSI_REG_READ_CMD_LIST`. */
  const READ_CMDS: seq<string> := ["DAC_RD", "CONFIG_READ_AND_LDAC", "ADC_SEQ", "ADC_CONFIG"]

  predicate IsReadCmd(name: Option<string>)
  {
    name.Some? && name.value in READ_CMDS
  }

  /**
   * `parse_mosi_state_cmd`: the returned state is the `state` of the result, the other
   * fields are the context the call leaves behind. The read-enable test of
   * CONFIG_READ_AND_LDAC is on the `(value, span)` pair, which is never empty, so that
   * register always selects readback, and it leaves the return format as it was.
   */
  function ParseMosiStateCmd(c: Ctx, mosi: seq<Bit>): Ctx
    requires IsWord(mosi)
  {
    if c.regName == Some("DAC_RD") then
      c.(state := READBACK, fieldsFormat := Some(DAC_DATA_RD))
    else if c.regName == Some("CONFIG_READ_AND_LDAC") then
      c.(state := READBACK)
    else if c.regName == Some("ADC_SEQ") then
      ArmAdcSeq(c, Bits16(mosi, 9, 1), Bits16(mosi, 8, 1), PopCount(Bits16(mosi, 0, 8)))
    else if c.regName == Some("ADC_CONFIG") then
      ArmAdcConfig(c, PopCount(Bits16(mosi, 0, 8)))
    else
      c
  }

  /**
   * The ADC_SEQ branch of `parse_mosi_state_cmd`, given the repeat bit, the temperature bit
   * and the number of channels selected: arm an acquisition, or fall back to INVALID.
   */
  function ArmAdcSeq(c: Ctx, rep: nat, temp: nat, n: nat): Ctx
  {
    if rep + temp + n == 0 then c.(state := INVALID)
    else c.(state := ADC_OP, tempRead := temp, delay := 1, adcOpLen := temp + n, adcOpRep := rep != 0, crntRead := 0)
  }

  /** The ADC_CONFIG branch of `parse_mosi_state_cmd`, given the number of channels selected. */
  function ArmAdcConfig(c: Ctx, n: nat): Ctx
  {
    if n == 0 then c.(state := INVALID)
    else c.(state := ADC_OP, delay := 1, adcOpLen := n, crntRead := 0)
  }

  /** `_next_ST_INVALID`. */
  function NextStInvalid(c: Ctx, mosi: seq<Bit>): Ctx
    requires IsWord(mosi)
  {
    if IsReadCmd(c.regName) then ParseMosiStateCmd(c, mosi) else c.(state := INVALID)
  }

  /** `_next_ST_READBACK`: a readback lasts one transaction unless a read command follows. */
  function NextStReadback(c: Ctx, mosi: seq<Bit>): Ctx
    requires IsWord(mosi)
  {
    if IsReadCmd(c.regName) then ParseMosiStateCmd(c, mosi) else c.(state := INVALID)
  }

  /** `_next_ST_ADC_OP`: the acquisition ends once `adcOpLen` results have been read. */
  function NextStAdcOp(c: Ctx, mosi: seq<Bit>): Ctx
    requires IsWord(mosi)
  {
    if IsReadCmd(c.regName) then ParseMosiStateCmd(c, mosi)
    else if !c.adcOpRepeat && c.crntRead == c.adcOpLen then c.(state := INVALID)
    else c.(state := ADC_OP)
  }

  /** `handle_state`. */
  function HandleState(c: Ctx, mosi: seq<Bit>): Ctx
    requires IsWord(mosi)
  {
    match c.state
    case INVALID => NextStInvalid(c, mosi)
    case READBACK => NextStReadback(c, mosi)
    case ADC_OP => NextStAdcOp(c, mosi)
  }

  /**
   * The state-machine part of a transaction: the register-name change of the command word,
   * the reply's label by the prior state, then the next state.
   */
  function Control(c: Ctx, mosi: seq<Bit>): Result<Classified, Fault>
    requires IsWord(mosi)
  {
    match MosiEffect(c, mosi)
    case Failure(e) => Failure(e)
    case Success(m) =>
      match MisoEffect(m)
      case Failure(e) => Failure(e)
      case Success(k) => Success(Classified(HandleState(k.ctx, mosi), k.reply))
  }

  /** One complete 16-bit transaction: its state-machine part and its annotations. */
  function Transaction(c: Ctx, ss: int, es: int, mosi: seq<Bit>, miso: seq<Bit>): Result<Exchange, Fault>
    requires IsWord(mosi) && IsWord(miso)
  {
    match Control(c, mosi)
    case Failure(e) => Failure(e)
    case Success(k) =>
      Success(Exchange(k.ctx, k.reply, MosiAnnotations(ss, es, mosi), MisoAnnotations(ss, es, miso, k.reply)))
  }
}
