# AD5592R SPI protocol decoder, modelled in Dafny

The AD5592R decoder of libsigrokdecode sits on top of the SPI decoder. It gathers the bits
of a 16-bit transaction between two chip-select edges. It then labels the command word
sent on MOSI with the control register or DAC channel it addresses and with each of the
register's fields. It labels the reply received on MISO according to a small state
machine (INVALID, READBACK, ADC_OP), which tracks which reply the previous command asked
for. The register tables and value formatters live in `decoders/ad5592r/lists.py`. The
decoder object lives in `decoders/ad5592r/pd.py`.

The project has these modules:

- `Bits`: the bit-level layer. It covers `decode_bits` with `bitpack_lsb` and Python's clipped slice, a reference weighted sum, and a field writer used for round trips.
- `Text`: numerals in any base, `str(n)` and `','.join`.
- `Formatters`: the value formatters of `lists.py`. `bit_indices` is kept as the loop it is.
- `Catalog`: the tables `CTRL_REGISTERS`, `DAC_CHANNELS` and `MISO_READING`.
- `Annotations`: `decode_field` and `annotate_fields` as functions producing annotations.
- `Protocol`: the state machine as functions over a context value, with faults as `Result`s.
- `Behaviour`: what the state machine does, stated and proved over whole transactions and sequences of transactions.
- `Assembler`: `decode` over SPI packets, as a function over a session value.
- `Safety`: the protocol invariant carried across packets, so that a decoder created in its reset state never divides by zero.
- `AD5592R`: the decoder as a class. Its fields are updated in place by methods, and every method is proved to match the functions above.

Three errors the source raises as Python exceptions are modelled as faults:

- the control-register opcode with no table entry;
- a READBACK reply with no return format stored;
- the `% miso_adc_op_len` of an ADC_OP reply with a zero length.

## Model

| member | source | states |
|---|---|---|
| Bits.Pack | decoders/ad5592r/pd.py:182 | the LSB-first packed value of n bits is below 2^n |
| Bits.Slice | decoders/ad5592r/pd.py:180 | `bits[offset:][:width]` never fails: it has at most `width` elements, exactly `width` when the field lies inside the list, and element i is `bits[offset+i]` |
| Bits.DecodeBits | decoders/ad5592r/pd.py:175-183 | the value fits in `width` bits; the span starts at the field's highest bit and ends at its lowest |
| Bits.DecodeBitsIsWeightedSum | decoders/ad5592r/pd.py:175-183 | a field inside the word decodes to the sum of bit i times 2^i, an independent definition |
| Bits.DecodeBitsField | decoders/ad5592r/pd.py:175-183 | decoding a field reads `(word >> offset) & (2^width-1)` of the whole word's value |
| Bits.PackAppend | decoders/ad5592r/pd.py:182 | packing a concatenation is the low part plus the high part shifted by the low part's length |
| Bits.PackUnpack | decoders/ad5592r/pd.py:182 | writing a value below 2^n into n bits and packing them gives the value back |
| Bits.UnpackPack | decoders/ad5592r/pd.py:182 | unpacking the packed value of a bit list gives the list back |
| Bits.FieldRoundTrip | decoders/ad5592r/pd.py:175-183 | a value written into a field is the value `decode_bits` reads from it |
| Bits.FieldWriteBack | decoders/ad5592r/pd.py:175-183 | writing back the decoded value of a field leaves the word unchanged |
| Bits.WriteField | decoders/ad5592r/pd.py:175-183 | writing a field keeps every timestamp and every bit outside the field |
| Text.Numeral | decoders/ad5592r/pd.py:190 | the numeral of n has no leading zero and only digits of its base |
| Text.NumeralRoundTrip | decoders/ad5592r/pd.py:190 | printing a number in a base and reading the digits back gives the number |
| Text.NumeralDigit | decoders/ad5592r/pd.py:190 | a number below the base prints as the one digit that reads back as it |
| Text.NumeralStep | decoders/ad5592r/pd.py:190 | if the numeral of n / base reads back, the numeral of n reads back |
| Text.LeadingZero | decoders/ad5592r/lists.py:36-38 | a zero put in front of a numeral does not change its value |
| Text.JoinCommas | decoders/ad5592r/lists.py:50 | joining comma-free entries puts exactly one comma between neighbours, and nothing for no entry |
| Text.JoinEmpty | decoders/ad5592r/lists.py:50 | joining non-empty entries is empty exactly for the empty list |
| Text.Dec | decoders/ad5592r/lists.py:47 | no contract of its own; `str(n)` is the base-10 numeral, which `Text.NumeralRoundTrip` shows reads back as n |
| Text.Join | decoders/ad5592r/lists.py:50 | no contract of its own; its behaviour is stated by `Text.JoinCommas` and `Text.JoinEmpty` |
| Formatters.DisabledEnabled | decoders/ad5592r/lists.py:20-21 | zero prints `Disabled`, anything else `Enabled` |
| Formatters.DacCh | decoders/ad5592r/lists.py:24-25 | the text is `DAC` followed by decimal digits that read back as the channel |
| Formatters.AdcChn | decoders/ad5592r/lists.py:28-29 | the text is `ADC` followed by decimal digits that read back as the channel |
| Formatters.EmptyStr | decoders/ad5592r/lists.py:32-33 | no contract of its own; `Catalog.ApplyEmpty` states that it always prints nothing, so the field shows its bare name |
| Formatters.DecToHex | decoders/ad5592r/lists.py:36-38 | no contract of its own; its behaviour is stated by `Formatters.DecToHexReadsBack` |
| Formatters.DecToHexReadsBack | decoders/ad5592r/lists.py:36-38 | the text is `0x` and at least two hexadecimal digits that read back as the value; exactly two when the value fits a byte |
| Formatters.VrefRange | decoders/ad5592r/lists.py:96-99 | no contract of its own; `requires v < 2` is the index bound of the two-element list, which `Annotations.FitsDecodable` shows every catalog field meets |
| Formatters.PyBin | decoders/ad5592r/pd.py:239 | no contract of its own; `Formatters.PopCountIsBinCount` states what counting its `1` digits gives |
| Formatters.PopCount | decoders/ad5592r/pd.py:238-239 | no contract of its own; its behaviour is stated by `Formatters.PopCountIsBinCount` and `Formatters.PopCountIsSetBits` |
| Formatters.SetBits | decoders/ad5592r/lists.py:41-50 | the collected indices are strictly increasing and never below the start index |
| Formatters.BitIndices | decoders/ad5592r/lists.py:41-50 | the shifting loop returns the comma-joined decimal indices of the set bits, lowest first |
| Formatters.BitIndicesText | decoders/ad5592r/lists.py:41-50 | no contract of its own; the specification of the `bit_indices` loop, whose meaning is stated by `Formatters.SetBitsMembers`, `Formatters.BitIndicesShape` and `Formatters.SetBitsCount` |
| Formatters.DecListStep | decoders/ad5592r/lists.py:44-49 | one pass of the loop adds the current index when the low bit is 1, and nothing otherwise |
| Formatters.SetBitsMembers | decoders/ad5592r/lists.py:41-50 | an index is listed exactly when that bit of the number is 1 |
| Formatters.SetBitsCount | decoders/ad5592r/lists.py:41-50 | the number of listed indices is the number of `1` digits in the binary numeral |
| Formatters.PopCountIsSetBits | decoders/ad5592r/pd.py:238-239 | the channel count `bin(n).count('1')` is the number of indices `bit_indices` lists |
| Formatters.PopCountIsBinCount | decoders/ad5592r/pd.py:239 | the bit-by-bit count equals the count of `1` characters in `bin(n)` |
| Formatters.BitIndicesShape | decoders/ad5592r/lists.py:41-50 | the text is empty exactly for 0; otherwise it holds popcount(n) - 1 commas |
| Catalog.ApplyEmpty | decoders/ad5592r/lists.py:20-50 | a formatter prints nothing exactly for `empty_str`, and for `bit_indices` of 0 |
| Catalog.Apply | decoders/ad5592r/pd.py:190 | no contract of its own; `Catalog.ApplyEmpty` states when it prints nothing, and each formatter's own row states its text |
| Catalog.CtrlRegister | decoders/ad5592r/lists.py:65-203 | an opcode has an entry exactly when it is 0x0 to 0xF and not 0xE; every entry fits a 16-bit word and ends with the `REG_ADDR` field |
| Catalog.CtrlRegisterLow | decoders/ad5592r/lists.py:66-141 | opcodes 0x0 to 0x7 all have entries that fit a 16-bit word and end with `REG_ADDR` |
| Catalog.CtrlRegisterHigh | decoders/ad5592r/lists.py:142-200 | of opcodes 0x8 and up only 0xE and those above 0xF lack an entry; every entry fits and ends with `REG_ADDR` |
| Catalog.DacChannel | decoders/ad5592r/lists.py:205-265 | every 3-bit address has the same `DAC_WR` entry and no other address has one |
| Catalog.MisoReading | decoders/ad5592r/lists.py:273-289 | every reply layout fits a 16-bit word, and only `REG_READ` has no field |
| Catalog.FieldOverlap | decoders/ad5592r/lists.py:159-166 | the fields of every control register are pairwise disjoint except in `GPIO_INPUT`, where two fields share bit 10 and bit 8 is uncovered |
| Catalog.CtrlDisjointChecked | decoders/ad5592r/lists.py:65-203 | every entry other than `GPIO_INPUT` passes the field-by-field disjointness check |
| Catalog.DacLayout | decoders/ad5592r/lists.py:205-265 | every DAC entry is 12 data bits then the 3-bit address, at the `ADDR_IDX` and `MSB_IDX` of the table |
| Catalog.ReturnFormatLayout | decoders/ad5592r/lists.py:273-289 | `REG_READ` has no field; the temperature address is 4 bits wide and the other two addresses are 3 bits wide |
| Catalog.RegAddrIsAddrIdx | decoders/ad5592r/lists.py:201-202 | the `REG_ADDR` field of every entry lies where `ADDR_IDX` says the opcode is read from |
| Catalog.CTRL_ADDR_IDX | decoders/ad5592r/lists.py:201 | the opcode of a control write is read from 4 bits at offset 11, where `Catalog.RegAddrIsAddrIdx` shows every `REG_ADDR` field lies |
| Catalog.CTRL_MSB_IDX | decoders/ad5592r/lists.py:202 | bit 15 tells a control write (0) from a DAC write (1); `Behaviour.MosiControlWrite` and `Behaviour.MosiDacWrite` state the two cases |
| Catalog.DAC_ADDR_IDX | decoders/ad5592r/lists.py:263 | the DAC channel is read from 3 bits at offset 12, as `Catalog.DacLayout` states |
| Catalog.DAC_MSB_IDX | decoders/ad5592r/lists.py:264 | the DAC table reads the same bit 15 as the control table, as `Catalog.DacLayout` states |
| Catalog.Label | decoders/ad5592r/pd.py:152-153 | no contract of its own; the key of `MISO_READING` shown as the reply's label, which `Behaviour.ReplyTextDistinct` shows never reads "Invalid data" |
| Annotations.FitsDecodable | decoders/ad5592r/pd.py:185-196 | every catalog field can be sliced out of a 16-bit word and formatted |
| Annotations.AnnotateFields | decoders/ad5592r/pd.py:198-212 | one annotation per descriptor |
| Annotations.Formatted | decoders/ad5592r/pd.py:190 | no contract of its own; its behaviour is stated by `Annotations.FieldTextMeaning` |
| Annotations.FieldText | decoders/ad5592r/pd.py:191-194 | no contract of its own; its behaviour is stated by `Annotations.FieldTextBare` and `Annotations.FieldTextMeaning` |
| Annotations.FieldAnnotation | decoders/ad5592r/pd.py:185-196 | no contract of its own; its behaviour is stated by `Annotations.FieldAnnotationMeaning` |
| Annotations.AnnotateFieldsOnePerField | decoders/ad5592r/pd.py:198-212 | annotation i is the annotation of descriptor i, in descriptor order |
| Annotations.AnnotateFieldsPrefix | decoders/ad5592r/pd.py:200-212 | annotating one more descriptor appends exactly its annotation |
| Annotations.FieldTextBare | decoders/ad5592r/pd.py:190-193 | the text is the bare name exactly when the formatted value is empty |
| Annotations.FieldTextMeaning | decoders/ad5592r/pd.py:188-193 | the text is the bare name exactly for `empty_str` or `bit_indices` of 0; otherwise it is `name: value`, in decimal when there is no formatter |
| Annotations.FieldAnnotationMeaning | decoders/ad5592r/pd.py:185-196 | a field annotation covers the field's highest to lowest bit, on the given row, with the text `FieldTextMeaning` describes |
| Protocol.Bits16 | decoders/ad5592r/pd.py:124-129 | a field of a command word is below 2^width |
| Protocol.MosiEffect | decoders/ad5592r/pd.py:123-143 | interpreting a command word succeeds exactly for a DAC write or a control write to an opcode that has an entry |
| Protocol.MosiAnnotations | decoders/ad5592r/pd.py:127-143 | no contract of its own; its behaviour is stated by `Behaviour.MosiControlWrite`, `Behaviour.MosiDacWrite` and `Behaviour.RegAddrShowsOpcode` |
| Protocol.HandleMosi | decoders/ad5592r/pd.py:123-143 | no contract of its own; its behaviour is stated by `Behaviour.MosiControlWrite`, `Behaviour.MosiDacWrite` and `Behaviour.MosiOnlyNames` |
| Protocol.AdcFormat | decoders/ad5592r/pd.py:163-166 | no contract of its own; its behaviour is stated by `Behaviour.MisoAdcResult` and `Behaviour.OneShotIsAdcFormat` |
| Protocol.MisoEffect | decoders/ad5592r/pd.py:145-173 | no contract of its own; its behaviour is stated by `Behaviour.MisoCounter`, `Behaviour.MisoInInvalidEffect` and `Behaviour.MisoKeepsMidInv` |
| Protocol.MisoAnnotations | decoders/ad5592r/pd.py:147-172 | no contract of its own; its behaviour is stated by `Behaviour.MisoInInvalid`, `Behaviour.MisoInReadback` and `Behaviour.MisoInAdcOp` |
| Protocol.HandleMiso | decoders/ad5592r/pd.py:145-173 | no contract of its own; its behaviour is stated by `Behaviour.MisoInInvalid`, `Behaviour.MisoInReadback` and `Behaviour.MisoInAdcOp` |
| Protocol.ParseMosiStateCmd | decoders/ad5592r/pd.py:224-266 | no contract of its own; its behaviour is stated by `Behaviour.ArmAdcSeqEffect`, `Behaviour.ArmAdcConfigEffect`, `Behaviour.DacRdSelectsReadback` and `Behaviour.ConfigReadAlwaysReadback` |
| Protocol.ArmAdcSeq | decoders/ad5592r/pd.py:235-251 | no contract of its own; its behaviour is stated by `Behaviour.ArmAdcSeqEffect` and `Behaviour.ArmIgnoresRep` |
| Protocol.ArmAdcConfig | decoders/ad5592r/pd.py:253-265 | no contract of its own; its behaviour is stated by `Behaviour.ArmAdcConfigEffect` and `Behaviour.ArmIgnoresRep` |
| Protocol.NextStInvalid | decoders/ad5592r/pd.py:268-271 | no contract of its own; its behaviour is stated by `Behaviour.NonCommandTransition` and the read-command lemmas |
| Protocol.NextStReadback | decoders/ad5592r/pd.py:273-276 | no contract of its own; its behaviour is stated by `Behaviour.NonCommandTransition` and the read-command lemmas |
| Protocol.NextStAdcOp | decoders/ad5592r/pd.py:278-285 | no contract of its own; its behaviour is stated by `Behaviour.NonCommandTransition` and `Behaviour.AcquisitionStep` |
| Protocol.HandleState | decoders/ad5592r/pd.py:214-222 | no contract of its own; its behaviour is stated by `Behaviour.NonCommandTransition`, `Behaviour.StateRestoresInv` and the read-command lemmas |
| Protocol.Transaction | decoders/ad5592r/pd.py:101-109 | no contract of its own; its behaviour is stated by `Behaviour.TransactionIsHandlers` and `Assembler.TransactionIsControl` |
| Protocol.ResetCtx | decoders/ad5592r/pd.py:80-95 | no contract of its own; `Behaviour.InvInitial` shows the reset context satisfies the invariant, and `AD5592R.Decoder.ResetState` that the object reaches it |
| Protocol.InitialCtx | decoders/ad5592r/pd.py:53-56 | no contract of its own; the context `reset` leaves in a new decoder, from which `Behaviour.RunFromReset` and `Safety.FeedFromStart` rule out the zero-length modulo |
| Protocol.Control | decoders/ad5592r/pd.py:101-109 | no contract of its own; `Behaviour.TransactionIsHandlers` shows it chains the three handlers, and `Assembler.TransactionIsControl` that it alone decides the context and the faults of a transaction |
| Protocol.READ_CMDS | decoders/ad5592r/pd.py:54-55 | no contract of its own; `Behaviour.ReadCommandOpcodes` shows the four names are exactly the entries of opcodes 0x1, 0x2, 0x4 and 0x7 |
| Protocol.IsReadCmd | decoders/ad5592r/pd.py:269-279 | no contract of its own; its behaviour is stated by `Behaviour.ReadCommandOpcodes` and `Behaviour.NonCommandTransition` |
| Behaviour.MosiControlWrite | decoders/ad5592r/pd.py:127-135 | a control write fails exactly for opcode 0xE; otherwise its register name becomes current, and it is labelled with the name and then the register's fields |
| Behaviour.MosiDacWrite | decoders/ad5592r/pd.py:136-141 | a DAC write is labelled `DAC<n> Write` for the channel in bits 12..14, then the `DAC_WR` fields, and the context is left alone |
| Behaviour.MosiOnlyNames | decoders/ad5592r/pd.py:123-143 | a command word changes at most the current register name, and only a control write changes it |
| Behaviour.RegAddrShowsOpcode | decoders/ad5592r/pd.py:128-143 | the last annotation of a control write is `REG_ADDR: 0x..` with the entry's own opcode, spanning bits 14 to 11 |
| Behaviour.RegAddrAnnotation | decoders/ad5592r/pd.py:185-196 | the `REG_ADDR` field of any word is shown as the hex opcode over bits 14 to 11 |
| Behaviour.MisoInInvalid | decoders/ad5592r/pd.py:146-149 | in INVALID the reply is labelled "Invalid data" alone and nothing changes |
| Behaviour.MisoInInvalidEffect | decoders/ad5592r/pd.py:146-149 | in INVALID the reply is classified invalid and the context is unchanged |
| Behaviour.MisoInReadback | decoders/ad5592r/pd.py:151-154 | in READBACK the reply fails exactly when no format is stored; otherwise it is labelled with the format and its fields and the counter advances by one |
| Behaviour.MisoInAdcOp | decoders/ad5592r/pd.py:156-173 | in ADC_OP the delayed reply is "Invalid data" and clears the delay; a later reply fails exactly for a zero length, and is otherwise a temperature result exactly when the counter is at a round start and the temperature was requested |
| Behaviour.MisoAdcDelayed | decoders/ad5592r/pd.py:157-161 | the first reply after arming is "Invalid data" and only clears the delay |
| Behaviour.MisoAdcResult | decoders/ad5592r/pd.py:163-173 | a counted reply fails exactly for a zero length; otherwise it stores and shows the format the modulo test selects and counts one read |
| Behaviour.ReplyTextDistinct | decoders/ad5592r/pd.py:147-168 | no return format is labelled "Invalid data" |
| Behaviour.MisoCounter | decoders/ad5592r/pd.py:145-173 | labelling a reply never changes the state, the name or the acquisition; an invalid reply leaves the counter alone and a reading advances it by one and records its format |
| Behaviour.TransactionIsHandlers | decoders/ad5592r/pd.py:101-109 | a transaction is `handle_mosi`, then `handle_miso` on the context it leaves, then `handle_state`; the first fault ends it |
| Behaviour.ArmAdcSeqEffect | decoders/ad5592r/pd.py:235-251 | after ADC_SEQ, no channel, no temperature and no repeat bit give INVALID; otherwise an acquisition of one read per selected channel plus the temperature is armed, with one delayed reply and the counter at 0 |
| Behaviour.ArmAdcConfigEffect | decoders/ad5592r/pd.py:253-265 | after ADC_CONFIG, no channel gives INVALID; otherwise one read per channel is armed and the earlier temperature flag is kept |
| Behaviour.DacRdSelectsReadback | decoders/ad5592r/pd.py:225-227 | DAC_RD selects READBACK of DAC data from any state |
| Behaviour.ConfigReadAlwaysReadback | decoders/ad5592r/pd.py:229-233 | CONFIG_READ_AND_LDAC selects READBACK from any state, even with read-enable bit 6 clear, and keeps the stored format |
| Behaviour.NonCommandTransition | decoders/ad5592r/pd.py:268-285 | without a read command INVALID and READBACK fall to INVALID, ADC_OP ends exactly when the counter reaches the length, and only the state changes |
| Behaviour.ReadCommandOpcodes | decoders/ad5592r/pd.py:53-56 | the four read commands are exactly opcodes 0x1, 0x2, 0x4 and 0x7 |
| Behaviour.DacWriteRepeatsReadback | decoders/ad5592r/pd.py:136-141 | after DAC_RD every DAC write is answered as DAC readback again |
| Behaviour.DacWriteRestartsAcquisition | decoders/ad5592r/pd.py:235-251 | a DAC write after ADC_SEQ re-runs the ADC_SEQ decision on the DAC word's bits and restarts the acquisition with its delayed reply |
| Behaviour.RepeatBitIsIgnored | decoders/ad5592r/pd.py:248 | a transaction behaves the same whatever the field ADC_SEQ writes holds, and never sets the flag the ADC_OP rule reads |
| Behaviour.MisoIgnoresRep | decoders/ad5592r/pd.py:145-173 | labelling a reply does not read the field ADC_SEQ writes |
| Behaviour.StateIgnoresRep | decoders/ad5592r/pd.py:214-285 | choosing the next state does not read the field ADC_SEQ writes and never sets the repeat flag |
| Behaviour.ParseIgnoresRep | decoders/ad5592r/pd.py:224-266 | `parse_mosi_state_cmd` does not read the field ADC_SEQ writes and never sets the repeat flag |
| Behaviour.ArmIgnoresRep | decoders/ad5592r/pd.py:241-265 | neither way of arming reads the field ADC_SEQ writes or touches the flag ADC_OP reads |
| Behaviour.InvInitial | decoders/ad5592r/pd.py:80-95 | the reset context satisfies the invariant |
| Behaviour.MisoKeepsMidInv | decoders/ad5592r/pd.py:156-173 | under the invariant the reply never hits the zero-length modulo |
| Behaviour.ParseKeepsInv | decoders/ad5592r/pd.py:224-266 | a read command re-establishes the invariant |
| Behaviour.ArmKeepsInv | decoders/ad5592r/pd.py:241-265 | arming or falling back to INVALID keeps the invariant |
| Behaviour.StateRestoresInv | decoders/ad5592r/pd.py:214-285 | choosing the next state re-establishes the invariant |
| Behaviour.InvPreserved | decoders/ad5592r/pd.py:101-109 | under the invariant a transaction never divides by zero and keeps the invariant |
| Behaviour.Run | decoders/ad5592r/pd.py:310-311 | a successful run classifies one reply per transaction |
| Behaviour.RunCons | decoders/ad5592r/pd.py:310-311 | a run is its first transaction followed by the run of the rest |
| Behaviour.RunNeverDividesByZero | decoders/ad5592r/pd.py:163 | under the invariant no sequence of transactions reaches the modulo with a zero length |
| Behaviour.RunFromReset | decoders/ad5592r/pd.py:163 | from reset the `% miso_adc_op_len` is never reached with a zero length |
| Behaviour.ConfigReadFirstFails | decoders/ad5592r/pd.py:151-154 | CONFIG_READ_AND_LDAC as the first command after reset makes the next transaction fail on the format lookup |
| Behaviour.ConfigReadFromInvalid | decoders/ad5592r/pd.py:229-233 | CONFIG_READ_AND_LDAC in INVALID gets an invalid reply and leads to READBACK |
| Behaviour.ReadbackWithoutFormatFails | decoders/ad5592r/pd.py:151-154 | READBACK with no stored format fails on the reply of any known command |
| Behaviour.AcquisitionStep | decoders/ad5592r/pd.py:156-173 | a plain control write during an acquisition gives the delayed or the next result, and the acquisition ends exactly when the counter reaches the length |
| Behaviour.OneShotIsAdcFormat | decoders/ad5592r/pd.py:163-166 | within the first round the modulo test is "first read and temperature requested" |
| Behaviour.ResultReplies | decoders/ad5592r/pd.py:163-166 | reply i of a one-shot acquisition is the temperature when it is read 0 and the temperature was requested, and an ADC result otherwise |
| Behaviour.AcquisitionReadsOut | decoders/ad5592r/pd.py:156-173 | past the delay, plain control writes read out every remaining result once, in order, and the last returns to INVALID |
| Behaviour.ReadOutStep | decoders/ad5592r/pd.py:278-285 | one read past the delay advances the counter, produces its result and keeps the acquisition's parameters |
| Behaviour.ArmedAcquisitionReadsOut | decoders/ad5592r/pd.py:156-173 | an armed acquisition gives "Invalid data" and then every result once before returning to INVALID |
| Behaviour.AdcSeqWorkedExample | decoders/ad5592r/pd.py:235-251 | ADC_SEQ word 0x1105 from INVALID and four plain writes reply invalid, invalid, temperature, ADC and ADC, then INVALID |
| Behaviour.AdcSeqArmsThree | decoders/ad5592r/pd.py:235-251 | word 0x1105 arms three reads with the temperature first |
| Behaviour.WorkedExampleResults | decoders/ad5592r/pd.py:163-166 | the three results are temperature, ADC, ADC |
| Behaviour.WorkedExampleFields | decoders/ad5592r/pd.py:236-238 | the fields of 0x1105: control write, opcode 2, repeat 0, temperature 1, channels 0b101 |
| Assembler.Reverse | decoders/ad5592r/pd.py:106-119 | element i of the reversed list is element n-1-i |
| Assembler.ReverseReverse | decoders/ad5592r/pd.py:106-108 | reversing twice gives the list back |
| Assembler.StoreBits | decoders/ad5592r/pd.py:111-121 | storing a chunk keeps both directions as long as the bit count |
| Assembler.StoreBitsLsbOrder | decoders/ad5592r/pd.py:111-121 | read back LSB first, the stored frame is the newest chunk as delivered followed by the earlier ones |
| Assembler.CsRisingEdge | decoders/ad5592r/pd.py:287-288 | no contract of its own; its behaviour is stated by `Assembler.EdgesExclusive` |
| Assembler.CsFallingEdge | decoders/ad5592r/pd.py:290-291 | no contract of its own; its behaviour is stated by `Assembler.EdgesExclusive` |
| Assembler.EdgesExclusive | decoders/ad5592r/pd.py:287-291 | no change is both edges, and a change from an unknown level is neither |
| Assembler.Decode | decoders/ad5592r/pd.py:293-316 | a packet that decodes keeps both directions as long as the bit count |
| Assembler.FallingEdgeClears | decoders/ad5592r/pd.py:299-300 | asserting chip select clears the accumulators and nothing else |
| Assembler.UnknownLevelIgnored | decoders/ad5592r/pd.py:293-316 | a change from an unknown level and any other packet change nothing |
| Assembler.ShortFrameDropped | decoders/ad5592r/pd.py:302-306 | releasing chip select after anything but 16 bits drops the frame silently |
| Assembler.FullFrameDecoded | decoders/ad5592r/pd.py:302-312 | releasing chip select after 16 bits decodes one transaction spanning the first to the last bit seen, and clears the frame |
| Assembler.SingleChunkTransaction | decoders/ad5592r/pd.py:293-316 | one 16-bit chunk between two edges decodes that chunk as delivered, spanning its most to its least significant bit |
| Assembler.FeedChunk | decoders/ad5592r/pd.py:293-316 | a falling edge and one chunk leave the rising edge to decode that chunk alone |
| Assembler.FeedSingle | decoders/ad5592r/pd.py:293 | feeding one packet is decoding it |
| Assembler.Feed | decoders/ad5592r/pd.py:293-316 | a sequence of packets only ever appends annotations |
| Assembler.DecodeExtendsOut | decoders/ad5592r/pd.py:97-99 | one packet only ever appends annotations |
| Assembler.TransactionIsControl | decoders/ad5592r/pd.py:310-311 | the context and the faults of a transaction do not depend on its annotations |
| Safety.DecodeKeepsInv | decoders/ad5592r/pd.py:293-316 | under the invariant no packet divides by zero, and the invariant holds afterwards |
| Safety.FeedKeepsInv | decoders/ad5592r/pd.py:293-316 | under the invariant no sequence of packets divides by zero |
| Safety.FeedFromStart | decoders/ad5592r/pd.py:53-56 | a freshly created decoder never divides by zero, whatever packets it is fed |
| AD5592R.Output.constructor | decoders/ad5592r/pd.py:58-59 | the annotation channel starts empty |
| AD5592R.Output.Put | decoders/ad5592r/pd.py:97-99 | one annotation is appended |
| AD5592R.Decoder.constructor | decoders/ad5592r/pd.py:53-56 | a new decoder has empty accumulators, the reset context and no annotation |
| AD5592R.Decoder.Reset | decoders/ad5592r/pd.py:61-63 | the accumulators are empty and the context is the reset context |
| AD5592R.Decoder.ResetData | decoders/ad5592r/pd.py:65-78 | the accumulators are empty |
| AD5592R.Decoder.ResetState | decoders/ad5592r/pd.py:80-95 | the context is the reset context, and the field ADC_SEQ writes is kept |
| AD5592R.Decoder.Putg | decoders/ad5592r/pd.py:97-99 | one annotation with the given span, row and text is appended |
| AD5592R.Decoder.StoreBits | decoders/ad5592r/pd.py:111-121 | the accumulators become `Assembler.StoreBits` of the old ones |
| AD5592R.Decoder.DecodeField | decoders/ad5592r/pd.py:185-196 | the one annotation of the field is appended |
| AD5592R.Decoder.AnnotateFields | decoders/ad5592r/pd.py:198-212 | the loop appends one annotation per descriptor, in order |
| AD5592R.Decoder.HandleMosi | decoders/ad5592r/pd.py:123-143 | the name and the annotations change as `MosiEffect` and `MosiAnnotations` say, and nothing changes on a fault |
| AD5592R.Decoder.HandleMiso | decoders/ad5592r/pd.py:145-173 | the context and the annotations change as `MisoEffect` and `MisoAnnotations` say, and nothing changes on a fault |
| AD5592R.Decoder.ReadbackReply | decoders/ad5592r/pd.py:151-154 | the READBACK reply is handled as `MisoEffect` says |
| AD5592R.Decoder.AdcOpReply | decoders/ad5592r/pd.py:156-173 | the ADC_OP reply is handled as `MisoEffect` says |
| AD5592R.Decoder.AdcResult | decoders/ad5592r/pd.py:163-173 | a counted reply stores its format, annotates it and counts one read |
| AD5592R.Decoder.ReadReply | decoders/ad5592r/pd.py:168-173 | the reply is annotated in the format and the counter advances by one |
| AD5592R.Decoder.AnnotateReading | decoders/ad5592r/pd.py:168-172 | the format's label and then its fields are appended |
| AD5592R.Decoder.DecodeWord | decoders/ad5592r/pd.py:101-109 | the words are reversed in place, then `handle_mosi` and `handle_miso` run; the first fault ends it |
| AD5592R.Decoder.ParseMosiStateCmd | decoders/ad5592r/pd.py:224-266 | returns the state `Protocol.ParseMosiStateCmd` chooses and leaves its other fields |
| AD5592R.Decoder.ArmAdcSeq | decoders/ad5592r/pd.py:235-251 | returns the state and leaves the fields `Protocol.ArmAdcSeq` gives |
| AD5592R.Decoder.ArmAdcConfig | decoders/ad5592r/pd.py:253-265 | returns the state and leaves the fields `Protocol.ArmAdcConfig` gives |
| AD5592R.Decoder.NextStInvalid | decoders/ad5592r/pd.py:268-271 | returns the next state of INVALID |
| AD5592R.Decoder.NextStReadback | decoders/ad5592r/pd.py:273-276 | returns the next state of READBACK |
| AD5592R.Decoder.NextStAdcOp | decoders/ad5592r/pd.py:278-285 | returns the next state of ADC_OP |
| AD5592R.Decoder.HandleState | decoders/ad5592r/pd.py:214-222 | the context becomes `Protocol.HandleState` of the old one |
| AD5592R.Decoder.DecodeTransaction | decoders/ad5592r/pd.py:307-311 | the span is recorded, and the context and annotations follow `Transaction` |
| AD5592R.Decoder.EndTransaction | decoders/ad5592r/pd.py:307-312 | a full frame is decoded as one transaction spanning the first to the last bit, and the frame is cleared |
| AD5592R.Decoder.Decode | decoders/ad5592r/pd.py:293-316 | the whole object becomes the session `Assembler.Decode` gives, or the fault is reported |

## Left out

- `decoders/ad5626/pd.py` and `decoders/ad5592r/__init__.py` are not part of this model: they are a different decoder and the package registration.
- The framework side of the decoder is not modelled: the metadata, `register`, `put` and `start`. Annotations go to an `Output` object, created when the decoder is.
- The 5-element field descriptor (with a checker) does not occur in the tables and is not modelled. The "Invalid field description" and "Invalid state" exceptions cannot be reached from the tables and the three states, so they have no fault.
- Python exceptions end decoding in the source, and they are `Fail` outcomes or `Failure` results here. The state a decoder is left in after a fault is not specified.
- AD5592R.Decoder.HandleMiso: in READBACK with no stored format, the source emits an annotation reading `None` before the lookup raises. The model emits nothing and fails.
- AD5592R.Decoder.ReadbackReply: the same case as for `HandleMiso`. The source emits the `None` annotation before raising; the method emits nothing and reports `MissingReturnFormat`.
- AD5592R.Decoder.constructor: the source never initialises the field ADC_SEQ writes until an ADC_SEQ command arrives; the model initialises it to false. Nothing reads it (`Behaviour.RepeatBitIsIgnored`).
- The SPI layer always delivers the MOSI and MISO chunks with the same number of bits, and both directions present. A chunk with a missing direction is not modelled.
- Sample numbers are taken as given from the SPI layer. Bits are 0 or 1.

## Notes on the code and its design

- The read-enable test for CONFIG_READ_AND_LDAC (`decoders/ad5592r/pd.py:230-233`) tests the `(value, span)` pair, which is always truthy. The register therefore always selects READBACK and never keeps the previous state. The model follows the code (`Behaviour.ConfigReadAlwaysReadback`).
- ADC_SEQ stores its repeat bit in `miso_adc_op_rep` (`decoders/ad5592r/pd.py:248`), while the ADC_OP rule reads `miso_adc_op_repeat` (`decoders/ad5592r/pd.py:282`), which only `reset_state` writes. The repeat mode therefore never takes effect. The model keeps both fields (`Behaviour.RepeatBitIsIgnored`).
- The `% miso_adc_op_len` of `decoders/ad5592r/pd.py:163` would fail with a zero length, but a decoder started from reset never reaches it that way (`Safety.FeedFromStart`, `Behaviour.RunFromReset`).
- A DAC write keeps the register name of the previous control write. So after DAC_RD every DAC write is answered as another DAC readback (`Behaviour.DacWriteRepeatsReadback`). After ADC_SEQ, a DAC write re-arms the acquisition from the DAC word's own bits (`Behaviour.DacWriteRestartsAcquisition`).
- CONFIG_READ_AND_LDAC never stores a return format. As the first command after reset, it makes the next reply fail on the format lookup (`Behaviour.ConfigReadFirstFails`).
