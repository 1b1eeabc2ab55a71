/**
 * The protocol invariant of `Behaviour` carried across the frame assembly of `Assembler`:
 * however the chip select and the bit chunks arrive, a decoder created in its reset state
 * never evaluates the `% miso_adc_op_len` of decoders/ad5592r/pd.py with a zero length.
 */
module Safety {
  import opened Wrappers
  import opened Bits
  import opened Protocol
  import opened Assembler
  import opened Behaviour

  /**
   * From a session whose context satisfies the protocol invariant, no packet reaches the
   * ADC_OP modulo with a zero acquisition length, and the invariant holds afterwards.
   */
  lemma DecodeKeepsInv(s: Session, ev: Event)
    requires Valid(s.frame) && EventOk(ev) && Inv(s.ctx)
    ensures Decode(s, ev) != Failure(ZeroLengthAcquisition)
    ensures Decode(s, ev).Success? ==> Inv(Decode(s, ev).value.ctx)
  {
    if ev.CsChange? && CsRisingEdge(ev.before, ev.after) && s.frame.nbBits == 16 {
      var f := s.frame;
      TransactionIsControl(s.ctx, f.mosi[0].ss, f.mosi[15].es, Reverse(f.mosi), Reverse(f.miso));
      InvPreserved(s.ctx, Reverse(f.mosi));
    }
  }

  /** The invariant survives any sequence of packets, and none of them divides by zero. */
  lemma {:induction false} FeedKeepsInv(s: Session, evs: seq<Event>)
    requires Valid(s.frame) && AllOk(evs) && Inv(s.ctx)
    ensures Feed(s, evs) != Failure(ZeroLengthAcquisition)
    ensures Feed(s, evs).Success? ==> Inv(Feed(s, evs).value.ctx)
    decreases |evs|
  {
    if evs != [] {
      DecodeKeepsInv(s, evs[0]);
      if Decode(s, evs[0]).Success? {
        FeedKeepsInv(Decode(s, evs[0]).value, evs[1..]);
      }
    }
  }

  /**
   * A decoder started from reset never divides by zero, whatever packets it is fed: the
   * `% miso_adc_op_len` of `handle_miso` is only reached with a positive length.
   */
  lemma FeedFromStart(evs: seq<Event>)
    requires AllOk(evs)
    ensures Feed(START, evs) != Failure(ZeroLengthAcquisition)
  {
    InvInitial();
    FeedKeepsInv(START, evs);
  }
}
