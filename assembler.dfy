/**
 * Frame assembly in decoders/ad5592r/pd.py: the `BITS` chunks of the SPI layer are stored
 * reversed per direction, a falling chip select clears the accumulators, and a rising chip
 * select decodes the frame when exactly 16 bits arrived and drops it silently otherwise.
 * A `Session` is everything the decoder object holds: the frame being accumulated, the
 * protocol context and the annotations emitted so far.
 */
module Assembler {
  import opened Wrappers
  import opened Bits
  import opened Annotations
  import opened Protocol

  /** The accumulators of `reset_data`; `mosi` and `miso` hold bits in the order they were seen. */
  datatype Frame = Frame(ssCmd: int, esCmd: int, nbBits: nat, mosi: seq<Bit>, miso: seq<Bit>)

  const EMPTY := Frame(-1, -1, 0, [], [])

  /** Both directions hold exactly the bits counted. */
  predicate Valid(f: Frame)
  {
    |f.mosi| == f.nbBits && |f.miso| == f.nbBits
  }

  /**
   * What the SPI layer passes to `decode`: a chip-select change with the previous level
   * (absent at the first change) and the new one, a chunk of bits per direction with the
   * least significant bit first, or any other packet, which the decoder ignores.
   */
  datatype Event =
    | CsChange(before: Option<int>, after: int)
    | Bits(mosiBits: seq<Bit>, misoBits: seq<Bit>)
    | Other

  /** The SPI layer delivers the two directions of a chunk with the same number of bits. */
  predicate EventOk(ev: Event)
  {
    ev.Bits? ==> |ev.mosiBits| == |ev.misoBits|
  }

  datatype Session = Session(frame: Frame, ctx: Ctx, out: seq<Annotation>)

  /** A freshly created decoder. */
  const START := Session(EMPTY, InitialCtx, [])

  function Reverse<T>(s: seq<T>): (r: seq<T>)
    ensures |r| == |s|
    ensures forall i :: 0 <= i < |s| ==> r[i] == s[|s| - 1 - i]
  {
    if s == [] then [] else Reverse(s[1..]) + [s[0]]
  }

  lemma ReverseReverse<T>(s: seq<T>)
    ensures Reverse(Reverse(s)) == s
  {
  }

  lemma ReverseAppend<T>(a: seq<T>, b: seq<T>)
    ensures Reverse(a + b) == Reverse(b) + Reverse(a)
  {
  }

  /** `store_bits`. */
  function StoreBits(f: Frame, mosiBits: seq<Bit>, misoBits: seq<Bit>): (r: Frame)
    requires |mosiBits| == |misoBits|
    ensures Valid(f) ==> Valid(r)
  {
    f.(mosi := f.mosi + Reverse(mosiBits), miso := f.miso + Reverse(misoBits), nbBits := f.nbBits + |mosiBits|)
  }

  /**
   * Read back least significant bit first, as `decode_word` does, the newest chunk comes
   * first and in the order the SPI layer delivered it: the accumulated word is the chunks
   * in reverse order of arrival.
   */
  lemma StoreBitsLsbOrder(f: Frame, mosiBits: seq<Bit>, misoBits: seq<Bit>)
    requires |mosiBits| == |misoBits|
    ensures var r := StoreBits(f, mosiBits, misoBits);
      Reverse(r.mosi) == mosiBits + Reverse(f.mosi)
      && Reverse(r.miso) == misoBits + Reverse(f.miso)
      && r.nbBits == f.nbBits + |mosiBits| && r.ssCmd == f.ssCmd && r.esCmd == f.esCmd
  {
    ReverseAppend(f.mosi, Reverse(mosiBits));
    ReverseReverse(mosiBits);
    ReverseAppend(f.miso, Reverse(misoBits));
    ReverseReverse(misoBits);
  }

  /** `cs_rising_edge`: chip select released (it is active low). */
  predicate CsRisingEdge(before: Option<int>, after: int)
  {
    before.Some? && before.value == 0 && after == 1
  }

  /** `cs_falling_edge`: chip select asserted. */
  predicate CsFallingEdge(before: Option<int>, after: int)
  {
    before.Some? && before.value == 1 && after == 0
  }

  /** No change is both edges, and a change from an unknown level is neither. */
  lemma EdgesExclusive(before: Option<int>, after: int)
    ensures !(CsRisingEdge(before, after) && CsFallingEdge(before, after))
    ensures before.None? ==> !CsRisingEdge(before, after) && !CsFallingEdge(before, after)
  {
  }

  /** `decode`, for one packet. */
  function Decode(s: Session, ev: Event): (r: Result<Session, Fault>)
    requires Valid(s.frame) && EventOk(ev)
    ensures r.Success? ==> Valid(r.value.frame)
  {
    match ev
    case CsChange(before, after) =>
      var f := if CsFallingEdge(before, after) then EMPTY else s.frame;
      if !CsRisingEdge(before, after) then Success(s.(frame := f))
      else if f.nbBits != 16 then Success(s.(frame := EMPTY))
      else
        var ss := f.mosi[0].ss;
        var es := f.mosi[|f.mosi| - 1].es;
        (match Transaction(s.ctx, ss, es, Reverse(f.mosi), Reverse(f.miso))
         case Failure(e) => Failure(e)
         case Success(x) => Success(Session(EMPTY, x.ctx, s.out + x.mosiAnns + x.misoAnns)))
    case Bits(mosiBits, misoBits) => Success(s.(frame := StoreBits(s.frame, mosiBits, misoBits)))
    case Other => Success(s)
  }

  /** Asserting chip select clears the accumulators and nothing else. */
  lemma FallingEdgeClears(s: Session)
    requires Valid(s.frame)
    ensures Decode(s, CsChange(Some(1), 0)) == Success(s.(frame := EMPTY))
  {
  }

  /** A chip-select change from an unknown level, and any packet that is not a change or bits, do nothing. */
  lemma UnknownLevelIgnored(s: Session, after: int)
    requires Valid(s.frame)
    ensures Decode(s, CsChange(None, after)) == Success(s)
    ensures Decode(s, Other) == Success(s)
  {
  }

  /**
   * Releasing chip select after anything but 16 bits drops the frame: no annotation is
   * emitted, the context is untouched and only the accumulators are cleared.
   */
  lemma ShortFrameDropped(s: Session)
    requires Valid(s.frame) && s.frame.nbBits != 16
    ensures Decode(s, CsChange(Some(0), 1)) == Success(s.(frame := EMPTY))
  {
  }

  /**
   * Releasing chip select after 16 bits decodes them as one transaction, with the command
   * span running from the first bit seen to the last, and leaves the accumulators empty.
   */
  lemma FullFrameDecoded(s: Session)
    requires Valid(s.frame) && s.frame.nbBits == 16
    ensures var f := s.frame;
      var t := Transaction(s.ctx, f.mosi[0].ss, f.mosi[15].es, Reverse(f.mosi), Reverse(f.miso));
      var r := Decode(s, CsChange(Some(0), 1));
      (t.Failure? ==> r == Failure(t.error))
      && (t.Success? ==>
            r.Success? && r.value.frame == EMPTY && r.value.ctx == t.value.ctx
            && r.value.out == s.out + t.value.mosiAnns + t.value.misoAnns)
  {
    var f := s.frame;
    assert CsRisingEdge(Some(0), 1) && !CsFallingEdge(Some(0), 1);
    assert f.mosi[|f.mosi| - 1] == f.mosi[15];
  }

  /**
   * One 16-bit chunk between two chip-select edges: the word decoded is the chunk exactly as
   * the SPI layer delivered it, its span runs from the start of its most significant bit to
   * the end of its least significant one, and the frame is empty afterwards.
   */
  lemma SingleChunkTransaction(s: Session, mosiBits: seq<Bit>, misoBits: seq<Bit>)
    requires Valid(s.frame) && |mosiBits| == 16 && |misoBits| == 16
    ensures var t := Transaction(s.ctx, mosiBits[15].ss, mosiBits[0].es, mosiBits, misoBits);
      var r := Feed(s, [CsChange(Some(1), 0), Bits(mosiBits, misoBits), CsChange(Some(0), 1)]);
      (t.Failure? ==> r == Failure(t.error))
      && (t.Success? ==> r == Success(Session(EMPTY, t.value.ctx, s.out + t.value.mosiAnns + t.value.misoAnns)))
  {
    var s2 := s.(frame := StoreBits(EMPTY, mosiBits, misoBits));
    FeedChunk(s, mosiBits, misoBits);
    StoreBitsLsbOrder(EMPTY, mosiBits, misoBits);
    assert Reverse(s2.frame.mosi) == mosiBits && Reverse(s2.frame.miso) == misoBits;
    assert s2.frame.mosi[0] == mosiBits[15] && s2.frame.mosi[15] == mosiBits[0];
    FullFrameDecoded(s2);
  }

  /** Asserting chip select and storing one chunk leaves the rising edge to decode that chunk alone. */
  lemma FeedChunk(s: Session, mosiBits: seq<Bit>, misoBits: seq<Bit>)
    requires Valid(s.frame) && |mosiBits| == |misoBits|
    ensures var rise := CsChange(Some(0), 1);
      Feed(s, [CsChange(Some(1), 0), Bits(mosiBits, misoBits), rise])
      == Decode(s.(frame := StoreBits(EMPTY, mosiBits, misoBits)), rise)
  {
    var rise := CsChange(Some(0), 1);
    var evs := [CsChange(Some(1), 0), Bits(mosiBits, misoBits), rise];
    var s1 := s.(frame := EMPTY);
    var s2 := s1.(frame := StoreBits(EMPTY, mosiBits, misoBits));
    FallingEdgeClears(s);
    assert Decode(s1, evs[1]) == Success(s2);
    FeedStep(s, evs, s1);
    FeedStep(s1, evs[1..], s2);
    assert evs[1..][1..] == [rise];
    FeedSingle(s2, rise);
  }

  /** Feeding a single packet is decoding it. */
  lemma FeedSingle(s: Session, ev: Event)
    requires Valid(s.frame) && EventOk(ev)
    ensures Feed(s, [ev]) == Decode(s, ev)
  {
    assert [ev][1..] == [];
  }

  predicate AllOk(evs: seq<Event>)
  {
    forall i :: 0 <= i < |evs| ==> EventOk(evs[i])
  }

  /** `decode` over a sequence of packets; the first fault ends it. */
  function Feed(s: Session, evs: seq<Event>): (r: Result<Session, Fault>)
    requires Valid(s.frame) && AllOk(evs)
    ensures r.Success? ==> Valid(r.value.frame)
    ensures r.Success? ==> |r.value.out| >= |s.out| && r.value.out[..|s.out|] == s.out
    decreases |evs|
  {
    if evs == [] then Success(s)
    else
      match Decode(s, evs[0])
      case Failure(e) => Failure(e)
      case Success(t) => DecodeExtendsOut(s, evs[0]); Feed(t, evs[1..])
  }

  /** Annotations are only ever appended. */
  lemma DecodeExtendsOut(s: Session, ev: Event)
    requires Valid(s.frame) && EventOk(ev) && Decode(s, ev).Success?
    ensures var t := Decode(s, ev).value;
      |t.out| >= |s.out| && t.out[..|s.out|] == s.out
  {
  }

  lemma FeedStep(s: Session, evs: seq<Event>, t: Session)
    requires Valid(s.frame) && AllOk(evs) && evs != [] && Decode(s, evs[0]) == Success(t)
    ensures Feed(s, evs) == Feed(t, evs[1..])
  {
  }

  /** The context part of a transaction is `Control`; the annotations do not feed back. */
  lemma TransactionIsControl(c: Ctx, ss: int, es: int, mosi: seq<Bit>, miso: seq<Bit>)
    requires IsWord(mosi) && IsWord(miso)
    ensures var t := Transaction(c, ss, es, mosi, miso);
      var k := Control(c, mosi);
      t.Success? == k.Success?
      && (t.Failure? ==> t.error == k.error)
      && (t.Success? ==> t.value.ctx == k.value.ctx)
  {
  }
}
