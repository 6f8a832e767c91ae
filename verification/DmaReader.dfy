/**
 * The consumer's view of a packet: header decoding and accounting in the main
 * loop of task_dma.c, and its agreement with what the ring sends.
 */
module DmaReader {
  import opened Bits
  import opened PacketRing
  import opened Framing
  import opened RingInvariant
  import opened RingTheorems

  // shifts and masks of a 64-bit header
  function HeaderId(header: u64): u8 { header / 0x100_0000_0000_0000 }

  function HeaderNum(header: u64): u32 { header / TWO16 % TWO32 }

  function HeaderLen(header: u64): u16 { header % TWO16 }

  /** Bytes published for a packet with this header. */
  function PacketBytes(header: u64): u32 { 8 + HeaderLen(header) * 8 }

  /** Outcome of one DMA transfer, with the first word of the buffer. */
  datatype Transfer = NoError(header: u64) | Timeout | Busy | Error | Other

  datatype Stats = Stats(
    pkts: u32, bytes: u32, valid: u32, errors: u32, timeouts: u32, unknown: u32,
    samples: u32, adcPkts: u32, avgPkts: u32)

  const ZERO := Stats(0, 0, 0, 0, 0, 0, 0, 0, 0)

  /** The "Max words exceeded" branch is left out: a 16-bit length is always below BUFFER_SIZE / 8 = 524288. */
  function Count(s: Stats, x: Transfer): Stats {
    match x
    case NoError(header) =>
      var s1 := s.(pkts := Add32(s.pkts, 1));
      if header == 0 then s1
      else
        var s2 := s1.(bytes := Add32(s.bytes, PacketBytes(header)), valid := Add32(s.valid, 1));
        if HeaderId(header) == 0xAA then s2.(avgPkts := Add32(s.avgPkts, 1))
        else if HeaderId(header) == 0xDD then
          s2.(samples := Add32(s.samples, HeaderLen(header) - 1), adcPkts := Add32(s.adcPkts, 1))
        else s2
    case Timeout => s.(timeouts := Add32(s.timeouts, 1))
    case Busy => s.(errors := Add32(s.errors, 1))
    case Error => s.(errors := Add32(s.errors, 1))
    case Other => s.(unknown := Add32(s.unknown, 1))
  }

  /** The loop's counters; `Receive` is one iteration after the DMA returns. */
  class Counters {
    var numPkts: u32
    var numBytes: u32
    var numValid: u32
    var numErrors: u32
    var numTimeouts: u32
    var numUnknownErrors: u32
    var numSamples: u32
    var numAdcPkts: u32
    var numAvgPkts: u32

    ghost function View(): Stats
      reads this
    {
      Stats(numPkts, numBytes, numValid, numErrors, numTimeouts, numUnknownErrors, numSamples, numAdcPkts, numAvgPkts)
    }

    constructor ()
      ensures View() == ZERO
    {
      numPkts, numBytes, numValid, numErrors, numTimeouts := 0, 0, 0, 0, 0;
      numUnknownErrors, numSamples, numAdcPkts, numAvgPkts := 0, 0, 0, 0;
    }

    method Receive(x: Transfer)
      modifies this
      ensures View() == Count(old(View()), x)
    {
      match x
      case NoError(header) =>
        numPkts := Add32(numPkts, 1);
        if header != 0 {
          var len: int := HeaderLen(header);
          numBytes := Add32(numBytes, PacketBytes(header));
          numValid := Add32(numValid, 1);
          match HeaderId(header)
          case 0xAA =>
            numAvgPkts := Add32(numAvgPkts, 1);
          case 0xDD =>
            numSamples := Add32(numSamples, len - 1);
            numAdcPkts := Add32(numAdcPkts, 1);
          case _ =>
        }
      case Timeout => numTimeouts := Add32(numTimeouts, 1);
      case Busy => numErrors := Add32(numErrors, 1);
      case Error => numErrors := Add32(numErrors, 1);
      case Other => numUnknownErrors := Add32(numUnknownErrors, 1);
    }
  }

  // ---------------------------------------------------------------- agreement with the ring

  lemma HeaderFields(number: u32, length: u16)
    ensures HeaderId(Header(number, length)) == STREAM_ID
    ensures HeaderNum(Header(number, length)) == number
    ensures HeaderLen(Header(number, length)) == length
  {
    assert Header(number, length) / TWO16 == STREAM_ID * 0x100_0000_0000 + number;
  }

  /**
   * The consumer's byte and sample counts for a frame are right exactly when the
   * frame was not closed by enable falling between two words; otherwise both are
   * one word too high.
   */
  lemma LengthsAgree(fr: Frame, k: nat)
    requires FrameOk(fr, k)
    ensures var header := Encode(fr)[0].data;
            && HeaderId(header) == 0xDD
            && HeaderNum(header) == (k + 1) % TWO32
            && (PacketBytes(header) == 8 * |Encode(fr)| <==> !fr.closing.DisabledInGap?)
            && (HeaderLen(header) - 1 == |fr.open.words| <==> !fr.closing.DisabledInGap?)
            && HeaderLen(header) - 1 == |fr.open.words| + (if fr.closing.DisabledInGap? then 1 else 0)
            && (fr.closing.Full? ==> HeaderLen(header) - 1 == Capacity(fr.open.limit))
  {
    HeaderFields(fr.number, LengthField(fr));
  }

  // a run that closes a frame in a gap

  const ONE_WORD := Input(false, true, 9, 5, 7, true, false, true)
  const SWITCH_OFF := Input(false, false, 0, 5, 0, false, false, true)

  /** Reset, two clocks until the ring is ready, one word, and enable falls. */
  function GapRun(): seq<Input> {
    [RESET, WAIT, WAIT, ONE_WORD, SWITCH_OFF]
  }

  lemma {:induction false} FourClocks(t: Trace, i: Input, j: Input, k: Input, l: Input)
    requires var t1 := TraceNext(t, i);
             var t2 := TraceNext(t1, j);
             var t3 := TraceNext(t2, k);
             Limited(t.s.w, i) && Limited(t1.s.w, j) && Limited(t2.s.w, k) && Limited(t3.s.w, l)
    ensures LimitedRun(t, [i, j, k, l])
    ensures Feed(t, [i, j, k, l]) == TraceNext(TraceNext(TraceNext(TraceNext(t, i), j), k), l)
  {
    ThreeClocks(t, i, j, k);
    assert [i, j, k, l][..3] == [i, j, k] && [i, j, k][..2] == [i, j] && [i, j][..1] == [i] && [i][..0] == [];
    assert LimitedRun(t, [i]) && Feed(t, [i]) == TraceNext(t, i);
    assert LimitedRun(t, [i, j]) && Feed(t, [i, j]) == TraceNext(TraceNext(t, i), j);
    assert LimitedRun(t, [i, j, k]);
  }

  /** From any power-up state this run, a good one, makes a frame of one word whose header says two. */
  lemma {:induction false} GapHappens(power: State)
    ensures GoodRun(power, GapRun())
    ensures var frames := Run(power, GapRun()).f.frames;
            && frames == [Frame(1, Open(9, 5, [7]), DisabledInGap)]
            && HeaderLen(Encode(frames[0])[0].data) - 1 == 2 && |frames[0].open.words| == 1
  {
    var t0 := Start(power, RESET);
    OverrunWaits(power);
    FourClocks(t0, WAIT, WAIT, ONE_WORD, SWITCH_OFF);
    assert GapRun()[1..] == [WAIT, WAIT, ONE_WORD, SWITCH_OFF];
    HeaderFields(1, 3);
  }

  // ---------------------------------------------------------------- totals

  /** The loop's counters after these transfers. */
  function CountAll(xs: seq<Transfer>): Stats {
    if xs == [] then ZERO else Count(CountAll(xs[..|xs| - 1]), xs[|xs| - 1])
  }

  predicate IsPacket(x: Transfer) { x.NoError? && x.header != 0 }

  predicate IsAdc(x: Transfer) { IsPacket(x) && x.header / 0x100_0000_0000_0000 == 0xDD }

  predicate IsAvg(x: Transfer) { IsPacket(x) && x.header / 0x100_0000_0000_0000 == 0xAA }

  /** The ADC packets among the transfers. */
  function AdcOnly(xs: seq<Transfer>): seq<Transfer> {
    if xs == [] then []
    else AdcOnly(xs[..|xs| - 1]) + if IsAdc(xs[|xs| - 1]) then [xs[|xs| - 1]] else []
  }

  datatype Kind = Arrived | Nonempty | Average | TimedOut | Failed | Unknown

  predicate Is(x: Transfer, kind: Kind) {
    match kind
    case Arrived => x.NoError?
    case Nonempty => IsPacket(x)
    case Average => IsAvg(x)
    case TimedOut => x.Timeout?
    case Failed => x.Busy? || x.Error?
    case Unknown => x.Other?
  }

  function Tally(xs: seq<Transfer>, kind: Kind): nat {
    if xs == [] then 0 else Tally(xs[..|xs| - 1], kind) + if Is(xs[|xs| - 1], kind) then 1 else 0
  }

  /** Bytes of the packets that are not ADC packets: header and as many words as its low 16 bits say. */
  function OtherBytes(xs: seq<Transfer>): nat {
    if xs == [] then 0
    else
      var x := xs[|xs| - 1];
      OtherBytes(xs[..|xs| - 1]) + if IsPacket(x) && !IsAdc(x) then 8 + 8 * (x.header % 0x1_0000) else 0
  }

  /** Frames as the DMA delivers them. */
  function Deliver(frames: seq<Frame>): seq<Transfer> {
    if frames == [] then []
    else Deliver(frames[..|frames| - 1]) + [NoError(Encode(frames[|frames| - 1])[0].data)]
  }

  function GapFrames(frames: seq<Frame>): nat {
    if frames == [] then 0
    else GapFrames(frames[..|frames| - 1]) + if frames[|frames| - 1].closing.DisabledInGap? then 1 else 0
  }

  /** The counter of a kind of transfer. */
  function Counter(s: Stats, kind: Kind): u32 {
    match kind
    case Arrived => s.pkts
    case Nonempty => s.valid
    case Average => s.avgPkts
    case TimedOut => s.timeouts
    case Failed => s.errors
    case Unknown => s.unknown
  }

  lemma {:induction false} Kinds(xs: seq<Transfer>, kind: Kind)
    ensures Counter(CountAll(xs), kind) == Tally(xs, kind) % TWO32
  {
    if xs != [] {
      Kinds(xs[..|xs| - 1], kind);
      Add32Mod(Tally(xs[..|xs| - 1], kind), 1);
    }
  }

  /** Counters that look into the packets: `words` ADC data words with `gaps` too many, `flat` ADC words in all. */
  predicate WordsCounted(s: Stats, packets: nat, words: nat, flat: nat, gaps: nat, other: nat) {
    && s.adcPkts == packets % TWO32
    && s.samples == (words + gaps) % TWO32
    && s.bytes == (8 * flat + 8 * gaps + other) % TWO32
  }

  lemma {:induction false} OneFrame(
      s: Stats, fr: Frame, k: nat, packets: nat, words: nat, flat: nat, gaps: nat, other: nat)
    requires FrameOk(fr, k) && WordsCounted(s, packets, words, flat, gaps, other)
    ensures var header := Encode(fr)[0].data;
            && IsAdc(NoError(header))
            && WordsCounted(Count(s, NoError(header)), packets + 1, words + |fr.open.words|, flat + |Encode(fr)|,
                            gaps + (if fr.closing.DisabledInGap? then 1 else 0), other)
  {
    var header := Encode(fr)[0].data;
    LengthsAgree(fr, k);
    Add32Mod(packets, 1);
    Add32Mod(words + gaps, HeaderLen(header) - 1);
    Add32Mod(8 * flat + 8 * gaps + other, PacketBytes(header));
  }

  lemma {:induction false} OneOther(s: Stats, x: Transfer, packets: nat, words: nat, flat: nat, gaps: nat, other: nat)
    requires !IsAdc(x) && WordsCounted(s, packets, words, flat, gaps, other)
    ensures WordsCounted(Count(s, x), packets, words, flat, gaps,
                         other + if IsPacket(x) then 8 + 8 * (x.header % 0x1_0000) else 0)
  {
    if IsPacket(x) {
      Add32Mod(8 * flat + 8 * gaps + other, PacketBytes(x.header));
    }
  }

  /**
   * Whatever else comes in between - averages, other packets, timeouts, errors - the totals
   * are those of the frames whose packets arrive, modulo 2^32, plus one word per gap-closed frame.
   */
  lemma {:induction false} TotalsAgree(xs: seq<Transfer>, frames: seq<Frame>)
    requires forall k :: 0 <= k < |frames| ==> FrameOk(frames[k], k)
    requires AdcOnly(xs) == Deliver(frames)
    ensures forall kind :: Counter(CountAll(xs), kind) == Tally(xs, kind) % TWO32
    ensures WordsCounted(CountAll(xs), |frames|, |Payload(frames)|, |FlatTo(frames, |frames|)|,
                         GapFrames(frames), OtherBytes(xs))
  {
    forall kind
      ensures Counter(CountAll(xs), kind) == Tally(xs, kind) % TWO32
    {
      Kinds(xs, kind);
    }
    WordsAgree(xs, frames);
  }

  lemma {:induction false} WordsAgree(xs: seq<Transfer>, frames: seq<Frame>)
    requires forall k :: 0 <= k < |frames| ==> FrameOk(frames[k], k)
    requires AdcOnly(xs) == Deliver(frames)
    ensures WordsCounted(CountAll(xs), |frames|, |Payload(frames)|, |FlatTo(frames, |frames|)|,
                         GapFrames(frames), OtherBytes(xs))
    decreases |xs|
  {
    if xs == [] {
      DeliverEach(frames);
    } else {
      var before, x := xs[..|xs| - 1], xs[|xs| - 1];
      if IsAdc(x) {
        DeliverEach(frames);
        var n := |frames| - 1;
        assert AdcOnly(before) == AdcOnly(xs)[..|AdcOnly(xs)| - 1] == Deliver(frames[..n]);
        WordsAgree(before, frames[..n]);
        OneFrame(CountAll(before), frames[n], n, n, |Payload(frames[..n])|, |FlatTo(frames[..n], n)|,
                 GapFrames(frames[..n]), OtherBytes(before));
        FlatAppend(frames[..n], frames[n], n);
        assert frames[..n] + [frames[n]] == frames;
      } else {
        assert AdcOnly(before) == AdcOnly(xs);
        WordsAgree(before, frames);
        OneOther(CountAll(before), x, |frames|, |Payload(frames)|, |FlatTo(frames, |frames|)|,
                 GapFrames(frames), OtherBytes(before));
      }
    }
  }

  lemma {:induction false} DeliverEach(frames: seq<Frame>)
    ensures |Deliver(frames)| == |frames|
  {
    if frames != [] {
      DeliverEach(frames[..|frames| - 1]);
    }
  }

  // ---------------------------------------------------------------- on a run of the ring

  lemma {:induction false} FlatOfPrefix(frames: seq<Frame>, d: nat)
    requires d <= |frames|
    ensures FlatTo(frames[..d], d) == FlatTo(frames, d)
  {
    if d > 0 {
      FlatOfPrefix(frames, d - 1);
      assert frames[..d - 1] + [frames[d - 1]] == frames[..d];
      FlatAppend(frames[..d - 1], frames[d - 1], d - 1);
    }
  }

  lemma {:induction false} DeliveredIsSent(t: Trace)
    requires Inv(t)
    ensures t.delivered <= |t.f.frames|
    ensures FlatTo(t.f.frames, t.delivered) <= t.sent
    ensures !t.s.rd.tvalid ==> FlatTo(t.f.frames, t.delivered) == t.sent
    ensures Payload(t.f.frames[..t.delivered]) <= t.accepted
  {
    var d, published := t.delivered, Published(t.s.w, t.f.frames);
    FlatPrefix(t.f.frames, d, published);
    assert t.sent <= FlatTo(t.f.frames, published);
    PayloadPrefix(t.f.frames, d);
  }

  lemma {:induction false} PayloadPrefix(frames: seq<Frame>, d: nat)
    requires d <= |frames|
    ensures Payload(frames[..d]) <= Payload(frames)
  {
    PayloadConcat(frames[..d], frames[d..]);
    assert frames[..d] + frames[d..] == frames;
  }

  /**
   * On every run of the ring, if the ADC packets among the transfers are the packets sent
   * out completely, the counters agree with the words sent and the input words accepted.
   */
  lemma {:induction false} RunTotals(t: Trace, xs: seq<Transfer>)
    requires Reachable(t)
    requires t.delivered <= |t.f.frames| ==> AdcOnly(xs) == Deliver(t.f.frames[..t.delivered])
    ensures t.delivered <= |t.f.frames|
    ensures var frames := t.f.frames[..t.delivered];
            && FlatTo(frames, t.delivered) <= t.sent && (!t.s.rd.tvalid ==> FlatTo(frames, t.delivered) == t.sent)
            && Payload(frames) <= t.accepted
            && (forall kind :: Counter(CountAll(xs), kind) == Tally(xs, kind) % TWO32)
            && WordsCounted(CountAll(xs), t.delivered, |Payload(frames)|, |FlatTo(frames, t.delivered)|,
                            GapFrames(frames), OtherBytes(xs))
  {
    ReachableInv(t);
    DeliveredIsSent(t);
    FlatOfPrefix(t.f.frames, t.delivered);
    var frames := t.f.frames[..t.delivered];
    forall k | 0 <= k < |frames|
      ensures FrameOk(frames[k], k)
    {
      assert FrameOk(t.f.frames[k], k);
    }
    TotalsAgree(xs, frames);
  }
}
