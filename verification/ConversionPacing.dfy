/**
 * Conversion pacing, read-back clock and timestamp capture of the deserializer
 * (hdl/src/ltc2387_deserializer.sv) with CLOCK_PERIOD 4, as subsystem_adc.sv sets it.
 */
module ConversionPacing {
  import opened Bits

  // $ceil(65 / 4) with an integer quotient, and $ceil(66.67 / 4) + 0
  const READ_START: int := 16
  const CONV_WAIT: int := 17
  const DCO_CLOCK_COUNT: int := 10

  datatype Input = Input(rst: bool, wrBusy: bool, start: bool, ts: u64, sampleRate: u8)

  type Shift = s: seq<bool> | |s| == READ_START witness seq(READ_START, _ => false)

  datatype State = State(
    ready: bool, cnvCount: u8, readShift: Shift, adcCnv: bool, tsCaptured: u64, convWait: u8,
    dcoCount: u4, adcClk: bool)

  predicate Converts(s: State, i: Input) { s.cnvCount == 0 && i.start }

  function Next(s: State, i: Input): State {
    var clocked := s.(adcClk := s.dcoCount % 2 == 1,
                      dcoCount := if s.readShift[0] then DCO_CLOCK_COUNT - 1
                                  else if s.dcoCount > 0 then s.dcoCount - 1 else 0);
    var s1 := if i.rst then s.(adcClk := false, dcoCount := 0) else clocked;
    if i.rst || i.wrBusy then
      s1.(ready := false, cnvCount := 0, readShift := seq(READ_START, _ => false),
          adcCnv := false, tsCaptured := 0, convWait := 0)
    else
      s1.(convWait := if i.sampleRate < CONV_WAIT then CONV_WAIT else i.sampleRate,
          ready := s.cnvCount == 0,
          cnvCount := if s.cnvCount == 0 then if i.start then (s.convWait - 1) % 256 else 0 else s.cnvCount - 1,
          readShift := s.readShift[1..] + [Converts(s, i)],
          adcCnv := Converts(s, i),
          tsCaptured := if Converts(s, i) then i.ts else s.tsCaptured)
  }

  class Pacer {
    var ready: bool
    var cnvCount: u8
    var readShift: Shift
    var adcCnv: bool
    var tsCaptured: u64
    var convWait: u8
    var dcoCount: u4
    var adcClk: bool

    constructor ()
    {
      readShift := seq(READ_START, _ => false);
    }

    ghost function View(): State
      reads this
    {
      State(ready, cnvCount, readShift, adcCnv, tsCaptured, convWait, dcoCount, adcClk)
    }

    method Step(i: Input)
      modifies this
      ensures View() == Next(old(View()), i)
    {
      // read-back clock; it reads read_shift before the edge
      if i.rst {
        dcoCount, adcClk := 0, false;
      } else {
        adcClk := dcoCount % 2 == 1;
        if readShift[0] {
          dcoCount := DCO_CLOCK_COUNT - 1;
        } else if dcoCount > 0 {
          dcoCount := dcoCount - 1;
        }
      }
      // conversions
      if i.rst || i.wrBusy {
        ready, cnvCount, adcCnv, tsCaptured, convWait := false, 0, false, 0, 0;
        readShift := seq(READ_START, _ => false);
      } else {
        var idle := cnvCount == 0;
        var converting := idle && i.start;
        ready, adcCnv := idle, converting;
        if converting {
          cnvCount, tsCaptured := (convWait - 1) % 256, i.ts;
        } else if !idle {
          cnvCount := cnvCount - 1;
        }
        readShift := readShift[1..] + [converting];
        convWait := if i.sampleRate < CONV_WAIT then CONV_WAIT else i.sampleRate;
      }
    }
  }

  // ---------------------------------------------------------------- runs

  /** A clock in reset, or with the FIFO in reset. */
  predicate Disturbed(i: Input) { i.rst || i.wrBusy }

  /**
   * A run, with the books of the clocks since the last disturbed one: whether a conversion
   * started, the inputs start, sample_rate and timestamp, the read-back clock pin, and the
   * timestamps written to the FIFO. `left` and `high` are what that last clock left of an
   * earlier burst.
   */
  datatype Trace = Trace(
    s: State, conv: seq<bool>, start: seq<bool>, rate: seq<u8>, ts: seq<u64>, clk: seq<bool>, written: seq<u64>,
    left: nat, high: bool)

  function Restart(s: State): Trace {
    Trace(s, [], [], [], [], [], [], s.dcoCount, s.adcClk)
  }

  function TraceNext(t: Trace, i: Input): Trace {
    if Disturbed(i) then Restart(Next(t.s, i))
    else
      t.(s := Next(t.s, i),
         conv := t.conv + [Converts(t.s, i)],
         start := t.start + [i.start],
         rate := t.rate + [i.sampleRate],
         ts := t.ts + [i.ts],
         clk := t.clk + [t.s.adcClk],
         written := if t.s.readShift[0] then t.written + [t.s.tsCaptured] else t.written)
  }

  function Feed(t: Trace, ins: seq<Input>): Trace {
    if ins == [] then t else TraceNext(Feed(t, ins[..|ins| - 1]), ins[|ins| - 1])
  }

  /** Reset, then any inputs: later resets and FIFO resets included. */
  ghost predicate Reachable(t: Trace) {
    exists power: State, i: Input, ins: seq<Input> :: i.rst && t == Feed(Restart(Next(power, i)), ins)
  }

  /** A conversion started at clock j. */
  predicate At(conv: seq<bool>, j: int) {
    0 <= j < |conv| && conv[j]
  }

  /** Clocks from a conversion at clock j until the next one may start; the register is 0 in the first clock. */
  function Gap(rate: seq<u8>, j: nat): (g: nat)
    requires j <= |rate|
    ensures g >= CONV_WAIT
  {
    if j == 0 then 256 else if rate[j - 1] < 17 then 17 else rate[j - 1]
  }

  /** No earlier conversion forbids one at clock n. */
  ghost predicate Free(conv: seq<bool>, rate: seq<u8>, n: int)
    requires |rate| == |conv| && n <= |conv|
  {
    forall j :: 0 <= j < n && At(conv, j) ==> j + Gap(rate, j) <= n
  }

  /** The timestamps of the conversions before clock n, in order. */
  function ConvTs(conv: seq<bool>, ts: seq<u64>, n: int): seq<u64>
    requires |conv| == |ts| && n <= |conv|
    decreases if n < 0 then 0 else n
  {
    if n <= 0 then []
    else ConvTs(conv, ts, n - 1) + if conv[n - 1] then [ts[n - 1]] else []
  }

  /** Clocks from a conversion to the pulses of the read-back clock. */
  predicate PulseAt(d: int) {
    d == 18 || d == 20 || d == 22 || d == 24 || d == 26
  }

  ghost predicate Apart(conv: seq<bool>) {
    forall i, j :: i < j && At(conv, i) && At(conv, j) ==> j - i >= CONV_WAIT
  }

  /** The counter runs down to the end of the latest conversion's gap. */
  ghost predicate CountInv(s: State, conv: seq<bool>, rate: seq<u8>) {
    && |rate| == |conv|
    && s.convWait == (if conv == [] then 0 else if rate[|rate| - 1] < 17 then 17 else rate[|rate| - 1])
    && (forall j :: At(conv, j) ==> j + Gap(rate, j) <= |conv| + s.cnvCount)
    && (s.cnvCount > 0 ==> exists j :: At(conv, j) && j + Gap(rate, j) == |conv| + s.cnvCount)
  }

  /** A conversion starts in every clock that asks for one and is free. */
  ghost predicate Scheduled(conv: seq<bool>, rate: seq<u8>, start: seq<bool>) {
    |rate| == |start| == |conv| && forall n :: 0 <= n < |conv| ==> (conv[n] <==> start[n] && Free(conv, rate, n))
  }

  /** The two outputs show the clock before. */
  ghost predicate OutputsInv(s: State, conv: seq<bool>, rate: seq<u8>)
    requires |rate| == |conv|
  {
    && (s.adcCnv <==> conv != [] && conv[|conv| - 1])
    && (s.ready <==> conv != [] && Free(conv, rate, |conv| - 1))
  }

  /** read_shift is the last sixteen clocks' conversions. */
  ghost predicate ShiftInv(shift: Shift, conv: seq<bool>) {
    forall b :: 0 <= b < READ_START ==> (shift[b] <==> At(conv, |conv| - READ_START + b))
  }

  /** No conversion after j. */
  ghost predicate Latest(conv: seq<bool>, j: int) {
    At(conv, j) && forall i :: At(conv, i) ==> i <= j
  }

  ghost predicate StampInv(captured: u64, conv: seq<bool>, ts: seq<u64>)
    requires |ts| == |conv|
  {
    forall j :: Latest(conv, j) ==> captured == ts[j]
  }

  /** The burst counter runs down from the clock after the read start. */
  predicate Bursting(conv: seq<bool>, j: int) {
    At(conv, j) && READ_START < |conv| - j <= READ_START + DCO_CLOCK_COUNT
  }

  ghost predicate BurstInv(dcoCount: u4, conv: seq<bool>, left: nat) {
    && dcoCount <= 9 && left <= 9
    && (forall j :: Bursting(conv, j) ==> dcoCount == READ_START + DCO_CLOCK_COUNT - (|conv| - j))
    && ((forall j :: !Bursting(conv, j)) ==> dcoCount == if left > |conv| then left - |conv| else 0)
  }

  /** What is left of a burst that a disturbed clock found under way. */
  predicate Remnant(left: nat, high: bool, n: int) {
    if n <= 0 then high else left >= n && (left - (n - 1)) % 2 == 1
  }

  /** The read-back clock is high at clock n exactly 18, 20, 22, 24 or 26 clocks after a conversion. */
  ghost predicate ClockPin(clk: bool, conv: seq<bool>, left: nat, high: bool, n: int) {
    clk <==> (exists j :: At(conv, j) && PulseAt(n - j)) || Remnant(left, high, n)
  }

  ghost predicate PinInv(adcClk: bool, clk: seq<bool>, conv: seq<bool>, left: nat, high: bool) {
    && |clk| == |conv|
    && ClockPin(adcClk, conv, left, high, |conv|)
    && forall n :: 0 <= n < |clk| ==> ClockPin(clk[n], conv, left, high, n)
  }

  ghost predicate Inv(t: Trace) {
    && |t.ts| == |t.conv| && |t.rate| == |t.conv|
    && CountInv(t.s, t.conv, t.rate)
    && Scheduled(t.conv, t.rate, t.start)
    && OutputsInv(t.s, t.conv, t.rate)
    && ShiftInv(t.s.readShift, t.conv)
    && StampInv(t.s.tsCaptured, t.conv, t.ts)
    && BurstInv(t.s.dcoCount, t.conv, t.left)
    && PinInv(t.s.adcClk, t.clk, t.conv, t.left, t.high)
    && t.written == ConvTs(t.conv, t.ts, |t.conv| - READ_START)
  }

  lemma {:induction false} AtAppend(conv: seq<bool>, c: bool)
    ensures forall j :: At(conv + [c], j) <==> At(conv, j) || (c && j == |conv|)
  {
  }

  lemma {:induction false} GapAppend(rate: seq<u8>, r: u8)
    ensures forall j :: 0 <= j <= |rate| ==> Gap(rate + [r], j) == Gap(rate, j)
  {
  }

  /** The counter is down exactly when a conversion is free to start. */
  lemma {:induction false} DownIsFree(s: State, conv: seq<bool>, rate: seq<u8>)
    requires CountInv(s, conv, rate)
    ensures s.cnvCount == 0 <==> Free(conv, rate, |conv|)
  {
    if s.cnvCount > 0 {
      var j :| At(conv, j) && j + Gap(rate, j) == |conv| + s.cnvCount;
    }
  }

  lemma {:induction false} FreeAppend(conv: seq<bool>, rate: seq<u8>, c: bool, r: u8, n: int)
    requires |rate| == |conv| && n <= |conv|
    ensures Free(conv + [c], rate + [r], n) <==> Free(conv, rate, n)
  {
    AtAppend(conv, c);
    GapAppend(rate, r);
  }

  lemma {:induction false} CountStep(s: State, conv: seq<bool>, rate: seq<u8>, i: Input)
    requires CountInv(s, conv, rate) && !Disturbed(i)
    ensures CountInv(Next(s, i), conv + [Converts(s, i)], rate + [i.sampleRate])
  {
    var c, s' := Converts(s, i), Next(s, i);
    var conv', rate' := conv + [c], rate + [i.sampleRate];
    AtAppend(conv, c);
    GapAppend(rate, i.sampleRate);
    if c {
      assert At(conv', |conv|) && |conv| + Gap(rate', |conv|) == |conv'| + s'.cnvCount;
    } else if s'.cnvCount > 0 {
      var j :| At(conv, j) && j + Gap(rate, j) == |conv| + s.cnvCount;
      assert At(conv', j) && j + Gap(rate', j) == |conv'| + s'.cnvCount;
    }
  }

  lemma {:induction false} ScheduleStep(s: State, conv: seq<bool>, rate: seq<u8>, start: seq<bool>, i: Input)
    requires CountInv(s, conv, rate) && Scheduled(conv, rate, start) && !Disturbed(i)
    ensures Scheduled(conv + [Converts(s, i)], rate + [i.sampleRate], start + [i.start])
    ensures OutputsInv(Next(s, i), conv + [Converts(s, i)], rate + [i.sampleRate])
  {
    var c := Converts(s, i);
    DownIsFree(s, conv, rate);
    forall n | 0 <= n <= |conv|
      ensures Free(conv + [c], rate + [i.sampleRate], n) <==> Free(conv, rate, n)
    {
      FreeAppend(conv, rate, c, i.sampleRate, n);
    }
  }

  lemma {:induction false} ScheduledApart(conv: seq<bool>, rate: seq<u8>, start: seq<bool>)
    requires Scheduled(conv, rate, start)
    ensures Apart(conv)
  {
    forall i, j | i < j && At(conv, i) && At(conv, j)
      ensures j - i >= CONV_WAIT
    {
      assert Free(conv, rate, j);
    }
  }

  lemma {:induction false} ShiftStep(shift: Shift, conv: seq<bool>, c: bool)
    requires ShiftInv(shift, conv)
    ensures ShiftInv(shift[1..] + [c], conv + [c])
  {
    AtAppend(conv, c);
    var conv' := conv + [c];
    forall b | 0 <= b < READ_START
      ensures (shift[1..] + [c])[b] <==> At(conv', |conv'| - READ_START + b)
    {
      if b < READ_START - 1 {
        assert shift[b + 1] <==> At(conv, |conv| - READ_START + (b + 1));
      }
    }
  }

  lemma {:induction false} StampStep(captured: u64, conv: seq<bool>, ts: seq<u64>, c: bool, now: u64)
    requires |ts| == |conv| && StampInv(captured, conv, ts)
    ensures StampInv(if c then now else captured, conv + [c], ts + [now])
  {
    AtAppend(conv, c);
    forall j | Latest(conv + [c], j)
      ensures (if c then now else captured) == (ts + [now])[j]
    {
      if c {
        assert At(conv + [c], |conv|);
      } else {
        assert Latest(conv, j);
      }
    }
  }

  lemma {:induction false} BurstStep(s: State, conv: seq<bool>, left: nat, i: Input)
    requires Apart(conv) && ShiftInv(s.readShift, conv) && BurstInv(s.dcoCount, conv, left) && !i.rst
    ensures BurstInv(Next(s, i).dcoCount, conv + [Converts(s, i)], left)
  {
    var c, now := Converts(s, i), |conv|;
    var conv' := conv + [c];
    AtAppend(conv, c);
    assert s.readShift[0] <==> At(conv, now - READ_START);
    forall j | Bursting(conv', j)
      ensures Next(s, i).dcoCount == READ_START + DCO_CLOCK_COUNT - (now + 1 - j)
    {
      if j == now - READ_START {
      } else {
        assert At(conv, j) && Bursting(conv, j);
        assert !At(conv, now - READ_START);
      }
    }
    if forall j :: !Bursting(conv', j) {
      assert !Bursting(conv', now - READ_START);
      if j :| Bursting(conv, j) {
        assert j == now - READ_START - DCO_CLOCK_COUNT by {
          assert !Bursting(conv', j);
        }
      }
    }
  }

  lemma {:induction false} PinStep(s: State, clk: seq<bool>, conv: seq<bool>, left: nat, high: bool, i: Input)
    requires BurstInv(s.dcoCount, conv, left) && PinInv(s.adcClk, clk, conv, left, high) && !i.rst
    ensures PinInv(Next(s, i).adcClk, clk + [s.adcClk], conv + [Converts(s, i)], left, high)
  {
    var c, now := Converts(s, i), |conv|;
    forall n | 0 <= n <= now
      ensures ClockPin((clk + [s.adcClk])[n], conv + [c], left, high, n)
    {
      PinAppend((clk + [s.adcClk])[n], conv, c, left, high, n);
    }
    PinNow(s, conv, left, high, i);
  }

  lemma {:induction false} PinNow(s: State, conv: seq<bool>, left: nat, high: bool, i: Input)
    requires BurstInv(s.dcoCount, conv, left) && !i.rst
    ensures ClockPin(Next(s, i).adcClk, conv + [Converts(s, i)], left, high, |conv| + 1)
  {
    var c, now := Converts(s, i), |conv|;
    AtAppend(conv, c);
    if j :| Bursting(conv, j) {
      assert At(conv + [c], j);
      OddIsPulse(s.dcoCount, now - j);
      if k :| At(conv + [c], k) && PulseAt(now + 1 - k) {
        assert Bursting(conv, k);
        OddIsPulse(s.dcoCount, now - k);
      }
    } else {
      forall k | At(conv + [c], k)
        ensures !PulseAt(now + 1 - k)
      {
        assert !Bursting(conv, k);
      }
    }
  }

  lemma OddIsPulse(dcoCount: int, age: int)
    requires dcoCount == READ_START + DCO_CLOCK_COUNT - age && READ_START < age <= READ_START + DCO_CLOCK_COUNT
    ensures dcoCount % 2 == 1 <==> PulseAt(age + 1)
  {
  }

  lemma {:induction false} PinAppend(clk: bool, conv: seq<bool>, c: bool, left: nat, high: bool, n: int)
    requires ClockPin(clk, conv, left, high, n) && n <= |conv|
    ensures ClockPin(clk, conv + [c], left, high, n)
  {
    AtAppend(conv, c);
    if j :| At(conv, j) && PulseAt(n - j) {
      assert At(conv + [c], j);
    }
  }

  lemma {:induction false} ConvTsAppend(conv: seq<bool>, ts: seq<u64>, c: bool, now: u64, n: int)
    requires |conv| == |ts| && n <= |conv|
    ensures ConvTs(conv + [c], ts + [now], n) == ConvTs(conv, ts, n)
    decreases if n < 0 then 0 else n
  {
    if n > 0 {
      ConvTsAppend(conv, ts, c, now, n - 1);
    }
  }

  lemma {:induction false} WrittenStep(t: Trace, i: Input)
    requires Inv(t) && Apart(t.conv) && !Disturbed(i)
    ensures var t' := TraceNext(t, i);
            |t'.ts| == |t'.conv| && t'.written == ConvTs(t'.conv, t'.ts, |t'.conv| - READ_START)
  {
    var now := |t.conv|;
    var m := now - READ_START;
    ConvTsAppend(t.conv, t.ts, Converts(t.s, i), i.ts, m);
    assert t.s.readShift[0] <==> At(t.conv, m);
    if At(t.conv, m) {
      forall j | At(t.conv, j)
        ensures j <= m
      {
        assert m < j ==> j - m >= CONV_WAIT;
      }
      assert Latest(t.conv, m);
    }
  }

  lemma {:induction false} RestartInv(s: State, i: Input)
    requires Disturbed(i) && (i.rst || s.dcoCount <= 9)
    ensures Inv(Restart(Next(s, i)))
  {
  }

  lemma {:induction false} InvStep(t: Trace, i: Input)
    requires Inv(t)
    ensures Inv(TraceNext(t, i))
  {
    if Disturbed(i) {
      RestartInv(t.s, i);
    } else {
      ScheduledApart(t.conv, t.rate, t.start);
      CountStep(t.s, t.conv, t.rate, i);
      ScheduleStep(t.s, t.conv, t.rate, t.start, i);
      ShiftStep(t.s.readShift, t.conv, Converts(t.s, i));
      StampStep(t.s.tsCaptured, t.conv, t.ts, Converts(t.s, i), i.ts);
      BurstStep(t.s, t.conv, t.left, i);
      PinStep(t.s, t.clk, t.conv, t.left, t.high, i);
      WrittenStep(t, i);
    }
  }

  lemma {:induction false} InvFeed(t: Trace, ins: seq<Input>)
    requires Inv(t)
    ensures Inv(Feed(t, ins))
  {
    if ins != [] {
      InvFeed(t, ins[..|ins| - 1]);
      InvStep(Feed(t, ins[..|ins| - 1]), ins[|ins| - 1]);
    }
  }

  lemma {:induction false} ReachableInv(t: Trace)
    requires Reachable(t)
    ensures Inv(t)
  {
    var power: State, i: Input, ins: seq<Input> :| i.rst && t == Feed(Restart(Next(power, i)), ins);
    RestartInv(power, i);
    InvFeed(Restart(Next(power, i)), ins);
  }

  // ---------------------------------------------------------------- theorems

  /**
   * Exactly when conversions start, from the inputs: since the last disturbed clock one
   * starts in every clock with start high that lies max(17, sample_rate) clocks or more
   * behind every earlier one - sample_rate as it was in the clock before that one, and
   * 256 clocks behind one in the very first clock. adc_cnv shows it one clock later, and
   * ready whether a start would have been taken.
   */
  lemma {:induction false} ConversionSchedule(t: Trace, n: nat)
    requires Reachable(t) && n < |t.conv|
    ensures |t.start| == |t.rate| == |t.conv|
    ensures t.conv[n] <==> t.start[n] && Free(t.conv, t.rate, n)
    ensures n == |t.conv| - 1 ==> (t.s.adcCnv <==> t.conv[n]) && (t.s.ready <==> Free(t.conv, t.rate, n))
  {
    ReachableInv(t);
  }

  /** Right after a disturbed clock both outputs are low. */
  lemma {:induction false} QuietAfterReset(t: Trace)
    requires Reachable(t) && t.conv == []
    ensures !t.s.adcCnv && !t.s.ready
  {
    ReachableInv(t);
  }

  /** Conversions are never closer than 17 clocks, whatever start and sample_rate do. */
  lemma {:induction false} ConversionsApart(t: Trace, j: nat, k: nat)
    requires Reachable(t) && j < k < |t.conv| && t.conv[j] && t.conv[k]
    ensures k - j >= 17
  {
    ReachableInv(t);
    assert Free(t.conv, t.rate, k) && At(t.conv, j);
  }

  /**
   * Each conversion has its own five pulses of the read-back clock: in the 17 clocks
   * from the 17th after it, the pin is high exactly at 18, 20, 22, 24 and 26 (also while
   * the next conversion is under way). It is never high otherwise, but for the rest of a
   * burst that a FIFO reset found under way, in the first ten clocks.
   */
  lemma {:induction false} FivePulses(t: Trace, j: nat, n: nat)
    requires Reachable(t) && n < |t.clk|
    ensures |t.clk| == |t.conv|
    ensures j < |t.conv| && t.conv[j] && 16 < n - j <= 33 ==> (t.clk[n] <==> PulseAt(n - j))
    ensures t.clk[n] && n >= 10 ==> exists j :: At(t.conv, j) && PulseAt(n - j)
  {
    ReachableInv(t);
    ScheduledApart(t.conv, t.rate, t.start);
    assert ClockPin(t.clk[n], t.conv, t.left, t.high, n);
    if j < |t.conv| && t.conv[j] && 16 < n - j <= 33 {
      assert At(t.conv, j);
      if t.clk[n] {
        var i :| At(t.conv, i) && PulseAt(n - i);
        assert i == j by {
          assert i < j ==> j - i >= CONV_WAIT;
          assert j < i ==> i - j >= CONV_WAIT;
        }
      }
    }
  }

  lemma {:induction false} NothingLeft(t: Trace, ins: seq<Input>)
    requires Inv(t) && t.left == 0 && !t.high && forall k :: 0 <= k < |ins| ==> !Disturbed(ins[k])
    ensures Inv(Feed(t, ins)) && Feed(t, ins).left == 0 && !Feed(t, ins).high
    ensures |Feed(t, ins).clk| == |t.clk| + |ins|
  {
    if ins != [] {
      var before := ins[..|ins| - 1];
      NothingLeft(t, before);
      InvStep(Feed(t, before), ins[|ins| - 1]);
    }
  }

  /** A reset, unlike a FIFO reset, also ends a burst: from it on the pin is only high for conversions after it. */
  lemma {:induction false} ResetEndsBurst(power: State, i: Input, ins: seq<Input>, n: nat)
    requires i.rst && n < |ins| && forall k :: 0 <= k < |ins| ==> !Disturbed(ins[k])
    ensures !Next(power, i).adcClk && Next(power, i).tsCaptured == 0
    ensures var t := Feed(Restart(Next(power, i)), ins);
            |t.clk| == |ins| && (t.clk[n] <==> exists j :: At(t.conv, j) && PulseAt(n - j))
  {
    RestartInv(power, i);
    var t := Feed(Restart(Next(power, i)), ins);
    NothingLeft(Restart(Next(power, i)), ins);
    assert ClockPin(t.clk[n], t.conv, t.left, t.high, n);
  }

  /**
   * The FIFO receives exactly the timestamps of the conversions, in order, one write
   * for each, 16 clocks after it, before the next conversion can start. A conversion
   * that a disturbed clock interrupts is not written.
   */
  lemma {:induction false} TimestampsPaired(t: Trace)
    requires Reachable(t)
    ensures |t.ts| == |t.conv|
    ensures t.written == ConvTs(t.conv, t.ts, |t.conv| - 16)
    ensures t.s.readShift[0] <==> At(t.conv, |t.conv| - 16)
  {
    ReachableInv(t);
  }
}
