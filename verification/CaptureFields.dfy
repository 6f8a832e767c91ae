/**
 * The remaining fields of a packet - trigger bits, packet counter - and when a cycle
 * starts, test mode included, all from the inputs of a run.
 */
module CaptureFields {
  import opened Bits
  import opened CaptureControl
  import opened Capture
  import opened Statistics
  import opened CaptureRun
  import opened CaptureTheorems
  import opened CaptureExceptions

  // ---------------------------------------------------------------- trigger bits

  /** The clock before brought a value of channel n. */
  predicate Brought(ks: seq<RunTick>, n: nat)
    requires n < NUM_CH
  {
    ks != [] && ks[|ks| - 1].valid && ks[|ks| - 1].sample.valid[n]
  }

  /** A clock in which a value that the clock before brought is summed. */
  predicate TakesIn(x: System, g: Config, k: RunTick) {
    x.sh.started && !x.sh.capReg && !(CapStart(x.ctl, g, k.valid) && !x.sh.startReg)
  }

  /** The trigger input of the latest clock, since the packet before, that summed a value of channel n. */
  function LastTrigger(x0: System, g: Config, ks: seq<RunTick>, n: nat): Option<u2>
    requires n < NUM_CH
  {
    if ks == [] then None
    else
      var before, k := ks[..|ks| - 1], ks[|ks| - 1];
      var x := FeedSystem(x0, g, before);
      if x.sh.capReg then None
      else if Brought(before, n) && TakesIn(x, g, k) then Some(k.trigger)
      else LastTrigger(x0, g, before, n)
  }

  /** Bits 63:40 of ch_misc. */
  predicate Tagged(c: Chan, vs: seq<int>, last: Option<u2>) {
    vs != [] ==> last.Some? && c.misc / 0x100_0000_0000 == last.value
  }

  lemma MiscTrigger(trigger: u2, min: u20, max: u20)
    ensures Misc(trigger, min, max) / 0x100_0000_0000 == trigger
  {
  }

  /** Summing or not, `pend` being the sample of the clock before. */
  lemma {:induction false} TagStep(
      c: Chan, sh: Shared, t: Tick, n: nat, acc: seq<Sample>, add: seq<Sample>, pend: Option<Sample>, last: Option<u2>)
    requires n < NUM_CH && !t.rst && !sh.capReg && sh.started && Result(c, pend, n)
    requires add == if pend.Some? && !InitMm(sh, t.start) then [pend.value] else []
    requires Tagged(c, Vals(acc, n), last)
    ensures Tagged(NextChan(c, sh, t, n), Vals(acc + add, n),
                   if pend.Some? && pend.value.valid[n] && !InitMm(sh, t.start) then Some(t.trigger) else last)
  {
    MiscTrigger(t.trigger, c.min, c.max);
    if add == [] {
      assert acc + add == acc;
    } else {
      ValsAppend(acc, pend.value, n);
    }
  }

  /** What a clock does to the list of samples summed. */
  lemma {:induction false} AccStep(x: System, g: Config, k: RunTick)
    requires Programmed(g) && SystemInv(x, g) && (x.b.pend.Some? ==> !k.valid)
    ensures var x', t := SystemNext(x, g, k), TickOf(x.ctl, g, k);
            if x.sh.capReg || !x.sh.started then Acc(x'.y, x'.b) == []
            else Acc(x'.y, x'.b) ==
                 Acc(x.y, x.b) + if x.b.pend.Some? && !InitMm(x.sh, t.start) then [x.b.pend.value] else []
  {
    Switches(x, g, k);
    AccStepAt(x, g, k);
  }

  lemma {:induction false} AccStepAt(x: System, g: Config, k: RunTick)
    requires StageInv(x.y, x.b, g) && g.size >= 1 && (x.b.pend.Some? ==> !k.valid) && Switched(x, g, k)
    ensures var x', t := SystemNext(x, g, k), TickOf(x.ctl, g, k);
            if x.sh.capReg || !x.sh.started then Acc(x'.y, x'.b) == []
            else Acc(x'.y, x'.b) ==
                 Acc(x.y, x.b) + if x.b.pend.Some? && !InitMm(x.sh, t.start) then [x.b.pend.value] else []
  {
    var x' := SystemNext(x, g, k);
    match x.b.stage
    case Filling => FillingLists(x.y, x.b, g, k, x'.y, x'.b);
    case Closing(_) => ClosingLists(x.y, x.b, g, k, x'.y, x'.b);
    case _ => StageAfter(x, g, k);
  }

  lemma {:induction false} TriggerStep(x: System, g: Config, k: RunTick, n: nat, last: Option<u2>)
    requires Programmed(g) && SystemInv(x, g) && (x.b.pend.Some? ==> !k.valid) && n < NUM_CH
    requires Tagged(x.chans[n], Vals(Acc(x.y, x.b), n), last)
    ensures var x' := SystemNext(x, g, k);
            Tagged(x'.chans[n], Vals(Acc(x'.y, x'.b), n),
                   if x.sh.capReg then None
                   else if x.b.pend.Some? && x.b.pend.value.valid[n] && TakesIn(x, g, k) then Some(k.trigger)
                   else last)
  {
    AccStep(x, g, k);
    if !x.sh.capReg && x.sh.started {
      var t := TickOf(x.ctl, g, k);
      assert ChanInv(x.chans[n], n, x.y, x.b, g);
      TagStep(x.chans[n], x.sh, t, n, Acc(x.y, x.b),
              if x.b.pend.Some? && !InitMm(x.sh, t.start) then [x.b.pend.value] else [], x.b.pend, last);
    }
  }

  lemma {:induction false} TriggerFeed(x0: System, g: Config, ks: seq<RunTick>, n: nat)
    requires Programmed(g) && n < NUM_CH && Spaced(ks)
    requires SystemInv(x0, g) && x0.b.pend.None? && x0.b.stage.Quiet?
    ensures var x := FeedSystem(x0, g, ks);
            SystemInv(x, g) && Tagged(x.chans[n], Vals(Acc(x.y, x.b), n), LastTrigger(x0, g, ks, n))
  {
    FeedInv(x0, g, ks);
    if ks != [] {
      var before, k := ks[..|ks| - 1], ks[|ks| - 1];
      var x := FeedSystem(x0, g, before);
      FeedInv(x0, g, before);
      TriggerFeed(x0, g, before, n);
      TriggerStep(x, g, k, n, LastTrigger(x0, g, before, n));
      assert Brought(before, n) <==> x.b.pend.Some? && x.b.pend.value.valid[n];
    }
  }

  lemma {:induction false} CountOfChannel(x: System, g: Config, n: nat)
    requires SystemInv(x, g) && n < NUM_CH
    ensures x.chans[n].count == |Vals(Acc(x.y, x.b), n)| % TWO64
  {
    assert ChanInv(x.chans[n], n, x.y, x.b, g);
  }

  lemma {:induction false} TriggerShown(x0: System, g: Config, ks: seq<RunTick>, n: nat)
    requires Programmed(g) && n < NUM_CH && Spaced(ks)
    requires SystemInv(x0, g) && x0.b.pend.None? && x0.b.stage.Quiet?
    requires FeedSystem(x0, g, ks).chans[n].count > 0
    ensures LastTrigger(x0, g, ks, n).Some?
    ensures FeedSystem(x0, g, ks).chans[n].misc / 0x100_0000_0000 == LastTrigger(x0, g, ks, n).value
  {
    TriggerFeed(x0, g, ks, n);
    CountOfChannel(FeedSystem(x0, g, ks), g, n);
  }

  /**
   * In every packet, the trigger bits of a channel that summed anything in the region are the
   * trigger input of the clock in which its last value was summed.
   */
  lemma {:induction false} PacketTrigger(
      ctl: Control, sh: Shared, chans: Chans, g: Config, k1: RunTick, k2: RunTick, ks: seq<RunTick>, n: nat)
    requires Programmed(g) && Spaced(ks) && n < NUM_CH
    requires FeedSystem(PowerUp(ctl, sh, chans, g, k1, k2), g, ks).sh.capReg
    requires FeedSystem(PowerUp(ctl, sh, chans, g, k1, k2), g, ks).chans[n].count > 0
    ensures var x0 := PowerUp(ctl, sh, chans, g, k1, k2);
            && LastTrigger(x0, g, ks, n).Some?
            && FeedSystem(x0, g, ks).chans[n].misc / 0x100_0000_0000 == LastTrigger(x0, g, ks, n).value
  {
    var x0 := PowerUp(ctl, sh, chans, g, k1, k2);
    PowerUpInv(ctl, sh, chans, g, k1, k2);
    TriggerShown(x0, g, ks, n);
  }

  // ---------------------------------------------------------------- packet counters

  /** Packets taken up to now: clocks with cap_reg high. */
  function PacketsTaken(x0: System, g: Config, ks: seq<RunTick>): nat {
    if ks == [] then 0
    else PacketsTaken(x0, g, ks[..|ks| - 1]) + if FeedSystem(x0, g, ks).sh.capReg then 1 else 0
  }

  lemma Wraps(a: nat, m: nat)
    requires m == 0x1_0000 || m == TWO64
    ensures (a % m + 1) % m == (a + 1) % m
  {
  }

  /** The books of the packets: the counters' initial values, and the number taken since. */
  predicate Counted(s: Shared, pkts: nat, capCnt: nat, n: nat) {
    s.pkts == (pkts + n) % TWO64 && s.capCnt == (capCnt + n) % 0x1_0000
  }

  lemma CountersStep(x: System, g: Config, k: RunTick, pkts: nat, capCnt: nat, n: nat)
    requires Counted(x.sh, pkts, capCnt, n)
    ensures Counted(SystemNext(x, g, k).sh, pkts, capCnt, n + if CapturedWire(x, g, k) then 1 else 0)
  {
    Wraps(pkts + n, TWO64);
    Wraps(capCnt + n, 0x1_0000);
  }

  lemma {:induction false} CountersFeed(x0: System, g: Config, ks: seq<RunTick>)
    ensures Counted(FeedSystem(x0, g, ks).sh, x0.sh.pkts, x0.sh.capCnt, CapturedCount(x0, g, ks))
  {
    if ks != [] {
      var before := ks[..|ks| - 1];
      CountersFeed(x0, g, before);
      CountersStep(FeedSystem(x0, g, before), g, ks[|ks| - 1], x0.sh.pkts, x0.sh.capCnt,
                   CapturedCount(x0, g, before));
    }
  }

  lemma CapturedNext(x: System, g: Config, k: RunTick)
    ensures SystemNext(x, g, k).sh.capReg <==> CapturedWire(x, g, k)
  {
  }

  lemma {:induction false} TakenIsCaptured(x0: System, g: Config, ks: seq<RunTick>)
    ensures PacketsTaken(x0, g, ks) == CapturedCount(x0, g, ks)
  {
    if ks != [] {
      var before := ks[..|ks| - 1];
      TakenIsCaptured(x0, g, before);
      CapturedNext(FeedSystem(x0, g, before), g, ks[|ks| - 1]);
    }
  }

  /** pkt_counter in a packet: how many packets have been taken since reset, this one included. */
  lemma {:induction false} PacketNumber(
      ctl: Control, sh: Shared, chans: Chans, g: Config, k1: RunTick, k2: RunTick, ks: seq<RunTick>)
    ensures var x0 := PowerUp(ctl, sh, chans, g, k1, k2);
            var x := FeedSystem(x0, g, ks);
            && x.sh.pkts == PacketsTaken(x0, g, ks) % TWO64
            && PacketsTaken(x0, g, ks) == CapturedCount(x0, g, ks)
            && x.sh.capCnt == (x0.sh.capCnt + PacketsTaken(x0, g, ks)) % 0x1_0000
  {
    var x0 := PowerUp(ctl, sh, chans, g, k1, k2);
    CountersFeed(x0, g, ks);
    TakenIsCaptured(x0, g, ks);
  }

  // ---------------------------------------------------------------- when a cycle starts

  /** In test mode tmp_cnt counts the samples; it shows 7620 for the one clock after every 7620th. */
  function Position(ks: seq<RunTick>): nat {
    var m := ValidCount(ks);
    if m > 0 && m % 7620 == 0 && ks[|ks| - 1].valid then 7620 else m % 7620
  }

  lemma NextPosition(m: nat)
    ensures (m + 1) % 7620 == if m % 7620 == 7619 then 0 else m % 7620 + 1
  {
  }

  lemma PositionStep(s: Control, g: Config, k: RunTick, m: nat, valid: bool)
    requires g.testMode && (valid ==> m > 0 && !k.valid)
    requires s.tmpCnt == if valid && m % 7620 == 0 then 7620 else m % 7620
    ensures NextControl(s, g, false, k.trig, k.valid).tmpCnt ==
            if k.valid then if (m + 1) % 7620 == 0 then 7620 else (m + 1) % 7620 else m % 7620
  {
    NextPosition(m);
  }

  lemma {:induction false} TestPosition(x: System, g: Config, ks: seq<RunTick>)
    requires g.testMode && x.ctl.tmpCnt == 0 && Spaced(ks)
    ensures FeedSystem(x, g, ks).ctl.tmpCnt == Position(ks)
  {
    if ks != [] {
      var before := ks[..|ks| - 1];
      TestPosition(x, g, before);
      PositionStep(FeedSystem(x, g, before).ctl, g, ks[|ks| - 1], ValidCount(before),
                   before != [] && before[|before| - 1].valid);
    }
  }

  /** What starts a cycle: the trigger, or the test mode's own, at the start and after every 7620th sample. */
  predicate Starts(g: Config, ks: seq<RunTick>, k: RunTick) {
    k.trig || (g.testMode && ValidCount(ks) % 7620 == 0 && (ks == [] || !ks[|ks| - 1].valid))
  }

  /**
   * From a state with tmp_cnt at 0, where a clock without test mode leaves it: unless a region
   * is being measured, a cycle starts, counters and all, in exactly the clocks with a trigger
   * and in test mode those from each multiple of 7620 samples on to the next sample. While
   * cycle_active is high a trigger changes nothing.
   */
  lemma {:induction false} CycleStart(x: System, g: Config, ks: seq<RunTick>, k: RunTick)
    requires x.ctl.tmpCnt == 0 && Spaced(ks)
    ensures var s, s' := FeedSystem(x, g, ks).ctl, FeedSystem(x, g, ks + [k]).ctl;
            if CycleActive(s, g) then s' == NextControl(s, g, false, !k.trig, k.valid)
            else if Starts(g, ks, k) then s'.cycleCnt == 1 && s'.regionCnt == 0 && s'.sampleCnt == 0
            else
              && s'.cycleCnt == (if s.cycleCnt == 0 || !k.valid then s.cycleCnt else (s.cycleCnt + 1) % 0x1_0000)
              && s'.regionCnt == s.regionCnt && s'.sampleCnt == s.sampleCnt
    ensures Fires(FeedSystem(x, g, ks).ctl, g, k.trig) <==> Starts(g, ks, k)
    ensures !g.testMode ==> FeedSystem(x, g, ks + [k]).ctl.tmpCnt == 0
  {
    if g.testMode {
      TestPosition(x, g, ks);
    }
    assert (ks + [k])[..|ks|] == ks;
  }
}
