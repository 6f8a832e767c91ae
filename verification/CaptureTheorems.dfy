/** What a triggered cycle delivers, on every run. */
module CaptureTheorems {
  import opened Bits
  import opened CaptureControl
  import opened Capture
  import opened Statistics
  import opened CaptureRun

  /** The samples the k-th packet of a cycle sums up. */
  function Summed(done: seq<seq<Sample>>, k: nat, g: Config): seq<Sample>
    requires k < |done|
  {
    Kept(done[k], k, g)
  }

  // ---------------------------------------------------------------- contents of a packet

  /** The channel shows the true count, sum and sum of squares of the latest region and of all regions so far. */
  predicate ShowsTotals(c: Chan, done: seq<seq<Sample>>, g: Config, n: nat)
    requires n < NUM_CH && 1 <= |done|
  {
    var vs, ws := Vals(Summed(done, |done| - 1, g), n), Vals(Window(done, |done|, g), n);
    && c.count == |vs| && Signed64(c.sum) == Sum(vs) && Signed64(c.sq) == SumSq(vs)
    && c.countWin == |ws| && Signed64(c.sumWin) == Sum(ws) && Signed64(c.sqWin) == SumSq(ws)
    && Lagging(c, vs)
  }

  /**
   * When a packet is taken (cap_reg high) it is the r-th of its cycle, r = |done|,
   * and every channel shows the true totals of the samples summed, with nothing
   * wrapped. The closing sample of every region but the last is not among them.
   */
  lemma {:induction false} PacketContents(x: System, g: Config, n: nat)
    requires Programmed(g) && ReachableSystem(x, g) && n < NUM_CH && x.sh.capReg
    ensures 1 <= |x.b.done| <= g.regions
    ensures ShowsTotals(x.chans[n], x.b.done, g, n)
  {
    DoneAtPacket(x, g);
    AtPacket(x, g, n);
    PacketContentsAt(x.y, x.b, g, x.chans[n], n);
  }

  lemma {:induction false} AtPacket(x: System, g: Config, n: nat)
    requires Programmed(g) && ReachableSystem(x, g) && n < NUM_CH && x.sh.capReg
    ensures StageInv(x.y, x.b, g) && x.b.stage.Packet? && ChanInv(x.chans[n], n, x.y, x.b, g)
  {
    ReachableInv(x, g);
  }

  lemma {:induction false} DoneAtPacket(x: System, g: Config)
    requires Programmed(g) && ReachableSystem(x, g) && x.sh.capReg
    ensures 1 <= |x.b.done| <= g.regions
    ensures forall j :: 0 <= j < |x.b.done| ==> |x.b.done[j]| == g.size + 1
  {
    AtPacket(x, g, 0);
  }

  lemma {:induction false} PacketContentsAt(y: Cycle<Sample>, b: Books, g: Config, c: Chan, n: nat)
    requires Programmed(g) && StageInv(y, b, g) && b.stage.Packet? && n < NUM_CH && ChanInv(c, n, y, b, g)
    ensures ShowsTotals(c, b.done, g, n)
  {
    PacketLists(y, b, g);
    WindowFits(b.done, g);
    RegistersAreTrue(c.count, c.sum, c.sq, Acc(y, b), n);
    RegistersAreTrue(c.countWin, c.sumWin, c.sqWin, Window(b.done, |b.done|, g), n);
  }

  lemma {:induction false} PacketLists(y: Cycle<Sample>, b: Books, g: Config)
    requires StageInv(y, b, g) && b.stage.Packet?
    ensures 1 <= |b.done| <= g.regions && (forall j :: 0 <= j < |b.done| ==> |b.done[j]| == g.size + 1)
    ensures Acc(y, b) == Summed(b.done, |b.done| - 1, g)
    ensures Win(y, b, g) == Window(b.done, |b.done|, g)
    ensures |Acc(y, b)| <= g.size + 1
  {
  }

  lemma {:induction false} RegistersAreTrue(count: u64, sum: u64, sq: u64, ss: seq<Sample>, n: nat)
    requires n < NUM_CH && |ss| <= TWO16 && Holds(count, sum, sq, Vals(ss, n))
    ensures count == |Vals(ss, n)| && Signed64(sum) == Sum(Vals(ss, n)) && Signed64(sq) == SumSq(Vals(ss, n))
  {
    ValsRange(ss, n);
    HoldsTrue(count, sum, sq, Vals(ss, n));
  }

  lemma {:induction false} WindowFits(done: seq<seq<Sample>>, g: Config)
    requires Programmed(g) && |done| <= g.regions
    requires forall j :: 0 <= j < |done| ==> |done[j]| == g.size + 1
    ensures |Window(done, |done|, g)| <= TWO16
  {
    WindowLength(done, |done|, g);
    RoomInCycle(g.regions - 1, g.size, g);
    TotalGrows(|done|, g.regions, g.size + 1);
  }

  lemma {:induction false} WindowLength(done: seq<seq<Sample>>, k: nat, g: Config)
    requires k <= |done| <= g.regions
    requires forall j :: 0 <= j < |done| ==> |done[j]| == g.size + 1
    ensures |Window(done, k, g)| + k == Total(k, g.size + 1) + (if k == g.regions && k > 0 then 1 else 0)
    ensures |Window(done, k, g)| <= Total(k, g.size + 1)
  {
    if k > 0 {
      WindowLength(done, k - 1, g);
    }
  }

  /** With all channels valid: size samples per region, size + 1 in the last, R * size + 1 in the window. */
  lemma {:induction false} PacketCounts(x: System, g: Config, n: nat)
    requires Programmed(g) && ReachableSystem(x, g) && n < NUM_CH && x.sh.capReg
    requires forall j, i :: 0 <= j < |x.b.done| && 0 <= i < |x.b.done[j]| ==> x.b.done[j][i].valid[n]
    ensures x.chans[n].count == if |x.b.done| == g.regions then g.size + 1 else g.size
    ensures x.chans[n].countWin == |x.b.done| * g.size + if |x.b.done| == g.regions then 1 else 0
  {
    DoneAtPacket(x, g);
    PacketContents(x, g, n);
    CountsWhenValid(x.b.done, g, n);
  }

  lemma {:induction false} CountsWhenValid(done: seq<seq<Sample>>, g: Config, n: nat)
    requires 1 <= |done| <= g.regions && n < NUM_CH
    requires forall j :: 0 <= j < |done| ==> |done[j]| == g.size + 1
    requires forall j, i :: 0 <= j < |done| && 0 <= i < |done[j]| ==> done[j][i].valid[n]
    ensures |Vals(Summed(done, |done| - 1, g), n)| == if |done| == g.regions then g.size + 1 else g.size
    ensures |Vals(Window(done, |done|, g), n)| == |done| * g.size + if |done| == g.regions then 1 else 0
  {
    AllValid(Summed(done, |done| - 1, g), n);
    WindowValid(done, |done|, g, n);
    AllValid(Window(done, |done|, g), n);
    WindowLength(done, |done|, g);
    TotalOfRegions(|done|, g.size);
  }

  lemma TotalOfRegions(r: nat, size: nat)
    ensures Total(r, size + 1) == r * size + r
  {
    TotalIsProduct(r, size + 1);
    assert r * (size + 1) == r * size + r;
  }

  lemma {:induction false} WindowValid(done: seq<seq<Sample>>, k: nat, g: Config, n: nat)
    requires k <= |done| && n < NUM_CH
    requires forall j, i :: 0 <= j < |done| && 0 <= i < |done[j]| ==> done[j][i].valid[n]
    ensures forall i :: 0 <= i < |Window(done, k, g)| ==> Window(done, k, g)[i].valid[n]
  {
    if k > 0 {
      WindowValid(done, k - 1, g, n);
    }
  }

  // ---------------------------------------------------------------- window = sum of packets

  datatype Totals = Totals(count: int, sum: int, sq: int) {
    function Plus(that: Totals): Totals {
      Totals(count + that.count, sum + that.sum, sq + that.sq)
    }
  }

  /** The region fields of a packet that is taken now. */
  function RegionFields(c: Chan): Totals { Totals(c.count, Signed64(c.sum), Signed64(c.sq)) }

  /** Its window fields. */
  function WindowFieldsOf(c: Chan): Totals { Totals(c.countWin, Signed64(c.sumWin), Signed64(c.sqWin)) }

  function AddAll(ts: seq<Totals>): Totals {
    if ts == [] then Totals(0, 0, 0) else AddAll(ts[..|ts| - 1]).Plus(ts[|ts| - 1])
  }

  /** The clock of a cycle's start edge, read off the wires. */
  predicate StartEdge(x: System, g: Config, k: RunTick) {
    InitMm(x.sh, CapStart(x.ctl, g, k.valid)) && !x.sh.started
  }

  /** Region fields of channel n in the packets since the latest start edge: the registers in the cap_reg clocks. */
  function Reported(x: System, g: Config, ks: seq<RunTick>, n: nat): seq<Totals>
    requires n < NUM_CH
  {
    if ks == [] then []
    else
      var y, before := FeedSystem(x, g, ks[..|ks| - 1]), Reported(x, g, ks[..|ks| - 1], n);
      if StartEdge(y, g, ks[|ks| - 1]) then []
      else if y.sh.capReg then before + [RegionFields(y.chans[n])]
      else before
  }

  function Sums(vs: seq<int>): Totals { Totals(|vs|, Sum(vs), SumSq(vs)) }

  function TotalsOf(ss: seq<Sample>, n: nat): Totals
    requires n < NUM_CH
  {
    Sums(Vals(ss, n))
  }

  lemma {:induction false} SumsConcat(a: seq<int>, b: seq<int>, all: seq<int>)
    requires all == a + b
    ensures Sums(all) == Sums(a).Plus(Sums(b))
  {
    SumConcat(a, b);
  }

  lemma {:induction false} TotalsConcat(a: seq<Sample>, b: seq<Sample>, all: seq<Sample>, n: nat)
    requires n < NUM_CH && all == a + b
    ensures TotalsOf(all, n) == TotalsOf(a, n).Plus(TotalsOf(b, n))
  {
    ValsConcat(a, b, n);
    SumsConcat(Vals(a, n), Vals(b, n), Vals(all, n));
  }

  /** The totals of the first `k` regions' summed samples. */
  function Totalled(done: seq<seq<Sample>>, k: nat, g: Config, n: nat): seq<Totals>
    requires k <= |done| && n < NUM_CH
  {
    if k == 0 then [] else Totalled(done, k - 1, g, n) + [TotalsOf(Summed(done, k - 1, g), n)]
  }

  lemma {:induction false} TotalledAppend(done: seq<seq<Sample>>, region: seq<Sample>, k: nat, g: Config, n: nat)
    requires k <= |done| && n < NUM_CH
    ensures Totalled(done + [region], k, g, n) == Totalled(done, k, g, n)
  {
    if k > 0 {
      TotalledAppend(done, region, k - 1, g, n);
      assert (done + [region])[k - 1] == done[k - 1];
    }
  }

  lemma {:induction false} AddAllAppend(ts: seq<Totals>, t: Totals)
    ensures AddAll(ts + [t]) == AddAll(ts).Plus(t)
  {
    assert (ts + [t])[..|ts|] == ts;
  }

  lemma {:induction false} JoinSums(
      ts: seq<Totals>, t: Totals, before: seq<Sample>, last: seq<Sample>, all: seq<Sample>, n: nat)
    requires n < NUM_CH && all == before + last
    requires AddAll(ts) == TotalsOf(before, n) && t == TotalsOf(last, n)
    ensures AddAll(ts + [t]) == TotalsOf(all, n)
  {
    AddAllAppend(ts, t);
    TotalsConcat(before, last, all, n);
  }

  lemma {:induction false} WindowIsSumOfRegions(done: seq<seq<Sample>>, k: nat, g: Config, n: nat)
    requires k <= |done| && n < NUM_CH
    ensures AddAll(Totalled(done, k, g, n)) == TotalsOf(Window(done, k, g), n)
  {
    if k > 0 {
      var ts, before, last := Totalled(done, k - 1, g, n), Window(done, k - 1, g), Summed(done, k - 1, g);
      WindowIsSumOfRegions(done, k - 1, g, n);
      JoinSums(ts, TotalsOf(last, n), before, last, Window(done, k, g), n);
    }
  }

  /** Regions whose packet has been taken. */
  function Taken(b: Books): int {
    |b.done| - if b.stage.Closing? || b.stage.Packet? then 1 else 0
  }

  /** A clock of the books, as far as packets are concerned. */
  lemma {:induction false} TakenStep(x: System, g: Config, k: RunTick, n: nat)
    requires Programmed(g) && SystemInv(x, g) && (x.b.pend.Some? ==> !k.valid) && n < NUM_CH
    ensures Taken(x.b) >= 0
    ensures var x' := SystemNext(x, g, k);
            && (StartEdge(x, g, k) <==> x.b.stage.Opening?) && (x.sh.capReg <==> x.b.stage.Packet?)
            && (if x.b.stage.Opening? then x'.b.done == [] && Taken(x'.b) == 0
                else if x.b.stage.Packet? then x'.b.done == x.b.done && Taken(x'.b) == |x.b.done|
                else Taken(x'.b) == Taken(x.b)
                     && Totalled(x'.b.done, Taken(x.b), g, n) == Totalled(x.b.done, Taken(x.b), g, n))
  {
    Switches(x, g, k);
    var x' := SystemNext(x, g, k);
    if x.b.stage.Filling? && x'.b.done != x.b.done {
      TotalledAppend(x.b.done, x.y.region + [k.sample], |x.b.done|, g, n);
    }
  }

  lemma {:induction false} ReportedIsTotalled(x0: System, g: Config, ks: seq<RunTick>, n: nat)
    requires Programmed(g) && n < NUM_CH && Spaced(ks)
    requires SystemInv(x0, g) && x0.b.pend.None? && x0.b.stage.Quiet? && x0.b.done == []
    ensures var x := FeedSystem(x0, g, ks);
            0 <= Taken(x.b) && Reported(x0, g, ks, n) == Totalled(x.b.done, Taken(x.b), g, n)
  {
    FeedInv(x0, g, ks);
    if ks != [] {
      var x, k := FeedSystem(x0, g, ks[..|ks| - 1]), ks[|ks| - 1];
      FeedInv(x0, g, ks[..|ks| - 1]);
      ReportedIsTotalled(x0, g, ks[..|ks| - 1], n);
      TakenStep(x, g, k, n);
      if x.b.stage.Packet? {
        PacketContentsAt(x.y, x.b, g, x.chans[n], n);
        assert RegionFields(x.chans[n]) == TotalsOf(Summed(x.b.done, |x.b.done| - 1, g), n);
      }
    }
  }

  /**
   * The window fields of a packet are the region fields of the packets since the
   * cycle's start edge, its own included, added up - as the registers showed them in
   * the clocks in which those packets were taken.
   */
  lemma {:induction false} WindowFields(
      ctl: Control, sh: Shared, chans: Chans, g: Config, k1: RunTick, k2: RunTick, ks: seq<RunTick>, n: nat)
    requires Programmed(g) && Spaced(ks) && n < NUM_CH
    requires FeedSystem(PowerUp(ctl, sh, chans, g, k1, k2), g, ks).sh.capReg
    ensures var x0 := PowerUp(ctl, sh, chans, g, k1, k2);
            var c := FeedSystem(x0, g, ks).chans[n];
            WindowFieldsOf(c) == AddAll(Reported(x0, g, ks, n) + [RegionFields(c)])
  {
    var x0 := PowerUp(ctl, sh, chans, g, k1, k2);
    PowerUpInv(ctl, sh, chans, g, k1, k2);
    FeedInv(x0, g, ks);
    ReportedIsTotalled(x0, g, ks, n);
    WindowFieldsAt(FeedSystem(x0, g, ks), g, n);
  }

  lemma {:induction false} WindowFieldsAt(x: System, g: Config, n: nat)
    requires Programmed(g) && SystemInv(x, g) && n < NUM_CH && x.sh.capReg
    ensures Taken(x.b) >= 0
    ensures WindowFieldsOf(x.chans[n]) == AddAll(Totalled(x.b.done, Taken(x.b), g, n) + [RegionFields(x.chans[n])])
  {
    PacketContentsAt(x.y, x.b, g, x.chans[n], n);
    WindowIsSumOfRegions(x.b.done, |x.b.done|, g, n);
    assert Totalled(x.b.done, |x.b.done|, g, n) == Totalled(x.b.done, Taken(x.b), g, n) + [RegionFields(x.chans[n])];
  }

  // ---------------------------------------------------------------- at every clock

  /** Three registers are the true count, sum and sum of squares of `vs`, within their mathematical bounds. */
  predicate TrueSums(count: u64, sum: u64, sq: u64, vs: seq<int>) {
    && count == |vs| && Signed64(sum) == Sum(vs) && Signed64(sq) == SumSq(vs)
    && Signed64(sum) * Signed64(sum) <= count * sq
    && -0x2_0000 * count <= Signed64(sum) <= 0x2_0000 * count
    && sq <= 0x4_0000_0000 * count
  }

  /**
   * In every reachable state, packet or not: the accumulators of region and window
   * are the true sums of the samples taken in, obey the Cauchy-Schwarz inequality and
   * the range of 18-bit samples, and ch_min / ch_max are the extremes since the last
   * start edge or capture.
   */
  lemma {:induction false} AccumulatorsAreTrue(x: System, g: Config, n: nat)
    requires Programmed(g) && ReachableSystem(x, g) && n < NUM_CH
    ensures var c, vs, ws := x.chans[n], Vals(Acc(x.y, x.b), n), Vals(Win(x.y, x.b, g), n);
            && TrueSums(c.count, c.sum, c.sq, vs)
            && TrueSums(c.countWin, c.sumWin, c.sqWin, ws)
            && Extremal(c, if x.b.stage == Packet(false) then [] else vs)
  {
    ReachableInv(x, g);
    var c, acc, win := x.chans[n], Acc(x.y, x.b), Win(x.y, x.b, g);
    AccBounded(x.ctl, x.y, x.b, g);
    WinBounded(x.ctl, x.y, x.b, g);
    SumsAreTrue(c.count, c.sum, c.sq, acc, n);
    SumsAreTrue(c.countWin, c.sumWin, c.sqWin, win, n);
  }

  lemma {:induction false} SumsAreTrue(count: u64, sum: u64, sq: u64, ss: seq<Sample>, n: nat)
    requires n < NUM_CH && |ss| <= TWO16 && Holds(count, sum, sq, Vals(ss, n))
    ensures TrueSums(count, sum, sq, Vals(ss, n))
  {
    ValsRange(ss, n);
    HoldsTrue(count, sum, sq, Vals(ss, n));
    Bounds(Vals(ss, n));
  }

  lemma {:induction false} AccBounded(ctl: Control, y: Cycle<Sample>, b: Books, g: Config)
    requires StageInv(y, b, g) && Tracks(ctl, y, g)
    ensures |Acc(y, b)| <= g.size + 1
  {
  }

  lemma {:induction false} WinBounded(ctl: Control, y: Cycle<Sample>, b: Books, g: Config)
    requires Programmed(g) && StageInv(y, b, g) && Tracks(ctl, y, g)
    ensures |Win(y, b, g)| <= TWO16
  {
    AccBounded(ctl, y, b, g);
    WindowFits(b.done, g);
    if b.stage.Closing? {
      WindowLength(b.done, |b.done| - 1, g);
      RoomInCycle(|b.done| - 1, g.size, g);
    } else if b.stage.Filling? {
      WindowLength(b.done, |b.done|, g);
      RoomInCycle(|b.done|, g.size, g);
    }
  }

  // ---------------------------------------------------------------- one trigger, R packets

  lemma {:induction false} CaptureWire(x: System, g: Config, valid: bool)
    requires Programmed(g) && SystemInv(x, g)
    ensures Captured(x.sh, CapEna(x.ctl, g), CapStart(x.ctl, g, valid)) <==> x.b.stage.Closing?
  {
    Wires(x.ctl, x.y, g, valid);
  }

  lemma {:induction false} PacketLabel(x: System, g: Config)
    requires Programmed(g) && SystemInv(x, g)
    ensures x.sh.capReg <==> x.b.stage.Packet?
    ensures x.sh.capReg ==> x.b.raised == |x.b.done|
    ensures x.sh.capReg ==>
              CapRegion(x.ctl) == if x.b.stage.final && x.y.Delaying? then 0 else |x.b.done| % 16
    ensures x.b.stage == Packet(true) ==> x.b.raised == g.regions && !x.y.Running?
  {
  }

  /** The wire `captured`. */
  predicate CapturedWire(x: System, g: Config, k: RunTick) {
    Captured(x.sh, CapEna(x.ctl, g), CapStart(x.ctl, g, k.valid))
  }

  /**
   * A packet is taken in the clock after `captured` is high. If that was the clock after the
   * cycle's last sample (cycle_cnt is 0) and a trigger came in it, the packet is labelled 0;
   * otherwise it is labelled with the number of regions closed since the start edge.
   */
  lemma {:induction false} PacketsOfCycle(x: System, g: Config, k: RunTick)
    requires Programmed(g) && ReachableSystem(x, g) && (x.b.pend.Some? ==> !k.valid)
    ensures SystemNext(x, g, k).sh.capReg <==> CapturedWire(x, g, k)
    ensures CapturedWire(x, g, k) ==>
              && 1 <= |x.b.done| <= g.regions && (x.ctl.cycleCnt == 0 <==> |x.b.done| == g.regions)
              && CapRegion(SystemNext(x, g, k).ctl) ==
                 if x.ctl.cycleCnt == 0 && Fires(x.ctl, g, k.trig) then 0 else |x.b.done| % 16
  {
    ReachableInv(x, g);
    PacketsAt(x, g, k);
  }

  lemma {:induction false} PacketsAt(x: System, g: Config, k: RunTick)
    requires Programmed(g) && SystemInv(x, g) && (x.b.pend.Some? ==> !k.valid)
    ensures SystemNext(x, g, k).sh.capReg <==> CapturedWire(x, g, k)
    ensures CapturedWire(x, g, k) ==>
              && 1 <= |x.b.done| <= g.regions && (x.ctl.cycleCnt == 0 <==> |x.b.done| == g.regions)
              && CapRegion(SystemNext(x, g, k).ctl) ==
                 if x.ctl.cycleCnt == 0 && Fires(x.ctl, g, k.trig) then 0 else |x.b.done| % 16
  {
    CaptureWire(x, g, k.valid);
    Switches(x, g, k);
    SystemStep(x, g, k);
    PacketLabel(SystemNext(x, g, k), g);
  }

  /** Samples a cycle has used since its trigger. */
  function Used(y: Cycle<Sample>, g: Config): nat {
    match y
    case Waiting => 0
    case Delaying(used) => used
    case Running(closed, region) => Delay(g) + Total(|closed|, g.size + 1) + |region|
  }

  function CycleSamples(g: Config): nat { Delay(g) + Total(g.regions, g.size + 1) }

  predicate WellSized(y: Cycle<Sample>, g: Config) {
    match y
    case Waiting => true
    case Delaying(used) => used < Delay(g)
    case Running(closed, region) => |closed| < g.regions && |region| <= g.size
  }

  datatype Event = Event(fires: bool, sample: Option<Sample>)

  lemma {:induction false} UsedStep(y: Cycle<Sample>, g: Config, e: Event)
    requires Programmed(g) && WellSized(y, g) && !y.Waiting? && (e.fires ==> y.Running?)
    ensures var y' := NextCycle(y, g, e.fires, e.sample);
            var used := Used(y, g) + if e.sample.Some? then 1 else 0;
            && WellSized(y', g)
            && (used < CycleSamples(g) ==> !y'.Waiting? && Used(y', g) == used)
            && (used >= CycleSamples(g) ==> used == CycleSamples(g) && y'.Waiting?)
  {
    var n, c := g.size + 1, if y.Running? then |y.closed| else 0;
    assert Total(c + 1, n) == Total(c, n) + n;
    TotalGrows(c + 1, g.regions, n);
    if c + 2 <= g.regions {
      assert Total(c + 2, n) == Total(c + 1, n) + n;
      TotalGrows(c + 2, g.regions, n);
    }
  }

  // ---------------------------------------------------------------- one trigger, on the machines

  /** Clocks with sample_valid high. */
  function ValidCount(ks: seq<RunTick>): nat {
    if ks == [] then 0 else ValidCount(ks[..|ks| - 1]) + if ks[|ks| - 1].valid then 1 else 0
  }

  /** Clocks of the run in which `captured` is high. */
  function CapturedCount(x: System, g: Config, ks: seq<RunTick>): nat {
    if ks == [] then 0
    else
      CapturedCount(x, g, ks[..|ks| - 1])
      + if CapturedWire(FeedSystem(x, g, ks[..|ks| - 1]), g, ks[|ks| - 1]) then 1 else 0
  }

  /** Triggers come only while cycle_active is high. */
  predicate Untriggered(x: System, g: Config, ks: seq<RunTick>) {
    ks != [] ==>
      && Untriggered(x, g, ks[..|ks| - 1])
      && var y, k := FeedSystem(x, g, ks[..|ks| - 1]), ks[|ks| - 1];
         Fires(y.ctl, g, k.trig) ==> CycleActive(y.ctl, g)
  }

  /** Regions complete when `m` samples have come since the trigger. */
  function RegionsDone(m: nat, g: Config): nat {
    if m < Delay(g) then 0
    else if m >= CycleSamples(g) then g.regions
    else (m - Delay(g)) / (g.size + 1)
  }

  /** The position in the cycle, and `captured` raised once for every region closed and one clock old. */
  ghost predicate InCycle(x: System, g: Config, m: nat, captures: nat) {
    && SystemInv(x, g) && WellSized(x.y, g)
    && (if m < CycleSamples(g) then !x.y.Waiting? && Used(x.y, g) == m else x.y.Waiting? && |x.b.done| == g.regions)
    && captures == if x.y.Delaying? || x.b.stage.Opening? then 0 else x.b.raised
  }

  lemma {:induction false} DoneStep(x: System, g: Config, k: RunTick)
    requires StageInv(x.y, x.b, g) && WellSized(x.y, g) && (x.b.pend.Some? ==> !k.valid)
    requires var x' := SystemNext(x, g, k); StageInv(x'.y, x'.b, g)
    requires x.y.Waiting? ==> SystemNext(x, g, k).y.Waiting? && |x.b.done| == g.regions
    ensures var x' := SystemNext(x, g, k);
            && (x'.y.Waiting? && !x.y.Delaying? ==> |x'.b.done| == g.regions)
            && (if x'.y.Delaying? || x'.b.stage.Opening? then !x.b.stage.Closing? && !x.y.Running?
                else x'.b.raised == (if x.y.Delaying? || x.b.stage.Opening? then 0 else x.b.raised)
                                    + if x.b.stage.Closing? then 1 else 0)
  {
  }

  lemma {:induction false} InCycleStep(x: System, g: Config, k: RunTick, m: nat, captures: nat)
    requires Programmed(g) && InCycle(x, g, m, captures)
    requires x.b.pend.Some? ==> !k.valid
    requires Fires(x.ctl, g, k.trig) ==> CycleActive(x.ctl, g)
    ensures InCycle(SystemNext(x, g, k), g,
                    m + if k.valid then 1 else 0, captures + if CapturedWire(x, g, k) then 1 else 0)
  {
    SystemStep(x, g, k);
    Wires(x.ctl, x.y, g, k.valid);
    CaptureWire(x, g, k.valid);
    if !x.y.Waiting? {
      UsedStep(x.y, g, Event(Fires(x.ctl, g, k.trig), Given(k)));
    }
    DoneStep(x, g, k);
  }

  lemma {:induction false} InCycleFeed(x: System, g: Config, ks: seq<RunTick>)
    requires Programmed(g) && InCycle(x, g, 0, 0)
    requires Spaced(ks) && (x.b.pend.Some? && ks != [] ==> !ks[0].valid) && Untriggered(x, g, ks)
    ensures InCycle(FeedSystem(x, g, ks), g, ValidCount(ks), CapturedCount(x, g, ks))
    ensures ks != [] ==> FeedSystem(x, g, ks).b.pend == Given(ks[|ks| - 1])
  {
    if ks != [] {
      var before, k := ks[..|ks| - 1], ks[|ks| - 1];
      InCycleFeed(x, g, before);
      InCycleStep(FeedSystem(x, g, before), g, k, ValidCount(before), CapturedCount(x, g, before));
    }
  }

  lemma QuotientOf(x: nat, c: nat, n: nat, r: nat)
    requires x == c * n + r && r < n
    ensures x / n == c
  {
    var q := x / n;
    assert x == q * n + x % n;
    if q < c {
      assert (q + 1) * n <= c * n by { TotalIsProduct(q + 1, n); TotalIsProduct(c, n); TotalGrows(q + 1, c, n); }
    } else if c < q {
      assert (c + 1) * n <= q * n by { TotalIsProduct(q, n); TotalIsProduct(c + 1, n); TotalGrows(c + 1, q, n); }
    }
  }

  /** What the next clock makes of the count, from samples alone. */
  lemma {:induction false} CapturesFromSamples(x: System, g: Config, k: RunTick, m: nat, captures: nat)
    requires Programmed(g) && InCycle(x, g, m, captures)
    ensures captures + (if CapturedWire(x, g, k) then 1 else 0) == RegionsDone(m, g)
  {
    CaptureWire(x, g, k.valid);
    TotalGrows(0, g.regions, g.size + 1);
    if x.y.Running? {
      var c := |x.y.closed|;
      TotalIsProduct(c, g.size + 1);
      QuotientOf(m - Delay(g), c, g.size + 1, |x.y.region|);
    }
  }

  /** The counter and cycle_active, from samples alone. */
  lemma {:induction false} CounterFromSamples(x: System, g: Config, m: nat, captures: nat)
    requires Programmed(g) && InCycle(x, g, m, captures)
    ensures m < Delay(g) ==> x.ctl.cycleCnt == m + 1
    ensures m >= CycleSamples(g) ==> x.ctl.cycleCnt == 0
    ensures CycleActive(x.ctl, g) <==> Delay(g) <= m < CycleSamples(g)
  {
    TotalGrows(0, g.regions, g.size + 1);
    Wires(x.ctl, x.y, g, false);
  }

  lemma {:induction false} CycleStarts(x: System, g: Config)
    requires Programmed(g) && SystemInv(x, g) && x.ctl.cycleCnt == 1
    ensures InCycle(x, g, 0, 0)
  {
    TotalGrows(0, g.regions, g.size + 1);
  }

  /** The label of a packet within the cycle. */
  lemma {:induction false} LabelInCycle(x: System, g: Config, k: RunTick, m: nat, captures: nat)
    requires Programmed(g) && InCycle(x, g, m, captures)
    requires x.b.pend.Some? ==> !k.valid
    requires Fires(x.ctl, g, k.trig) ==> CycleActive(x.ctl, g)
    ensures var x' := SystemNext(x, g, k);
            x'.sh.capReg ==> CapRegion(x'.ctl) == (captures + if CapturedWire(x, g, k) then 1 else 0) % 16
  {
    InCycleStep(x, g, k, m, captures);
    CaptureWire(x, g, k.valid);
    Wires(x.ctl, x.y, g, k.valid);
    PacketLabel(SystemNext(x, g, k), g);
  }

  /**
   * One trigger, exactly R captures. From the clock after an accepted trigger, with no
   * further trigger while cycle_active is low: cycle_active is low for the first
   * ena_delay + start_delay samples, high for the next R * (size + 1), low again with
   * the counter at 0; and `captured` is high exactly once for each region, in the clock
   * after its last sample - R times when the cycle is over. The packet of the k-th
   * capture is labelled k mod 16.
   */
  lemma {:induction false} OneTrigger(x: System, g: Config, ks: seq<RunTick>)
    requires Programmed(g) && ReachableSystem(x, g) && x.ctl.cycleCnt == 1
    requires Spaced(ks) && (x.b.pend.Some? && ks != [] ==> !ks[0].valid) && Untriggered(x, g, ks)
    ensures CycleSamples(g) == Delay(g) + g.regions * (g.size + 1)
    ensures var y, m := FeedSystem(x, g, ks), ValidCount(ks);
            && (m < Delay(g) ==> y.ctl.cycleCnt == m + 1)
            && (m >= CycleSamples(g) ==> y.ctl.cycleCnt == 0)
            && (CycleActive(y.ctl, g) <==> Delay(g) <= m < CycleSamples(g))
    ensures ks != [] ==> CapturedCount(x, g, ks) == RegionsDone(ValidCount(ks[..|ks| - 1]), g)
    ensures var y := FeedSystem(x, g, ks);
            ks != [] && y.sh.capReg ==> CapRegion(y.ctl) == CapturedCount(x, g, ks) % 16
  {
    ReachableInv(x, g);
    TotalIsProduct(g.regions, g.size + 1);
    CycleStarts(x, g);
    InCycleFeed(x, g, ks);
    CounterFromSamples(FeedSystem(x, g, ks), g, ValidCount(ks), CapturedCount(x, g, ks));
    CapturesOfRun(x, g, ks);
  }

  lemma {:induction false} CapturesOfRun(x: System, g: Config, ks: seq<RunTick>)
    requires Programmed(g) && InCycle(x, g, 0, 0)
    requires Spaced(ks) && (x.b.pend.Some? && ks != [] ==> !ks[0].valid) && Untriggered(x, g, ks)
    ensures ks != [] ==> CapturedCount(x, g, ks) == RegionsDone(ValidCount(ks[..|ks| - 1]), g)
    ensures var y := FeedSystem(x, g, ks);
            ks != [] && y.sh.capReg ==> CapRegion(y.ctl) == CapturedCount(x, g, ks) % 16
  {
    if ks != [] {
      var before, k := ks[..|ks| - 1], ks[|ks| - 1];
      InCycleFeed(x, g, before);
      CapturesFromSamples(FeedSystem(x, g, before), g, k, ValidCount(before), CapturedCount(x, g, before));
      LabelInCycle(FeedSystem(x, g, before), g, k, ValidCount(before), CapturedCount(x, g, before));
    }
  }
}
