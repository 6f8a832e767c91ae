/**
 * capture_control driving subsystem_capture, as wired in system_top.sv: which
 * samples each packet of a triggered cycle sums up.
 */
module CaptureRun {
  import opened Bits
  import opened CaptureControl
  import opened Capture
  import opened Statistics

  datatype RunTick = RunTick(trig: bool, valid: bool, sample: Sample, trigger: u2, timestamp: u64)

  type Chans = c: seq<Chan> | |c| == NUM_CH
    witness seq(NUM_CH, _ => Chan(0, 0, 0, 0, 0, 0, 0, MIN_INIT, MAX_INIT, false, 0, 0))

  /**
   * What the integrator is doing: nothing; the clock of the start edge; summing;
   * the clock after a region's last sample (`captured` is high); the clock of the
   * packet (`cap_reg` is high). `final` marks the cycle's last region.
   */
  datatype Stage = Quiet | Opening | Filling | Closing(final: bool) | Packet(final: bool)

  /**
   * The books: the closed regions and the number of times `captured` was raised,
   * both since the latest start edge of a cycle; the sample of the clock before; and
   * one sample counted before the cycle opened (see SamplesCaptured).
   */
  datatype Books = Books(stage: Stage, done: seq<seq<Sample>>, pend: Option<Sample>, raised: nat, extra: nat)

  datatype System = System(ctl: Control, sh: Shared, chans: Chans, y: Cycle<Sample>, b: Books)

  function Given(k: RunTick): Option<Sample> { if k.valid then Some(k.sample) else None }

  /** The integrator's inputs: enable and start come from the counters. */
  function TickOf(ctl: Control, g: Config, k: RunTick): Tick {
    Tick(false, CapEna(ctl, g), CapStart(ctl, g, k.valid), k.trigger, k.timestamp, k.valid, k.sample)
  }

  function NextBooks(b: Books, y: Cycle<Sample>, y': Cycle<Sample>, ena: bool, k: RunTick): Books {
    var closes := b.stage.Filling? && y.Running? && k.valid && !(y'.Running? && |y'.closed| == |y.closed|);
    var stage' :=
      match b.stage
      case Opening => Filling
      case Filling => if closes then Closing(!y'.Running?) else Filling
      case Closing(final) => Packet(final)
      case Packet(false) => Filling
      case _ => if y'.Running? then Opening else Quiet;
    Books(
      stage',
      if b.stage.Opening? then [] else if closes then b.done + [y.region + [k.sample]] else b.done,
      Given(k),
      if b.stage.Opening? then 0 else if b.stage.Closing? then b.raised + 1 else b.raised,
      if b.stage == Packet(true) then if ena && k.valid then 1 else 0 else b.extra)
  }

  function SystemNext(x: System, g: Config, k: RunTick): System {
    var y' := NextCycle(x.y, g, Fires(x.ctl, g, k.trig), Given(k));
    System(
      NextControl(x.ctl, g, false, k.trig, k.valid),
      NextShared(x.sh, TickOf(x.ctl, g, k)),
      seq(NUM_CH, n requires 0 <= n < NUM_CH => NextChan(x.chans[n], x.sh, TickOf(x.ctl, g, k), n)),
      y',
      NextBooks(x.b, x.y, y', CapEna(x.ctl, g), k))
  }

  // ---------------------------------------------------------------- which samples are summed

  /** Of a region that another one follows, the closing sample is not summed. */
  function Kept(region: seq<Sample>, k: nat, g: Config): seq<Sample> {
    if k + 1 == g.regions || region == [] then region else region[..|region| - 1]
  }

  /** The summed samples of the first `k` regions. */
  function Window(done: seq<seq<Sample>>, k: nat, g: Config): seq<Sample>
    requires k <= |done|
  {
    if k == 0 then [] else Window(done, k - 1, g) + Kept(done[k - 1], k - 1, g)
  }

  /** Samples already in the accumulators while a region is filled: all but that of the last clock. */
  function Settled(region: seq<Sample>, pend: Option<Sample>): seq<Sample> {
    if pend.Some? && region != [] then region[..|region| - 1] else region
  }

  function Butlast(region: seq<Sample>): seq<Sample> {
    if region == [] then [] else region[..|region| - 1]
  }

  /** What the per-region accumulators hold. */
  function Acc(y: Cycle<Sample>, b: Books): seq<Sample> {
    match b.stage
    case Filling => if y.Running? then Settled(y.region, b.pend) else []
    case Closing(_) => if b.done == [] then [] else Butlast(b.done[|b.done| - 1])
    case Packet(final) =>
      if b.done == [] then [] else if final then b.done[|b.done| - 1] else Butlast(b.done[|b.done| - 1])
    case _ => []
  }

  /** What the window accumulators hold. */
  function Win(y: Cycle<Sample>, b: Books, g: Config): seq<Sample> {
    match b.stage
    case Closing(_) => if b.done == [] then [] else Window(b.done, |b.done| - 1, g) + Acc(y, b)
    case Packet(_) => Window(b.done, |b.done|, g)
    case _ => Window(b.done, |b.done|, g) + Acc(y, b)
  }

  // ---------------------------------------------------------------- invariant

  /** The stage against the reference cycle. */
  ghost predicate StageInv(y: Cycle<Sample>, b: Books, g: Config) {
    && (y.Running? <==> b.stage in {Opening, Filling, Closing(false), Packet(false)})
    && (y.Running? ==> if b.stage.Opening? then y.closed == [] else b.done == y.closed)
    && (b.stage in {Opening, Closing(false), Packet(false)} ==> y.region == [])
    && (b.stage == Closing(true) ==> y.Waiting?)
    && (b.stage == Packet(true) ==> y.Waiting? || y == Delaying(0))
    && (b.stage.Closing? || b.stage.Packet? ==> |b.done| >= 1 && (b.stage.final <==> |b.done| == g.regions))
    && |b.done| <= g.regions
    && (forall k :: 0 <= k < |b.done| ==> |b.done[k]| == g.size + 1)
    && (b.stage.Opening? ==> b.pend.Some?)
    && (b.stage.Packet? ==> b.pend.None?)
    && (b.stage.Closing? ==> b.pend == Some(b.done[|b.done| - 1][g.size]))
    && (b.stage.Filling? && b.pend.Some? ==> y.region != [] && y.region[|y.region| - 1] == b.pend.value)
    && b.raised == |b.done| - (if b.stage.Closing? then 1 else 0)
    && b.extra <= 1
  }

  /** The shared registers against the stage. */
  ghost predicate SharedInv(sh: Shared, ctl: Control, y: Cycle<Sample>, b: Books, g: Config)
    requires StageInv(y, b, g)
  {
    && (sh.started <==> b.stage.Filling? || b.stage.Closing? || b.stage == Packet(false))
    && (sh.capReg <==> b.stage.Packet?)
    && (b.stage == Opening || b.stage == Closing(false) ==> !sh.startReg)
    && (b.stage == Packet(false) || (b.stage.Filling? && y.region == []) ==> sh.startReg)
    && sh.samples == SamplesNow(y, b, g)
    && (b.stage == Closing(true) || (b.stage == Packet(true) && y.Waiting?) ==> ctl.regionCnt == g.regions)
  }

  /** The sample counter: all samples of the region, closing one included, and `extra` in the first region. */
  function SamplesNow(y: Cycle<Sample>, b: Books, g: Config): nat {
    match b.stage
    case Filling => (if y.Running? then |y.region| else 0) + if b.done == [] then b.extra else 0
    case Closing(_) => g.size + 1 + if |b.done| == 1 then b.extra else 0
    case Packet(_) => g.size + 1 + if |b.done| == 1 then b.extra else 0
    case _ => b.extra
  }

  lemma {:induction false} StageStep(ctl: Control, y: Cycle<Sample>, b: Books, g: Config, k: RunTick)
    requires Programmed(g) && Tracks(ctl, y, g) && StageInv(y, b, g)
    requires b.pend.Some? ==> !k.valid
    ensures var y' := NextCycle(y, g, Fires(ctl, g, k.trig), Given(k));
            StageInv(y', NextBooks(b, y, y', CapEna(ctl, g), k), g)
  {
  }

  lemma {:induction false} SharedStep(sh: Shared, ctl: Control, y: Cycle<Sample>, b: Books, g: Config, k: RunTick)
    requires Programmed(g) && Tracks(ctl, y, g) && StageInv(y, b, g) && SharedInv(sh, ctl, y, b, g)
    requires b.pend.Some? ==> !k.valid
    ensures var y' := NextCycle(y, g, Fires(ctl, g, k.trig), Given(k));
            var b' := NextBooks(b, y, y', CapEna(ctl, g), k);
            && StageInv(y', b', g)
            && SharedInv(NextShared(sh, TickOf(ctl, g, k)), NextControl(ctl, g, false, k.trig, k.valid), y', b', g)
  {
    StageStep(ctl, y, b, g, k);
    Wires(ctl, y, g, k.valid);
    if b.stage.Filling? {
      var y' := NextCycle(y, g, Fires(ctl, g, k.trig), Given(k));
      SharedStepFilling(sh, ctl, y, b, g, k, y', NextBooks(b, y, y', CapEna(ctl, g), k));
    } else {
      assert !(b.stage.Opening? || b.stage.Closing?) || !k.valid;
    }
  }

  lemma {:induction false} SharedStepFilling(
      sh: Shared, ctl: Control, y: Cycle<Sample>, b: Books, g: Config, k: RunTick, y': Cycle<Sample>, b': Books)
    requires g.size >= 1 && StageInv(y, b, g) && SharedInv(sh, ctl, y, b, g) && b.stage.Filling?
    requires CycleActive(ctl, g) && CapEna(ctl, g) && (CapStart(ctl, g, k.valid) <==> y.region == [])
    requires ctl.sampleCnt == |y.region| <= g.size && ctl.regionCnt == |y.closed| < g.regions
    requires y' == NextCycle(y, g, Fires(ctl, g, k.trig), Given(k)) && b' == NextBooks(b, y, y', true, k)
    requires StageInv(y', b', g)
    ensures SharedInv(NextShared(sh, TickOf(ctl, g, k)), NextControl(ctl, g, false, k.trig, k.valid), y', b', g)
  {
    var sh' := NextShared(sh, TickOf(ctl, g, k));
    assert sh'.started && !sh'.capReg && (sh'.startReg <==> y.region == []);
    assert sh'.samples == if k.valid then sh.samples + 1 else sh.samples;
  }

  // ---------------------------------------------------------------- channels

  /** Extremes since the last start edge or capture. */
  predicate Extremal(c: Chan, vs: seq<int>) {
    Signed20(c.min) == Low(vs) && Signed20(c.max) == High(vs)
  }

  /** ch_misc shows the extremes as they were before the last summed value. */
  predicate Lagging(c: Chan, vs: seq<int>) {
    vs != [] ==>
      && Signed20(c.misc / 0x10_0000 % 0x10_0000) == Low(vs[..|vs| - 1])
      && Signed20(c.misc % 0x10_0000) == High(vs[..|vs| - 1])
  }

  /** The result registers hold channel n of the sample of the clock before. */
  predicate Result(c: Chan, pend: Option<Sample>, n: nat)
    requires n < NUM_CH
  {
    && (c.resValid <==> pend.Some? && pend.value.valid[n])
    && (c.resValid ==> c.resSum == Extend20(pend.value.data[n]) && c.resSq == Square(pend.value.data[n]))
  }

  predicate Region(c: Chan, vs: seq<int>) {
    Holds(c.count, c.sum, c.sq, vs)
  }

  predicate Whole(c: Chan, vs: seq<int>) {
    Holds(c.countWin, c.sumWin, c.sqWin, vs)
  }

  predicate ChanInv(c: Chan, n: nat, y: Cycle<Sample>, b: Books, g: Config)
    requires n < NUM_CH
  {
    && Region(c, Vals(Acc(y, b), n))
    && Whole(c, Vals(Win(y, b, g), n))
    && Extremal(c, if b.stage == Packet(false) then [] else Vals(Acc(y, b), n))
    && Lagging(c, Vals(Acc(y, b), n))
    && Result(c, b.pend, n)
  }

  lemma MiscFields(trigger: u2, min: u20, max: u20)
    ensures Misc(trigger, min, max) / 0x10_0000 % 0x10_0000 == min
    ensures Misc(trigger, min, max) % 0x10_0000 == max
  {
    assert Misc(trigger, min, max) / 0x10_0000 == trigger * 0x10_0000 + min;
  }

  /** The summing branch: the pending value, if the channel has one, goes into every accumulator. */
  lemma {:induction false} Accumulates(
      c: Chan, sh: Shared, k: Tick, n: nat, acc: seq<Sample>, win: seq<Sample>, pend: Sample)
    requires n < NUM_CH && !k.rst && !InitMm(sh, k.start) && !sh.capReg && sh.started
    requires Region(c, Vals(acc, n)) && Whole(c, Vals(win, n)) && Extremal(c, Vals(acc, n)) && Lagging(c, Vals(acc, n))
    requires Result(c, Some(pend), n)
    ensures var c' := NextChan(c, sh, k, n);
            && Region(c', Vals(acc + [pend], n)) && Whole(c', Vals(win + [pend], n))
            && Extremal(c', Vals(acc + [pend], n)) && Lagging(c', Vals(acc + [pend], n))
  {
    ValsAppend(acc, pend, n);
    ValsAppend(win, pend, n);
    if c.resValid {
      AddsValue(c, sh, k, n, Vals(acc, n), Vals(win, n), pend.data[n]);
    }
  }

  lemma {:induction false} AddsValue(c: Chan, sh: Shared, k: Tick, n: nat, vs: seq<int>, ws: seq<int>, d: u18)
    requires n < NUM_CH && !k.rst && !InitMm(sh, k.start) && !sh.capReg && sh.started
    requires Region(c, vs) && Whole(c, ws) && Extremal(c, vs)
    requires c.resValid && c.resSum == Extend20(d) && c.resSq == Square(d)
    ensures var c' := NextChan(c, sh, k, n);
            && Region(c', vs + [Signed18(d)]) && Whole(c', ws + [Signed18(d)])
            && Extremal(c', vs + [Signed18(d)]) && Lagging(c', vs + [Signed18(d)])
  {
    HoldsAppend(c.count, c.sum, c.sq, vs, d);
    HoldsAppend(c.countWin, c.sumWin, c.sqWin, ws, d);
    Append(vs, Signed18(d));
    SignExtend(d);
    MiscFields(k.trigger, c.min, c.max);
    assert (vs + [Signed18(d)])[..|vs|] == vs;
  }

  lemma ResultStep(c: Chan, sh: Shared, ctl: Control, g: Config, k: RunTick, n: nat)
    requires n < NUM_CH
    ensures Result(NextChan(c, sh, TickOf(ctl, g, k), n), Given(k), n)
  {
  }

  // ---------------------------------------------------------------- stages and lists

  lemma {:induction false} WindowAppend(done: seq<seq<Sample>>, region: seq<Sample>, k: nat, g: Config)
    requires k <= |done|
    ensures Window(done + [region], k, g) == Window(done, k, g)
  {
    if k > 0 {
      WindowAppend(done, region, k - 1, g);
    }
  }

  /** A clock of filling, after the fact: last clock's region is in the accumulators. */
  lemma {:induction false} FillingAcc(y: Cycle<Sample>, b: Books, g: Config, k: RunTick, y': Cycle<Sample>, b': Books)
    requires StageInv(y, b, g) && b.stage.Filling? && |y.region| <= g.size
    requires y' == NextCycle(y, g, false, Given(k)) && b' == NextBooks(b, y, y', true, k)
    ensures Acc(y', b') == y.region
    ensures b'.stage.Filling? ==> b'.done == b.done
    ensures !b'.stage.Filling? ==> b'.stage.Closing? && b'.done == b.done + [y.region + [k.sample]]
  {
    assert Butlast(y.region + [k.sample]) == y.region;
  }

  /** While a region is filled, a clock moves last clock's sample, if any, into the accumulators. */
  lemma {:induction false} FillingLists(y: Cycle<Sample>, b: Books, g: Config, k: RunTick, y': Cycle<Sample>, b': Books)
    requires StageInv(y, b, g) && b.stage.Filling? && |y.region| <= g.size
    requires y' == NextCycle(y, g, false, Given(k)) && b' == NextBooks(b, y, y', true, k)
    ensures Acc(y', b') == Acc(y, b) + if b.pend.Some? then [b.pend.value] else []
    ensures Win(y', b', g) == Win(y, b, g) + if b.pend.Some? then [b.pend.value] else []
  {
    FillingAcc(y, b, g, k, y', b');
    var add := if b.pend.Some? then [b.pend.value] else [];
    assert y.region == Acc(y, b) + add;
    if b'.stage.Closing? {
      WindowAppend(b.done, y.region + [k.sample], |b.done|, g);
    }
    Regroup(Window(b.done, |b.done|, g), Acc(y, b), add);
  }

  lemma {:induction false} Regroup(a: seq<Sample>, b: seq<Sample>, c: seq<Sample>)
    ensures a + (b + c) == a + b + c
  {
  }

  /** The clock of `captured`: the last region of a cycle takes its closing sample in, any other drops it. */
  lemma {:induction false} ClosingLists(y: Cycle<Sample>, b: Books, g: Config, k: RunTick, y': Cycle<Sample>, b': Books)
    requires StageInv(y, b, g) && b.stage.Closing? && !k.valid && g.size >= 1
    requires b'.stage == Packet(b.stage.final) && b'.done == b.done
    ensures Acc(y', b') == Acc(y, b) + if b.stage.final then [b.pend.value] else []
    ensures Win(y', b', g) == Win(y, b, g) + if b.stage.final then [b.pend.value] else []
  {
    var last := b.done[|b.done| - 1];
    assert last == last[..g.size] + [last[g.size]];
    assert Butlast(last) == last[..g.size];
    if b.stage.final {
      assert Window(b.done, |b.done| - 1, g) + last == Window(b.done, |b.done| - 1, g) + Butlast(last) + [last[g.size]];
    }
  }

  // ---------------------------------------------------------------- one clock of a channel

  lemma {:induction false} ChanStepFilling(
      c: Chan, n: nat, sh: Shared, t: Tick, y: Cycle<Sample>, b: Books, g: Config, k: RunTick, y': Cycle<Sample>,
      b': Books)
    requires n < NUM_CH && ChanInv(c, n, y, b, g)
    requires StageInv(y, b, g) && b.stage.Filling? && |y.region| <= g.size
    requires y' == NextCycle(y, g, false, Given(k)) && b' == NextBooks(b, y, y', true, k)
    requires !t.rst && !InitMm(sh, t.start) && !sh.capReg && sh.started
    requires Result(NextChan(c, sh, t, n), b'.pend, n)
    ensures ChanInv(NextChan(c, sh, t, n), n, y', b', g)
  {
    FillingAcc(y, b, g, k, y', b');
    FillingLists(y, b, g, k, y', b');
    if b.pend.Some? {
      Accumulates(c, sh, t, n, Acc(y, b), Win(y, b, g), b.pend.value);
    } else {
      assert Acc(y', b') == Acc(y, b) && Win(y', b', g) == Win(y, b, g);
    }
  }

  lemma {:induction false} ChanStepClosing(
      c: Chan, n: nat, sh: Shared, t: Tick, y: Cycle<Sample>, b: Books, g: Config, k: RunTick, y': Cycle<Sample>,
      b': Books)
    requires n < NUM_CH && ChanInv(c, n, y, b, g)
    requires StageInv(y, b, g) && b.stage.Closing? && !k.valid && g.size >= 1
    requires b'.stage == Packet(b.stage.final) && b'.done == b.done
    requires !t.rst && !sh.capReg && sh.started && (InitMm(sh, t.start) <==> !b.stage.final)
    requires Result(NextChan(c, sh, t, n), b'.pend, n)
    ensures ChanInv(NextChan(c, sh, t, n), n, y', b', g)
  {
    ClosingLists(y, b, g, k, y', b');
    if b.stage.final {
      Accumulates(c, sh, t, n, Acc(y, b), Win(y, b, g), b.pend.value);
    } else {
      assert Acc(y', b') == Acc(y, b) && Win(y', b', g) == Win(y, b, g);
    }
  }

  /** The packet clock clears the per-region accumulators and keeps the window. */
  lemma {:induction false} ChanStepPacket(
      c: Chan, n: nat, sh: Shared, t: Tick, y: Cycle<Sample>, b: Books, g: Config, y': Cycle<Sample>, b': Books)
    requires n < NUM_CH && ChanInv(c, n, y, b, g)
    requires StageInv(y, b, g) && b.stage.Packet?
    requires !t.rst && sh.capReg && !InitMm(sh, t.start)
    requires b'.done == b.done
    requires if b.stage.final then b'.stage.Quiet? || b'.stage.Opening? else b'.stage.Filling? && Acc(y', b') == []
    requires Result(NextChan(c, sh, t, n), b'.pend, n)
    ensures ChanInv(NextChan(c, sh, t, n), n, y', b', g)
  {
    assert Acc(y', b') == [];
    assert Window(b.done, |b.done|, g) + [] == Window(b.done, |b.done|, g);
  }

  /** The start edge of a cycle clears the window. */
  lemma {:induction false} ChanStepIdle(
      c: Chan, n: nat, sh: Shared, t: Tick, y: Cycle<Sample>, b: Books, g: Config, y': Cycle<Sample>, b': Books)
    requires n < NUM_CH && ChanInv(c, n, y, b, g)
    requires b.stage.Quiet? || b.stage.Opening?
    requires !t.rst && !sh.capReg && !sh.started
    requires (InitMm(sh, t.start) <==> b.stage.Opening?) && (t.start ==> b.stage.Opening?)
    requires b'.done == if b.stage.Opening? then [] else b.done
    requires if b.stage.Opening? then b'.stage.Filling? && Acc(y', b') == [] else b'.stage.Quiet? || b'.stage.Opening?
    requires Result(NextChan(c, sh, t, n), b'.pend, n)
    ensures ChanInv(NextChan(c, sh, t, n), n, y', b', g)
  {
    assert Acc(y', b') == [] && Acc(y, b) == [];
    assert Window(b.done, |b.done|, g) + [] == Window(b.done, |b.done|, g);
  }

  // ---------------------------------------------------------------- whole runs

  ghost predicate SystemInv(x: System, g: Config) {
    && Tracks(x.ctl, x.y, g)
    && StageInv(x.y, x.b, g)
    && SharedInv(x.sh, x.ctl, x.y, x.b, g)
    && forall n :: 0 <= n < NUM_CH ==> ChanInv(x.chans[n], n, x.y, x.b, g)
  }

  /** What a channel sees of the shared registers and the counters, stage by stage. */
  predicate Switched(x: System, g: Config, k: RunTick) {
    var t, x' := TickOf(x.ctl, g, k), SystemNext(x, g, k);
    match x.b.stage
    case Filling =>
      && !InitMm(x.sh, t.start) && !x.sh.capReg && x.sh.started && x.y.Running? && |x.y.region| <= g.size
      && x'.y == NextCycle(x.y, g, false, Given(k)) && x'.b == NextBooks(x.b, x.y, x'.y, true, k)
    case Closing(final) =>
      && !k.valid && !x.sh.capReg && x.sh.started && (InitMm(x.sh, t.start) <==> !final)
      && x'.b.stage == Packet(final) && x'.b.done == x.b.done
    case Packet(_) => x.sh.capReg && !InitMm(x.sh, t.start) && x'.b.done == x.b.done
    case _ =>
      && !x.sh.capReg && !x.sh.started && (InitMm(x.sh, t.start) <==> x.b.stage.Opening?)
      && (t.start ==> x.b.stage.Opening?) && x'.b.done == if x.b.stage.Opening? then [] else x.b.done
  }

  lemma {:induction false} Switches(x: System, g: Config, k: RunTick)
    requires Programmed(g) && SystemInv(x, g)
    requires x.b.pend.Some? ==> !k.valid
    ensures Switched(x, g, k)
  {
    Wires(x.ctl, x.y, g, k.valid);
  }

  lemma {:induction false} StageAfter(x: System, g: Config, k: RunTick)
    requires StageInv(x.y, x.b, g) && (x.b.pend.Some? ==> !k.valid) && x.b.stage != Filling && !x.b.stage.Closing?
    ensures var x' := SystemNext(x, g, k);
            if x.b.stage.Opening? || x.b.stage == Packet(false) then x'.b.stage.Filling? && Acc(x'.y, x'.b) == []
            else x'.b.stage.Quiet? || x'.b.stage.Opening?
  {
  }

  lemma {:induction false} ChannelsStep(x: System, g: Config, k: RunTick, n: nat)
    requires Programmed(g) && SystemInv(x, g) && n < NUM_CH
    requires x.b.pend.Some? ==> !k.valid
    ensures ChanInv(SystemNext(x, g, k).chans[n], n, SystemNext(x, g, k).y, SystemNext(x, g, k).b, g)
  {
    Switches(x, g, k);
    ChannelStep(x, g, k, n);
  }

  lemma {:induction false} ChannelStep(x: System, g: Config, k: RunTick, n: nat)
    requires n < NUM_CH && ChanInv(x.chans[n], n, x.y, x.b, g) && StageInv(x.y, x.b, g) && g.size >= 1
    requires x.b.pend.Some? ==> !k.valid
    requires Switched(x, g, k)
    ensures ChanInv(SystemNext(x, g, k).chans[n], n, SystemNext(x, g, k).y, SystemNext(x, g, k).b, g)
  {
    var x', t := SystemNext(x, g, k), TickOf(x.ctl, g, k);
    ResultStep(x.chans[n], x.sh, x.ctl, g, k, n);
    match x.b.stage
    case Filling => ChanStepFilling(x.chans[n], n, x.sh, t, x.y, x.b, g, k, x'.y, x'.b);
    case Closing(_) => ChanStepClosing(x.chans[n], n, x.sh, t, x.y, x.b, g, k, x'.y, x'.b);
    case Packet(_) =>
      StageAfter(x, g, k);
      ChanStepPacket(x.chans[n], n, x.sh, t, x.y, x.b, g, x'.y, x'.b);
    case _ =>
      StageAfter(x, g, k);
      ChanStepIdle(x.chans[n], n, x.sh, t, x.y, x.b, g, x'.y, x'.b);
  }

  lemma {:induction false} SystemStep(x: System, g: Config, k: RunTick)
    requires Programmed(g) && SystemInv(x, g)
    requires x.b.pend.Some? ==> !k.valid
    ensures SystemInv(SystemNext(x, g, k), g)
  {
    ControlRefines(x.ctl, x.y, g, k.trig, Given(k));
    SharedStep(x.sh, x.ctl, x.y, x.b, g, k);
    forall n | 0 <= n < NUM_CH
      ensures ChanInv(SystemNext(x, g, k).chans[n], n, SystemNext(x, g, k).y, SystemNext(x, g, k).b, g)
    {
      ChannelsStep(x, g, k, n);
    }
  }

  function FeedSystem(x: System, g: Config, ks: seq<RunTick>): System {
    if ks == [] then x else SystemNext(FeedSystem(x, g, ks[..|ks| - 1]), g, ks[|ks| - 1])
  }

  /** One clock with both resets high. */
  function ResetClock(ctl: Control, sh: Shared, chans: Chans, g: Config, k: RunTick): (Control, Shared, Chans) {
    var t := TickOf(ctl, g, k).(rst := true);
    (NextControl(ctl, g, true, k.trig, k.valid), NextShared(sh, t),
     seq(NUM_CH, n requires 0 <= n < NUM_CH => NextChan(chans[n], sh, t, n)))
  }

  /** Two reset clocks from arbitrary registers; start_reg and cap_reg have no reset of their own. */
  function PowerUp(ctl: Control, sh: Shared, chans: Chans, g: Config, k1: RunTick, k2: RunTick): System {
    var (ctl1, sh1, chans1) := ResetClock(ctl, sh, chans, g, k1);
    var (ctl2, sh2, chans2) := ResetClock(ctl1, sh1, chans1, g, k2);
    System(ctl2, sh2, chans2, Waiting, Books(Quiet, [], None, 0, 0))
  }

  lemma {:induction false} PowerUpInv(ctl: Control, sh: Shared, chans: Chans, g: Config, k1: RunTick, k2: RunTick)
    requires Programmed(g)
    ensures SystemInv(PowerUp(ctl, sh, chans, g, k1, k2), g)
  {
  }

  /** No two consecutive clocks bring a sample, as the header of subsystem_capture.sv promises. */
  predicate Spaced(ks: seq<RunTick>) {
    forall j :: 0 < j < |ks| ==> !(ks[j - 1].valid && ks[j].valid)
  }

  ghost predicate ReachableSystem(x: System, g: Config) {
    exists ctl, sh, chans: Chans, k1, k2, ks: seq<RunTick> ::
      Spaced(ks) && x == FeedSystem(PowerUp(ctl, sh, chans, g, k1, k2), g, ks)
  }

  lemma {:induction false} FeedInv(x: System, g: Config, ks: seq<RunTick>)
    requires Programmed(g) && SystemInv(x, g) && x.b.pend.None? && Spaced(ks)
    ensures SystemInv(FeedSystem(x, g, ks), g)
    ensures ks != [] ==> FeedSystem(x, g, ks).b.pend == Given(ks[|ks| - 1])
  {
    if ks != [] {
      FeedInv(x, g, ks[..|ks| - 1]);
      SystemStep(FeedSystem(x, g, ks[..|ks| - 1]), g, ks[|ks| - 1]);
    }
  }

  lemma {:induction false} ReachableInv(x: System, g: Config)
    requires Programmed(g) && ReachableSystem(x, g)
    ensures SystemInv(x, g)
  {
    var ctl, sh, chans: Chans, k1, k2, ks: seq<RunTick> :|
      Spaced(ks) && x == FeedSystem(PowerUp(ctl, sh, chans, g, k1, k2), g, ks);
    PowerUpInv(ctl, sh, chans, g, k1, k2);
    FeedInv(PowerUp(ctl, sh, chans, g, k1, k2), g, ks);
  }
}
