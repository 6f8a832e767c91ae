/**
 * The integrator (hdl/src/subsystem_capture.sv without its packetizer): shared
 * control and the per-channel accumulators.
 */
module Capture {
  import opened Bits

  const NUM_CH: int := 16
  const MIN_INIT: u20 := 0x7FFFF
  const MAX_INIT: u20 := 0x80000

  type Data = d: seq<u18> | |d| == NUM_CH witness seq(NUM_CH, _ => 0)
  type Flags = f: seq<bool> | |f| == NUM_CH witness seq(NUM_CH, _ => false)

  datatype Sample = Sample(data: Data, valid: Flags)

  datatype Tick = Tick(rst: bool, ena: bool, start: bool, trigger: u2, timestamp: u64, valid: bool, sample: Sample)

  /** One channel's registers; the 64-bit ones are two's complement. */
  datatype Chan = Chan(
    count: u64, sum: u64, sq: u64, countWin: u64, sumWin: u64, sqWin: u64,
    misc: u64, min: u20, max: u20, resValid: bool, resSum: u20, resSq: u64)

  datatype Shared = Shared(
    startReg: bool, capReg: bool, capCnt: u16, started: bool, samples: u64, capTs: u64, pkts: u64)

  // ---------------------------------------------------------------- signed arithmetic

  function Signed18(d: u18): int { if d >= 0x2_0000 then d - 0x4_0000 else d }

  function Signed20(d: u20): int { if d >= 0x8_0000 then d - 0x10_0000 else d }

  function Signed64(d: u64): int { if d >= 0x8000_0000_0000_0000 then d - TWO64 else d }

  /** {2'h3, d} or {2'h0, d}. */
  function Extend20(d: u18): u20 { if d >= 0x2_0000 then 0xC_0000 + d else d }

  /** {44'hFFFFFFFFFFF, r} or {44'h0, r}. */
  function Extend64(r: u20): u64 { if r >= 0x8_0000 then 0xFFFF_FFFF_FFF0_0000 + r else r }

  function Square(d: u18): (q: u64)
    ensures q == Signed18(d) * Signed18(d)
  {
    var v := Signed18(d);
    SquareFits(v);
    v * v
  }

  lemma SquareFits(v: int)
    requires -0x2_0000 <= v < 0x2_0000
    ensures 0 <= v * v <= 0x4_0000_0000
  {
    var a: nat := if v < 0 then -v else v;
    assert v * v == a * a;
    ProductGrows(a, a, 0x2_0000);
    ProductGrows(0x2_0000, a, 0x2_0000);
  }

  lemma {:induction false} ProductGrows(x: nat, y: nat, z: nat)
    requires y <= z
    ensures 0 <= x * y <= x * z
  {
    if x > 0 {
      ProductGrows(x - 1, y, z);
      assert x * y == (x - 1) * y + y && x * z == (x - 1) * z + z;
    }
  }

  // ---------------------------------------------------------------- one clock

  predicate Captured(s: Shared, ena: bool, start: bool) {
    s.started && ((start && !s.startReg) || !ena)
  }

  predicate InitMm(s: Shared, start: bool) { start && !s.startReg }

  /** The accumulators run while a capture is on or starting. */
  predicate Running(s: Shared, k: Tick) { (k.ena && k.start) || s.started }

  function Misc(trigger: u2, min: u20, max: u20): u64 {
    trigger * 0x100_0000_0000 + min * 0x10_0000 + max
  }

  function NextChan(c: Chan, s: Shared, k: Tick, n: nat): Chan
    requires n < NUM_CH
  {
    if k.rst then Chan(0, 0, 0, 0, 0, 0, c.misc, MIN_INIT, MAX_INIT, false, 0, 0)
    else
      var c1 := c.(resValid := k.valid && k.sample.valid[n],
                   resSum := Extend20(k.sample.data[n]), resSq := Square(k.sample.data[n]));
      if InitMm(s, k.start) then
        var c2 := c1.(min := MIN_INIT, max := MAX_INIT);
        if s.started then c2 else c2.(countWin := 0, sumWin := 0, sqWin := 0)
      else if s.capReg then
        var c2 := c1.(min := MIN_INIT, max := MAX_INIT);
        if k.ena && c.resValid then c2.(count := 1, sum := Extend64(c.resSum), sq := c.resSq)
        else c2.(count := 0, sum := 0, sq := 0)
      else if Running(s, k) && c.resValid then
        c1.(count := Add64(c.count, 1), sum := Add64(c.sum, Extend64(c.resSum)), sq := Add64(c.sq, c.resSq),
            countWin := Add64(c.countWin, 1),
            sumWin := Add64(c.sumWin, Extend64(c.resSum)), sqWin := Add64(c.sqWin, c.resSq),
            min := if Signed20(c.resSum) < Signed20(c.min) then c.resSum else c.min,
            max := if Signed20(c.resSum) > Signed20(c.max) then c.resSum else c.max,
            misc := Misc(k.trigger, c.min, c.max))
      else c1
  }

  function NextShared(s: Shared, k: Tick): Shared {
    var captured := Captured(s, k.ena, k.start);
    var s1 := s.(startReg := k.start, capReg := captured, capCnt := if captured then Add16(s.capCnt, 1) else s.capCnt);
    if k.rst then s1.(started := false, samples := 0, capTs := 0, pkts := 0)
    else
      var s2 := s1.(pkts := if captured then Add64(s.pkts, 1) else s.pkts,
                    started := (k.ena && k.start) || (k.ena && s.started));
      if s.capReg then
        if k.ena && k.valid then s2.(samples := 1, capTs := k.timestamp) else s2.(samples := 0, capTs := 0)
      else if Running(s, k) && k.valid then
        s2.(samples := Add64(s.samples, 1), capTs := if s.capTs == 0 then k.timestamp else s.capTs)
      else s2
  }

  /** The module: shared registers and one record of accumulators per channel. */
  class Integrator {
    var startReg: bool
    var capReg: bool
    var capCnt: u16
    var started: bool
    var samples: u64
    var capTs: u64
    var pkts: u64
    const chans: array<Chan>

    ghost predicate Valid()
    {
      chans.Length == NUM_CH
    }

    function View(): Shared
      reads this
    {
      Shared(startReg, capReg, capCnt, started, samples, capTs, pkts)
    }

    constructor ()
      ensures Valid() && fresh(chans)
    {
      chans := new Chan[NUM_CH](_ => Chan(0, 0, 0, 0, 0, 0, 0, MIN_INIT, MAX_INIT, false, 0, 0));
    }

    method Step(k: Tick)
      requires Valid()
      modifies this, chans
      ensures View() == NextShared(old(View()), k)
      ensures forall n :: 0 <= n < NUM_CH ==> chans[n] == NextChan(old(chans[n]), old(View()), k, n)
    {
      var s := View();
      for n := 0 to NUM_CH
        invariant View() == s
        invariant forall m :: 0 <= m < n ==> chans[m] == NextChan(old(chans[m]), s, k, m)
        invariant forall m :: n <= m < NUM_CH ==> chans[m] == old(chans[m])
      {
        StepChannel(n, k);
      }
      StepShared(k);
    }

    method StepChannel(n: nat, k: Tick)
      requires Valid() && n < NUM_CH
      modifies chans
      ensures chans[n] == NextChan(old(chans[n]), View(), k, n)
      ensures forall m :: 0 <= m < NUM_CH && m != n ==> chans[m] == old(chans[m])
    {
      var c := chans[n];
      if k.rst {
        c := Chan(0, 0, 0, 0, 0, 0, c.misc, MIN_INIT, MAX_INIT, false, 0, 0);
      } else {
        var result, value, square := c.resValid, Extend64(c.resSum), c.resSq;
        var sum20 := c.resSum;
        var d := k.sample.data[n];
        c := c.(resValid := k.valid && k.sample.valid[n], resSum := Extend20(d), resSq := Square(d));
        if InitMm(View(), k.start) {
          c := c.(min := MIN_INIT, max := MAX_INIT);
          if !started {
            c := c.(countWin := 0, sumWin := 0, sqWin := 0);
          }
        } else if capReg {
          c := c.(min := MIN_INIT, max := MAX_INIT, count := 0, sum := 0, sq := 0);
          if k.ena && result {
            c := c.(count := 1, sum := value, sq := square);
          }
        } else if Running(View(), k) && result {
          c := c.(misc := Misc(k.trigger, c.min, c.max));
          c := c.(count := Add64(c.count, 1), sum := Add64(c.sum, value), sq := Add64(c.sq, square));
          c := c.(countWin := Add64(c.countWin, 1), sumWin := Add64(c.sumWin, value), sqWin := Add64(c.sqWin, square));
          if Signed20(sum20) < Signed20(c.min) {
            c := c.(min := sum20);
          }
          if Signed20(sum20) > Signed20(c.max) {
            c := c.(max := sum20);
          }
        }
      }
      chans[n] := c;
    }

    method StepShared(k: Tick)
      modifies this
      ensures View() == NextShared(old(View()), k)
    {
      var captured, running, wasCap := Captured(View(), k.ena, k.start), Running(View(), k), capReg;
      startReg, capReg := k.start, captured;
      if captured {
        capCnt := Add16(capCnt, 1);
      }
      if k.rst {
        started, samples, capTs, pkts := false, 0, 0, 0;
        return;
      }
      if captured {
        pkts := Add64(pkts, 1);
      }
      if k.ena && k.start {
        started := true;
      } else if !k.ena {
        started := false;
      }
      if wasCap {
        if k.ena && k.valid {
          samples, capTs := 1, k.timestamp;
        } else {
          samples, capTs := 0, 0;
        }
      } else if running && k.valid {
        samples, capTs := Add64(samples, 1), if capTs == 0 then k.timestamp else capTs;
      }
    }
  }
}
