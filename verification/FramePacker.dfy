/**
 * subsystem_stream.sv: decimation, and packing of sixteen 18-bit channels into five
 * 64-bit words, of two channels into one word, or of two samples of one channel.
 */
module FramePacker {
  import opened Bits

  const TWO18: int := 0x4_0000
  const TWO36: int := 0x10_0000_0000
  const TWO54: int := 0x40_0000_0000_0000
  const TWO62: int := 0x4000_0000_0000_0000
  const ALL_ONES: u64 := TWO64 - 1

  type Chans = c: seq<u18> | |c| == 16 witness seq(16, _ => 0)

  /** Inputs of one clock; `mux0` and `mux1` are what the two channel multiplexers show. */
  datatype Clock = Clock(
    rst: bool, ena: bool, valid: bool, data: Chans, timestamp: u64, block: u3, rateDiv: u7,
    allChan: bool, sel0: u4, sel1: u4, mux0: u18, mux1: u18)

  datatype Packer = Packer(
    inTvalid: bool, inTs: u64, div: u20, dataReg: Chans,
    ts: u64, tvalid: bool, tdata: u64, beat: u4)

  /** Bits 6:4 of rate_div shift bits 3:0 left by twice their value. */
  function ScaledDiv(rateDiv: u7): u20 {
    var r := rateDiv % 16;
    match rateDiv / 16
    case 0 => r
    case 1 => r * 0x4
    case 2 => r * 0x10
    case 3 => r * 0x40
    case 4 => r * 0x100
    case 5 => r * 0x400
    case 6 => r * 0x1000
    case _ => r * 0x4000
  }

  /** {hi, c, b, a} with three 18-bit channels in the low bits. */
  function Word64(hi: int, c: u18, b: u18, a: u18): u64
    requires 0 <= hi < 1024
  {
    hi * TWO54 + c * TWO36 + b * TWO18 + a
  }

  /** The five words of one sample; channel 15 is spread over the first three. */
  function BeatWord(d: Chans, block: u3, beat: int): u64
    requires 0 <= beat < 5
  {
    match beat
    case 0 => Word64(2 * 256 + d[15] % 256, d[2], d[1], d[0])
    case 1 => Word64(d[15] / 256 % 256, d[5], d[4], d[3])
    case 2 => Word64(d[15] / 0x1_0000, d[8], d[7], d[6])
    case 3 => Word64(0, d[11], d[10], d[9])
    case _ => Word64(block, d[14], d[13], d[12])
  }

  /** One channel's result with its settings: {mux, block, rate_div, sel}. */
  function Half(mux: u18, c: Clock, sel: u4): u32 {
    mux * 0x4000 + c.block * 0x800 + c.rateDiv * 16 + sel
  }

  function NextBeat(p: Packer, c: Clock): u4 {
    if c.rst then 0
    else if c.allChan then if p.inTvalid then 1 else if p.beat == 5 then 5 else (p.beat + 1) % 16
    else if c.sel0 == c.sel1 && p.inTvalid then (p.beat + 1) % 16
    else p.beat
  }

  predicate NextTvalid(p: Packer, c: Clock) {
    if c.rst then false
    else if c.allChan then p.inTvalid || p.beat != 5
    else if c.sel0 == c.sel1 then p.inTvalid && p.beat % 2 == 1
    else p.inTvalid
  }

  function NextTdata(p: Packer, c: Clock): u64 {
    if c.rst then 0
    else if c.allChan then
      if p.inTvalid then if p.beat != 5 then ALL_ONES else BeatWord(p.dataReg, 0, 0)
      else BeatWord(p.dataReg, c.block, if 1 <= p.beat <= 3 then p.beat else 4)
    else if c.sel0 == c.sel1 then
      if !p.inTvalid then p.tdata
      else if p.beat % 2 == 1 then p.tdata % TWO32 * TWO32 + Half(c.mux0, c, c.sel0)
      else Half(c.mux0, c, c.sel0)
    else Half(c.mux0, c, c.sel0) * TWO32 + Half(c.mux1, c, c.sel1)
  }

  function NextPacker(p: Packer, c: Clock): Packer {
    var streaming := !c.rst && c.ena;
    Packer(
      streaming && c.valid && p.div == 0,
      c.timestamp,
      if !streaming then 0 else if !c.valid then p.div else if p.div > 0 then p.div - 1 else ScaledDiv(c.rateDiv),
      if c.valid then c.data else p.dataReg,
      p.inTs,
      NextTvalid(p, c),
      NextTdata(p, c),
      NextBeat(p, c))
  }

  /** The registers, updated in place once a clock. */
  class PackerRegs {
    var inTvalid: bool
    var inTs: u64
    var div: u20
    var dataReg: Chans
    var ts: u64
    var tvalid: bool
    var tdata: u64
    var beat: u4

    constructor ()
    {
      dataReg := seq(16, _ => 0);
    }

    ghost function View(): Packer
      reads this
    {
      Packer(inTvalid, inTs, div, dataReg, ts, tvalid, tdata, beat)
    }

    /** The packing block; it reads in_tvalid, in_ts and data_reg before the edge. */
    method StepPacking(c: Clock)
      modifies this`ts, this`tvalid, this`tdata, this`beat
      ensures ts == inTs && tvalid == NextTvalid(old(View()), c)
      ensures tdata == NextTdata(old(View()), c) && beat == NextBeat(old(View()), c)
    {
      ts := inTs;
      if c.rst {
        beat, tvalid, tdata := 0, false, 0;
      } else if c.allChan {
        if inTvalid {
          tdata := if beat != 5 then ALL_ONES else BeatWord(dataReg, 0, 0);
          beat, tvalid := 1, true;
        } else {
          tdata := BeatWord(dataReg, c.block, if 1 <= beat <= 3 then beat else 4);
          tvalid := beat != 5;
          beat := if beat == 5 then 5 else (beat + 1) % 16;
        }
      } else if c.sel0 == c.sel1 {
        tvalid := false;
        if inTvalid {
          if beat % 2 == 1 {
            tvalid, tdata := true, tdata % TWO32 * TWO32 + Half(c.mux0, c, c.sel0);
          } else {
            tdata := Half(c.mux0, c, c.sel0);
          }
          beat := (beat + 1) % 16;
        }
      } else {
        tvalid, tdata := inTvalid, Half(c.mux0, c, c.sel0) * TWO32 + Half(c.mux1, c, c.sel1);
      }
    }

    method Step(c: Clock)
      modifies this
      ensures View() == NextPacker(old(View()), c)
    {
      StepPacking(c);
      // decimation
      inTs := c.timestamp;
      if c.rst || !c.ena {
        inTvalid, div := false, 0;
      } else if c.valid {
        inTvalid := div == 0;
        div := if div > 0 then div - 1 else ScaledDiv(c.rateDiv);
      } else {
        inTvalid := false;
      }
      if c.valid {
        dataReg := c.data;
      }
    }
  }

  /** adc_mux: the register of one multiplexer. Its reset has no `else`, so it never shows. */
  class Mux {
    var q: u18

    constructor ()
    {
    }

    method Step(rst: bool, ch: u4, d: Chans)
      modifies this
      ensures q == d[ch]
    {
      if rst {
        q := 0;
      }
      q := d[ch];
    }
  }

  /** The multiplexer inputs of these clocks are what two such registers show. */
  predicate Muxed(cs: seq<Clock>) {
    forall j :: 1 <= j < |cs| ==>
      && cs[j].mux0 == cs[j - 1].data[cs[j - 1].sel0] && cs[j].mux1 == cs[j - 1].data[cs[j - 1].sel1]
  }

  // ---------------------------------------------------------------- decimation

  function Pow4(e: nat): nat {
    if e == 0 then 1 else 4 * Pow4(e - 1)
  }

  /** rate_div is a small float: mantissa times a power of four. */
  lemma ScaledDivIsFloat(rateDiv: u7)
    ensures ScaledDiv(rateDiv) == rateDiv % 16 * Pow4(rateDiv / 16)
  {
    assert Pow4(1) == 4 && Pow4(2) == 0x10 && Pow4(3) == 0x40;
    assert Pow4(4) == 0x100 && Pow4(5) == 0x400 && Pow4(6) == 0x1000 && Pow4(7) == 0x4000;
  }

  function FeedPacker(p: Packer, cs: seq<Clock>): Packer {
    if cs == [] then p else NextPacker(FeedPacker(p, cs[..|cs| - 1]), cs[|cs| - 1])
  }

  function ValidCount(cs: seq<Clock>): nat {
    if cs == [] then 0 else ValidCount(cs[..|cs| - 1]) + if cs[|cs| - 1].valid then 1 else 0
  }

  /** k mod m one step on. */
  lemma ModStep(k: nat, m: nat)
    requires m >= 1
    ensures (k + 1) % m == if k % m == m - 1 then 0 else k % m + 1
  {
    var q, r := k / m, k % m;
    assert k + 1 == q * m + (r + 1);
    if r == m - 1 {
      ModOf(k + 1, q + 1, m, 0);
    } else {
      ModOf(k + 1, q, m, r + 1);
    }
  }

  lemma ModOf(x: nat, q: nat, m: nat, r: nat)
    requires x == q * m + r && r < m
    ensures x % m == r
  {
    var d, e := x / m - q, q - x / m;
    assert d * m == x / m * m - q * m && e * m == q * m - x / m * m;
    if d >= 1 {
      Times(d, m);
    } else if e >= 1 {
      Times(e, m);
    }
  }

  lemma Times(d: nat, m: nat)
    requires d >= 1
    ensures d * m >= m
  {
    assert d * m == (d - 1) * m + m;
  }

  /** What `div` is before the k-th valid sample. */
  function DivAt(k: nat, m: nat): nat
    requires m >= 1
  {
    if k % m == 0 then 0 else m - k % m
  }

  lemma DivStep(k: nat, m: nat)
    requires m >= 1
    ensures DivAt(k + 1, m) == if DivAt(k, m) == 0 then m - 1 else DivAt(k, m) - 1
    ensures DivAt(k, m) == 0 <==> k % m == 0
  {
    ModStep(k, m);
  }

  /** Valid samples since reset was high or enable low. */
  function ValidSince(cs: seq<Clock>): nat {
    if cs == [] || cs[|cs| - 1].rst || !cs[|cs| - 1].ena then 0
    else ValidSince(cs[..|cs| - 1]) + if cs[|cs| - 1].valid then 1 else 0
  }

  /**
   * With rate_div constant, from div = 0 or from anything once reset was high or enable low:
   * the k-th valid sample since the last such clock is streamed exactly when k is a multiple
   * of scaled_div + 1, whatever the gaps between valid samples. Nothing else is.
   */
  lemma {:induction false} DecimationIsExact(p: Packer, cs: seq<Clock>, rateDiv: u7)
    requires p.div == 0 || (cs != [] && (cs[0].rst || !cs[0].ena))
    requires forall j :: 0 <= j < |cs| ==> cs[j].rateDiv == rateDiv
    ensures FeedPacker(p, cs).div == DivAt(ValidSince(cs), ScaledDiv(rateDiv) + 1)
    ensures cs != [] ==>
              var c := cs[|cs| - 1];
              FeedPacker(p, cs).inTvalid <==>
              !c.rst && c.ena && c.valid && (ValidSince(cs) - 1) % (ScaledDiv(rateDiv) + 1) == 0
  {
    DivSince(p, cs, ScaledDiv(rateDiv) + 1);
    if cs != [] {
      var before, c := cs[..|cs| - 1], cs[|cs| - 1];
      if |cs| > 1 || p.div == 0 {
        DivSince(p, before, ScaledDiv(rateDiv) + 1);
      }
      DivClock(FeedPacker(p, before), c, ValidSince(before), ScaledDiv(rateDiv) + 1);
    }
  }

  lemma {:induction false} DivSince(p: Packer, cs: seq<Clock>, m: nat)
    requires p.div == 0 || (cs != [] && (cs[0].rst || !cs[0].ena))
    requires m >= 1 && forall j :: 0 <= j < |cs| ==> ScaledDiv(cs[j].rateDiv) + 1 == m
    ensures FeedPacker(p, cs).div == DivAt(ValidSince(cs), m)
  {
    if cs == [] {
      ZeroMod(m);
    } else {
      var before, c := cs[..|cs| - 1], cs[|cs| - 1];
      if |cs| > 1 || p.div == 0 {
        DivSince(p, before, m);
      }
      DivClock(FeedPacker(p, before), c, ValidSince(before), m);
    }
  }

  lemma DivClock(p: Packer, c: Clock, k: nat, m: nat)
    requires m == ScaledDiv(c.rateDiv) + 1
    requires p.div == DivAt(k, m) || c.rst || !c.ena
    ensures var p', on := NextPacker(p, c), !c.rst && c.ena;
            && p'.div == DivAt(if !on then 0 else if c.valid then k + 1 else k, m)
            && (p'.inTvalid <==> on && c.valid && k % m == 0)
  {
    DivStep(k, m);
    ZeroMod(m);
  }

  lemma ZeroMod(m: nat)
    requires m >= 1
    ensures 0 % m == 0
  {
  }

  /**
   * rate_div may change: it counts in the clock in which a sample is streamed, and then skips
   * scaled_div valid samples.
   */
  lemma {:induction false} RateTakesEffect(p: Packer, c: Clock, cs: seq<Clock>)
    requires NextPacker(p, c).inTvalid && cs != []
    requires forall j :: 0 <= j < |cs| ==> !cs[j].rst && cs[j].ena
    requires ValidCount(cs[..|cs| - 1]) <= ScaledDiv(c.rateDiv)
    ensures FeedPacker(NextPacker(p, c), cs).inTvalid <==>
            cs[|cs| - 1].valid && ValidCount(cs) == ScaledDiv(c.rateDiv) + 1
  {
    Skips(NextPacker(p, c), cs[..|cs| - 1]);
  }

  lemma {:induction false} Skips(p: Packer, cs: seq<Clock>)
    requires forall j :: 0 <= j < |cs| ==> !cs[j].rst && cs[j].ena
    requires ValidCount(cs) <= p.div
    ensures FeedPacker(p, cs).div == p.div - ValidCount(cs)
  {
    if cs != [] {
      Skips(p, cs[..|cs| - 1]);
    }
  }

  // ---------------------------------------------------------------- data and timestamp registers

  /** The data of the latest valid clock. */
  function LastData(p: Packer, cs: seq<Clock>): Chans {
    if cs == [] then p.dataReg
    else if cs[|cs| - 1].valid then cs[|cs| - 1].data
    else LastData(p, cs[..|cs| - 1])
  }

  /** In every mode, enabled or not: the latest valid data is held, and timestamps come two clocks late. */
  lemma {:induction false} DataHeld(p: Packer, cs: seq<Clock>)
    ensures FeedPacker(p, cs).dataReg == LastData(p, cs)
    ensures |cs| >= 1 ==> FeedPacker(p, cs).inTs == cs[|cs| - 1].timestamp
    ensures |cs| >= 2 ==> FeedPacker(p, cs).ts == cs[|cs| - 2].timestamp
  {
    if cs != [] {
      DataHeld(p, cs[..|cs| - 1]);
    }
  }

  // ---------------------------------------------------------------- one or two channels

  /** What a receiver reads from half a word. */
  lemma HalfFields(mux: u18, c: Clock, sel: u4)
    ensures var h := Half(mux, c, sel);
            && h / 0x4000 == mux && h / 0x800 % 8 == c.block && h / 16 % 128 == c.rateDiv && h % 16 == sel
  {
    assert Half(mux, c, sel) / 0x800 == mux * 8 + c.block;
    assert Half(mux, c, sel) / 16 == mux * 0x400 + c.block * 128 + c.rateDiv;
  }

  /** Half a word shows this value with these settings. */
  predicate HalfShows(h: int, value: u18, c: Clock, sel: u4) {
    h / 0x4000 == value && h / 0x800 % 8 == c.block && h / 16 % 128 == c.rateDiv && h % 16 == sel
  }

  /** A word of two channels, the first in the upper half. */
  predicate WordShows(w: u64, value0: u18, value1: u18, c: Clock) {
    HalfShows(w / 0x1_0000_0000, value0, c, c.sel0) && HalfShows(w % 0x1_0000_0000, value1, c, c.sel1)
  }

  lemma TwoHalves(x: u32, y: u32)
    ensures (x * TWO32 + y) / 0x1_0000_0000 == x && (x * TWO32 + y) % 0x1_0000_0000 == y
  {
  }

  /**
   * Two different selects: every clock that finds in_tvalid high gives one word, any other
   * none; the word shows both multiplexer outputs, each with its own select.
   */
  lemma {:induction false} TwoChannelWord(p: Packer, c: Clock)
    requires !c.rst && !c.allChan && c.sel0 != c.sel1
    ensures var p' := NextPacker(p, c);
            (p'.tvalid <==> p.inTvalid) && WordShows(p'.tdata, c.mux0, c.mux1, c) && p'.beat == p.beat
  {
    HalfFields(c.mux0, c, c.sel0);
    HalfFields(c.mux1, c, c.sel1);
    TwoHalves(Half(c.mux0, c, c.sel0), Half(c.mux1, c, c.sel1));
  }

  /**
   * Two different selects with the multiplexers in place: for every sample streamed, one clock
   * later there is one word, with the sample's values of the two selected channels, tagged with
   * those channels, and with the sample's timestamp. There are no other words.
   */
  lemma {:induction false} TwoChannelSamples(p: Packer, cs: seq<Clock>, sel0: u4, sel1: u4)
    requires sel0 != sel1 && |cs| >= 2 && Muxed(cs)
    requires forall j :: 0 <= j < |cs| ==>
               !cs[j].rst && !cs[j].allChan && cs[j].sel0 == sel0 && cs[j].sel1 == sel1
    ensures var y, c := FeedPacker(p, cs), cs[|cs| - 2];
            && (y.tvalid <==> FeedPacker(p, cs[..|cs| - 1]).inTvalid)
            && WordShows(y.tdata, c.data[sel0], c.data[sel1], cs[|cs| - 1])
            && y.ts == c.timestamp
  {
    TwoChannelWord(FeedPacker(p, cs[..|cs| - 1]), cs[|cs| - 1]);
    DataHeld(p, cs);
  }

  /** The results of the run, one for every clock of packing that found in_tvalid high. */
  function Results(p: Packer, cs: seq<Clock>): seq<u32> {
    if cs == [] then []
    else
      var c := cs[|cs| - 1];
      Results(p, cs[..|cs| - 1]) +
      if FeedPacker(p, cs[..|cs| - 1]).inTvalid then [Half(c.mux0, c, c.sel0)] else []
  }

  /** The words of the run, one for every clock that leaves tvalid high. */
  function WordsOut(p: Packer, cs: seq<Clock>): seq<u64> {
    if cs == [] then []
    else
      var y := FeedPacker(p, cs);
      WordsOut(p, cs[..|cs| - 1]) + if y.tvalid then [y.tdata] else []
  }

  /** Two by two, the earlier one in the upper half; a last odd one waits. */
  function PairUp(hs: seq<u32>): seq<u64> {
    if |hs| < 2 then []
    else if |hs| % 2 == 1 then PairUp(hs[..|hs| - 1])
    else PairUp(hs[..|hs| - 2]) + [hs[|hs| - 2] * TWO32 + hs[|hs| - 1]]
  }

  lemma {:induction false} PairUpAppend(hs: seq<u32>, h: u32)
    ensures PairUp(hs + [h]) ==
            if |hs| % 2 == 0 then PairUp(hs) else PairUp(hs) + [hs[|hs| - 1] * TWO32 + h]
  {
    if |hs| % 2 == 0 {
      assert (hs + [h])[..|hs|] == hs;
    } else {
      assert (hs + [h])[..|hs| - 1] == hs[..|hs| - 1];
      assert |hs| >= 2 ==> PairUp(hs) == PairUp(hs[..|hs| - 1]);
    }
  }

  /** The beat's parity says whether a result waits in the word register. */
  predicate Waits(p: Packer, hs: seq<u32>) {
    p.beat % 2 == |hs| % 2 && (|hs| % 2 == 1 ==> p.tdata == hs[|hs| - 1])
  }

  /** The beat counts the results modulo 16. */
  lemma {:induction false} BeatCounts(p: Packer, cs: seq<Clock>)
    requires forall j :: 0 <= j < |cs| ==> !cs[j].rst && !cs[j].allChan && cs[j].sel0 == cs[j].sel1
    ensures FeedPacker(p, cs).beat == (p.beat + |Results(p, cs)|) % 16
  {
    if cs != [] {
      var before := cs[..|cs| - 1];
      BeatCounts(p, before);
      BeatClock(FeedPacker(p, before), cs[|cs| - 1], p.beat + |Results(p, before)|);
    }
  }

  lemma BeatClock(p: Packer, c: Clock, k: nat)
    requires !c.rst && !c.allChan && c.sel0 == c.sel1 && p.beat == k % 16
    ensures NextPacker(p, c).beat == (if p.inTvalid then k + 1 else k) % 16
  {
  }

  lemma {:induction false} SameChannelStep(p: Packer, c: Clock, hs: seq<u32>)
    requires Waits(p, hs) && !c.rst && !c.allChan && c.sel0 == c.sel1
    ensures var p', hs' := NextPacker(p, c), if p.inTvalid then hs + [Half(c.mux0, c, c.sel0)] else hs;
            Waits(p', hs') && PairUp(hs') == PairUp(hs) + if p'.tvalid then [p'.tdata] else []
  {
    if p.inTvalid {
      PairUpAppend(hs, Half(c.mux0, c, c.sel0));
    }
  }

  /**
   * With both selects equal, starting on an even beat, the words are the results of the
   * selected channel paired up in order: none lost, none repeated.
   */
  lemma {:induction false} SameChannelPairs(p: Packer, cs: seq<Clock>)
    requires p.beat % 2 == 0
    requires forall j :: 0 <= j < |cs| ==> !cs[j].rst && !cs[j].allChan && cs[j].sel0 == cs[j].sel1
    ensures WordsOut(p, cs) == PairUp(Results(p, cs))
    ensures Waits(FeedPacker(p, cs), Results(p, cs))
  {
    if cs != [] {
      var x, c, hs := FeedPacker(p, cs[..|cs| - 1]), cs[|cs| - 1], Results(p, cs[..|cs| - 1]);
      SameChannelPairs(p, cs[..|cs| - 1]);
      SameChannelStep(x, c, hs);
      assert Results(p, cs) == if x.inTvalid then hs + [Half(c.mux0, c, c.sel0)] else hs;
    }
  }

  // ---------------------------------------------------------------- packing

  datatype Sample = Sample(data: Chans, block: u3)

  function Pack(s: Sample): (ws: seq<u64>)
    ensures |ws| == 5
  {
    seq(5, b requires 0 <= b < 5 => BeatWord(s.data, s.block, b))
  }

  function PackAll(ss: seq<Sample>): (ws: seq<u64>)
    ensures |ws| == 5 * |ss|
  {
    if ss == [] then [] else PackAll(ss[..|ss| - 1]) + Pack(ss[|ss| - 1])
  }

  // fields of a word
  function Low(w: u64): u18 { w % TWO18 }

  function Mid(w: u64): u18 { w / TWO18 % TWO18 }

  function High(w: u64): u18 { w / TWO36 % TWO18 }

  function Top(w: u64): int { w / TWO54 }

  /** Bits 63:62 are 10. */
  predicate IsStart(w: u64) { w / TWO62 == 2 }

  function Unpack(ws: seq<u64>): Sample
    requires |ws| == 5
  {
    var d15 := Top(ws[0]) % 256 + Top(ws[1]) % 256 * 256 + Top(ws[2]) % 4 * 0x1_0000;
    Sample(
      [Low(ws[0]), Mid(ws[0]), High(ws[0]), Low(ws[1]), Mid(ws[1]), High(ws[1]),
       Low(ws[2]), Mid(ws[2]), High(ws[2]), Low(ws[3]), Mid(ws[3]), High(ws[3]),
       Low(ws[4]), Mid(ws[4]), High(ws[4]), d15],
      Top(ws[4]) % 8)
  }

  lemma FieldsOf(hi: int, c: u18, b: u18, a: u18)
    requires 0 <= hi < 1024
    ensures var w := Word64(hi, c, b, a);
            Low(w) == a && Mid(w) == b && High(w) == c && Top(w) == hi && (IsStart(w) <==> hi / 256 == 2)
  {
    var w := Word64(hi, c, b, a);
    assert w / TWO18 == hi * TWO36 + c * TWO18 + b;
    assert w / TWO36 == hi * TWO18 + c;
    assert w / TWO54 == hi;
    assert w / TWO62 == hi / 256;
  }

  lemma {:induction false} StartMarks(s: Sample, b: nat)
    requires b < 5
    ensures IsStart(Pack(s)[b]) <==> b == 0
  {
    var d := s.data;
    FieldsOf(2 * 256 + d[15] % 256, d[2], d[1], d[0]);
    FieldsOf(d[15] / 256 % 256, d[5], d[4], d[3]);
    FieldsOf(d[15] / 0x1_0000, d[8], d[7], d[6]);
    FieldsOf(0, d[11], d[10], d[9]);
    FieldsOf(s.block, d[14], d[13], d[12]);
  }

  /** Fields of the five words of a sample. */
  lemma {:induction false} PackFields(s: Sample)
    ensures var d, w := s.data, Pack(s);
            && Low(w[0]) == d[0] && Mid(w[0]) == d[1] && High(w[0]) == d[2] && Top(w[0]) == 512 + d[15] % 256
            && Low(w[1]) == d[3] && Mid(w[1]) == d[4] && High(w[1]) == d[5] && Top(w[1]) == d[15] / 256 % 256
            && Low(w[2]) == d[6] && Mid(w[2]) == d[7] && High(w[2]) == d[8] && Top(w[2]) == d[15] / 0x1_0000
            && Low(w[3]) == d[9] && Mid(w[3]) == d[10] && High(w[3]) == d[11]
            && Low(w[4]) == d[12] && Mid(w[4]) == d[13] && High(w[4]) == d[14] && Top(w[4]) == s.block
  {
    var d := s.data;
    FieldsOf(2 * 256 + d[15] % 256, d[2], d[1], d[0]);
    FieldsOf(d[15] / 256 % 256, d[5], d[4], d[3]);
    FieldsOf(d[15] / 0x1_0000, d[8], d[7], d[6]);
    FieldsOf(0, d[11], d[10], d[9]);
    FieldsOf(s.block, d[14], d[13], d[12]);
  }

  /**
   * A sample that comes while words of the last one are missing, as after a change of mode,
   * is marked: all ones, which no sample has among its words.
   */
  lemma {:induction false} ErrorWord(p: Packer, c: Clock, s: Sample, b: nat)
    requires !c.rst && c.allChan && p.inTvalid && p.beat != 5 && b < 5
    ensures NextPacker(p, c).tvalid && NextPacker(p, c).tdata == 0xFFFF_FFFF_FFFF_FFFF
    ensures Pack(s)[b] != NextPacker(p, c).tdata && !IsStart(NextPacker(p, c).tdata)
  {
    PackFields(s);
    WordTops(s, b);
  }

  lemma {:induction false} WordTops(s: Sample, b: nat)
    requires b < 5
    ensures Pack(s)[b] < 768 * TWO54
  {
    var d := s.data;
    match b
    case 0 => WordBelow(2 * 256 + d[15] % 256, d[2], d[1], d[0]);
    case 1 => WordBelow(d[15] / 256 % 256, d[5], d[4], d[3]);
    case 2 => WordBelow(d[15] / 0x1_0000, d[8], d[7], d[6]);
    case 3 => WordBelow(0, d[11], d[10], d[9]);
    case _ => WordBelow(s.block, d[14], d[13], d[12]);
  }

  lemma WordBelow(hi: int, c: u18, b: u18, a: u18)
    requires 0 <= hi < 768
    ensures Word64(hi, c, b, a) < 768 * TWO54
  {
  }

  /** The five words carry the whole sample. */
  lemma {:induction false} UnpackPack(s: Sample)
    ensures Unpack(Pack(s)) == s
  {
    var d, u := s.data, Unpack(Pack(s)).data;
    PackFields(s);
    Split18(d[15]);
    assert u[0] == d[0] && u[1] == d[1] && u[2] == d[2] && u[3] == d[3] && u[4] == d[4] && u[5] == d[5];
    assert u[6] == d[6] && u[7] == d[7] && u[8] == d[8] && u[9] == d[9] && u[10] == d[10] && u[11] == d[11];
    assert u[12] == d[12] && u[13] == d[13] && u[14] == d[14] && u[15] == d[15];
    assert u == d;
  }

  lemma Split18(x: u18)
    ensures x == (512 + x % 256) % 256 + x / 256 % 256 % 256 * 256 + x / 0x1_0000 % 4 * 0x1_0000
  {
    assert x / 256 / 256 == x / 0x1_0000;
  }

  /** A receiver that skips words until a start mark and then takes five. */
  function Parse(ws: seq<u64>): seq<Sample> {
    if |ws| < 5 then []
    else if IsStart(ws[0]) then [Unpack(ws[..5])] + Parse(ws[5..])
    else Parse(ws[1..])
  }

  lemma {:induction false} PackAllCons(s: Sample, ss: seq<Sample>)
    ensures PackAll([s] + ss) == Pack(s) + PackAll(ss)
  {
    if ss == [] {
      assert [s] + ss == [s];
      assert PackAll([s][..0]) == [];
    } else {
      var n := |ss| - 1;
      PackAllCons(s, ss[..n]);
      assert ([s] + ss)[..|ss|] == [s] + ss[..n];
      assert PackAll([s] + ss) == PackAll([s] + ss[..n]) + Pack(ss[n]);
    }
  }

  /** An incomplete sample at the end is left. */
  lemma {:induction false} ParseWithTail(ss: seq<Sample>, tail: seq<u64>)
    requires |tail| <= 4
    ensures Parse(PackAll(ss) + tail) == ss
  {
    if ss == [] {
      ParseShort(PackAll(ss) + tail);
    } else {
      PackAllCons(ss[0], ss[1..]);
      assert [ss[0]] + ss[1..] == ss;
      var ws := PackAll(ss) + tail;
      assert ws[..5] == Pack(ss[0]) && ws[5..] == PackAll(ss[1..]) + tail;
      StartMarks(ss[0], 0);
      UnpackPack(ss[0]);
      ParseWithTail(ss[1..], tail);
    }
  }

  lemma {:induction false} ParseShort(ws: seq<u64>)
    requires |ws| <= 4
    ensures Parse(ws) == []
  {
  }

  lemma {:induction false} ParsePackAll(ss: seq<Sample>)
    ensures Parse(PackAll(ss)) == ss
  {
    ParseWithTail(ss, []);
    assert PackAll(ss) + [] == PackAll(ss);
  }

  /** Joining inside a sample skips the rest of it. */
  lemma {:induction false} ParseJoins(s: Sample, ss: seq<Sample>, tail: seq<u64>, k: nat)
    requires k < 5 && |tail| <= 4
    ensures Parse((PackAll([s] + ss) + tail)[k..]) == if k == 0 then [s] + ss else ss
    decreases 5 - k
  {
    var ws := PackAll([s] + ss) + tail;
    PackAllCons(s, ss);
    if k == 0 {
      ParseWithTail([s] + ss, tail);
      assert ws[0..] == ws;
    } else {
      StartMarks(s, k);
      assert ws[k] == Pack(s)[k];
      assert ws[k..][1..] == ws[k + 1..];
      if k < 4 {
        ParseJoins(s, ss, tail, k + 1);
      } else {
        assert ws[5..] == PackAll(ss) + tail;
        ParseWithTail(ss, tail);
      }
      if |ws[k..]| < 5 {
        assert ss == [];
      }
    }
  }

  lemma {:induction false} PackAllDrop(ss: seq<Sample>, q: nat)
    requires q <= |ss|
    ensures PackAll(ss)[5 * q..] == PackAll(ss[q..])
  {
    if q == 0 {
      assert ss[0..] == ss;
    } else {
      PackAllCons(ss[0], ss[1..]);
      assert [ss[0]] + ss[1..] == ss;
      PackAllDrop(ss[1..], q - 1);
      assert ss[1..][q - 1..] == ss[q..];
      assert PackAll(ss)[5 * q..] == PackAll(ss)[5..][5 * (q - 1)..];
    }
  }

  /** Samples whose first word is at or after word `k`. */
  function After(ss: seq<Sample>, k: nat): seq<Sample> {
    if (k + 4) / 5 <= |ss| then ss[(k + 4) / 5..] else []
  }

  lemma {:induction false} ParseAt(ss: seq<Sample>, tail: seq<u64>, q: nat, r: nat)
    requires |tail| <= 4 && q < |ss| && r < 5
    ensures Parse((PackAll(ss) + tail)[5 * q + r..]) == if r == 0 then ss[q..] else ss[q + 1..]
  {
    var rest := ss[q..];
    PackAllDrop(ss, q);
    DropTwice(PackAll(ss), tail, 5 * q, r);
    assert rest == [rest[0]] + rest[1..] && rest[1..] == ss[q + 1..];
    ParseJoins(rest[0], rest[1..], tail, r);
  }

  lemma DropTwice(ws: seq<u64>, tail: seq<u64>, a: nat, r: nat)
    requires a + r <= |ws|
    ensures (ws + tail)[a + r..] == (ws[a..] + tail)[r..]
  {
  }

  lemma FivesOf(k: nat)
    ensures k == 5 * (k / 5) + k % 5 && (k + 4) / 5 == k / 5 + if k % 5 == 0 then 0 else 1
  {
  }

  lemma {:induction false} AfterIs(ss: seq<Sample>, k: nat, q: nat, r: nat)
    requires k == 5 * q + r && r < 5 && (k + 4) / 5 == q + if r == 0 then 0 else 1
    ensures After(ss, k) == if q >= |ss| then [] else if r == 0 then ss[q..] else ss[q + 1..]
  {
  }

  /**
   * Self-synchronization: a receiver that joins the stream at any word recovers every
   * sample whose words it sees in full, and nothing else.
   */
  lemma {:induction false} ParseFromAnywhere(ss: seq<Sample>, tail: seq<u64>, k: nat)
    requires |tail| <= 4 && k <= |PackAll(ss) + tail|
    ensures Parse((PackAll(ss) + tail)[k..]) == After(ss, k)
  {
    FivesOf(k);
    AfterIs(ss, k, k / 5, k % 5);
    if k / 5 >= |ss| {
      ParseShort((PackAll(ss) + tail)[k..]);
    } else {
      ParseAt(ss, tail, k / 5, k % 5);
    }
  }
}
