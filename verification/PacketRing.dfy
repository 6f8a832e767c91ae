/**
 * The store-and-forward packet ring (hdl/src/axi_stream_ts_data.sv) with the
 * parameters its only instance uses: ID 0xDD, MAX_PKT_LEN 8192, DEPTH_BITS 15.
 *
 * One record per `always` block; `Next` is one rising clock edge, every
 * right-hand side reading the state before the edge.
 */
module PacketRing {
  import opened Bits

  const STREAM_ID: int := 0xDD
  const MAX_PKT_LEN: int := 8192
  const MAX_SAMPLES: int := MAX_PKT_LEN - 2
  const DEPTH: int := TWO15

  /** A 65-bit RAM word: the TLAST flag and 64 data bits. */
  datatype Word = Word(last: bool, data: u64)

  type Ram = r: seq<Word> | |r| == DEPTH witness seq(DEPTH, _ => Word(false, 0))

  datatype Input = Input(
    rst: bool, ena: bool, timestamp: u64, numSamples: u16,
    tdata: u64, tvalid: bool, tlast: bool, outTready: bool)

  datatype WriteState = Idle | Data | WrLen | WrTs | WrUpdate

  datatype Writer = Writer(
    numPktsIn: u32, inTready: bool, inPkts: u15,
    wrEna: bool, wrPos: u16, wrCnt: u16, wrStart: u16, wrDat: Word,
    state: WriteState, maxSamples: u16, stamp: u64)

  datatype Reader = Reader(
    wordCnt: u16, outPkts: u15, rdPos: u16,
    tvalid: bool, tlast: bool, tfirst: bool, tdata: u64)

  datatype Space = Space(check: bool, used: u16)

  datatype State = State(w: Writer, rd: Reader, sp: Space, ram: Ram)

  /** The header word {ID, 8'h0, num_pkts_in, wr_cnt}. */
  function Header(number: u32, length: u16): u64 {
    STREAM_ID * 0x100_0000_0000_0000 + number * TWO16 + length
  }

  function Slot(pos: int): (s: int)
    ensures 0 <= s < DEPTH
  {
    pos % DEPTH
  }

  /** max_samples as sampled in ST_IDLE: 0 wraps to 65535. */
  function SampleLimit(numSamples: u16): u16 {
    if numSamples > MAX_SAMPLES then MAX_SAMPLES - 1 else Sub16(numSamples, 1)
  }

  function NextRam(ram: Ram, w: Writer): Ram {
    if w.wrEna then ram[Slot(w.wrPos) := w.wrDat] else ram
  }

  /** `word` is the RAM word under rd_pos, `notEmpty` the wire buf_not_empty. */
  function NextReader(rd: Reader, notEmpty: bool, word: Word, i: Input): Reader {
    if i.rst then
      Reader(0, 0, 0, false, false, false, 0)
    else
      if rd.tvalid then
        if !i.outTready then rd
        else if rd.tlast then
          rd.(wordCnt := Sub16(rd.wordCnt, 1), outPkts := Add15(rd.outPkts, 1),
              tvalid := false, tlast := false, tfirst := false, tdata := 0)
        else
          rd.(wordCnt := Sub16(rd.wordCnt, 1), rdPos := Add16(rd.rdPos, 1),
              tlast := word.last, tfirst := false, tdata := word.data)
      else if notEmpty then
        rd.(wordCnt := word.data % TWO16, rdPos := Add16(rd.rdPos, 1),
            tvalid := true, tlast := word.last, tfirst := true, tdata := word.data)
      else
        rd.(wordCnt := 0, tvalid := false, tlast := false, tfirst := false, tdata := 0)
  }

  /** Two registers: `check` looks at the `used` of one clock ago. The subtraction is 32 bits wide. */
  function NextSpace(sp: Space, wrStart: u16, rdPos: u16, i: Input): Space {
    if i.rst then Space(false, 0)
    else Space(Sub32(DEPTH, sp.used) > MAX_PKT_LEN, Sub16(wrStart, rdPos))
  }

  function NextWriter(w: Writer, check: bool, i: Input): Writer {
    if i.rst then
      w.(numPktsIn := 0, inTready := false, inPkts := 0, wrEna := false, wrPos := 0,
         wrCnt := 0, wrStart := 0, state := Idle, maxSamples := 0)
    else
      var captured := i.tvalid && w.inTready;
      match w.state
      case Idle =>
        var w' := w.(wrPos := Add16(w.wrStart, 2), stamp := i.timestamp,
                     maxSamples := SampleLimit(i.numSamples));
        if captured && i.ena then
          w'.(numPktsIn := Add32(w.numPktsIn, 1), wrCnt := 2, wrEna := true,
              wrDat := Word(false, i.tdata), inTready := true, state := Data)
        else
          w'.(wrCnt := 0, inTready := check, wrEna := false)
      case Data =>
        if captured then
          var last := i.tlast || !i.ena || w.wrCnt > w.maxSamples;
          w.(wrPos := Add16(w.wrPos, 1), wrCnt := Add16(w.wrCnt, 1), wrEna := true,
             wrDat := Word(last, i.tdata), inTready := !last,
             state := if last then WrLen else Data)
        else if !i.ena then
          w.(inTready := false, state := WrLen, wrEna := true,
             wrCnt := Add16(w.wrCnt, 1), wrDat := Word(true, w.wrDat.data))
        else
          w.(inTready := true, wrEna := false)
      case WrLen =>
        w.(inTready := false, state := WrTs, wrStart := Add16(w.wrPos, 1), wrPos := w.wrStart,
           wrEna := true, wrCnt := 0, wrDat := Word(false, Header(w.numPktsIn, w.wrCnt)))
      case WrTs =>
        w.(inTready := false, state := WrUpdate, wrPos := Add16(w.wrPos, 1),
           wrEna := true, wrCnt := 0, wrDat := Word(false, w.stamp))
      case WrUpdate =>
        w.(inPkts := Add15(w.inPkts, 1), inTready := false, state := Idle,
           wrPos := w.wrStart, wrEna := false, wrCnt := 0, wrDat := Word(false, 0))
  }

  function Next(s: State, i: Input): State {
    State(
      NextWriter(s.w, s.sp.check, i),
      NextReader(s.rd, s.w.inPkts != s.rd.outPkts, s.ram[Slot(s.rd.rdPos)], i),
      NextSpace(s.sp, s.w.wrStart, s.rd.rdPos, i),
      NextRam(s.ram, s.w))
  }

  /** The write side: one call of `Edge` per clock, registers updated in place. */
  class WriteSide {
    var numPktsIn: u32
    var inTready: bool
    var inPkts: u15
    var wrEna: bool
    var wrPos: u16
    var wrCnt: u16
    var wrStart: u16
    var wrDat: Word
    var state: WriteState
    var maxSamples: u16
    var stamp: u64

    constructor ()
    {
      wrDat, state := Word(false, 0), Idle;
    }

    ghost function View(): Writer
      reads this
    {
      Writer(numPktsIn, inTready, inPkts, wrEna, wrPos, wrCnt, wrStart, wrDat, state, maxSamples, stamp)
    }

    method Edge(i: Input, checked: bool)
      modifies this
      ensures View() == NextWriter(old(View()), checked, i)
    {
      var captured := i.tvalid && inTready;
      if i.rst {
        numPktsIn, inTready, inPkts, wrEna := 0, false, 0, false;
        wrPos, wrCnt, wrStart, state, maxSamples := 0, 0, 0, Idle, 0;
        return;
      }
      match state
      case Idle =>
        wrPos, stamp, maxSamples := Add16(wrStart, 2), i.timestamp, SampleLimit(i.numSamples);
        if captured && i.ena {
          numPktsIn, wrCnt := Add32(numPktsIn, 1), 2;
          wrEna, wrDat, inTready, state := true, Word(false, i.tdata), true, Data;
        } else {
          wrCnt, inTready, wrEna := 0, checked, false;
        }
      case Data =>
        if captured {
          // enable low finishes the packet: it cannot be dropped, or the space check would be stale
          var last := i.tlast || !i.ena || wrCnt > maxSamples;
          wrPos, wrCnt := Add16(wrPos, 1), Add16(wrCnt, 1);
          wrEna, wrDat, inTready := true, Word(last, i.tdata), !last;
          state := if last then WrLen else Data;
        } else if !i.ena {
          // re-write the last word with TLAST set
          inTready, state, wrEna := false, WrLen, true;
          wrCnt, wrDat := Add16(wrCnt, 1), Word(true, wrDat.data);
        } else {
          inTready, wrEna := true, false;
        }
      case WrLen =>
        inTready, state, wrEna := false, WrTs, true;
        wrStart, wrPos := Add16(wrPos, 1), wrStart;
        wrCnt, wrDat := 0, Word(false, Header(numPktsIn, wrCnt));
      case WrTs =>
        inTready, state, wrEna := false, WrUpdate, true;
        wrPos, wrCnt, wrDat := Add16(wrPos, 1), 0, Word(false, stamp);
      case WrUpdate =>
        inPkts, inTready, state := Add15(inPkts, 1), false, Idle;
        wrPos, wrEna, wrCnt, wrDat := wrStart, false, 0, Word(false, 0);
    }
  }

  /** The read side. */
  class ReadSide {
    var wordCnt: u16
    var outPkts: u15
    var rdPos: u16
    var tvalid: bool
    var tlast: bool
    var tfirst: bool
    var tdata: u64

    constructor ()
    {
    }

    ghost function View(): Reader
      reads this
    {
      Reader(wordCnt, outPkts, rdPos, tvalid, tlast, tfirst, tdata)
    }

    method Edge(i: Input, notEmpty: bool, word: Word)
      modifies this
      ensures View() == NextReader(old(View()), notEmpty, word, i)
    {
      if i.rst {
        wordCnt, outPkts, rdPos := 0, 0, 0;
        tvalid, tlast, tfirst, tdata := false, false, false, 0;
      } else if tvalid {
        if i.outTready {
          wordCnt := Sub16(wordCnt, 1);
          tfirst := false;
          if tlast {
            outPkts := Add15(outPkts, 1);
            tvalid, tlast, tdata := false, false, 0;
          } else {
            rdPos := Add16(rdPos, 1);
            tlast, tdata := word.last, word.data;
          }
        }
      } else if notEmpty {
        wordCnt := word.data % TWO16;
        rdPos := Add16(rdPos, 1);
        tvalid, tfirst, tlast, tdata := true, true, word.last, word.data;
      } else {
        wordCnt, tlast, tfirst, tdata := 0, false, false, 0;
      }
    }
  }

  /** The two-stage free-space check. */
  class SpaceCheck {
    var check: bool
    var used: u16

    constructor ()
    {
    }

    ghost function View(): Space
      reads this
    {
      Space(check, used)
    }

    method Edge(i: Input, wrStart: u16, rdPos: u16)
      modifies this
      ensures View() == NextSpace(old(View()), wrStart, rdPos, i)
    {
      if i.rst {
        check, used := false, 0;
      } else {
        check, used := Sub32(DEPTH, used) > MAX_PKT_LEN, Sub16(wrStart, rdPos);
      }
    }
  }

  /** The whole module: its four `always` blocks over one RAM. */
  class Ring {
    const w: WriteSide
    const rd: ReadSide
    const sp: SpaceCheck
    const ram: array<Word>

    ghost predicate Valid()
    {
      ram.Length == DEPTH
    }

    ghost function View(): State
      requires Valid()
      reads w, rd, sp, ram
    {
      State(w.View(), rd.View(), sp.View(), ram[..])
    }

    constructor ()
      ensures Valid()
      ensures fresh(w) && fresh(rd) && fresh(sp) && fresh(ram)
    {
      w := new WriteSide();
      rd := new ReadSide();
      sp := new SpaceCheck();
      ram := new Word[DEPTH](_ => Word(false, 0));
    }

    method Step(i: Input)
      requires Valid()
      modifies w, rd, sp, ram
      ensures View() == Next(old(View()), i)
    {
      // what the blocks read of each other before the edge
      var checked, pos := sp.check, rd.rdPos;
      var notEmpty, word := w.inPkts != rd.outPkts, ram[Slot(pos)];

      if w.wrEna {
        ram[Slot(w.wrPos)] := w.wrDat;
      }
      rd.Edge(i, notEmpty, word);
      sp.Edge(i, w.wrStart, pos);
      w.Edge(i, checked);
    }
  }
}
