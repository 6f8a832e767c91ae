/**
 * The inductive invariant of the ring: the modular registers against the
 * unbounded positions of the frames in one endless stream of words.
 */
module RingInvariant {
  import opened Bits
  import opened PacketRing
  import opened Framing

  /** A run so far: the registers, the framer, and what crossed the pins since the last reset. */
  datatype Trace = Trace(s: State, f: Framer, sent: seq<Word>, delivered: nat, accepted: seq<u64>)

  function TraceNext(t: Trace, i: Input): Trace {
    var took := i.tvalid && t.s.w.inTready && (i.ena || t.s.w.state == Data);
    var gave := t.s.rd.tvalid && i.outTready;
    Trace(
      Next(t.s, i),
      FramerNext(t.f, t.s.w.inTready, i),
      if i.rst then [] else if gave then t.sent + [Word(t.s.rd.tlast, t.s.rd.tdata)] else t.sent,
      if i.rst then 0 else if gave && t.s.rd.tlast then t.delivered + 1 else t.delivered,
      if i.rst then [] else if took then t.accepted + [i.tdata] else t.accepted)
  }

  /** The first clock is a reset; registers and RAM before it are arbitrary. */
  function Start(power: State, i: Input): Trace
    requires i.rst
  {
    Trace(Next(power, i), NO_FRAMES, [], 0, [])
  }

  function Feed(t: Trace, ins: seq<Input>): Trace {
    if ins == [] then t else TraceNext(Feed(t, ins[..|ins| - 1]), ins[|ins| - 1])
  }

  /** A whole run. Later resets are allowed and restart the books. */
  function Run(power: State, ins: seq<Input>): Trace
    requires |ins| >= 1 && ins[0].rst
  {
    Feed(Start(power, ins[0]), ins[1..])
  }

  /** A word that opens a packet comes with a nonzero num_samples; the code looks at num_samples only then. */
  predicate Limited(w: Writer, i: Input) {
    !i.rst && w.state.Idle? && w.inTready && i.ena && i.tvalid ==> i.numSamples >= 1
  }

  /** So do all in a run from `t`. */
  predicate LimitedRun(t: Trace, ins: seq<Input>) {
    ins != [] ==>
      LimitedRun(t, ins[..|ins| - 1]) && Limited(Feed(t, ins[..|ins| - 1]).s.w, ins[|ins| - 1])
  }

  // ---------------------------------------------------------------- positions

  predicate Closing(w: Writer) {
    w.state.WrLen? || w.state.WrTs? || w.state.WrUpdate?
  }

  /** Frames that wr_start has moved past. */
  function Written(w: Writer, frames: seq<Frame>): (n: nat)
    ensures n <= |frames|
  {
    if w.state.WrLen? && frames != [] then |frames| - 1 else |frames|
  }

  /** Frames that in_pkts counts. */
  function Published(w: Writer, frames: seq<Frame>): (n: nat)
    ensures n <= |frames|
  {
    if Closing(w) && frames != [] then |frames| - 1 else |frames|
  }

  /** True (unbounded) write start. */
  function Base(w: Writer, frames: seq<Frame>): nat
  {
    |FlatTo(frames, Written(w, frames))|
  }

  /** True read position: words sent, plus the one in the output register. */
  function Reached(rd: Reader, sent: seq<Word>): nat {
    |sent| + if rd.tvalid then 1 else 0
  }

  // ---------------------------------------------------------------- writer

  predicate FrameOk(fr: Frame, k: nat) {
    && fr.number == (k + 1) % TWO32
    && fr.open.limit >= 1
    && 1 <= |fr.open.words| <= Capacity(fr.open.limit)
    && (fr.closing.Full? ==> |fr.open.words| == Capacity(fr.open.limit))
  }

  ghost predicate FramerOk(f: Framer) {
    && (forall k :: 0 <= k < |f.frames| ==> FrameOk(f.frames[k], k))
    && (f.current.Some? ==>
          && f.current.value.limit >= 1
          && 1 <= |f.current.value.words| < Capacity(f.current.value.limit))
  }

  /** The write FSM and the framer agree on whether a frame is open or just closed. */
  predicate InStep(w: Writer, f: Framer) {
    (Closing(w) ==> |f.frames| > 0) && (f.current.Some? <==> w.state.Data?)
  }

  /** Registers whose meaning depends on the state. */
  ghost predicate StateOk(w: Writer, f: Framer)
    requires InStep(w, f)
  {
    var base := Base(w, f.frames);
    match w.state
    case Idle => !w.wrEna
    case Data =>
      var o := f.current.value;
      && w.inTready && |o.words| >= 1 && o.limit >= 1
      && w.wrPos == (base + 1 + |o.words|) % TWO16
      && w.wrCnt == |o.words| + 1
      && w.maxSamples == SampleLimit(o.limit)
      && w.stamp == o.stamp
      && w.wrDat == Word(false, o.words[|o.words| - 1])
    case WrLen =>
      var fr := f.frames[|f.frames| - 1];
      && !w.inTready && w.wrEna && |fr.open.words| >= 1
      && w.wrPos == (base + 1 + |fr.open.words|) % TWO16
      && w.wrCnt == LengthField(fr)
      && w.stamp == fr.open.stamp
      && w.wrDat == Word(true, fr.open.words[|fr.open.words| - 1])
    case WrTs =>
      var fr := f.frames[|f.frames| - 1];
      && !w.inTready && w.wrEna
      && w.wrPos == |FlatTo(f.frames, |f.frames| - 1)| % TWO16
      && w.stamp == fr.open.stamp
      && w.wrDat == Encode(fr)[0]
    case WrUpdate =>
      var fr := f.frames[|f.frames| - 1];
      && !w.inTready && w.wrEna
      && w.wrPos == (|FlatTo(f.frames, |f.frames| - 1)| + 1) % TWO16
      && w.wrDat == Encode(fr)[1]
  }

  ghost predicate WriterInv(w: Writer, f: Framer) {
    FramerOk(f) && WriterRegs(w, f)
  }

  ghost predicate WriterRegs(w: Writer, f: Framer) {
    && InStep(w, f)
    && w.numPktsIn == (|f.frames| + if w.state.Data? then 1 else 0) % TWO32
    && w.inPkts == Published(w, f.frames) % TWO15
    && w.wrStart == Base(w, f.frames) % TWO16
    && StateOk(w, f)
  }

  // Bits of modular arithmetic, kept away from the sequences.
  lemma Add16Mod(x: int, k: int)
    ensures Add16(x % TWO16, k) == (x + k) % TWO16
  {
  }

  lemma Sub16Mod(x: int, y: int)
    requires 0 <= x - y < TWO16
    ensures Sub16(x % TWO16, y % TWO16) == x - y
  {
  }

  lemma Add15Mod(x: int, k: int)
    ensures Add15(x % TWO15, k) == (x + k) % TWO15
  {
  }

  lemma Add32Mod(x: int, k: int)
    ensures Add32(x % TWO32, k) == (x + k) % TWO32
  {
  }

  /** A frame's number and size are right when it is closed, and the others are not touched. */
  lemma {:induction false} CloseOk(f: Framer, o: Open, why: Closing)
    requires FramerOk(f) && o.limit >= 1 && 1 <= |o.words| <= Capacity(o.limit)
    requires why.Full? ==> |o.words| == Capacity(o.limit)
    ensures FramerOk(Close(f, o, why))
  {
  }

  lemma {:induction false} FramerOkStep(f: Framer, ready: bool, i: Input)
    requires FramerOk(f) && !i.rst && (f.current.None? && Accepts(f, ready, i) ==> i.numSamples >= 1)
    ensures FramerOk(FramerNext(f, ready, i))
  {
    if f.current.Some? {
      var o := f.current.value;
      var o' := o.(words := o.words + [i.tdata]);
      if Accepts(f, ready, i) {
        if i.tlast || !i.ena || |o'.words| >= Capacity(o.limit) {
          CloseOk(f, o', if i.tlast then LastWord else if !i.ena then Disabled else Full);
        }
      } else if !i.ena {
        CloseOk(f, o, DisabledInGap);
      }
    }
  }

  lemma {:induction false} WriterStepIdle(w: Writer, f: Framer, check: bool, i: Input)
    requires WriterRegs(w, f) && Limited(w, i) && !i.rst && w.state.Idle?
    ensures WriterRegs(NextWriter(w, check, i), FramerNext(f, w.inTready, i))
  {
    Add32Mod(|f.frames|, 1);
    Add16Mod(Base(w, f.frames), 2);
  }

  /** A word arrives and the frame goes on. */
  lemma {:induction false} WriterStepMore(w: Writer, f: Framer, check: bool, i: Input)
    requires WriterRegs(w, f) && !i.rst && w.state.Data?
    requires i.tvalid && i.ena && !i.tlast && |f.current.value.words| + 1 < Capacity(f.current.value.limit)
    ensures WriterRegs(NextWriter(w, check, i), FramerNext(f, w.inTready, i))
  {
    Add16Mod(Base(w, f.frames) + 1 + |f.current.value.words|, 1);
  }

  /** The open frame `o` is closed: what does not depend on why. */
  lemma {:induction false} ClosedRegs(w: Writer, f: Framer, w': Writer, o: Open, why: Closing)
    requires WriterRegs(w, f) && w.state.Data? && w'.state.WrLen?
    requires w'.numPktsIn == w.numPktsIn && w'.inPkts == w.inPkts && w'.wrStart == w.wrStart
    requires FlatTo(Close(f, o, why).frames, |f.frames|) == FlatTo(f.frames, |f.frames|) ==>
               StateOk(w', Close(f, o, why))
    ensures WriterRegs(w', Close(f, o, why))
  {
    FlatAppend(f.frames, Close(f, o, why).frames[|f.frames|], |f.frames|);
  }

  /** A word arrives and closes the frame. */
  lemma {:induction false} WriterStepLast(w: Writer, f: Framer, check: bool, i: Input, o: Open, why: Closing)
    requires WriterRegs(w, f) && !i.rst && w.state.Data? && i.tvalid
    requires i.tlast || !i.ena || w.wrCnt > w.maxSamples
    requires o == f.current.value.(words := f.current.value.words + [i.tdata])
    requires |o.words| <= MAX_SAMPLES && !why.DisabledInGap?
    ensures WriterRegs(NextWriter(w, check, i), Close(f, o, why))
  {
    if FlatTo(Close(f, o, why).frames, |f.frames|) == FlatTo(f.frames, |f.frames|) {
      LastRegisters(w, f, check, i, o, why);
    }
    ClosedRegs(w, f, NextWriter(w, check, i), o, why);
  }

  /** The registers that a closing word leaves, next to the position of the closed frame. */
  lemma {:induction false} LastRegisters(w: Writer, f: Framer, check: bool, i: Input, o: Open, why: Closing)
    requires !i.rst && w.state.Data? && i.tvalid && f.current.Some? && StateOk(w, f)
    requires i.tlast || !i.ena || w.wrCnt > w.maxSamples
    requires o == f.current.value.(words := f.current.value.words + [i.tdata])
    requires |o.words| <= MAX_SAMPLES && !why.DisabledInGap?
    requires FlatTo(Close(f, o, why).frames, |f.frames|) == FlatTo(f.frames, |f.frames|)
    ensures StateOk(NextWriter(w, check, i), Close(f, o, why))
  {
    Add16Mod(Base(w, f.frames) + |o.words|, 1);
  }

  /** No word arrives. */
  lemma {:induction false} WriterStepGap(w: Writer, f: Framer, check: bool, i: Input)
    requires WriterRegs(w, f) && !i.rst && w.state.Data? && !i.tvalid && |f.current.value.words| <= MAX_SAMPLES
    ensures WriterRegs(NextWriter(w, check, i), FramerNext(f, w.inTready, i))
  {
    if !i.ena {
      ClosedRegs(w, f, NextWriter(w, check, i), f.current.value, DisabledInGap);
    }
  }

  lemma {:induction false} WriterStepWrLen(w: Writer, f: Framer, check: bool, i: Input)
    requires WriterRegs(w, f) && !i.rst && w.state.WrLen?
    requires FrameOk(f.frames[|f.frames| - 1], |f.frames| - 1)
    ensures WriterRegs(NextWriter(w, check, i), FramerNext(f, w.inTready, i))
  {
    var n := |f.frames|;
    assert FlatTo(f.frames, n) == FlatTo(f.frames, n - 1) + Encode(f.frames[n - 1]);
    Add16Mod(Base(w, f.frames) + 1 + |f.frames[n - 1].open.words|, 1);
  }

  lemma {:induction false} WriterStepBackfill(w: Writer, f: Framer, check: bool, i: Input)
    requires WriterRegs(w, f) && !i.rst && (w.state.WrTs? || w.state.WrUpdate?)
    ensures WriterRegs(NextWriter(w, check, i), FramerNext(f, w.inTready, i))
  {
    Add16Mod(|FlatTo(f.frames, |f.frames| - 1)|, 1);
    Add15Mod(|f.frames| - 1, 1);
  }

  lemma {:induction false} WriterStep(w: Writer, f: Framer, check: bool, i: Input)
    requires WriterInv(w, f) && Limited(w, i) && !i.rst
    ensures WriterInv(NextWriter(w, check, i), FramerNext(f, w.inTready, i))
  {
    FramerOkStep(f, w.inTready, i);
    match w.state
    case Idle => WriterStepIdle(w, f, check, i);
    case Data =>
      var o := f.current.value;
      if !i.tvalid {
        WriterStepGap(w, f, check, i);
      } else if i.tlast || !i.ena || |o.words| + 1 >= Capacity(o.limit) {
        WriterStepLast(w, f, check, i, o.(words := o.words + [i.tdata]),
                       if i.tlast then LastWord else if !i.ena then Disabled else Full);
      } else {
        WriterStepMore(w, f, check, i);
      }
    case WrLen =>
      assert FrameOk(f.frames[|f.frames| - 1], |f.frames| - 1);
      WriterStepWrLen(w, f, check, i);
    case _ => WriterStepBackfill(w, f, check, i);
  }

  // ---------------------------------------------------------------- free space

  /** `check`, computed two clocks late, is about the present `wr_start` except in ST_WR_TS and ST_WR_UPDATE. */
  ghost predicate SpaceInv(sp: Space, w: Writer, base: nat, reached: nat) {
    && base - reached <= DEPTH
    && sp.used <= DEPTH
    && (!w.state.WrTs? ==> base - reached <= sp.used)
    && (!w.state.WrTs? && !w.state.WrUpdate? && sp.check ==> base + MAX_PKT_LEN - reached < DEPTH)
    && (w.state.Data? || w.state.WrLen? || w.inTready ==> base + MAX_PKT_LEN - reached < DEPTH)
  }

  lemma {:induction false} SpaceStep(
      sp: Space, w: Writer, rd: Reader, f: Framer, i: Input, base: nat, reached: nat, base': nat, reached': nat)
    requires WriterInv(w, f) && !i.rst
    requires SpaceInv(sp, w, base, reached)
    requires base == Base(w, f.frames) && w.wrStart == base % TWO16 && rd.rdPos == reached % TWO16
    requires base' == if w.state.WrLen? then base + |Encode(f.frames[|f.frames| - 1])| else base
    requires reached <= base && reached <= reached'
    ensures SpaceInv(NextSpace(sp, w.wrStart, rd.rdPos, i), NextWriter(w, sp.check, i), base', reached')
  {
    Sub16Mod(base, reached);
    assert NextSpace(sp, w.wrStart, rd.rdPos, i).used == base - reached;
    if w.state.WrLen? {
      assert FrameOk(f.frames[|f.frames| - 1], |f.frames| - 1);
    }
  }

  // ---------------------------------------------------------------- frames over a clock

  /** A clock adds at most one frame, behind the others. */
  lemma {:induction false} FramesGrow(f: Framer, ready: bool, i: Input)
    requires !i.rst
    ensures var f' := FramerNext(f, ready, i);
            f'.frames == f.frames || (|f'.frames| == |f.frames| + 1 && f'.frames == f.frames + [f'.frames[|f.frames|]])
  {
  }

  lemma {:induction false} FlatKept(f: Framer, f': Framer, k: nat)
    requires f'.frames == f.frames || (|f'.frames| == |f.frames| + 1 && f'.frames == f.frames + [f'.frames[|f.frames|]])
    requires k <= |f.frames|
    ensures FlatTo(f'.frames, k) == FlatTo(f.frames, k)
  {
    if f'.frames != f.frames {
      FlatAppend(f.frames, f'.frames[|f.frames|], k);
    }
  }

  /** Which frames wr_start has moved past after a clock: leaving ST_WR_LEN adds the one just closed. */
  lemma {:induction false} WrittenStep(w: Writer, f: Framer, check: bool, i: Input)
    requires InStep(w, f) && !i.rst && InStep(NextWriter(w, check, i), FramerNext(f, w.inTready, i))
    ensures Written(NextWriter(w, check, i), FramerNext(f, w.inTready, i).frames) == |f.frames|
    ensures Written(w, f.frames) == if w.state.WrLen? then |f.frames| - 1 else |f.frames|
  {
  }

  lemma {:induction false} PublishedGrows(w: Writer, f: Framer, check: bool, i: Input)
    requires InStep(w, f) && !i.rst && InStep(NextWriter(w, check, i), FramerNext(f, w.inTready, i))
    ensures Published(NextWriter(w, check, i), FramerNext(f, w.inTready, i).frames) ==
            Published(w, f.frames) + if w.state.WrUpdate? then 1 else 0
  {
  }

  // ---------------------------------------------------------------- RAM

  /** The words `ws` sit in the ring from position `base` on. */
  ghost predicate Holds(ram: Ram, base: nat, ws: seq<Word>) {
    forall j :: 0 <= j < |ws| ==> ram[Slot(base + j)] == ws[j]
  }

  lemma SlotsDiffer(p: nat, q: nat)
    requires p != q && -DEPTH < p - q < DEPTH
    ensures Slot(p) != Slot(q)
  {
  }

  lemma SlotOf16(p: nat)
    ensures Slot(p % TWO16) == Slot(p)
  {
    var turns, r := p / TWO16, p % TWO16;
    assert p == 2 * turns * DEPTH + r;
    WholeTurns(r, 2 * turns);
  }

  lemma {:induction false} WholeTurns(r: nat, turns: nat)
    ensures (turns * DEPTH + r) % DEPTH == r % DEPTH
  {
    if turns > 0 {
      WholeTurns(r, turns - 1);
      assert turns * DEPTH + r == (turns - 1) * DEPTH + r + DEPTH;
    }
  }

  /** A write outside the held stretch, but within one turn of the ring, leaves it alone. */
  lemma {:induction false} HoldsUpdate(ram: Ram, base: nat, ws: seq<Word>, q: nat, x: Word)
    requires Holds(ram, base, ws)
    requires (base + |ws| <= q && q - base < DEPTH) || (q < base && base + |ws| - q <= DEPTH)
    ensures Holds(ram[Slot(q) := x], base, ws)
  {
    forall j | 0 <= j < |ws|
      ensures ram[Slot(q) := x][Slot(base + j)] == ws[j]
    {
      SlotsDiffer(base + j, q);
    }
  }

  /** Writing just behind the held stretch extends it. */
  lemma {:induction false} HoldsSnoc(ram: Ram, base: nat, ws: seq<Word>, x: Word)
    requires Holds(ram, base, ws) && |ws| < DEPTH
    ensures Holds(ram[Slot(base + |ws|) := x], base, ws + [x])
  {
    HoldsUpdate(ram, base, ws, base + |ws|, x);
  }

  lemma {:induction false} HoldsConcat(ram: Ram, base: nat, a: seq<Word>, b: seq<Word>)
    requires Holds(ram, base, a) && Holds(ram, base + |a|, b)
    ensures Holds(ram, base, a + b)
  {
    forall j | 0 <= j < |a + b|
      ensures ram[Slot(base + j)] == (a + b)[j]
    {
      if j >= |a| {
        assert Slot(base + j) == Slot(base + |a| + (j - |a|));
      }
    }
  }

  /** Data words before the packet is closed: none carries TLAST. */
  function PlainWords(ws: seq<u64>): (r: seq<Word>)
    ensures |r| == |ws|
  {
    seq(|ws|, j requires 0 <= j < |ws| => Word(false, ws[j]))
  }

  /** The packet under construction, in the RAM as the pending write will leave it. */
  ghost predicate BuildInv(ram: Ram, w: Writer, f: Framer)
    requires InStep(w, f)
  {
    match w.state
    case Idle => true
    case Data => Holds(ram, Base(w, f.frames) + 2, PlainWords(f.current.value.words))
    case WrLen => Holds(ram, Base(w, f.frames) + 2, DataWords(f.frames[|f.frames| - 1].open.words))
    case WrTs =>
      var base, fr := |FlatTo(f.frames, |f.frames| - 1)|, f.frames[|f.frames| - 1];
      ram[Slot(base)] == Encode(fr)[0] && Holds(ram, base + 2, DataWords(fr.open.words))
    case WrUpdate =>
      Holds(ram, |FlatTo(f.frames, |f.frames| - 1)|, Encode(f.frames[|f.frames| - 1]))
  }

  /** One more word, with or without TLAST, behind the words already in place. */
  lemma {:induction false} OneMoreWord(ram: Ram, base: nat, ws: seq<u64>, d: u64)
    requires Holds(ram, base, PlainWords(ws)) && |ws| < DEPTH
    ensures Holds(ram[Slot(base + |ws|) := Word(false, d)], base, PlainWords(ws + [d]))
    ensures Holds(ram[Slot(base + |ws|) := Word(true, d)], base, DataWords(ws + [d]))
  {
    HoldsSnoc(ram, base, PlainWords(ws), Word(false, d));
    HoldsSnoc(ram, base, PlainWords(ws), Word(true, d));
    assert PlainWords(ws) + [Word(false, d)] == PlainWords(ws + [d]);
    assert PlainWords(ws) + [Word(true, d)] == DataWords(ws + [d]);
  }

  /** The last word again, this time with TLAST. */
  lemma {:induction false} LastWordAgain(ram: Ram, base: nat, ws: seq<u64>)
    requires Holds(ram, base, PlainWords(ws)) && 1 <= |ws| < DEPTH
    ensures Holds(ram[Slot(base + |ws| - 1) := Word(true, ws[|ws| - 1])], base, DataWords(ws))
  {
    var n := |ws| - 1;
    assert Holds(ram, base, PlainWords(ws[..n])) by {
      forall j | 0 <= j < n
        ensures ram[Slot(base + j)] == PlainWords(ws[..n])[j]
      {
        assert PlainWords(ws)[j] == PlainWords(ws[..n])[j];
      }
    }
    OneMoreWord(ram, base, ws[..n], ws[n]);
    assert ws[..n] + [ws[n]] == ws;
  }

  /** Header, then timestamp, in front of the data. */
  lemma {:induction false} StampCompletes(ram: Ram, base: nat, fr: Frame)
    requires |fr.open.words| <= MAX_SAMPLES
    requires ram[Slot(base)] == Encode(fr)[0] && Holds(ram, base + 2, DataWords(fr.open.words))
    ensures Holds(ram[Slot(base + 1) := Encode(fr)[1]], base, Encode(fr))
  {
    var e := Encode(fr);
    assert Holds(ram, base, [e[0]]);
    HoldsUpdate(ram, base + 2, DataWords(fr.open.words), base + 1, e[1]);
    HoldsSnoc(ram, base, [e[0]], e[1]);
    HoldsConcat(ram[Slot(base + 1) := e[1]], base, [e[0]] + [e[1]], DataWords(fr.open.words));
    assert [e[0]] + [e[1]] + DataWords(fr.open.words) == e;
  }

  /** The position of the frames before the open or closing one does not move while that frame is built. */
  lemma {:induction false} BaseStays(w: Writer, f: Framer, check: bool, i: Input)
    requires InStep(w, f) && !i.rst && w.state.Data? && InStep(NextWriter(w, check, i), FramerNext(f, w.inTready, i))
    ensures Base(NextWriter(w, check, i), FramerNext(f, w.inTready, i).frames) == Base(w, f.frames)
    ensures |FramerNext(f, w.inTready, i).frames| > |f.frames| <==> NextWriter(w, check, i).state.WrLen?
  {
    WrittenStep(w, f, check, i);
    FramesGrow(f, w.inTready, i);
    FlatKept(f, FramerNext(f, w.inTready, i), |f.frames|);
  }

  /** One clock of ST_DATA or the three states after it. */
  ghost predicate Steps(w: Writer, f: Framer, check: bool, i: Input) {
    && !i.rst && InStep(w, f) && StateOk(w, f)
    && InStep(NextWriter(w, check, i), FramerNext(f, w.inTready, i))
    && StateOk(NextWriter(w, check, i), FramerNext(f, w.inTready, i))
  }

  /** A word arrives: it goes behind the others. */
  lemma {:induction false} BuildStepMore(ram: Ram, w: Writer, f: Framer, check: bool, i: Input)
    requires Steps(w, f, check, i) && w.state.Data? && i.tvalid && |f.current.value.words| < DEPTH
    requires BuildInv(ram, w, f)
    ensures BuildInv(NextRam(ram, NextWriter(w, check, i)), NextWriter(w, check, i), FramerNext(f, w.inTready, i))
  {
    var ws, base := f.current.value.words, Base(w, f.frames);
    BaseStays(w, f, check, i);
    SlotOf16(base + 2 + |ws|);
    OneMoreWord(ram, base + 2, ws, i.tdata);
  }

  /** Enable falls in a gap: the last word is written again, with TLAST. */
  lemma {:induction false} BuildStepGap(ram: Ram, w: Writer, f: Framer, check: bool, i: Input)
    requires Steps(w, f, check, i) && w.state.Data? && !i.tvalid && |f.current.value.words| < DEPTH
    requires BuildInv(ram, w, f)
    ensures BuildInv(NextRam(ram, NextWriter(w, check, i)), NextWriter(w, check, i), FramerNext(f, w.inTready, i))
  {
    var ws, base := f.current.value.words, Base(w, f.frames);
    BaseStays(w, f, check, i);
    if !i.ena {
      SlotOf16(base + 1 + |ws|);
      LastWordAgain(ram, base + 2, ws);
    }
  }

  /** The header is written in front of the data. */
  lemma {:induction false} BuildStepHeader(ram: Ram, w: Writer, f: Framer, check: bool, i: Input)
    requires Steps(w, f, check, i) && w.state.WrLen?
    requires |f.frames[|f.frames| - 1].open.words| <= MAX_SAMPLES && BuildInv(ram, w, f)
    ensures BuildInv(NextRam(ram, NextWriter(w, check, i)), NextWriter(w, check, i), FramerNext(f, w.inTready, i))
  {
    var n := |f.frames| - 1;
    var base := |FlatTo(f.frames, n)|;
    SlotOf16(base);
    HoldsUpdate(ram, base + 2, DataWords(f.frames[n].open.words), base, Encode(f.frames[n])[0]);
  }

  /** The timestamp goes between header and data. */
  lemma {:induction false} BuildStepStamp(ram: Ram, w: Writer, f: Framer, check: bool, i: Input)
    requires Steps(w, f, check, i) && w.state.WrTs?
    requires |f.frames[|f.frames| - 1].open.words| <= MAX_SAMPLES && BuildInv(ram, w, f)
    ensures BuildInv(NextRam(ram, NextWriter(w, check, i)), NextWriter(w, check, i), FramerNext(f, w.inTready, i))
  {
    var n := |f.frames| - 1;
    SlotOf16(|FlatTo(f.frames, n)| + 1);
    StampCompletes(ram, |FlatTo(f.frames, n)|, f.frames[n]);
  }

  lemma {:induction false} BuildStep(ram: Ram, w: Writer, f: Framer, check: bool, i: Input)
    requires WriterInv(w, f) && !i.rst && Limited(w, i)
    requires WriterInv(NextWriter(w, check, i), FramerNext(f, w.inTready, i))
    requires BuildInv(ram, w, f)
    ensures BuildInv(NextRam(ram, NextWriter(w, check, i)), NextWriter(w, check, i), FramerNext(f, w.inTready, i))
  {
    assert Closing(w) ==> FrameOk(f.frames[|f.frames| - 1], |f.frames| - 1);
    match w.state
    case Idle =>
      SlotOf16(Base(w, f.frames) + 2);
    case Data =>
      if i.tvalid {
        BuildStepMore(ram, w, f, check, i);
      } else {
        BuildStepGap(ram, w, f, check, i);
      }
    case WrLen => BuildStepHeader(ram, w, f, check, i);
    case WrTs => BuildStepStamp(ram, w, f, check, i);
    case WrUpdate =>
  }

  // ---------------------------------------------------------------- published words

  function Stream(w: Writer, f: Framer): seq<Word>
  {
    FlatTo(f.frames, Published(w, f.frames))
  }

  /** All published words not yet read are in the RAM, at their positions. */
  ghost predicate StreamInv(ram: Ram, stream: seq<Word>, reached: nat) {
    reached <= |stream| && forall k :: reached <= k < |stream| ==> ram[Slot(k)] == stream[k]
  }

  /** Where the pending write goes, counted without wrap-around. */
  function PendingPos(w: Writer, f: Framer): nat
    requires InStep(w, f)
  {
    match w.state
    case Idle => 0
    case Data => Base(w, f.frames) + 1 + |f.current.value.words|
    case WrLen => Base(w, f.frames) + 1 + |f.frames[|f.frames| - 1].open.words|
    case WrTs => |FlatTo(f.frames, |f.frames| - 1)|
    case WrUpdate => |FlatTo(f.frames, |f.frames| - 1)| + 1
  }

  /** The pending write is behind every published word and less than one turn ahead of the reader. */
  lemma {:induction false} PendingIsFree(w: Writer, f: Framer, sp: Space, reached: nat)
    requires WriterInv(w, f) && w.wrEna
    requires SpaceInv(sp, w, Base(w, f.frames), reached)
    ensures w.wrPos == PendingPos(w, f) % TWO16
    ensures |Stream(w, f)| <= PendingPos(w, f) < reached + DEPTH
  {
    var n := |f.frames|;
    if Closing(w) {
      assert FrameOk(f.frames[n - 1], n - 1);
      assert FlatTo(f.frames, n) == FlatTo(f.frames, n - 1) + Encode(f.frames[n - 1]);
    }
  }

  /** The pending write touches no unread word. */
  lemma {:induction false} StreamKept(ram: Ram, w: Writer, f: Framer, sp: Space, reached: nat)
    requires WriterInv(w, f)
    requires SpaceInv(sp, w, Base(w, f.frames), reached)
    requires StreamInv(ram, Stream(w, f), reached)
    ensures StreamInv(NextRam(ram, w), Stream(w, f), reached)
  {
    if w.wrEna {
      PendingIsFree(w, f, sp, reached);
      var q := PendingPos(w, f);
      SlotOf16(q);
      forall k | reached <= k < |Stream(w, f)|
        ensures Slot(k) != Slot(q)
      {
        SlotsDiffer(k, q);
      }
    }
  }

  lemma {:induction false} StreamExtend(ram: Ram, a: seq<Word>, b: seq<Word>, reached: nat)
    requires StreamInv(ram, a, reached) && Holds(ram, |a|, b)
    ensures StreamInv(ram, a + b, reached)
  {
    forall k | reached <= k < |a + b|
      ensures ram[Slot(k)] == (a + b)[k]
    {
      if k >= |a| {
        assert ram[Slot(|a| + (k - |a|))] == b[k - |a|];
      }
    }
  }

  lemma {:induction false} StreamStep(ram: Ram, w: Writer, f: Framer, sp: Space, i: Input, reached: nat, reached': nat)
    requires WriterInv(w, f) && !i.rst
    requires WriterInv(NextWriter(w, sp.check, i), FramerNext(f, w.inTready, i))
    requires SpaceInv(sp, w, Base(w, f.frames), reached)
    requires BuildInv(NextRam(ram, w), w, f)
    requires StreamInv(ram, Stream(w, f), reached)
    requires reached <= reached' <= |Stream(w, f)|
    ensures StreamInv(NextRam(ram, w), Stream(NextWriter(w, sp.check, i), FramerNext(f, w.inTready, i)), reached')
  {
    StreamKept(ram, w, f, sp, reached);
    StreamGrows(w, f, sp.check, i);
    var stream := Stream(w, f);
    if w.state.WrUpdate? {
      StreamExtend(NextRam(ram, w), stream, Encode(f.frames[|f.frames| - 1]), reached);
    } else {
      assert stream + [] == stream;
    }
  }

  /** Publication is the only thing that changes the stream, and it appends one frame. */
  lemma {:induction false} StreamGrows(w: Writer, f: Framer, check: bool, i: Input)
    requires InStep(w, f) && !i.rst && InStep(NextWriter(w, check, i), FramerNext(f, w.inTready, i))
    ensures Stream(NextWriter(w, check, i), FramerNext(f, w.inTready, i)) ==
            Stream(w, f) + if w.state.WrUpdate? then Encode(f.frames[|f.frames| - 1]) else []
  {
    PublishedGrows(w, f, check, i);
    FramesGrow(f, w.inTready, i);
    FlatKept(f, FramerNext(f, w.inTready, i), Published(w, f.frames));
    if w.state.WrUpdate? {
      FlatKept(f, FramerNext(f, w.inTready, i), |f.frames|);
    }
  }

  // ---------------------------------------------------------------- reader

  ghost predicate ReaderInv(rd: Reader, frames: seq<Frame>, published: nat, sent: seq<Word>, delivered: nat)
    requires published <= |frames|
  {
    && delivered <= published
    && rd.outPkts == delivered % TWO15
    && rd.rdPos == Reached(rd, sent) % TWO16
    && sent <= FlatTo(frames, published)
    && if !rd.tvalid then |sent| == |FlatTo(frames, delivered)|
       else delivered < published && OutputOk(rd, frames[delivered], |sent| - |FlatTo(frames, delivered)|)
  }

  /** The output register shows word `j` of the frame. */
  ghost predicate OutputOk(rd: Reader, fr: Frame, j: int) {
    && 0 <= j < |Encode(fr)|
    && Word(rd.tlast, rd.tdata) == Encode(fr)[j]
    && rd.tfirst == (j == 0)
    && rd.wordCnt == LengthField(fr) - j
  }

  /** Fifteen bits are enough for the packet counters. */
  lemma {:induction false} CountersDoNotAlias(frames: seq<Frame>, published: nat, delivered: nat, reached: nat)
    requires delivered <= published <= |frames|
    requires forall k :: 0 <= k < |frames| ==> FrameOk(frames[k], k)
    requires |FlatTo(frames, published)| - reached <= DEPTH
    requires reached <= |FlatTo(frames, delivered)| + MAX_PKT_LEN
    ensures published - delivered < TWO15
    ensures published % TWO15 != delivered % TWO15 <==> published != delivered
  {
    forall k | 0 <= k < |frames|
      ensures 1 <= |frames[k].open.words|
    {
      assert FrameOk(frames[k], k);
    }
    FlatGrows(frames, delivered, published);
    SameCount(published, delivered);
  }

  lemma SameCount(a: nat, b: nat)
    requires 0 <= a - b < TWO15
    ensures a % TWO15 == b % TWO15 <==> a == b
  {
  }

  /** The word under rd_pos while frame `d` is being sent. */
  lemma {:induction false} NextWord(
      rd: Reader, ram: Ram, frames: seq<Frame>, published: nat, d: nat, reached: nat, j: nat)
    requires d < published <= |frames|
    requires StreamInv(ram, FlatTo(frames, published), reached)
    requires rd.rdPos == reached % TWO16
    requires reached == |FlatTo(frames, d)| + j && j < |Encode(frames[d])|
    ensures reached < |FlatTo(frames, published)|
    ensures ram[Slot(rd.rdPos)] == Encode(frames[d])[j]
  {
    FlatAt(frames, d, published, j);
    SlotOf16(reached);
  }

  /** TLAST marks the final word of a frame and no other. */
  lemma LastFlag(fr: Frame, j: nat)
    requires |fr.open.words| >= 1 && j < |Encode(fr)|
    ensures Encode(fr)[j].last <==> j == |Encode(fr)| - 1
  {
  }

  lemma HeaderOf(fr: Frame)
    requires LengthField(fr) < TWO16
    ensures Encode(fr)[0].data % TWO16 == LengthField(fr)
  {
  }

  /** While idle the reader fetches the header of the next published frame, if any. */
  lemma {:induction false} ReaderStepIdle(
      rd: Reader, ram: Ram, notEmpty: bool, frames: seq<Frame>, published: nat, sent: seq<Word>, delivered: nat,
      i: Input)
    requires published <= |frames| && !i.rst && !rd.tvalid
    requires ReaderInv(rd, frames, published, sent, delivered)
    requires StreamInv(ram, FlatTo(frames, published), Reached(rd, sent))
    requires notEmpty <==> published != delivered
    requires forall k :: 0 <= k < |frames| ==> FrameOk(frames[k], k)
    ensures ReaderInv(NextReader(rd, notEmpty, ram[Slot(rd.rdPos)], i), frames, published, sent, delivered)
  {
    if notEmpty {
      assert FrameOk(frames[delivered], delivered);
      NextWord(rd, ram, frames, published, delivered, |sent|, 0);
      HeaderOf(frames[delivered]);
      Add16Mod(|sent|, 1);
    }
  }

  /** A transfer appends the right word to what was sent. */
  lemma {:induction false} SentGrows(rd: Reader, frames: seq<Frame>, published: nat, sent: seq<Word>, delivered: nat)
    requires published <= |frames| && rd.tvalid
    requires ReaderInv(rd, frames, published, sent, delivered)
    ensures sent + [Word(rd.tlast, rd.tdata)] <= FlatTo(frames, published)
    ensures FlatTo(frames, delivered + 1) == FlatTo(frames, delivered) + Encode(frames[delivered])
  {
    FlatAt(frames, delivered, published, |sent| - |FlatTo(frames, delivered)|);
  }

  /** The output register moves on to the frame's next word. */
  lemma {:induction false} OutputMoves(rd: Reader, notEmpty: bool, word: Word, fr: Frame, j: nat, i: Input)
    requires !i.rst && rd.tvalid && i.outTready && !rd.tlast
    requires OutputOk(rd, fr, j) && j + 1 < |Encode(fr)| && word == Encode(fr)[j + 1] && LengthField(fr) < TWO16
    ensures OutputOk(NextReader(rd, notEmpty, word, i), fr, j + 1)
  {
  }

  /** A transfer inside a frame moves on to its next word. */
  lemma {:induction false} ReaderStepMore(
      rd: Reader, ram: Ram, notEmpty: bool, frames: seq<Frame>, published: nat, sent: seq<Word>, delivered: nat,
      i: Input)
    requires published <= |frames| && !i.rst && rd.tvalid && i.outTready && !rd.tlast
    requires ReaderInv(rd, frames, published, sent, delivered)
    requires StreamInv(ram, FlatTo(frames, published), Reached(rd, sent))
    requires FrameOk(frames[delivered], delivered)
    ensures ReaderInv(NextReader(rd, notEmpty, ram[Slot(rd.rdPos)], i), frames, published,
                      sent + [Word(rd.tlast, rd.tdata)], delivered)
  {
    var fr, j, word := frames[delivered], |sent| - |FlatTo(frames, delivered)|, ram[Slot(rd.rdPos)];
    LastFlag(fr, j);
    SentGrows(rd, frames, published, sent, delivered);
    NextWord(rd, ram, frames, published, delivered, |sent| + 1, j + 1);
    OutputMoves(rd, notEmpty, word, fr, j, i);
    Add16Mod(|sent| + 1, 1);
  }

  /** The transfer of a TLAST word ends the frame. */
  lemma {:induction false} ReaderStepLast(
      rd: Reader, notEmpty: bool, word: Word, frames: seq<Frame>, published: nat, sent: seq<Word>, delivered: nat,
      i: Input)
    requires published <= |frames| && !i.rst && rd.tvalid && i.outTready && rd.tlast
    requires ReaderInv(rd, frames, published, sent, delivered)
    requires FrameOk(frames[delivered], delivered)
    ensures ReaderInv(NextReader(rd, notEmpty, word, i), frames, published,
                      sent + [Word(rd.tlast, rd.tdata)], delivered + 1)
  {
    LastFlag(frames[delivered], |sent| - |FlatTo(frames, delivered)|);
    SentGrows(rd, frames, published, sent, delivered);
    Add15Mod(delivered, 1);
  }

  /** More frames on the writer's side do not disturb the reader. */
  lemma {:induction false} ReaderSeesMore(
      rd: Reader, frames: seq<Frame>, published: nat, frames': seq<Frame>, published': nat, sent: seq<Word>,
      delivered: nat)
    requires published <= |frames| && published <= published' <= |frames'|
    requires frames' == frames || (|frames'| == |frames| + 1 && frames' == frames + [frames'[|frames|]])
    requires ReaderInv(rd, frames, published, sent, delivered)
    ensures ReaderInv(rd, frames', published', sent, delivered)
  {
    if frames' != frames {
      FlatAppend(frames, frames'[|frames|], delivered);
      FlatAppend(frames, frames'[|frames|], published);
    }
    FlatPrefix(frames', published, published');
  }
}
