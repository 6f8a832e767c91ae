/** What the ring guarantees on every run. */
module RingTheorems {
  import opened Bits
  import opened PacketRing
  import opened Framing
  import opened RingInvariant

  ghost predicate Inv(t: Trace) {
    && WriterInv(t.s.w, t.f)
    && SpaceInv(t.s.sp, t.s.w, Base(t.s.w, t.f.frames), Reached(t.s.rd, t.sent))
    && BuildInv(NextRam(t.s.ram, t.s.w), t.s.w, t.f)
    && StreamInv(t.s.ram, Stream(t.s.w, t.f), Reached(t.s.rd, t.sent))
    && ReaderInv(t.s.rd, t.f.frames, Published(t.s.w, t.f.frames), t.sent, t.delivered)
    && t.accepted == Payload(t.f.frames) + CurrentWords(t.f)
  }

  // ---------------------------------------------------------------- one clock

  lemma {:induction false} StreamBehindBase(w: Writer, f: Framer)
    requires WriterInv(w, f)
    ensures |Stream(w, f)| <= Base(w, f.frames)
  {
    FlatPrefix(f.frames, Published(w, f.frames), Written(w, f.frames));
  }

  lemma {:induction false} BaseStep(w: Writer, f: Framer, check: bool, i: Input)
    requires InStep(w, f) && !i.rst
    requires InStep(NextWriter(w, check, i), FramerNext(f, w.inTready, i))
    ensures Base(NextWriter(w, check, i), FramerNext(f, w.inTready, i).frames) ==
            Base(w, f.frames) + if w.state.WrLen? then |Encode(f.frames[|f.frames| - 1])| else 0
  {
    WrittenStep(w, f, check, i);
    FramesGrow(f, w.inTready, i);
    FlatKept(f, FramerNext(f, w.inTready, i), |f.frames|);
  }

  lemma {:induction false} PayloadAppend(frames: seq<Frame>, x: Frame)
    ensures Payload(frames + [x]) == Payload(frames) + x.open.words
  {
    assert (frames + [x])[..|frames|] == frames;
  }

  lemma {:induction false} PayloadConcat(a: seq<Frame>, b: seq<Frame>)
    ensures Payload(a + b) == Payload(a) + Payload(b)
  {
    if b == [] {
      assert a + b == a;
    } else {
      var n := |b| - 1;
      PayloadConcat(a, b[..n]);
      PayloadLast(a + b, a + b[..n], b[n]);
      PayloadLast(b, b[..n], b[n]);
      Regroup(Payload(a), Payload(b[..n]), b[n].open.words);
    }
  }

  lemma {:induction false} PayloadLast(frames: seq<Frame>, before: seq<Frame>, last: Frame)
    requires frames == before + [last]
    ensures Payload(frames) == Payload(before) + last.open.words
  {
    PayloadAppend(before, last);
  }

  lemma Regroup(a: seq<u64>, b: seq<u64>, c: seq<u64>)
    ensures a + (b + c) == a + b + c
  {
  }

  /** A clock of the framer moves the accepted word, if any, into its words. */
  lemma {:induction false} FramerKeepsWords(f: Framer, ready: bool, i: Input)
    requires !i.rst
    ensures var f' := FramerNext(f, ready, i);
            Payload(f'.frames) + CurrentWords(f') ==
            Payload(f.frames) + CurrentWords(f) + if Accepts(f, ready, i) then [i.tdata] else []
  {
    var f' := FramerNext(f, ready, i);
    var ws := CurrentWords(f) + if Accepts(f, ready, i) then [i.tdata] else [];
    FramesGrow(f, ready, i);
    if f'.frames == f.frames {
      assert CurrentWords(f') == ws;
    } else {
      PayloadAppend(f.frames, f'.frames[|f.frames|]);
      assert f'.frames[|f.frames|].open.words == ws && CurrentWords(f') == [];
    }
  }

  lemma {:induction false} AcceptedStep(t: Trace, i: Input)
    requires InStep(t.s.w, t.f) && !i.rst
    requires t.accepted == Payload(t.f.frames) + CurrentWords(t.f)
    ensures var t' := TraceNext(t, i); t'.accepted == Payload(t'.f.frames) + CurrentWords(t'.f)
  {
    FramerKeepsWords(t.f, t.s.w.inTready, i);
  }

  /** The registers' emptiness test, in true counts. */
  lemma {:induction false} NotEmpty(t: Trace)
    requires Inv(t)
    ensures t.s.w.inPkts != t.s.rd.outPkts <==> Published(t.s.w, t.f.frames) != t.delivered
    ensures 0 <= Published(t.s.w, t.f.frames) - t.delivered < TWO15
  {
    var published := Published(t.s.w, t.f.frames);
    StreamBehindBase(t.s.w, t.f);
    if t.s.rd.tvalid {
      assert FrameOk(t.f.frames[t.delivered], t.delivered);
    }
    CountersDoNotAlias(t.f.frames, published, t.delivered, Reached(t.s.rd, t.sent));
  }

  lemma {:induction false} ReaderStep(t: Trace, i: Input)
    requires Inv(t) && !i.rst
    ensures var t' := TraceNext(t, i);
            ReaderInv(t'.s.rd, t.f.frames, Published(t.s.w, t.f.frames), t'.sent, t'.delivered)
  {
    NotEmpty(t);
    ReaderStepAt(t, i);
  }

  lemma {:induction false} ReaderStepAt(t: Trace, i: Input)
    requires !i.rst && FramerOk(t.f) && StreamInv(t.s.ram, Stream(t.s.w, t.f), Reached(t.s.rd, t.sent))
    requires ReaderInv(t.s.rd, t.f.frames, Published(t.s.w, t.f.frames), t.sent, t.delivered)
    requires t.s.w.inPkts != t.s.rd.outPkts <==> Published(t.s.w, t.f.frames) != t.delivered
    ensures var t' := TraceNext(t, i);
            ReaderInv(t'.s.rd, t.f.frames, Published(t.s.w, t.f.frames), t'.sent, t'.delivered)
  {
    var published, notEmpty := Published(t.s.w, t.f.frames), t.s.w.inPkts != t.s.rd.outPkts;
    ReaderMoves(t.s.rd, t.s.ram, notEmpty, t.f.frames, published, t.sent, t.delivered, i);
    ReaderPart(t, i);
  }

  lemma {:induction false} ReaderPart(t: Trace, i: Input)
    requires !i.rst
    ensures var t', gave := TraceNext(t, i), t.s.rd.tvalid && i.outTready;
            && t'.s.rd == NextReader(t.s.rd, t.s.w.inPkts != t.s.rd.outPkts, t.s.ram[Slot(t.s.rd.rdPos)], i)
            && t'.sent == (if gave then t.sent + [Word(t.s.rd.tlast, t.s.rd.tdata)] else t.sent)
            && t'.delivered == if gave && t.s.rd.tlast then t.delivered + 1 else t.delivered
  {
  }

  lemma {:induction false} ReaderMoves(
      rd: Reader, ram: Ram, notEmpty: bool, frames: seq<Frame>, published: nat, sent: seq<Word>, delivered: nat,
      i: Input)
    requires published <= |frames| && !i.rst
    requires ReaderInv(rd, frames, published, sent, delivered)
    requires StreamInv(ram, FlatTo(frames, published), Reached(rd, sent))
    requires notEmpty <==> published != delivered
    requires forall k :: 0 <= k < |frames| ==> FrameOk(frames[k], k)
    ensures var gave := rd.tvalid && i.outTready;
            ReaderInv(NextReader(rd, notEmpty, ram[Slot(rd.rdPos)], i), frames, published,
                      if gave then sent + [Word(rd.tlast, rd.tdata)] else sent,
                      if gave && rd.tlast then delivered + 1 else delivered)
  {
    if !rd.tvalid {
      ReaderStepIdle(rd, ram, notEmpty, frames, published, sent, delivered, i);
    } else if i.outTready {
      assert FrameOk(frames[delivered], delivered);
      if rd.tlast {
        ReaderStepLast(rd, notEmpty, ram[Slot(rd.rdPos)], frames, published, sent, delivered, i);
      } else {
        ReaderStepMore(rd, ram, notEmpty, frames, published, sent, delivered, i);
      }
    }
  }

  /** What the reader has reached only grows, and stays inside the published words. */
  lemma {:induction false} ReachedStep(t: Trace, i: Input)
    requires Inv(t) && !i.rst
    ensures var t' := TraceNext(t, i);
            Reached(t.s.rd, t.sent) <= Reached(t'.s.rd, t'.sent) <= |Stream(t.s.w, t.f)|
  {
    ReaderStep(t, i);
    var t', published := TraceNext(t, i), Published(t.s.w, t.f.frames);
    if t'.s.rd.tvalid {
      FlatAt(t.f.frames, t'.delivered, published, |t'.sent| - |FlatTo(t.f.frames, t'.delivered)|);
    }
  }

  lemma {:induction false} ResetInv(t: Trace, i: Input)
    requires i.rst
    ensures Inv(TraceNext(t, i))
  {
  }

  lemma {:induction false} SpaceKept(t: Trace, i: Input)
    requires Inv(t) && Limited(t.s.w, i) && !i.rst
    requires WriterInv(TraceNext(t, i).s.w, TraceNext(t, i).f)
    ensures var t' := TraceNext(t, i);
            SpaceInv(t'.s.sp, t'.s.w, Base(t'.s.w, t'.f.frames), Reached(t'.s.rd, t'.sent))
  {
    var w, f, t' := t.s.w, t.f, TraceNext(t, i);
    StreamBehindBase(w, f);
    ReachedStep(t, i);
    BaseStep(w, f, t.s.sp.check, i);
    SpaceStep(t.s.sp, w, t.s.rd, f, i, Base(w, f.frames), Reached(t.s.rd, t.sent),
              Base(t'.s.w, t'.f.frames), Reached(t'.s.rd, t'.sent));
  }

  lemma {:induction false} ContentKept(t: Trace, i: Input)
    requires Inv(t) && Limited(t.s.w, i) && !i.rst
    requires WriterInv(TraceNext(t, i).s.w, TraceNext(t, i).f)
    ensures var t' := TraceNext(t, i);
            && BuildInv(NextRam(t'.s.ram, t'.s.w), t'.s.w, t'.f)
            && StreamInv(t'.s.ram, Stream(t'.s.w, t'.f), Reached(t'.s.rd, t'.sent))
  {
    ReachedStep(t, i);
    BuildStep(NextRam(t.s.ram, t.s.w), t.s.w, t.f, t.s.sp.check, i);
    var t' := TraceNext(t, i);
    StreamStep(t.s.ram, t.s.w, t.f, t.s.sp, i, Reached(t.s.rd, t.sent), Reached(t'.s.rd, t'.sent));
  }

  lemma {:induction false} ReaderKept(t: Trace, i: Input)
    requires Inv(t) && !i.rst
    requires InStep(TraceNext(t, i).s.w, TraceNext(t, i).f)
    ensures var t' := TraceNext(t, i);
            ReaderInv(t'.s.rd, t'.f.frames, Published(t'.s.w, t'.f.frames), t'.sent, t'.delivered)
  {
    var t' := TraceNext(t, i);
    var before, after := Published(t.s.w, t.f.frames), Published(t'.s.w, t'.f.frames);
    ReaderStep(t, i);
    FramesGrow(t.f, t.s.w.inTready, i);
    PublishedGrows(t.s.w, t.f, t.s.sp.check, i);
    ReaderSeesMore(t'.s.rd, t.f.frames, before, t'.f.frames, after, t'.sent, t'.delivered);
  }

  lemma {:induction false} Preserved(t: Trace, i: Input)
    requires Inv(t) && Limited(t.s.w, i)
    ensures Inv(TraceNext(t, i))
  {
    if i.rst {
      ResetInv(t, i);
    } else {
      WriterStep(t.s.w, t.f, t.s.sp.check, i);
      AcceptedStep(t, i);
      SpaceKept(t, i);
      ContentKept(t, i);
      ReaderKept(t, i);
    }
  }

  lemma {:induction false} FeedInv(t: Trace, ins: seq<Input>)
    requires Inv(t)
    requires LimitedRun(t, ins)
    ensures Inv(Feed(t, ins))
  {
    if ins != [] {
      FeedInv(t, ins[..|ins| - 1]);
      Preserved(Feed(t, ins[..|ins| - 1]), ins[|ins| - 1]);
    }
  }

  /** Any registers at power-up, one reset clock, then any clocks in which no packet opens under num_samples = 0. */
  ghost predicate GoodRun(power: State, ins: seq<Input>) {
    |ins| >= 1 && ins[0].rst && LimitedRun(Start(power, ins[0]), ins[1..])
  }

  ghost predicate Reachable(t: Trace) {
    exists power: State, ins: seq<Input> :: GoodRun(power, ins) && t == Run(power, ins)
  }

  lemma {:induction false} RunInv(power: State, ins: seq<Input>)
    requires GoodRun(power, ins)
    ensures Inv(Run(power, ins))
  {
    FeedInv(Start(power, ins[0]), ins[1..]);
  }

  lemma {:induction false} ReachableInv(t: Trace)
    requires Reachable(t)
    ensures Inv(t)
  {
    var power: State, ins: seq<Input> :| GoodRun(power, ins) && t == Run(power, ins);
    RunInv(power, ins);
  }

  lemma {:induction false} ReachableInStep(t: Trace)
    requires Reachable(t)
    ensures InStep(t.s.w, t.f)
  {
    ReachableInv(t);
  }

  // ---------------------------------------------------------------- theorems

  /** Words of closed frames that the reader has not fetched, counted from the wr_start and rd_pos registers. */
  function Unread(s: State): int {
    Sub16(s.w.wrStart, s.rd.rdPos)
  }

  /** The `n` RAM words from rd_pos on. */
  function ReadOut(s: State, n: nat): seq<Word> {
    seq(n, k requires 0 <= k < n => s.ram[Slot(s.rd.rdPos + k)])
  }

  /** The word in the output register, if TVALID shows one. */
  function OutputWord(rd: Reader): seq<Word> {
    if rd.tvalid then [Word(rd.tlast, rd.tdata)] else []
  }

  /**
   * Refinement. On every run the words transferred, the word on the output and the
   * RAM from rd_pos on are exactly the wire image of the published frames, in order.
   */
  lemma {:induction false} SentIsFramed(t: Trace)
    requires Reachable(t)
    ensures var stream := FlatTo(t.f.frames, Published(t.s.w, t.f.frames));
            var shown := t.sent + OutputWord(t.s.rd);
            |shown| <= |stream| && shown + ReadOut(t.s, |stream| - |shown|) == stream
  {
    ReachableInv(t);
    SentIsFramedAt(t);
  }

  lemma {:induction false} SentIsFramedAt(t: Trace)
    requires Inv(t)
    ensures var stream := FlatTo(t.f.frames, Published(t.s.w, t.f.frames));
            var shown := t.sent + OutputWord(t.s.rd);
            |shown| <= |stream| && shown + ReadOut(t.s, |stream| - |shown|) == stream
  {
    var shown, stream := t.sent + OutputWord(t.s.rd), Stream(t.s.w, t.f);
    ShownIsPrefix(t);
    ReadOutIsRest(t.s, stream, Reached(t.s.rd, t.sent));
    Rejoin(shown, stream);
  }

  lemma Rejoin(shown: seq<Word>, stream: seq<Word>)
    requires shown <= stream
    ensures shown + stream[|shown|..] == stream
  {
  }

  lemma {:induction false} ShownIsPrefix(t: Trace)
    requires Inv(t)
    ensures t.sent + OutputWord(t.s.rd) <= Stream(t.s.w, t.f)
  {
    if t.s.rd.tvalid {
      SentGrows(t.s.rd, t.f.frames, Published(t.s.w, t.f.frames), t.sent, t.delivered);
    }
  }

  lemma {:induction false} ReadOutIsRest(s: State, stream: seq<Word>, reached: nat)
    requires StreamInv(s.ram, stream, reached) && s.rd.rdPos == reached % TWO16
    ensures ReadOut(s, |stream| - reached) == stream[reached..]
  {
    var rest := ReadOut(s, |stream| - reached);
    forall k | 0 <= k < |rest|
      ensures rest[k] == stream[reached..][k]
    {
      RdSlot(s.rd.rdPos, reached, k);
      assert s.ram[Slot(reached + k)] == stream[reached + k];
    }
  }

  lemma RdSlot(rdPos: u16, reached: nat, k: nat)
    requires rdPos == reached % TWO16
    ensures Slot(rdPos + k) == Slot(reached + k)
  {
  }

  /**
   * Conservation. The input words taken are exactly the data words of the frames
   * plus those of the frame under construction; frames are numbered 1, 2, 3, ...
   * modulo 2^32 and a frame that filled up holds max(2, min(num_samples, 8190)) words.
   */
  lemma {:induction false} AcceptedIsFramed(t: Trace)
    requires Reachable(t)
    ensures && t.accepted == Payload(t.f.frames) + CurrentWords(t.f)
            && (forall k :: 0 <= k < |t.f.frames| ==> FrameOk(t.f.frames[k], k))
            && |CurrentWords(t.f)| + 2 < MAX_PKT_LEN
  {
    ReachableInv(t);
  }

  /**
   * No overwrite. The pending RAM write never hits an unread published word, and a
   * packet is only started when a whole maximal packet fits beside the unread words,
   * although the check that allowed it looked at registers three clocks old.
   */
  lemma {:induction false} NoOverwrite(t: Trace, k: nat)
    requires Reachable(t)
    ensures var published := |FlatTo(t.f.frames, Published(t.s.w, t.f.frames))|;
            && (t.s.w.state.Idle? && t.s.w.inTready ==> Unread(t.s) + MAX_PKT_LEN < DEPTH)
            && (t.s.w.wrEna && |t.sent| + |OutputWord(t.s.rd)| <= k < published ==> Slot(t.s.w.wrPos) != Slot(k))
  {
    ReachableInv(t);
    UnreadIsTrue(t);
    if t.s.w.wrEna && Reached(t.s.rd, t.sent) <= k < |Stream(t.s.w, t.f)| {
      PendingIsFree(t.s.w, t.f, t.s.sp, Reached(t.s.rd, t.sent));
      SlotOf16(PendingPos(t.s.w, t.f));
      SlotsDiffer(k, PendingPos(t.s.w, t.f));
    }
  }

  lemma {:induction false} UnreadIsTrue(t: Trace)
    requires Inv(t)
    ensures Unread(t.s) == Base(t.s.w, t.f.frames) - Reached(t.s.rd, t.sent)
    ensures 0 <= Unread(t.s) <= DEPTH
  {
    StreamBehindBase(t.s.w, t.f);
    Sub16Mod(Base(t.s.w, t.f.frames), Reached(t.s.rd, t.sent));
  }

  /** The modular counters stand for the true counts without ambiguity. */
  lemma {:induction false} CountersAreTrue(t: Trace)
    requires Reachable(t)
    ensures && (t.s.w.inPkts != t.s.rd.outPkts <==> Published(t.s.w, t.f.frames) > t.delivered)
            && 0 <= Unread(t.s) <= DEPTH
            && Unread(t.s) == |FlatTo(t.f.frames, Written(t.s.w, t.f.frames))| - |t.sent| - |OutputWord(t.s.rd)|
  {
    ReachableInv(t);
    NotEmpty(t);
    UnreadIsTrue(t);
  }

  /** in_tready is high exactly while a frame is open, or after an idle clock that saw room; a reset lowers it. */
  lemma {:induction false} ReadyExactly(t: Trace, i: Input)
    requires Reachable(t) && Limited(t.s.w, i)
    ensures var t' := TraceNext(t, i);
            t'.s.w.inTready <==> t'.f.current.Some? || (!i.rst && t.s.w.state.Idle? && t.s.sp.check)
  {
    ReachableInv(t);
    Preserved(t, i);
    ReadyAt(t, i);
  }

  lemma {:induction false} ReadyAt(t: Trace, i: Input)
    requires InStep(t.s.w, t.f) && StateOk(t.s.w, t.f)
    requires InStep(TraceNext(t, i).s.w, TraceNext(t, i).f)
    requires !i.rst ==> StateOk(TraceNext(t, i).s.w, TraceNext(t, i).f)
    ensures var t' := TraceNext(t, i);
            t'.s.w.inTready <==> t'.f.current.Some? || (!i.rst && t.s.w.state.Idle? && t.s.sp.check)
  {
  }

  /** Without TVALID the flags are low and the data is 0. */
  predicate Quiet(rd: Reader) {
    !rd.tvalid ==> !rd.tfirst && !rd.tlast && rd.tdata == 0
  }

  lemma QuietStep(rd: Reader, notEmpty: bool, word: Word, i: Input)
    requires Quiet(rd) || i.rst
    ensures Quiet(NextReader(rd, notEmpty, word, i))
  {
  }

  lemma {:induction false} QuietFeed(t: Trace, ins: seq<Input>)
    requires Quiet(t.s.rd)
    ensures Quiet(Feed(t, ins).s.rd)
  {
    if ins != [] {
      var x := Feed(t, ins[..|ins| - 1]);
      QuietFeed(t, ins[..|ins| - 1]);
      QuietStep(x.s.rd, x.s.w.inPkts != x.s.rd.outPkts, x.s.ram[Slot(x.s.rd.rdPos)], ins[|ins| - 1]);
    }
  }

  lemma {:induction false} QuietReachable(t: Trace)
    requires Reachable(t)
    ensures Quiet(t.s.rd)
  {
    var power: State, ins: seq<Input> :| GoodRun(power, ins) && t == Run(power, ins);
    QuietFeed(Start(power, ins[0]), ins[1..]);
  }

  /**
   * On the output: TFIRST is on the header, TLAST on the final word, and word_cnt
   * counts down to 0 there, except that a frame closed in a gap ends at 1. Without TVALID
   * flags and data are zero.
   */
  lemma {:induction false} OutputFlags(t: Trace)
    requires Reachable(t)
    ensures t.s.rd.tvalid ==>
              && t.delivered < |t.f.frames|
              && var fr := t.f.frames[t.delivered];
              && (t.s.rd.tfirst <==> |t.sent| == |FlatTo(t.f.frames, t.delivered)|)
              && (t.s.rd.tlast <==> |t.sent| + 1 == |FlatTo(t.f.frames, t.delivered + 1)|)
              && (t.s.rd.tlast <==> t.s.rd.wordCnt == if fr.closing.DisabledInGap? then 1 else 0)
    ensures !t.s.rd.tvalid ==> !t.s.rd.tfirst && !t.s.rd.tlast && t.s.rd.tdata == 0
  {
    ReachableInv(t);
    QuietReachable(t);
    if t.s.rd.tvalid {
      var fr := t.f.frames[t.delivered];
      assert FrameOk(fr, t.delivered);
      LastFlag(fr, |t.sent| - |FlatTo(t.f.frames, t.delivered)|);
      assert FlatTo(t.f.frames, t.delivered + 1) == FlatTo(t.f.frames, t.delivered) + Encode(fr);
    }
  }

  /** An offered output word stays until it is taken: section 2.2.1 of AMBA AXI4-Stream (ARM IHI 0051A). */
  lemma {:induction false} OutputHeld(t: Trace, stall: seq<Input>)
    requires t.s.rd.tvalid
    requires forall k :: 0 <= k < |stall| ==> !stall[k].rst && !stall[k].outTready
    ensures Feed(t, stall).s.rd == t.s.rd && Feed(t, stall).sent == t.sent
  {
    if stall != [] {
      OutputHeld(t, stall[..|stall| - 1]);
    }
  }

  // ---------------------------------------------------------------- draining

  /** Clocks that suffice until the first `n` words of the stream are out, with TREADY high. */
  function Left(t: Trace, n: nat): nat {
    if |t.sent| >= n then 0 else 2 * (n - |t.sent|) - if t.s.rd.tvalid then 1 else 0
  }

  lemma {:induction false} DrainStep(t: Trace, i: Input, n: nat)
    requires Inv(t) && Limited(t.s.w, i) && !i.rst && i.outTready && n <= |Stream(t.s.w, t.f)|
    ensures Left(TraceNext(t, i), n) <= if Left(t, n) == 0 then 0 else Left(t, n) - 1
    ensures Stream(t.s.w, t.f) <= Stream(TraceNext(t, i).s.w, TraceNext(t, i).f)
  {
    WriterStep(t.s.w, t.f, t.s.sp.check, i);
    StreamGrows(t.s.w, t.f, t.s.sp.check, i);
    LeftStep(t, i, n);
  }

  lemma {:induction false} LeftStep(t: Trace, i: Input, n: nat)
    requires Inv(t) && !i.rst && i.outTready && n <= |Stream(t.s.w, t.f)|
    ensures Left(TraceNext(t, i), n) <= if Left(t, n) == 0 then 0 else Left(t, n) - 1
  {
    NotEmpty(t);
    if !t.s.rd.tvalid && |t.sent| < n {
      assert t.delivered != Published(t.s.w, t.f.frames);
    }
  }

  /**
   * Every published word gets out: while TREADY stays high, two clocks per word are
   * enough, whatever is written meanwhile.
   */
  lemma {:induction false} Drains(t: Trace, ins: seq<Input>)
    requires Reachable(t)
    requires LimitedRun(t, ins) && forall k :: 0 <= k < |ins| ==> !ins[k].rst && ins[k].outTready
    ensures |ins| >= 2 * (|FlatTo(t.f.frames, Published(t.s.w, t.f.frames))| - |t.sent|) ==>
              FlatTo(t.f.frames, Published(t.s.w, t.f.frames)) <= Feed(t, ins).sent
  {
    ReachableInv(t);
    DrainFeed(t, ins);
    ShownIsPrefix(Feed(t, ins));
  }

  lemma {:induction false} DrainFeed(t: Trace, ins: seq<Input>)
    requires Inv(t)
    requires LimitedRun(t, ins) && forall k :: 0 <= k < |ins| ==> !ins[k].rst && ins[k].outTready
    ensures var t', n := Feed(t, ins), |Stream(t.s.w, t.f)|;
            && Inv(t')
            && Stream(t.s.w, t.f) <= Stream(t'.s.w, t'.f)
            && Left(t', n) <= if Left(t, n) <= |ins| then 0 else Left(t, n) - |ins|
  {
    if ins != [] {
      var t' := Feed(t, ins[..|ins| - 1]);
      DrainFeed(t, ins[..|ins| - 1]);
      Preserved(t', ins[|ins| - 1]);
      DrainStep(t', ins[|ins| - 1], |Stream(t.s.w, t.f)|);
    }
  }

  // ---------------------------------------------------------------- ready again

  /** in_tready is high now or after one of the clocks to come. */
  predicate ReadyWithin(t: Trace, ins: seq<Input>)
    decreases |ins|
  {
    t.s.w.inTready || (ins != [] && ReadyWithin(TraceNext(t, ins[0]), ins[1..]))
  }

  /** While idle and not ready nothing is taken; the check follows the registers by two clocks. */
  lemma {:induction false} IdleStep(t: Trace, i: Input)
    requires t.s.w.state.Idle? && !t.s.w.inTready && !i.rst && InStep(t.s.w, t.f)
    ensures var t' := TraceNext(t, i);
            && t'.s.w.state.Idle? && t'.f == t.f && InStep(t'.s.w, t'.f)
            && (t'.s.w.inTready <==> t.s.sp.check)
            && (t.s.sp.used + MAX_PKT_LEN < DEPTH ==> t'.s.sp.check)
            && t'.s.sp.used == Unread(t.s)
  {
  }

  lemma {:induction false} ReadyInTwo(t: Trace, ins: seq<Input>)
    requires InStep(t.s.w, t.f) && t.s.w.state.Idle? && t.s.sp.used + MAX_PKT_LEN < DEPTH
    requires |ins| >= 2 && !ins[0].rst && !ins[1].rst
    ensures ReadyWithin(t, ins)
  {
    if !t.s.w.inTready {
      IdleStep(t, ins[0]);
      if !TraceNext(t, ins[0]).s.w.inTready {
        IdleStep(TraceNext(t, ins[0]), ins[1]);
        assert ReadyWithin(TraceNext(TraceNext(t, ins[0]), ins[1]), ins[1..][1..]);
      }
    }
  }

  lemma {:induction false} ReadyInThree(t: Trace, ins: seq<Input>)
    requires InStep(t.s.w, t.f) && t.s.w.state.Idle? && Unread(t.s) + MAX_PKT_LEN < DEPTH
    requires |ins| >= 3 && !ins[0].rst && !ins[1].rst && !ins[2].rst
    ensures ReadyWithin(t, ins)
  {
    if !t.s.w.inTready {
      IdleStep(t, ins[0]);
      ReadyInTwo(TraceNext(t, ins[0]), ins[1..]);
    }
  }

  /** Three clocks after the words unread leave room for a packet, at the latest, an idle ring is ready. */
  lemma {:induction false} ReadyAgain(t: Trace, ins: seq<Input>)
    requires Reachable(t) && t.s.w.state.Idle? && Unread(t.s) + MAX_PKT_LEN < DEPTH
    requires |ins| >= 3 && forall k :: 0 <= k < |ins| ==> !ins[k].rst
    ensures ReadyWithin(t, ins)
  {
    ReachableInStep(t);
    ReadyInThree(t, ins);
  }

  lemma {:induction false} DrainedHasRoom(t: Trace)
    requires Inv(t) && t.s.w.state.Idle? && Left(t, |Stream(t.s.w, t.f)|) == 0
    ensures Unread(t.s) == 0
  {
    UnreadIsTrue(t);
  }

  lemma {:induction false} ReadyCountdown(t: Trace, ins: seq<Input>)
    requires Inv(t) && t.s.w.state.Idle?
    requires forall k :: 0 <= k < |ins| ==> !ins[k].rst && ins[k].outTready
    requires |ins| >= Left(t, |Stream(t.s.w, t.f)|) + 3
    ensures ReadyWithin(t, ins)
    decreases |ins|
  {
    if Left(t, |Stream(t.s.w, t.f)|) == 0 {
      DrainedHasRoom(t);
      ReadyInThree(t, ins);
    } else if !t.s.w.inTready {
      var i := ins[0];
      IdleStep(t, i);
      Preserved(t, i);
      LeftStep(t, i, |Stream(t.s.w, t.f)|);
      ReadyCountdown(TraceNext(t, i), ins[1..]);
    }
  }

  /**
   * The ring never stays closed: idle, with TREADY high on the output, it is ready within
   * two clocks for every published word not yet sent, and three more.
   */
  lemma {:induction false} ReadyEventually(t: Trace, ins: seq<Input>)
    requires Reachable(t) && t.s.w.state.Idle?
    requires forall k :: 0 <= k < |ins| ==> !ins[k].rst && ins[k].outTready
    requires |ins| >= 3 && |ins| >= 2 * (|FlatTo(t.f.frames, Published(t.s.w, t.f.frames))| - |t.sent|) + 3
    ensures ReadyWithin(t, ins)
  {
    ReachableInv(t);
    ReadyCountdown(t, ins);
  }

  // ---------------------------------------------------------------- num_samples = 0

  /**
   * The condition on num_samples is needed: with 0 the count never closes the packet.
   * Fed one word a clock, the packet outgrows the RAM (see EndlessWraps).
   */
  lemma {:induction false} ZeroNeverCloses(t: Trace, first: Input, more: seq<Input>)
    requires Reachable(t) && t.s.w.state.Idle? && t.s.w.inTready
    requires !first.rst && first.ena && first.tvalid && first.numSamples == 0
    requires forall k :: 0 <= k < |more| ==> !more[k].rst && more[k].ena && more[k].tvalid && !more[k].tlast
    ensures EndlessPacket(Feed(TraceNext(t, first), more), Add16(t.s.w.wrStart, 2), |more| + 1)
  {
    ReachableInStep(t);
    EndlessFirst(t, first);
    EndlessFeed(TraceNext(t, first), Add16(t.s.w.wrStart, 2), more);
  }

  /** After DEPTH more words the pending write is at the packet's first word. */
  lemma {:induction false} EndlessWraps(t: Trace, firstPos: u16)
    requires EndlessPacket(t, firstPos, DEPTH + 1)
    ensures t.s.w.wrEna && Slot(t.s.w.wrPos) == Slot(firstPos)
  {
    SlotOf16(firstPos + DEPTH);
  }

  lemma {:induction false} EndlessFeed(t: Trace, firstPos: u16, more: seq<Input>)
    requires EndlessPacket(t, firstPos, 1)
    requires forall k :: 0 <= k < |more| ==> !more[k].rst && more[k].ena && more[k].tvalid && !more[k].tlast
    ensures EndlessPacket(Feed(t, more), firstPos, |more| + 1)
  {
    if more != [] {
      var t' := Feed(t, more[..|more| - 1]);
      EndlessFeed(t, firstPos, more[..|more| - 1]);
      EndlessStep(t', more[|more| - 1], firstPos, |more|);
    }
  }

  lemma {:induction false} EndlessFirst(t: Trace, first: Input)
    requires InStep(t.s.w, t.f) && t.s.w.state.Idle? && t.s.w.inTready
    requires !first.rst && first.ena && first.tvalid && first.numSamples == 0
    ensures EndlessPacket(TraceNext(t, first), Add16(t.s.w.wrStart, 2), 1)
  {
  }

  /** ST_DATA with `n` words taken, the last of them about to be written, and no count that could end it. */
  predicate EndlessPacket(t: Trace, firstPos: u16, n: nat) {
    && n >= 1
    && t.s.w.state.Data? && t.s.w.inTready && t.s.w.wrEna && t.s.w.maxSamples == TWO16 - 1
    && t.s.w.wrPos == (firstPos + n - 1) % TWO16
    && t.f.current.Some? && t.f.current.value.limit == 0 && |t.f.current.value.words| == n
  }

  lemma {:induction false} EndlessStep(t: Trace, i: Input, firstPos: u16, n: nat)
    requires EndlessPacket(t, firstPos, n)
    requires !i.rst && i.ena && i.tvalid && !i.tlast
    ensures EndlessPacket(TraceNext(t, i), firstPos, n + 1)
    ensures TraceNext(t, i).f.frames == t.f.frames
  {
    Add16Mod(firstPos + n - 1, 1);
  }

  // ---------------------------------------------------------------- exactly which num_samples are safe

  /** Unread published words and the words of the open packet, the pending one included, are in the RAM in place. */
  ghost predicate InRam(t: Trace) {
    && (forall k :: |t.sent| + |OutputWord(t.s.rd)| <= k < |Stream(t.s.w, t.f)| ==>
          t.s.ram[Slot(k)] == Stream(t.s.w, t.f)[k])
    && (t.f.current.Some? ==> OpenInRam(NextRam(t.s.ram, t.s.w), t.s.w.wrStart, t.f.current.value.words))
  }

  ghost predicate OpenInRam(ram: Ram, wrStart: u16, words: seq<u64>) {
    forall j :: 0 <= j < |words| ==> ram[Slot(wrStart + 2 + j)].data == words[j]
  }

  /** Reset, then any inputs with num_samples held at `n`. */
  ghost predicate ConstantRun(ins: seq<Input>, n: u16) {
    |ins| >= 1 && ins[0].rst && forall k :: 0 <= k < |ins| ==> ins[k].numSamples == n
  }

  lemma {:induction false} InvInRam(t: Trace)
    requires Inv(t)
    ensures InRam(t)
  {
    if t.f.current.Some? {
      var words, base := t.f.current.value.words, Base(t.s.w, t.f.frames);
      forall j | 0 <= j < |words|
        ensures NextRam(t.s.ram, t.s.w)[Slot(t.s.w.wrStart + 2 + j)].data == words[j]
      {
        RdSlot(t.s.w.wrStart, base, 2 + j);
        assert NextRam(t.s.ram, t.s.w)[Slot(base + 2 + j)] == PlainWords(words)[j];
      }
    }
  }

  // a run with num_samples = 0 that overruns

  const RESET := Input(true, false, 0, 0, 0, false, false, false)
  const WAIT := Input(false, true, 0, 0, 0, false, false, false)

  /** Offers one data word. */
  function Offer(data: u64): Input { Input(false, true, 0, 0, data, true, false, false) }

  function Zeros(m: nat): (r: seq<Input>)
    ensures |r| == m
  {
    seq(m, _ => Offer(0))
  }

  /** Reset, two clocks until the ring is ready, the word 1, and then zeros for as long as the RAM is deep. */
  function Overrun(): seq<Input> {
    [RESET, WAIT, WAIT, Offer(1)] + Zeros(DEPTH)
  }

  /** The packet that began with the word 1 at position 2 has `n` words, the last one pending. */
  predicate OneThenZeros(t: Trace, n: nat) {
    && EndlessPacket(t, 2, n) && t.s.w.wrStart == 0
    && var words := t.f.current.value.words;
    && words[0] == 1 && t.s.w.wrDat.data == words[n - 1] && (n >= 2 ==> words[n - 1] == 0)
  }

  lemma {:induction false} OverrunWaits(power: State)
    ensures var t := TraceNext(TraceNext(Start(power, RESET), WAIT), WAIT);
            t.s.w.inTready && t.s.w.wrStart == 0 && t.s.w.state.Idle? && t.f.current.None?
  {
    var t := TraceNext(Start(power, RESET), WAIT);
    assert t.s.sp.check && !t.s.w.inTready && t.s.w.wrStart == 0 && t.s.w.state.Idle? && t.f.current.None?;
  }

  lemma {:induction false} OverrunStart(power: State)
    ensures OneThenZeros(Feed(Start(power, RESET), [WAIT, WAIT, Offer(1)]), 1)
  {
    OverrunWaits(power);
    ThreeClocks(Start(power, RESET), WAIT, WAIT, Offer(1));
  }

  lemma {:induction false} ThreeClocks(t: Trace, i: Input, j: Input, k: Input)
    ensures Feed(t, [i, j, k]) == TraceNext(TraceNext(TraceNext(t, i), j), k)
  {
    assert [i, j, k][..2] == [i, j] && [i, j][..1] == [i] && [i][..0] == [];
    assert Feed(t, [i]) == TraceNext(t, i);
    assert Feed(t, [i, j]) == TraceNext(Feed(t, [i]), j);
  }

  lemma {:induction false} FeedConcat(t: Trace, a: seq<Input>, b: seq<Input>)
    ensures Feed(t, a + b) == Feed(Feed(t, a), b)
  {
    if b == [] {
      assert a + b == a;
    } else {
      FeedConcat(t, a, b[..|b| - 1]);
      assert (a + b)[..|a + b| - 1] == a + b[..|b| - 1];
    }
  }

  lemma {:induction false} OverrunFeed(t: Trace, m: nat)
    requires OneThenZeros(t, 1)
    ensures OneThenZeros(Feed(t, Zeros(m)), m + 1)
  {
    if m > 0 {
      assert Zeros(m)[..m - 1] == Zeros(m - 1);
      OverrunFeed(t, m - 1);
      EndlessStep(Feed(t, Zeros(m - 1)), Offer(0), 2, m);
    }
  }

  lemma {:induction false} OverrunTrace(power: State)
    ensures OneThenZeros(Feed(Start(power, RESET), [WAIT, WAIT, Offer(1)] + Zeros(DEPTH)), DEPTH + 1)
  {
    var t0 := Start(power, RESET);
    OverrunStart(power);
    FeedConcat(t0, [WAIT, WAIT, Offer(1)], Zeros(DEPTH));
    OverrunFeed(Feed(t0, [WAIT, WAIT, Offer(1)]), DEPTH);
  }

  lemma {:induction false} OverrunLoses(power: State)
    ensures ConstantRun(Overrun(), 0) && !InRam(Run(power, Overrun()))
  {
    OverrunTrace(power);
    FirstOverwritten(Feed(Start(power, RESET), [WAIT, WAIT, Offer(1)] + Zeros(DEPTH)));
    assert Overrun()[1..] == [WAIT, WAIT, Offer(1)] + Zeros(DEPTH);
  }

  lemma {:induction false} FirstOverwritten(t: Trace)
    requires OneThenZeros(t, DEPTH + 1)
    ensures !InRam(t)
  {
    EndlessWraps(t, 2);
    assert NextRam(t.s.ram, t.s.w)[Slot(t.s.w.wrStart + 2 + 0)].data != t.f.current.value.words[0];
  }

  /** Some registers to start from. */
  function AllZero(): State {
    State(
      Writer(0, false, 0, false, 0, 0, 0, Word(false, 0), Idle, 0, 0),
      Reader(0, 0, 0, false, false, false, 0), Space(false, 0), seq(DEPTH, _ => Word(false, 0)))
  }

  lemma {:induction false} ConstantIsLimited(t: Trace, ins: seq<Input>, n: u16)
    requires n >= 1 && forall k :: 0 <= k < |ins| ==> ins[k].numSamples == n
    ensures LimitedRun(t, ins)
  {
    if ins != [] {
      ConstantIsLimited(t, ins[..|ins| - 1], n);
    }
  }

  lemma {:induction false} ConstantRunInRam(power: State, ins: seq<Input>, n: u16)
    requires ConstantRun(ins, n) && n >= 1
    ensures InRam(Run(power, ins))
  {
    ConstantIsLimited(Start(power, ins[0]), ins[1..], n);
    FeedInv(Start(power, ins[0]), ins[1..]);
    InvInRam(Run(power, ins));
  }

  /** With num_samples constant, every run keeps unread words and open packet in the RAM if and only if it is not 0. */
  lemma {:induction false} SafeExactlyFromOne(n: u16)
    ensures (forall power: State, ins: seq<Input> :: ConstantRun(ins, n) ==> InRam(Run(power, ins))) <==> n >= 1
  {
    if n >= 1 {
      forall power: State, ins: seq<Input> | ConstantRun(ins, n)
        ensures InRam(Run(power, ins))
      {
        ConstantRunInRam(power, ins, n);
      }
    } else {
      OverrunLoses(AllZero());
    }
  }
}
