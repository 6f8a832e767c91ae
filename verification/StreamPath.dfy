/**
 * The frame packer feeding the packet ring, in all-channel mode
 * (subsystem_stream.sv with its axi_stream_ts_data instance).
 */
module StreamPath {
  import opened Bits
  import opened PacketRing
  import opened Framing
  import opened RingInvariant
  import opened RingTheorems
  import opened FramePacker

  datatype PathClock = PathClock(c: Clock, numSamples: u16, outTready: bool)

  /**
   * Both machines, with the books of one stretch of time: clocks since the last
   * streamed and the last valid sample, the streamed samples' data, timestamps and
   * block bits, and the words shown to the ring.
   */
  datatype Path = Path(
    p: Packer, t: Trace, age: nat, sinceValid: nat,
    taken: seq<Chans>, stamps: seq<u64>, blocks: seq<u3>, emitted: seq<u64>)

  function RingInput(p: Packer, k: PathClock): Input {
    Input(k.c.rst, k.c.ena, p.ts, k.numSamples, p.tdata, p.tvalid, false, k.outTready)
  }

  predicate Takes(p: Packer, c: Clock) {
    !c.rst && c.ena && c.valid && p.div == 0
  }

  function PathNext(x: Path, k: PathClock): Path {
    Path(
      NextPacker(x.p, k.c),
      TraceNext(x.t, RingInput(x.p, k)),
      if Takes(x.p, k.c) then 1 else x.age + 1,
      if k.c.valid then 1 else x.sinceValid + 1,
      if Takes(x.p, k.c) then x.taken + [k.c.data] else x.taken,
      if Takes(x.p, k.c) then x.stamps + [k.c.timestamp] else x.stamps,
      if !x.p.inTvalid && x.p.beat == 4 then x.blocks + [k.c.block] else x.blocks,
      if x.p.tvalid then x.emitted + [x.p.tdata] else x.emitted)
  }

  function FeedPath(x: Path, ks: seq<PathClock>): Path {
    if ks == [] then x else PathNext(FeedPath(x, ks[..|ks| - 1]), ks[|ks| - 1])
  }

  // ---------------------------------------------------------------- conditions

  /** One clock of packing all channels: enabled, and valid samples at least 5 clocks apart. */
  predicate Packing(x: Path, k: PathClock) {
    && !k.c.rst && k.c.ena && k.c.allChan
    && (k.c.valid ==> x.sinceValid >= 5)
  }

  predicate PackingRun(x: Path, ks: seq<PathClock>) {
    ks != [] ==> PackingRun(x, ks[..|ks| - 1]) && Packing(FeedPath(x, ks[..|ks| - 1]), ks[|ks| - 1])
  }

  /** One clock of streaming into the ring: also num_samples fixed, and room for a packet. */
  predicate Streaming(x: Path, k: PathClock, n: u16) {
    Packing(x, k) && k.numSamples == n && Unread(x.t.s) + MAX_PKT_LEN < DEPTH
  }

  predicate StreamingRun(x: Path, ks: seq<PathClock>, n: u16) {
    ks != [] ==> StreamingRun(x, ks[..|ks| - 1], n) && Streaming(FeedPath(x, ks[..|ks| - 1]), ks[|ks| - 1], n)
  }

  /** With `g` samples to a packet: a sample taken after a multiple of g others comes 9 clocks after the last. */
  predicate Far(x: Path, k: PathClock, g: nat)
    requires g >= 1
  {
    Takes(x.p, k.c) && |x.taken| % g == 0 ==> x.age >= 9
  }

  predicate FarRun(x: Path, ks: seq<PathClock>, g: nat)
    requires g >= 1
  {
    ks != [] ==> FarRun(x, ks[..|ks| - 1], g) && Far(FeedPath(x, ks[..|ks| - 1]), ks[|ks| - 1], g)
  }

  /** The clocks whose samples have had their first word shown to the ring. */
  function ShownBy(ks: seq<PathClock>): seq<PathClock> {
    if |ks| <= 2 then [] else ks[..|ks| - 2]
  }

  /** Where packing starts: the packer at rest on beat 5. */
  predicate PackerAtRest(x: Path) {
    && x.p.beat == 5 && !x.p.tvalid && !x.p.inTvalid
    && 9 <= x.age && 5 <= x.sinceValid <= x.age
    && x.taken == [] && x.stamps == [] && x.blocks == [] && x.emitted == []
  }

  /** Where streaming starts: the ring idle and ready as well. */
  ghost predicate AtRest(x: Path) {
    && Inv(x.t) && PackerAtRest(x)
    && x.t.s.w.state.Idle? && x.t.s.w.inTready && x.t.s.sp.check && x.t.s.sp.used + MAX_PKT_LEN < DEPTH
  }

  // ---------------------------------------------------------------- packer

  function Samples(taken: seq<Chans>, blocks: seq<u3>): (r: seq<Sample>)
    requires |blocks| <= |taken|
    ensures |r| == |blocks|
  {
    seq(|blocks|, j requires 0 <= j < |blocks| => Sample(taken[j], blocks[j]))
  }

  /** The first words of a sample; they do not depend on the block bits. */
  function Head(d: Chans, n: nat): (ws: seq<u64>)
    requires n <= 4
    ensures |ws| == n
  {
    seq(n, b requires 0 <= b < n => BeatWord(d, 0, b))
  }

  function Shown(x: Path): seq<u64> {
    if x.p.tvalid then x.emitted + [x.p.tdata] else x.emitted
  }

  /** The packer's phase is a function of the clocks since the last streamed sample. */
  predicate Timing(x: Path) {
    && 1 <= x.age && 1 <= x.sinceValid <= x.age
    && (x.p.inTvalid <==> x.age == 1)
    && x.p.beat == (if 2 <= x.age <= 5 then x.age - 1 else 5)
    && (x.age != 1 ==> (x.p.tvalid <==> 2 <= x.age <= 6))
    && |x.taken| == |x.blocks| + (if x.age <= 5 then 1 else 0)
  }

  /** The words shown are those of the samples, in order. */
  ghost predicate PackerInv(x: Path) {
    && Timing(x)
    && (x.age <= 5 ==> x.p.dataReg == x.taken[|x.taken| - 1])
    && Shown(x) == PackAll(Samples(x.taken, x.blocks)) +
                   (if 2 <= x.age <= 5 then Head(x.taken[|x.taken| - 1], x.age - 1) else [])
  }

  /** The timestamp travels with the sample. */
  predicate StampInv(x: Path) {
    && |x.stamps| == |x.taken|
    && (x.age == 1 && x.stamps != [] ==> x.p.inTs == x.stamps[|x.stamps| - 1])
    && (x.age == 2 && x.stamps != [] ==> x.p.ts == x.stamps[|x.stamps| - 1])
  }

  /** How many words have been shown, by the clocks since the last streamed sample. */
  lemma {:induction false} EmittedCount(x: Path)
    requires PackerInv(x)
    ensures |x.emitted| ==
            5 * |x.blocks| + (if 2 <= x.age <= 5 then x.age - 2 else if x.p.tvalid then -1 else 0)
  {
  }

  lemma {:induction false} HeadGrows(d: Chans, n: nat)
    requires n <= 3
    ensures Head(d, n + 1) == Head(d, n) + [BeatWord(d, 0, n)]
  {
  }

  lemma {:induction false} HeadCompletes(d: Chans, b: u3)
    ensures Head(d, 4) + [BeatWord(d, b, 4)] == Pack(Sample(d, b))
  {
  }

  lemma {:induction false} SamplesGrow(taken: seq<Chans>, blocks: seq<u3>, b: u3)
    requires |taken| == |blocks| + 1
    ensures PackAll(Samples(taken, blocks + [b])) == PackAll(Samples(taken, blocks)) + Pack(Sample(taken[|blocks|], b))
  {
    var ss := Samples(taken, blocks + [b]);
    assert ss[..|ss| - 1] == Samples(taken, blocks);
  }

  lemma {:induction false} PackerStep(x: Path, k: PathClock)
    requires PackerInv(x) && Packing(x, k)
    ensures PackerInv(PathNext(x, k))
  {
    var x' := PathNext(x, k);
    if x.age <= 4 {
      PackerStepBusy(x, k);
    } else if x.age == 5 {
      PackerStepLast(x, k);
    } else {
      assert Samples(x'.taken, x'.blocks) == Samples(x.taken, x.blocks);
    }
  }

  /** While the words of a sample are made. */
  lemma {:induction false} PackerStepBusy(x: Path, k: PathClock)
    requires PackerInv(x) && Packing(x, k) && x.age <= 4
    ensures PackerInv(PathNext(x, k))
  {
    var x', d := PathNext(x, k), x.taken[|x.taken| - 1];
    assert Shown(x') == Shown(x) + [x'.p.tdata];
    HeadGrows(d, x.age - 1);
  }

  lemma {:induction false} PackerStepLast(x: Path, k: PathClock)
    requires PackerInv(x) && Packing(x, k) && x.age == 5
    ensures PackerInv(PathNext(x, k))
  {
    var x' := PathNext(x, k);
    ShownLast(x, k);
    assert Samples(x'.taken, x'.blocks) == Samples(x.taken, x'.blocks);
  }

  lemma {:induction false} ShownLast(x: Path, k: PathClock)
    requires PackerInv(x) && Packing(x, k) && x.age == 5
    ensures Shown(PathNext(x, k)) == PackAll(Samples(x.taken, x.blocks + [k.c.block]))
  {
    var x', d := PathNext(x, k), x.taken[|x.taken| - 1];
    assert Shown(x') == Shown(x) + [x'.p.tdata];
    HeadCompletes(d, k.c.block);
    SamplesGrow(x.taken, x.blocks, k.c.block);
  }

  lemma {:induction false} PackerFeed(x: Path, ks: seq<PathClock>)
    requires PackerAtRest(x) && PackingRun(x, ks)
    ensures PackerInv(FeedPath(x, ks))
  {
    if ks != [] {
      PackerFeed(x, ks[..|ks| - 1]);
      PackerStep(FeedPath(x, ks[..|ks| - 1]), ks[|ks| - 1]);
    }
  }

  /** The words shown of the sample under way. */
  function Begun(x: Path): (ws: seq<u64>)
    ensures |ws| <= 4
  {
    if 2 <= x.age <= 5 && x.taken != [] then Head(x.taken[|x.taken| - 1], x.age - 1) else []
  }

  /** The words shown so far pack the samples taken; a receiver that joins at word `k` recovers all it sees in full. */
  ghost predicate ShowsSamples(x: Path, k: nat)
    requires k <= |Shown(x)|
  {
    && |x.blocks| <= |x.taken| <= |x.blocks| + 1 && (x.age >= 6 ==> |x.blocks| == |x.taken|)
    && Shown(x) == PackAll(Samples(x.taken, x.blocks)) + Begun(x)
    && Parse(Shown(x)[k..]) == After(Samples(x.taken, x.blocks), k)
  }

  lemma {:induction false} ShowsSamplesAt(x: Path, k: nat)
    requires PackerInv(x) && k <= |Shown(x)|
    ensures ShowsSamples(x, k)
  {
    assert Shown(x) == PackAll(Samples(x.taken, x.blocks)) + Begun(x);
    ParseFromAnywhere(Samples(x.taken, x.blocks), Begun(x), k);
  }

  /**
   * Self-synchronization of the packer itself, whatever the ring does with its words: from
   * rest, with enable held and valid samples at least 5 clocks apart.
   */
  lemma {:induction false} SelfSynchronizes(x: Path, ks: seq<PathClock>, k: nat)
    requires PackerAtRest(x) && PackingRun(x, ks)
    requires k <= |Shown(FeedPath(x, ks))|
    ensures ShowsSamples(FeedPath(x, ks), k)
  {
    PackerFeed(x, ks);
    ShowsSamplesAt(FeedPath(x, ks), k);
  }

  lemma {:induction false} StampStep(x: Path, k: PathClock)
    requires StampInv(x) && x.age >= 1
    ensures StampInv(PathNext(x, k))
  {
  }

  // ---------------------------------------------------------------- ring

  function Taken(t: Trace): nat {
    |CurrentWords(t.f)|
  }

  /** A clock of streaming, as the ring sees it. */
  predicate RingClock(i: Input, n: u16) {
    !i.rst && i.ena && !i.tlast && i.numSamples == n
  }

  /** Nothing is lost, and every frame since `t0` was closed by its count. */
  ghost predicate LosslessInv(t: Trace, emitted: seq<u64>, t0: Trace, n: u16)
    requires n >= 1
  {
    && t.accepted == t0.accepted + emitted
    && t0.f.frames <= t.f.frames
    && (t.f.current.Some? ==> t.f.current.value.limit == n)
    && forall j :: |t0.f.frames| <= j < |t.f.frames| ==>
         t.f.frames[j].closing.Full? && |t.f.frames[j].open.words| == Capacity(n)
  }

  /** Words since `t0`: whole frames and the open one. */
  ghost predicate CountInv(t: Trace, emitted: seq<u64>, t0: Trace, n: u16)
    requires n >= 1
  {
    |t0.f.frames| <= |t.f.frames| && |emitted| == Multiple(|t.f.frames| - |t0.f.frames|, Capacity(n)) + Taken(t)
  }

  /** k * n (see MultipleIsProduct), spelled out so that proofs need no products. */
  function Multiple(k: nat, n: nat): nat {
    if k == 0 then 0 else Multiple(k - 1, n) + n
  }

  lemma {:induction false} MultipleIsProduct(k: nat, n: nat)
    ensures Multiple(k, n) == k * n
  {
    if k > 0 {
      MultipleIsProduct(k - 1, n);
    }
  }

  lemma {:induction false} MultipleOfFive(k: nat, g: nat)
    ensures Multiple(k, 5 * g) == 5 * Multiple(k, g)
  {
    if k > 0 {
      MultipleOfFive(k - 1, g);
    }
  }

  lemma {:induction false} LosslessStep(t: Trace, i: Input, n: u16, emitted: seq<u64>, t0: Trace)
    requires n >= 1 && WriterInv(t.s.w, t.f) && RingClock(i, n) && (i.tvalid ==> t.s.w.inTready)
    requires LosslessInv(t, emitted, t0, n)
    ensures LosslessInv(TraceNext(t, i), if i.tvalid then emitted + [i.tdata] else emitted, t0, n)
  {
    if i.tvalid {
      assert t.accepted + [i.tdata] == t0.accepted + (emitted + [i.tdata]);
    }
  }

  /** What one word does to the open frame. */
  ghost predicate GoesIn(t: Trace, t': Trace, i: Input, n: u16)
    requires n >= 1
  {
    if !i.tvalid then t'.f == t.f
    else if Taken(t) + 1 < Capacity(n) then
      && t'.f.frames == t.f.frames && Taken(t') == Taken(t) + 1
      && t'.f.current.Some?
      && t'.f.current.value.stamp == if t.f.current.None? then i.timestamp else t.f.current.value.stamp
    else
      && Taken(t') == 0 && t.f.current.Some? && t'.f.current.None?
      && |t'.f.frames| == |t.f.frames| + 1 && t.f.frames <= t'.f.frames
      && t'.f.frames[|t.f.frames|].open.stamp == t.f.current.value.stamp
  }

  lemma {:induction false} TakenStep(t: Trace, i: Input, n: u16)
    requires n >= 1 && WriterInv(t.s.w, t.f) && RingClock(i, n) && (i.tvalid ==> t.s.w.inTready)
    requires t.f.current.Some? ==> t.f.current.value.limit == n
    ensures GoesIn(t, TraceNext(t, i), i, n)
  {
  }

  lemma {:induction false} CountStep(t: Trace, i: Input, n: u16, emitted: seq<u64>, t0: Trace)
    requires n >= 1 && WriterInv(t.s.w, t.f) && RingClock(i, n) && (i.tvalid ==> t.s.w.inTready)
    requires LosslessInv(t, emitted, t0, n) && CountInv(t, emitted, t0, n)
    ensures CountInv(TraceNext(t, i), if i.tvalid then emitted + [i.tdata] else emitted, t0, n)
  {
    TakenStep(t, i, n);
    TakenBelow(t, n);
    CountsOn(t, TraceNext(t, i), i, n, emitted, t0);
  }

  lemma {:induction false} TakenBelow(t: Trace, n: u16)
    requires n >= 1 && FramerOk(t.f) && (t.f.current.Some? ==> t.f.current.value.limit == n)
    ensures Taken(t) < Capacity(n)
  {
  }

  lemma {:induction false} CountsOn(t: Trace, t': Trace, i: Input, n: u16, emitted: seq<u64>, t0: Trace)
    requires n >= 1 && CountInv(t, emitted, t0, n) && Taken(t) < Capacity(n)
    requires GoesIn(t, t', i, n)
    ensures CountInv(t', if i.tvalid then emitted + [i.tdata] else emitted, t0, n)
  {
  }

  /** Taken is the number of words shown, modulo the size of a frame. */
  lemma {:induction false} TakenIsMod(t: Trace, emitted: seq<u64>, t0: Trace, n: u16)
    requires n >= 1 && WriterInv(t.s.w, t.f) && LosslessInv(t, emitted, t0, n) && CountInv(t, emitted, t0, n)
    ensures |emitted| % Capacity(n) == Taken(t) < Capacity(n)
  {
    MultipleIsProduct(|t.f.frames| - |t0.f.frames|, Capacity(n));
    ModOf(|emitted|, |t.f.frames| - |t0.f.frames|, Capacity(n), Taken(t));
  }

  /** Samples fill frames exactly when their number is a multiple of g; words keep their place in the sample. */
  lemma Boundary(k: nat, g: nat)
    requires g >= 1
    ensures 5 * k % (5 * g) == 0 <==> k % g == 0
  {
    var q, r := k / g, k % g;
    assert k == q * g + r;
    assert 5 * k == q * (5 * g) + 5 * r;
    ModOf(5 * k, q, 5 * g, 5 * r);
  }

  lemma PlaceInSample(e: nat, g: nat)
    requires g >= 1
    ensures e % (5 * g) % 5 == e % 5
  {
    var q, r := e / (5 * g), e % (5 * g);
    assert e == 5 * (q * g) + r;
  }

  /** With `short` words of the k-th sample still to come, the frame is short of as many exactly if k fills frames. */
  lemma FillsFrame(e: nat, short: nat, k: nat, g: nat)
    requires g >= 1 && short <= 2 && e + short == 5 * k
    ensures (if short == 0 then e % (5 * g) == 0 else e % (5 * g) + short == 5 * g) <==> k % g == 0
  {
    Boundary(k, g);
    if short >= 1 {
      ModStep(e, 5 * g);
    }
    if short == 2 {
      ModStep(e + 1, 5 * g);
    }
  }

  // ---------------------------------------------------------------- timestamps

  /** Frame j since `t0` carries the timestamp of sample j * g. */
  ghost predicate FrameStamps(t: Trace, stamps: seq<u64>, t0: Trace, g: nat) {
    && |t0.f.frames| <= |t.f.frames|
    && (forall m :: |t0.f.frames| <= m < |t.f.frames| ==>
          StampAt(t.f.frames[m].open, stamps, Multiple(m - |t0.f.frames|, g)))
    && (t.f.current.Some? ==> StampAt(t.f.current.value, stamps, Multiple(|t.f.frames| - |t0.f.frames|, g)))
  }

  predicate StampAt(o: Open, stamps: seq<u64>, at: nat) {
    at < |stamps| && o.stamp == stamps[at]
  }

  lemma {:induction false} FrameStampsStep(t: Trace, i: Input, n: u16, stamps: seq<u64>, t0: Trace, g: nat)
    requires n >= 1 && WriterInv(t.s.w, t.f) && RingClock(i, n) && (i.tvalid ==> t.s.w.inTready)
    requires t.f.current.Some? ==> t.f.current.value.limit == n
    requires FrameStamps(t, stamps, t0, g)
    requires i.tvalid && t.f.current.None? ==>
               var at := Multiple(|t.f.frames| - |t0.f.frames|, g); at < |stamps| && i.timestamp == stamps[at]
    ensures FrameStamps(TraceNext(t, i), stamps, t0, g)
  {
    TakenStep(t, i, n);
    StampsAfter(t, TraceNext(t, i), i, n, stamps, t0, g);
  }

  lemma {:induction false} StampsAfter(
      t: Trace, t': Trace, i: Input, n: u16, stamps: seq<u64>, t0: Trace, g: nat)
    requires n >= 1 && FrameStamps(t, stamps, t0, g) && GoesIn(t, t', i, n)
    requires i.tvalid && t.f.current.None? ==>
               var at := Multiple(|t.f.frames| - |t0.f.frames|, g); at < |stamps| && i.timestamp == stamps[at]
    ensures FrameStamps(t', stamps, t0, g)
  {
    if |t'.f.frames| > |t.f.frames| {
      ClosedStamps(t, t', stamps, t0, g);
    } else {
      OpenStamps(t, t', stamps, t0, g);
    }
  }

  lemma {:induction false} OpenStamps(t: Trace, t': Trace, stamps: seq<u64>, t0: Trace, g: nat)
    requires FrameStamps(t, stamps, t0, g) && t'.f.frames == t.f.frames
    requires t'.f.current.Some? ==> StampAt(t'.f.current.value, stamps, Multiple(|t.f.frames| - |t0.f.frames|, g))
    ensures FrameStamps(t', stamps, t0, g)
  {
  }

  lemma {:induction false} ClosedStamps(t: Trace, t': Trace, stamps: seq<u64>, t0: Trace, g: nat)
    requires FrameStamps(t, stamps, t0, g) && t.f.current.Some? && t'.f.current.None?
    requires t.f.frames <= t'.f.frames && |t'.f.frames| == |t.f.frames| + 1
    requires t'.f.frames[|t.f.frames|].open.stamp == t.f.current.value.stamp
    ensures FrameStamps(t', stamps, t0, g)
  {
    forall m | |t0.f.frames| <= m < |t'.f.frames|
      ensures StampAt(t'.f.frames[m].open, stamps, Multiple(m - |t0.f.frames|, g))
    {
      if m < |t.f.frames| {
        assert t'.f.frames[m] == t.f.frames[m];
      }
    }
  }

  lemma {:induction false} MoreStamps(t: Trace, stamps: seq<u64>, more: seq<u64>, t0: Trace, g: nat)
    requires FrameStamps(t, stamps, t0, g)
    ensures FrameStamps(t, stamps + more, t0, g)
  {
  }

  // ---------------------------------------------------------------- what holds while nothing is lost

  ghost predicate BooksInv(x: Path, t0: Trace, n: u16, g: nat)
    requires n >= 1
  {
    && PackerInv(x) && StampInv(x) && Inv(x.t)
    && LosslessInv(x.t, x.emitted, t0, n)
    && CountInv(x.t, x.emitted, t0, n)
    && FrameStamps(x.t, x.stamps, t0, g)
  }

  lemma {:induction false} EmittedPlace(x: Path)
    requires PackerInv(x)
    ensures x.p.tvalid ==> |x.emitted| % 5 == if x.age == 1 then 4 else x.age - 2
  {
    EmittedCount(x);
  }

  /** Which word of a sample is shown. */
  lemma {:induction false} PlaceOfWord(x: Path, t0: Trace, n: u16, g: nat)
    requires n >= 1 && g >= 1 && Capacity(n) == 5 * g && BooksInv(x, t0, n, g)
    ensures x.p.tvalid ==> Taken(x.t) % 5 == if x.age == 1 then 4 else x.age - 2
  {
    EmittedPlace(x);
    TakenIsMod(x.t, x.emitted, t0, n);
    PlaceInSample(|x.emitted|, g);
  }

  /** A frame opens with the first word of a sample, whose timestamp the ring is shown. */
  lemma {:induction false} OpensOnFirstWord(x: Path, t0: Trace, n: u16, g: nat)
    requires n >= 1 && g >= 1 && Capacity(n) == 5 * g && BooksInv(x, t0, n, g)
    requires x.p.tvalid && x.t.f.current.None?
    ensures x.age == 2
    ensures Multiple(|x.t.f.frames| - |t0.f.frames|, g) == |x.stamps| - 1 && x.p.ts == x.stamps[|x.stamps| - 1]
  {
    PlaceOfWord(x, t0, n, g);
    assert x.age == 2;
    EmittedCount(x);
    MultipleOfFive(|x.t.f.frames| - |t0.f.frames|, g);
  }

  lemma {:induction false} StampsStep(x: Path, k: PathClock, t0: Trace, n: u16, g: nat)
    requires n >= 1 && g >= 1 && Capacity(n) == 5 * g && BooksInv(x, t0, n, g)
    requires Streaming(x, k, n) && (x.p.tvalid ==> x.t.s.w.inTready)
    ensures FrameStamps(PathNext(x, k).t, PathNext(x, k).stamps, t0, g)
  {
    if x.p.tvalid && x.t.f.current.None? {
      OpensOnFirstWord(x, t0, n, g);
    }
    FrameStampsStep(x.t, RingInput(x.p, k), n, x.stamps, t0, g);
    MoreStamps(PathNext(x, k).t, x.stamps, [k.c.timestamp], t0, g);
  }

  lemma {:induction false} BooksStep(x: Path, k: PathClock, t0: Trace, n: u16, g: nat)
    requires n >= 1 && g >= 1 && Capacity(n) == 5 * g && BooksInv(x, t0, n, g)
    requires Streaming(x, k, n) && (x.p.tvalid ==> x.t.s.w.inTready)
    ensures BooksInv(PathNext(x, k), t0, n, g)
  {
    var i := RingInput(x.p, k);
    PackerStep(x, k);
    StampStep(x, k);
    Preserved(x.t, i);
    LosslessStep(x.t, i, n, x.emitted, t0);
    CountStep(x.t, i, n, x.emitted, t0);
    StampsStep(x, k, t0, n, g);
  }

  /** Where the write FSM is, by the age of the last streamed sample, when samples at packet ends are far apart. */
  ghost predicate PhaseInv(x: Path, g: nat)
    requires g >= 1
  {
    var w, sp := x.t.s.w, x.t.s.sp;
    && sp.check && sp.used + MAX_PKT_LEN < DEPTH
    && (w.state.WrLen? ==> x.age == 7)
    && (w.state.WrTs? ==> x.age == 8)
    && (w.state.WrUpdate? ==> x.age == 9)
    && (w.state.Idle? && !w.inTready ==> x.age == 10 || x.age == 1)
    && (x.age == 7 && Taken(x.t) == 0 ==> w.state.WrLen?)
    && (x.age == 8 && Taken(x.t) == 0 ==> w.state.WrTs?)
    && (x.age == 1 && x.p.tvalid ==> |x.blocks| % g != 0)
  }

  /** Words of the latest sample still to be taken, from its fourth word on. */
  function Short(x: Path): nat {
    if x.age == 5 then 2 else if x.p.tvalid then 1 else 0
  }

  /** The open frame lacks just these words exactly when the samples so far fill frames. */
  lemma {:induction false} FrameEnds(x: Path, t0: Trace, n: u16, g: nat)
    requires n >= 1 && g >= 1 && Capacity(n) == 5 * g && BooksInv(x, t0, n, g)
    requires x.age >= 5 || (x.age == 1 && x.p.tvalid)
    ensures (if Short(x) == 0 then Taken(x.t) == 0 else Taken(x.t) + Short(x) == 5 * g) <==>
            (if x.age == 1 then |x.blocks| else |x.taken|) % g == 0
  {
    EmittedCount(x);
    TakenIsMod(x.t, x.emitted, t0, n);
    FillsFrame(|x.emitted|, Short(x), if x.age == 1 then |x.blocks| else |x.taken|, g);
  }

  /** What the packer's place in a sample says about the open frame. */
  ghost predicate Placed(x: Path, g: nat)
    requires g >= 1
  {
    && (x.p.tvalid ==> Taken(x.t) % 5 == if x.age == 1 then 4 else x.age - 2)
    && (x.age == 1 && x.p.tvalid && Taken(x.t) + 1 == 5 * g ==> |x.blocks| % g == 0)
    && (x.age == 5 ==> (Taken(x.t) + 2 == 5 * g <==> |x.taken| % g == 0))
    && (x.age == 6 ==> (Taken(x.t) + 1 == 5 * g <==> |x.taken| % g == 0))
    && (x.age >= 7 ==> (Taken(x.t) == 0 <==> |x.taken| % g == 0))
  }

  lemma {:induction false} Places(x: Path, t0: Trace, n: u16, g: nat)
    requires n >= 1 && g >= 1 && Capacity(n) == 5 * g && BooksInv(x, t0, n, g)
    ensures Placed(x, g)
  {
    PlaceOfWord(x, t0, n, g);
    if x.age >= 5 || (x.age == 1 && x.p.tvalid) {
      FrameEnds(x, t0, n, g);
    }
  }

  lemma {:induction false} ReadyForWords(x: Path, t0: Trace, n: u16, g: nat)
    requires n >= 1 && g >= 1 && Capacity(n) == 5 * g && BooksInv(x, t0, n, g) && PhaseInv(x, g)
    ensures x.p.tvalid ==> x.t.s.w.inTready
  {
    PlaceOfWord(x, t0, n, g);
  }

  /** The word that fills a frame is a sample's last, and the next sample is far. */
  lemma {:induction false} ClosesInTime(x: Path, k: PathClock, g: nat)
    requires g >= 1 && Timing(x) && Placed(x, g) && PhaseInv(x, g) && Far(x, k, g)
    ensures x.p.tvalid && Taken(x.t) + 1 == 5 * g ==> x.age == 6 && PathNext(x, k).age == 7
    ensures 7 <= x.age <= 8 && Taken(x.t) == 0 ==> PathNext(x, k).age == x.age + 1
  {
    if x.p.tvalid && Taken(x.t) + 1 == 5 * g {
      assert Taken(x.t) % 5 == 4;
    }
  }

  lemma {:induction false} WriterMoves(w: Writer, f: Framer, check: bool, i: Input, n: u16)
    requires n >= 1 && WriterInv(w, f) && RingClock(i, n) && (i.tvalid ==> w.inTready)
    requires f.current.Some? ==> f.current.value.limit == n
    ensures var w', closes := NextWriter(w, check, i), i.tvalid && |CurrentWords(f)| + 1 == Capacity(n);
            && (w'.state.WrLen? <==> closes)
            && (w'.state.WrTs? <==> w.state.WrLen?)
            && (w'.state.WrUpdate? <==> w.state.WrTs?)
            && (w'.state.Idle? && !w'.inTready ==> w.state.WrUpdate? || (w.state.Idle? && !check))
  {
  }

  lemma {:induction false} PhaseStep(x: Path, k: PathClock, t0: Trace, n: u16, g: nat)
    requires n >= 1 && g >= 1 && Capacity(n) == 5 * g && BooksInv(x, t0, n, g) && PhaseInv(x, g)
    requires Streaming(x, k, n) && Far(x, k, g)
    ensures PhaseInv(PathNext(x, k), g)
  {
    var i := RingInput(x.p, k);
    Places(x, t0, n, g);
    ReadyForWords(x, t0, n, g);
    ClosesInTime(x, k, g);
    TakenStep(x.t, i, n);
    WriterMoves(x.t.s.w, x.t.f, x.t.s.sp.check, i, n);
    PhaseMoves(x, k, n, g);
  }

  lemma {:induction false} PhaseMoves(x: Path, k: PathClock, n: u16, g: nat)
    requires n >= 1 && g >= 1 && Capacity(n) == 5 * g && Timing(x) && PhaseInv(x, g)
    requires Streaming(x, k, n) && Far(x, k, g)
    requires var x' := PathNext(x, k);
             var w, w', closes := x.t.s.w, x'.t.s.w, x.p.tvalid && Taken(x.t) + 1 == 5 * g;
             && (w'.state.WrLen? <==> closes)
             && (w'.state.WrTs? <==> w.state.WrLen?)
             && (w'.state.WrUpdate? <==> w.state.WrTs?)
             && (w'.state.Idle? && !w'.inTready ==> w.state.WrUpdate?)
             && (closes ==> x.age == 6 && x'.age == 7)
             && (7 <= x.age <= 8 && Taken(x.t) == 0 ==> x'.age == x.age + 1)
             && Taken(x'.t) == if !x.p.tvalid then Taken(x.t) else if closes then 0 else Taken(x.t) + 1
    requires x.t.s.w.state.WrLen? || x.t.s.w.state.WrTs? ==> Taken(x.t) == 0
    ensures PhaseInv(PathNext(x, k), g)
  {
    var x' := PathNext(x, k);
    assert x'.t.s.sp.check && x'.t.s.sp.used + MAX_PKT_LEN < DEPTH;
  }

  lemma {:induction false} PathFeed(x: Path, ks: seq<PathClock>, n: u16, g: nat)
    requires n >= 1 && g >= 1 && Capacity(n) == 5 * g
    requires AtRest(x) && StreamingRun(x, ks, n) && FarRun(x, ks, g)
    ensures BooksInv(FeedPath(x, ks), x.t, n, g) && PhaseInv(FeedPath(x, ks), g)
  {
    if ks != [] {
      var y, k := FeedPath(x, ks[..|ks| - 1]), ks[|ks| - 1];
      PathFeed(x, ks[..|ks| - 1], n, g);
      ReadyForWords(y, x.t, n, g);
      BooksStep(y, k, x.t, n, g);
      PhaseStep(y, k, x.t, n, g);
    }
  }

  // ---------------------------------------------------------------- a sample too close

  /** The ring `j` clocks after the first of the five words that fill its frame is shown. */
  ghost predicate RingAt(t: Trace, j: nat, n: u16)
    requires n >= 1
  {
    && t.s.sp.check && t.s.sp.used + MAX_PKT_LEN < DEPTH
    && (t.s.w.inTready <==> j <= 4 || j >= 9)
    && (if j <= 4 then (t.s.w.state.Idle? || t.s.w.state.Data?) && Taken(t) + 5 == Capacity(n) + j
        else if j == 5 then t.s.w.state.WrLen?
        else if j == 6 then t.s.w.state.WrTs?
        else if j == 7 then t.s.w.state.WrUpdate?
        else t.s.w.state.Idle?)
    && (t.f.current.Some? ==> t.f.current.value.limit == n)
  }

  lemma {:induction false} RingMoves(t: Trace, i: Input, j: nat, n: u16)
    requires n >= 1 && WriterInv(t.s.w, t.f) && RingAt(t, j, n)
    requires RingClock(i, n) && (i.tvalid <==> j <= 4)
    requires Unread(t.s) + MAX_PKT_LEN < DEPTH
    ensures RingAt(TraceNext(t, i), j + 1, n)
  {
    TakenStep(t, i, n);
    WriterMoves(t.s.w, t.f, t.s.sp.check, i, n);
    assert TraceNext(t, i).s.sp.check && TraceNext(t, i).s.sp.used + MAX_PKT_LEN < DEPTH;
  }

  /** A sample taken after a full packet's worth, but less than 9 clocks after the last. */
  predicate TooClose(x: Path, k: PathClock, g: nat)
    requires g >= 1
  {
    !Far(x, k, g)
  }

  lemma {:induction false} CloseMeansBusy(x: Path, k: PathClock, t0: Trace, n: u16, g: nat)
    requires n >= 1 && g >= 1 && Capacity(n) == 5 * g && BooksInv(x, t0, n, g) && PhaseInv(x, g)
    requires Streaming(x, k, n) && TooClose(x, k, g)
    ensures 5 <= x.age <= 8 && RingAt(x.t, x.age - 2, n)
  {
    Places(x, t0, n, g);
  }

  /** The clock of such a sample, and the next one: nothing is lost yet, but the ring is busy. */
  lemma {:induction false} CloseFirst(x: Path, k: PathClock, t0: Trace, n: u16, g: nat)
    requires n >= 1 && g >= 1 && Capacity(n) == 5 * g && BooksInv(x, t0, n, g) && PhaseInv(x, g)
    requires Streaming(x, k, n) && TooClose(x, k, g)
    ensures var y := PathNext(x, k);
            && 5 <= x.age <= 8 && BooksInv(y, t0, n, g) && RingAt(y.t, x.age - 1, n)
            && y.age == 1 && (y.p.tvalid <==> x.age == 5)
  {
    CloseMeansBusy(x, k, t0, n, g);
    ReadyForWords(x, t0, n, g);
    BooksStep(x, k, t0, n, g);
    RingMoves(x.t, RingInput(x.p, k), x.age - 2, n);
  }

  lemma {:induction false} CloseSecond(x: Path, k: PathClock, k1: PathClock, t0: Trace, n: u16, g: nat)
    requires n >= 1 && g >= 1 && Capacity(n) == 5 * g && BooksInv(x, t0, n, g) && PhaseInv(x, g)
    requires Streaming(x, k, n) && TooClose(x, k, g) && Streaming(PathNext(x, k), k1, n)
    ensures var z := PathNext(PathNext(x, k), k1);
            BooksInv(z, t0, n, g) && !z.t.s.w.inTready && z.p.tvalid
  {
    CloseFirst(x, k, t0, n, g);
    var y := PathNext(x, k);
    BooksStep(y, k1, t0, n, g);
    RingMoves(y.t, RingInput(y.p, k1), x.age - 1, n);
  }

  /** More words shown than taken. */
  ghost predicate Lost(x: Path, t0: Trace) {
    |x.t.accepted| < |t0.accepted| + |x.emitted|
  }

  lemma {:induction false} StaysLost(x: Path, k: PathClock, t0: Trace)
    requires Lost(x, t0) && !k.c.rst
    ensures Lost(PathNext(x, k), t0)
  {
  }

  lemma {:induction false} CloseLoses(
      x: Path, k: PathClock, k1: PathClock, k2: PathClock, t0: Trace, n: u16, g: nat)
    requires n >= 1 && g >= 1 && Capacity(n) == 5 * g && BooksInv(x, t0, n, g) && PhaseInv(x, g)
    requires Streaming(x, k, n) && TooClose(x, k, g) && Streaming(PathNext(x, k), k1, n) && !k2.c.rst
    ensures Lost(PathNext(PathNext(PathNext(x, k), k1), k2), t0)
  {
    CloseSecond(x, k, k1, t0, n, g);
  }

  // ---------------------------------------------------------------- exactly when nothing is lost

  lemma {:induction false} RunPrefix(x: Path, ks: seq<PathClock>, j: nat, n: u16)
    requires StreamingRun(x, ks, n) && j <= |ks|
    ensures StreamingRun(x, ks[..j], n)
    decreases |ks|
  {
    if j == |ks| {
      assert ks[..j] == ks;
    } else {
      RunPrefix(x, ks[..|ks| - 1], j, n);
      assert ks[..|ks| - 1][..j] == ks[..j];
    }
  }

  lemma {:induction false} RunAt(x: Path, ks: seq<PathClock>, j: nat, n: u16)
    requires StreamingRun(x, ks, n) && j < |ks|
    ensures StreamingRun(x, ks[..j], n) && Streaming(FeedPath(x, ks[..j]), ks[j], n)
    ensures FeedPath(x, ks[..j + 1]) == PathNext(FeedPath(x, ks[..j]), ks[j])
  {
    RunPrefix(x, ks, j + 1, n);
    assert ks[..j + 1][..j] == ks[..j];
  }

  lemma {:induction false} LastTwo(x: Path, ks: seq<PathClock>, n: u16)
    requires StreamingRun(x, ks, n) && |ks| >= 2
    ensures var y, k, k1 := FeedPath(x, ks[..|ks| - 2]), ks[|ks| - 2], ks[|ks| - 1];
            && StreamingRun(x, ks[..|ks| - 2], n) && Streaming(y, k, n) && Streaming(PathNext(y, k), k1, n)
            && FeedPath(x, ks) == PathNext(PathNext(y, k), k1)
  {
    RunAt(x, ks, |ks| - 1, n);
    RunAt(x, ks, |ks| - 2, n);
    assert ks[..|ks|] == ks;
  }

  lemma {:induction false} LosesRun(x: Path, ks: seq<PathClock>, n: u16, g: nat)
    requires n >= 1 && g >= 1 && Capacity(n) == 5 * g
    requires AtRest(x) && StreamingRun(x, ks, n) && !FarRun(x, ShownBy(ks), g)
    ensures Lost(FeedPath(x, ks), x.t)
  {
    var m := |ks|;
    RunAt(x, ks, m - 1, n);
    assert ks[..m] == ks;
    if !FarRun(x, ShownBy(ks[..m - 1]), g) {
      LosesRun(x, ks[..m - 1], n, g);
      StaysLost(FeedPath(x, ks[..m - 1]), ks[m - 1], x.t);
    } else {
      FirstTooClose(x, ks, g);
      LosesNow(x, ks, n, g);
    }
  }

  lemma {:induction false} LosesNow(x: Path, ks: seq<PathClock>, n: u16, g: nat)
    requires n >= 1 && g >= 1 && Capacity(n) == 5 * g
    requires AtRest(x) && StreamingRun(x, ks, n) && |ks| >= 3
    requires FarRun(x, ks[..|ks| - 3], g) && TooClose(FeedPath(x, ks[..|ks| - 3]), ks[|ks| - 3], g)
    ensures Lost(FeedPath(x, ks), x.t)
  {
    var m := |ks|;
    LastTwo(x, ks, n);
    RunAt(x, ks, m - 3, n);
    var y := FeedPath(x, ks[..m - 3]);
    assert FeedPath(x, ks[..m - 2]) == PathNext(y, ks[m - 3]);
    LosesAfter(x, y, ks[..m - 3], ks[m - 3], ks[m - 2], ks[m - 1], n, g);
  }

  lemma {:induction false} LosesAfter(
      x: Path, y: Path, before: seq<PathClock>, k: PathClock, k1: PathClock, k2: PathClock, n: u16, g: nat)
    requires n >= 1 && g >= 1 && Capacity(n) == 5 * g
    requires AtRest(x) && StreamingRun(x, before, n) && FarRun(x, before, g) && y == FeedPath(x, before)
    requires Streaming(y, k, n) && TooClose(y, k, g) && Streaming(PathNext(y, k), k1, n) && !k2.c.rst
    ensures Lost(PathNext(PathNext(PathNext(y, k), k1), k2), x.t)
  {
    PathFeed(x, before, n, g);
    CloseLoses(y, k, k1, k2, x.t, n, g);
  }

  lemma {:induction false} FirstTooClose(x: Path, ks: seq<PathClock>, g: nat)
    requires g >= 1 && |ks| >= 3 && !FarRun(x, ShownBy(ks), g) && FarRun(x, ShownBy(ks[..|ks| - 1]), g)
    ensures FarRun(x, ks[..|ks| - 3], g) && TooClose(FeedPath(x, ks[..|ks| - 3]), ks[|ks| - 3], g)
  {
    var b := ShownBy(ks);
    assert b[..|b| - 1] == ks[..|ks| - 3];
    assert |ks| > 3 ==> ShownBy(ks[..|ks| - 1]) == ks[..|ks| - 3];
  }

  lemma {:induction false} KeepsRun(x: Path, ks: seq<PathClock>, n: u16, g: nat)
    requires n >= 1 && g >= 1 && Capacity(n) == 5 * g
    requires AtRest(x) && StreamingRun(x, ks, n) && FarRun(x, ShownBy(ks), g)
    ensures BooksInv(FeedPath(x, ks), x.t, n, g)
  {
    if |ks| <= 1 {
      KeepsOne(x, ks, n, g);
    } else {
      LastTwo(x, ks, n);
      assert ShownBy(ks) == ks[..|ks| - 2];
      PathFeed(x, ks[..|ks| - 2], n, g);
      KeepsTwo(FeedPath(x, ks[..|ks| - 2]), ks[|ks| - 2], ks[|ks| - 1], x.t, n, g);
    }
  }

  lemma {:induction false} KeepsOne(x: Path, ks: seq<PathClock>, n: u16, g: nat)
    requires n >= 1 && g >= 1 && Capacity(n) == 5 * g
    requires AtRest(x) && StreamingRun(x, ks, n) && |ks| <= 1
    ensures BooksInv(FeedPath(x, ks), x.t, n, g)
  {
    PathFeed(x, [], n, g);
    if ks != [] {
      RunAt(x, ks, 0, n);
      assert ks[..1] == ks && ks[..0] == [];
      ReadyForWords(x, x.t, n, g);
      BooksStep(x, ks[0], x.t, n, g);
    }
  }

  lemma {:induction false} KeepsTwo(x: Path, k: PathClock, k1: PathClock, t0: Trace, n: u16, g: nat)
    requires n >= 1 && g >= 1 && Capacity(n) == 5 * g && BooksInv(x, t0, n, g) && PhaseInv(x, g)
    requires Streaming(x, k, n) && Streaming(PathNext(x, k), k1, n)
    ensures BooksInv(PathNext(PathNext(x, k), k1), t0, n, g)
  {
    if TooClose(x, k, g) {
      CloseSecond(x, k, k1, t0, n, g);
    } else {
      ReadyForWords(x, t0, n, g);
      BooksStep(x, k, t0, n, g);
      PhaseStep(x, k, t0, n, g);
      ReadyForWords(PathNext(x, k), t0, n, g);
      BooksStep(PathNext(x, k), k1, t0, n, g);
    }
  }

  /**
   * Nine clocks, exactly. In any stretch of streaming with frames of g whole samples, the
   * ring has taken every word shown to it if and only if, of the samples shown so far, every
   * one that follows a multiple of g others came at least 9 clocks after the one before.
   * Inside a packet nothing is asked but the 5 clocks the packer needs.
   */
  lemma {:induction false} NineClocksApart(x: Path, ks: seq<PathClock>, n: u16)
    requires n >= 1 && Capacity(n) % 5 == 0
    requires AtRest(x) && StreamingRun(x, ks, n)
    ensures var y := FeedPath(x, ks);
            y.t.accepted == x.t.accepted + y.emitted <==> FarRun(x, ShownBy(ks), Capacity(n) / 5)
  {
    if FarRun(x, ShownBy(ks), Capacity(n) / 5) {
      KeepsRun(x, ks, n, Capacity(n) / 5);
    } else {
      LosesRun(x, ks, n, Capacity(n) / 5);
    }
  }

  // ---------------------------------------------------------------- whole frames

  lemma {:induction false} PackAllConcat(a: seq<Sample>, b: seq<Sample>)
    ensures PackAll(a + b) == PackAll(a) + PackAll(b)
  {
    if b == [] {
      assert a + b == a;
    } else {
      var n := |b| - 1;
      PackAllConcat(a, b[..n]);
      assert (a + b)[..|a + b| - 1] == a + b[..n];
    }
  }

  lemma {:induction false} PackAllSlice(ss: seq<Sample>, lo: nat, hi: nat)
    requires lo <= hi <= |ss|
    ensures PackAll(ss)[5 * lo..5 * hi] == PackAll(ss[lo..hi])
  {
    PackAllConcat(ss[..hi], ss[hi..]);
    assert ss[..hi] + ss[hi..] == ss;
    PackAllConcat(ss[..lo], ss[lo..hi]);
    assert ss[..lo] + ss[lo..hi] == ss[..hi];
  }

  /** Equal-sized frames cut the payload into equal stretches. */
  lemma {:induction false} EqualFrames(frames: seq<Frame>, size: nat, j: nat)
    requires forall k :: 0 <= k < |frames| ==> |frames[k].open.words| == size
    requires j < |frames|
    ensures var at := Multiple(j, size);
            at + size <= |Payload(frames)| && Payload(frames)[at..at + size] == frames[j].open.words
  {
    var n := |frames| - 1;
    var at, before, last := Multiple(j, size), Payload(frames[..n]), frames[n].open.words;
    PayloadSize(frames[..n], size);
    assert Payload(frames) == before + last;
    if j < n {
      EqualFrames(frames[..n], size, j);
      assert (before + last)[at..at + size] == before[at..at + size];
    }
  }

  lemma {:induction false} PayloadSize(frames: seq<Frame>, size: nat)
    requires forall k :: 0 <= k < |frames| ==> |frames[k].open.words| == size
    ensures |Payload(frames)| == Multiple(|frames|, size)
  {
    if frames != [] {
      PayloadSize(frames[..|frames| - 1], size);
    }
  }

  /** The j-th frame of words that are all the words of samples packs the j-th group of samples. */
  lemma {:induction false} FrameIsGroup(
      frames: seq<Frame>, rest: seq<u64>, samples: seq<Sample>, head: seq<u64>, g: nat, j: nat)
    requires forall k :: 0 <= k < |frames| ==> |frames[k].open.words| == 5 * g
    requires Payload(frames) + rest <= PackAll(samples) + head && |head| <= 4
    requires j < |frames|
    ensures var at := Multiple(j, g);
            at + g <= |samples| && frames[j].open.words == PackAll(samples[at..at + g])
  {
    EqualFrames(frames, 5 * g, j);
    MultipleOfFive(j, g);
    SliceIsGroup(Payload(frames), rest, samples, head, Multiple(j, g), g);
  }

  lemma {:induction false} SliceIsGroup(
      words: seq<u64>, rest: seq<u64>, samples: seq<Sample>, head: seq<u64>, lo: nat, g: nat)
    requires words + rest <= PackAll(samples) + head && |head| <= 4
    requires 5 * lo + 5 * g <= |words|
    ensures lo + g <= |samples|
    ensures words[5 * lo..5 * lo + 5 * g] == PackAll(samples[lo..lo + g])
  {
    assert |words| <= 5 * |samples| + 4;
    PackAllSlice(samples, lo, lo + g);
    assert words == (words + rest)[..|words|];
  }

  /** The words shown since the start: those of the later frames, then those of the open frame. */
  lemma {:induction false} EmittedIsPayload(t: Trace, t': Trace, emitted: seq<u64>, n: u16)
    requires n >= 1 && t.f.current.None? && t.accepted == Payload(t.f.frames) + CurrentWords(t.f)
    requires t'.accepted == Payload(t'.f.frames) + CurrentWords(t'.f)
    requires LosslessInv(t', emitted, t, n)
    ensures emitted == Payload(t'.f.frames[|t.f.frames|..]) + CurrentWords(t'.f)
  {
    PayloadConcat(t.f.frames, t'.f.frames[|t.f.frames|..]);
    assert t.f.frames + t'.f.frames[|t.f.frames|..] == t'.f.frames;
    var a, rest := t.accepted, Payload(t'.f.frames[|t.f.frames|..]) + CurrentWords(t'.f);
    assert a == Payload(t.f.frames);
    assert a + emitted == a + rest;
    assert emitted == (a + emitted)[|a|..] && rest == (a + rest)[|a|..];
  }

  lemma {:induction false} GroupAt(x: Path, late: seq<Frame>, g: nat, j: nat)
    requires PackerInv(x) && x.emitted == Payload(late) + CurrentWords(x.t.f)
    requires j < |late| && forall k :: 0 <= k < |late| ==> |late[k].open.words| == 5 * g
    ensures Multiple(j, g) + g <= |x.blocks|
    ensures var group := Samples(x.taken, x.blocks)[Multiple(j, g)..Multiple(j, g) + g];
            late[j].open.words == PackAll(group) && Parse(late[j].open.words) == group
  {
    var head := if 2 <= x.age <= 5 then Head(x.taken[|x.taken| - 1], x.age - 1) else [];
    FrameIsGroup(late, CurrentWords(x.t.f), Samples(x.taken, x.blocks), head, g, j);
    ParsePackAll(Samples(x.taken, x.blocks)[Multiple(j, g)..Multiple(j, g) + g]);
  }

  /** The j-th frame since `t0` holds the j-th group of g samples, and carries its first sample's timestamp. */
  ghost predicate WholeFrame(x: Path, t0: Trace, g: nat, j: nat)
    requires |t0.f.frames| + j < |x.t.f.frames| && |x.blocks| <= |x.taken|
  {
    var fr := x.t.f.frames[|t0.f.frames| + j];
    && Multiple(j, g) + g <= |x.blocks|
    && var group := Samples(x.taken, x.blocks)[Multiple(j, g)..Multiple(j, g) + g];
    && fr.open.words == PackAll(group) && Parse(fr.open.words) == group
    && StampAt(fr.open, x.stamps, Multiple(j, g))
  }

  lemma {:induction false} WholeFrameAt(x: Path, x': Path, n: u16, g: nat, j: nat)
    requires n >= 1 && g >= 1 && Capacity(n) == 5 * g
    requires AtRest(x) && BooksInv(x', x.t, n, g) && |x.t.f.frames| + j < |x'.t.f.frames|
    ensures |x'.blocks| <= |x'.taken| && WholeFrame(x', x.t, g, j)
  {
    WordsOfFrame(x, x', n, g, j);
    StampOfFrame(x'.t, x'.stamps, x.t, g, j);
  }

  lemma {:induction false} WordsOfFrame(x: Path, x': Path, n: u16, g: nat, j: nat)
    requires n >= 1 && g >= 1 && Capacity(n) == 5 * g
    requires AtRest(x) && PackerInv(x') && Inv(x'.t) && LosslessInv(x'.t, x'.emitted, x.t, n)
    requires |x.t.f.frames| + j < |x'.t.f.frames|
    ensures |x'.blocks| <= |x'.taken| && Multiple(j, g) + g <= |x'.blocks|
    ensures var group := Samples(x'.taken, x'.blocks)[Multiple(j, g)..Multiple(j, g) + g];
            var words := x'.t.f.frames[|x.t.f.frames| + j].open.words;
            words == PackAll(group) && Parse(words) == group
  {
    var late := x'.t.f.frames[|x.t.f.frames|..];
    EmittedIsPayload(x.t, x'.t, x'.emitted, n);
    GroupAt(x', late, g, j);
    assert late[j] == x'.t.f.frames[|x.t.f.frames| + j];
  }

  lemma {:induction false} StampOfFrame(t: Trace, stamps: seq<u64>, t0: Trace, g: nat, j: nat)
    requires FrameStamps(t, stamps, t0, g) && |t0.f.frames| + j < |t.f.frames|
    ensures StampAt(t.f.frames[|t0.f.frames| + j].open, stamps, Multiple(j, g))
  {
    assert StampAt(t.f.frames[|t0.f.frames| + j].open, stamps, Multiple(j, g));
  }

  /**
   * Whole frames. In such a stretch with far enough samples at packet ends, the j-th frame
   * since the start is exactly the packing of the j-th group of samples, so that parsing
   * its words gives these samples back, and its timestamp is that of the clock in which
   * the group's first sample was valid.
   */
  lemma {:induction false} WholeFrames(x: Path, ks: seq<PathClock>, n: u16, j: nat)
    requires n >= 1 && Capacity(n) % 5 == 0
    requires AtRest(x) && StreamingRun(x, ks, n) && FarRun(x, ShownBy(ks), Capacity(n) / 5)
    ensures var x' := FeedPath(x, ks);
            && x'.t.accepted == x.t.accepted + x'.emitted
            && x.t.f.frames <= x'.t.f.frames && |x'.blocks| <= |x'.taken|
            && (|x.t.f.frames| + j < |x'.t.f.frames| ==> WholeFrame(x', x.t, Capacity(n) / 5, j))
  {
    KeepsRun(x, ks, n, Capacity(n) / 5);
    if |x.t.f.frames| + j < |FeedPath(x, ks).t.f.frames| {
      WholeFrameAt(x, FeedPath(x, ks), n, Capacity(n) / 5, j);
    }
  }

  // ---------------------------------------------------------------- decimation

  /** With any decimation, samples 5 clocks apart are enough: streamed ones are then 10 apart. */
  lemma {:induction false} DecimationSpaces(x: Path, ks: seq<PathClock>, n: u16, g: nat)
    requires g >= 1 && AtRest(x) && StreamingRun(x, ks, n)
    requires forall j :: 0 <= j < |ks| ==> ScaledDiv(ks[j].c.rateDiv) >= 1
    ensures FarRun(x, ks, g)
    ensures var x' := FeedPath(x, ks);
            x'.sinceValid <= x'.age && (x'.p.div == 0 ==> x'.age >= 9 || x'.age >= x'.sinceValid + 5)
  {
    if ks != [] {
      DecimationSpaces(x, ks[..|ks| - 1], n, g);
      assert Streaming(FeedPath(x, ks[..|ks| - 1]), ks[|ks| - 1], n);
    }
  }

  // ---------------------------------------------------------------- start-up

  /** Registers `k` clocks after a reset with enable low: the packer runs to beat 5, the ring becomes ready. */
  predicate Waking(p: Packer, s: State, k: nat) {
    && s.w.state.Idle? && s.w.wrStart == 0 && s.rd.rdPos == 0 && !s.rd.tvalid && s.w.inPkts == s.rd.outPkts
    && s.sp.used == 0 && (s.sp.check <==> k >= 1) && (s.w.inTready <==> k >= 2)
    && p.div == 0 && !p.inTvalid
    && p.beat == (if k < 5 then k else 5) && (p.tvalid <==> 1 <= k <= 5)
  }

  lemma {:induction false} WakingStep(x: Path, k: nat, c: PathClock)
    requires Waking(x.p, x.t.s, k) && !c.c.rst && !c.c.ena && c.c.allChan
    ensures Waking(PathNext(x, c).p, PathNext(x, c).t.s, k + 1) && PathNext(x, c).t.accepted == x.t.accepted
  {
    assert Waking(NextPacker(x.p, c.c), Next(x.t.s, RingInput(x.p, c)), k + 1);
  }

  lemma {:induction false} WakingFeed(x: Path, ks: seq<PathClock>)
    requires Inv(x.t) && Waking(x.p, x.t.s, 0) && x.t.accepted == []
    requires forall j :: 0 <= j < |ks| ==> !ks[j].c.rst && !ks[j].c.ena && ks[j].c.allChan
    ensures Inv(FeedPath(x, ks).t) && Waking(FeedPath(x, ks).p, FeedPath(x, ks).t.s, |ks|)
    ensures FeedPath(x, ks).t.accepted == []
  {
    if ks != [] {
      var x', k := FeedPath(x, ks[..|ks| - 1]), ks[|ks| - 1];
      WakingFeed(x, ks[..|ks| - 1]);
      WakingStep(x', |ks| - 1, k);
      Preserved(x'.t, RingInput(x'.p, k));
    }
  }

  /** From any registers: a reset and six clocks with enable low, in all-channel mode, bring the path to rest. */
  lemma {:induction false} ComesToRest(x: Path, r: PathClock, ks: seq<PathClock>)
    requires r.c.rst && |ks| >= 6
    requires forall j :: 0 <= j < |ks| ==> !ks[j].c.rst && !ks[j].c.ena && ks[j].c.allChan
    ensures var y := FeedPath(PathNext(x, r), ks);
            AtRest(Path(y.p, y.t, 9, 9, [], [], [], [])) && y.p.div == 0 && y.t.accepted == []
  {
    ResetInv(x.t, RingInput(x.p, r));
    WakingFeed(PathNext(x, r), ks);
  }
}
