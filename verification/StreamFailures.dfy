/** A stream that loses words: one sample to a packet, samples 8 clocks apart. */
module StreamFailures {
  import opened Bits
  import opened PacketRing
  import opened Framing
  import opened RingInvariant
  import opened RingTheorems
  import opened FramePacker
  import opened StreamPath

  // ---------------------------------------------------------------- room

  lemma {:induction false} FlatBound(frames: seq<Frame>)
    requires forall k :: 0 <= k < |frames| ==> |frames[k].open.words| >= 1
    ensures |FlatTo(frames, |frames|)| <= 3 * |Payload(frames)|
  {
    if frames != [] {
      var n := |frames| - 1;
      FlatBound(frames[..n]);
      FlatAppend(frames[..n], frames[n], n);
      assert frames[..n] + [frames[n]] == frames;
    }
  }

  /** Few words taken, few words unread. */
  lemma {:induction false} UnreadBound(t: Trace)
    requires Inv(t)
    ensures Unread(t.s) <= 3 * |t.accepted|
  {
    UnreadIsTrue(t);
    FlatPrefix(t.f.frames, Written(t.s.w, t.f.frames), |t.f.frames|);
    forall k | 0 <= k < |t.f.frames|
      ensures |t.f.frames[k].open.words| >= 1
    {
      assert FrameOk(t.f.frames[k], k);
    }
    FlatBound(t.f.frames);
  }

  // ---------------------------------------------------------------- the input

  /** Five words to a packet: one sample. */
  const ONE_SAMPLE: u16 := 5

  function Tick(valid: bool): PathClock {
    PathClock(Clock(false, true, valid, seq(16, _ => 0), 0, 0, 0, true, 0, 0, 0, 0), ONE_SAMPLE, true)
  }

  /** A sample in every eighth clock. */
  function EightApart(m: nat): (ks: seq<PathClock>)
    ensures |ks| == m && forall j :: 0 <= j < m ==> ks[j] == Tick(j % 8 == 0)
  {
    seq(m, j => Tick(j % 8 == 0))
  }

  /** Where the packer is after `m` of these clocks. */
  predicate InStride(x: Path, m: nat) {
    && x.p.div == 0
    && (if m == 0 then x.age >= 9 && x.sinceValid >= 5 else x.age == x.sinceValid == (m - 1) % 8 + 1)
    && |x.taken| == (m + 7) / 8
  }

  /** What the ring holds by then. */
  ghost predicate FewWords(t: Trace, m: nat) {
    Inv(t) && |t.accepted| <= m
  }

  lemma Strided(m: nat)
    ensures m > 0 && m % 8 == 0 ==> (m - 1) % 8 + 1 == 8
    ensures m % 8 == 0 ==> m % 8 + 1 == 1 && (m + 8) / 8 == (m + 7) / 8 + 1
    ensures m % 8 != 0 ==> m % 8 + 1 == (m - 1) % 8 + 2 && (m + 8) / 8 == (m + 7) / 8
  {
  }

  lemma {:induction false} PackerStrides(x: Path, m: nat, valid: bool)
    requires InStride(x, m) && valid == (m % 8 == 0)
    ensures Packing(x, Tick(valid)) && InStride(PathNext(x, Tick(valid)), m + 1)
  {
    Strided(m);
  }

  lemma {:induction false} RingStrides(x: Path, m: nat, valid: bool)
    requires FewWords(x.t, m) && m <= 100
    ensures Unread(x.t.s) + MAX_PKT_LEN < DEPTH && FewWords(PathNext(x, Tick(valid)).t, m + 1)
  {
    UnreadBound(x.t);
    Preserved(x.t, RingInput(x.p, Tick(valid)));
  }

  lemma OneMore(m: nat)
    ensures EightApart(m + 1) == EightApart(m) + [Tick(m % 8 == 0)]
  {
  }

  ghost predicate StridesTo(x: Path, ks: seq<PathClock>, m: nat) {
    StreamingRun(x, ks, ONE_SAMPLE) && InStride(FeedPath(x, ks), m) && FewWords(FeedPath(x, ks).t, m)
  }

  lemma {:induction false} StrideZero(x: Path)
    requires AtRest(x) && x.p.div == 0 && x.t.accepted == []
    ensures StridesTo(x, [], 0)
  {
  }

  lemma {:induction false} Strides(x: Path, m: nat)
    requires StridesTo(x, [], 0) && m <= 100
    ensures StridesTo(x, EightApart(m), m)
  {
    if m == 0 {
      assert EightApart(0) == [];
    } else {
      Strides(x, m - 1);
      OneMore(m - 1);
      StrideOn(x, EightApart(m), EightApart(m - 1), m - 1);
    }
  }

  lemma {:induction false} StrideOn(x: Path, ks: seq<PathClock>, before: seq<PathClock>, m: nat)
    requires ks == before + [Tick(m % 8 == 0)] && StridesTo(x, before, m) && m <= 100
    ensures StridesTo(x, ks, m + 1)
  {
    var y := FeedPath(x, before);
    assert ks[..|ks| - 1] == before;
    PackerStrides(y, m, m % 8 == 0);
    RingStrides(y, m, m % 8 == 0);
  }

  /** The second sample comes 8 clocks after the first one, which filled a packet. */
  lemma {:induction false} EightIsNotFar(x: Path)
    requires AtRest(x) && x.p.div == 0 && x.t.accepted == []
    ensures !FarRun(x, ShownBy(EightApart(11)), 1)
  {
    assert ShownBy(EightApart(11)) == EightApart(9);
    assert EightApart(9)[..8] == EightApart(8);
    StrideZero(x);
    Strides(x, 8);
    assert !Far(FeedPath(x, EightApart(8)), EightApart(9)[8], 1);
  }

  /** From any registers: reset, six clocks at rest, then two samples 8 clocks apart lose a word. */
  lemma {:induction false} EightClocksLose(power: Path, r: PathClock, rest: seq<PathClock>)
    requires r.c.rst && |rest| >= 6
    requires forall j :: 0 <= j < |rest| ==> !rest[j].c.rst && !rest[j].c.ena && rest[j].c.allChan
    ensures var w := FeedPath(PathNext(power, r), rest);
            var x := Path(w.p, w.t, 9, 9, [], [], [], []);
            && AtRest(x) && StreamingRun(x, EightApart(11), ONE_SAMPLE)
            && var y := FeedPath(x, EightApart(11));
            y.t.accepted != x.t.accepted + y.emitted
  {
    ComesToRest(power, r, rest);
    var w := FeedPath(PathNext(power, r), rest);
    EightLosesFrom(Path(w.p, w.t, 9, 9, [], [], [], []));
  }

  lemma {:induction false} EightLosesFrom(x: Path)
    requires AtRest(x) && x.p.div == 0 && x.t.accepted == []
    ensures StreamingRun(x, EightApart(11), ONE_SAMPLE)
    ensures var y := FeedPath(x, EightApart(11)); y.t.accepted != x.t.accepted + y.emitted
  {
    StrideZero(x);
    Strides(x, 11);
    EightIsNotFar(x);
    LosesUnlessFar(x, EightApart(11), ONE_SAMPLE, 1);
  }

  lemma {:induction false} LosesUnlessFar(x: Path, ks: seq<PathClock>, n: u16, g: nat)
    requires n >= 1 && g >= 1 && Capacity(n) == 5 * g
    requires AtRest(x) && StreamingRun(x, ks, n) && !FarRun(x, ShownBy(ks), g)
    ensures var y := FeedPath(x, ks); y.t.accepted != x.t.accepted + y.emitted
  {
    LosesRun(x, ks, n, g);
  }
}
