/**
 * Word alignment of one ADC channel (hdl/src/ltc2387_deserializer.sv, capture
 * logic): DCO pattern match over ten DDR slots, for either phase of the read clock.
 */
module WordAlignment {
  import opened Bits

  /** One DDR slot: DCO and the two data lanes. */
  datatype Slot = Slot(dco: bool, da: bool, db: bool)

  /** The last ten slots, oldest first: dco is their DCO bits, data their lane bits. */
  type Window = w: seq<Slot> | |w| == 10 witness seq(10, _ => Slot(false, false, false))

  /** What the two lanes bring in one slot. */
  datatype Pair = Pair(a: bool, b: bool)

  /** Nine slots' lane bits: the 18-bit word, most significant pair first. */
  type Word = w: seq<Pair> | |w| == 9 witness seq(9, _ => Pair(false, false))

  function Bit(b: bool): int { if b then 1 else 0 }

  /** The 10-bit register `dco`. */
  function Dco(w: Window): int {
    512 * Bit(w[0].dco) + 256 * Bit(w[1].dco) + 128 * Bit(w[2].dco) + 64 * Bit(w[3].dco) + 32 * Bit(w[4].dco)
    + 16 * Bit(w[5].dco) + 8 * Bit(w[6].dco) + 4 * Bit(w[7].dco) + 2 * Bit(w[8].dco) + Bit(w[9].dco)
  }

  function LaneBits(s: seq<Slot>): (r: seq<Pair>)
    ensures |r| == |s|
  {
    seq(|s|, i requires 0 <= i < |s| => Pair(s[i].da, s[i].db))
  }

  /** q_valid of the shared timestamp path clears the channel's flag and data. */
  datatype Channel = Channel(w: Window, chValid: bool, qData: Word)

  function NoWord(): Word { seq(9, _ => Pair(false, false)) }

  /** The word matched in the window as it stands: the newest nine slots, or the oldest nine. */
  function Match(w: Window): Option<Word> {
    if Dco(w) == 0x0AA then Some(LaneBits(w[1..]))
    else if Dco(w) == 0x155 then Some(LaneBits(w[..9]))
    else None
  }

  /** The same as a sequence of no or one word. */
  function Found(w: Window): seq<Word> {
    if Match(w).Some? then [Match(w).value] else []
  }

  /** One read clock: two slots come in, the output registers look at the window before. */
  function NextChannel(c: Channel, clear: bool, r: Slot, f: Slot): Channel {
    Channel(
      c.w[2..] + [r, f],
      !clear && (c.chValid || Match(c.w).Some?),
      if clear then NoWord() else if Match(c.w).Some? then Match(c.w).value else c.qData)
  }

  class ChannelRegs {
    var w: Window
    var chValid: bool
    var qData: Word

    constructor ()
    {
      w := seq(10, _ => Slot(false, false, false));
      qData := NoWord();
    }

    ghost function View(): Channel
      reads this
    {
      Channel(w, chValid, qData)
    }

    method Step(clear: bool, r: Slot, f: Slot)
      modifies this
      ensures View() == NextChannel(old(View()), clear, r, f)
    {
      if clear {
        chValid, qData := false, NoWord();
      } else if Dco(w) == 0x0AA {
        chValid, qData := true, LaneBits(w[1..]);
      } else if Dco(w) == 0x155 {
        chValid, qData := true, LaneBits(w[..9]);
      }
      w := w[2..] + [r, f];
    }
  }

  // ---------------------------------------------------------------- the two patterns, bit by bit

  lemma Patterns(w: Window)
    ensures Dco(w) == 0x0AA <==>
              && !w[0].dco && !w[1].dco && w[2].dco && !w[3].dco && w[4].dco
              && !w[5].dco && w[6].dco && !w[7].dco && w[8].dco && !w[9].dco
    ensures Dco(w) == 0x155 <==>
              && !w[0].dco && w[1].dco && !w[2].dco && w[3].dco && !w[4].dco
              && w[5].dco && !w[6].dco && w[7].dco && !w[8].dco && w[9].dco
  {
  }

  // ---------------------------------------------------------------- bursts

  /** Low slots before a burst, the word, and the unused lane bits of the last DCO pulse. */
  datatype Burst = Burst(gap: seq<Slot>, word: Word, da: bool, db: bool)

  /**
   * Ten slots of a burst. The first two bits are on the lanes before the first DCO
   * edge, each of the next eight edges brings two more, and the fifth pulse ends it.
   */
  function Pulses(b: Burst): (s: seq<Slot>)
    ensures |s| == 10
  {
    var w := b.word;
    [Slot(false, w[0].a, w[0].b), Slot(true, w[1].a, w[1].b), Slot(false, w[2].a, w[2].b),
     Slot(true, w[3].a, w[3].b), Slot(false, w[4].a, w[4].b), Slot(true, w[5].a, w[5].b),
     Slot(false, w[6].a, w[6].b), Slot(true, w[7].a, w[7].b), Slot(false, w[8].a, w[8].b),
     Slot(true, b.da, b.db)]
  }

  predicate Low(slots: seq<Slot>) {
    forall i :: 0 <= i < |slots| ==> !slots[i].dco
  }

  /** With the slot that carries the first two bits, at least two low slots separate the pulses of two bursts. */
  predicate Separate(bs: seq<Burst>) {
    forall i :: 0 <= i < |bs| ==> |bs[i].gap| >= 1 && Low(bs[i].gap)
  }

  function StreamSlots(bs: seq<Burst>): seq<Slot> {
    if bs == [] then [] else bs[0].gap + Pulses(bs[0]) + StreamSlots(bs[1..])
  }

  function Words(bs: seq<Burst>): seq<Word> {
    if bs == [] then [] else [bs[0].word] + Words(bs[1..])
  }

  // ---------------------------------------------------------------- sliding window

  /** All words matched in the history `h`, looking at every second window; `now`: at the first one too. */
  function Scan(h: seq<Slot>, now: bool): seq<Word> {
    if |h| < 10 then []
    else (if now then Found(h[..10]) else []) + Scan(h[1..], !now)
  }

  /** Whether the window `k` slots on is looked at. */
  function Phase(now: bool, k: nat): bool
    decreases k
  {
    if k == 0 then now else Phase(!now, k - 1)
  }

  /** Two low slots side by side spoil both patterns unless they are the oldest of the window. */
  lemma {:induction false} TwoLow(w: Window, p: nat)
    requires 1 <= p < 9 && !w[p].dco && !w[p + 1].dco
    ensures Match(w).None?
  {
    Patterns(w);
  }

  /** Scan, one step at a time. */
  lemma {:induction false} ScanOne(w: Window, more: seq<Slot>, now: bool)
    ensures Scan(w + more, now) == (if now then Found(w) else []) + Scan(w[1..] + more, !now)
  {
    assert (w + more)[..10] == w;
    assert (w + more)[1..] == w[1..] + more;
  }

  /** Windows that begin before the two low slots match nothing. */
  lemma {:induction false} ScanBefore(h: seq<Slot>, p: nat, now: bool)
    requires p <= 8 && |h| >= p + 10 && !h[p].dco && !h[p + 1].dco
    ensures Scan(h, now) == Scan(h[p..], Phase(now, p))
  {
    if p == 0 {
      assert h[0..] == h;
    } else {
      var rest := h[1..];
      TwoLow(h[..10], p);
      assert Found(h[..10]) == [];
      assert Scan(h, now) == Scan(rest, !now);
      assert rest[p - 1] == h[p] && rest[p] == h[p + 1];
      ScanBefore(rest, p - 1, !now);
      assert rest[p - 1..] == h[p..];
    }
  }

  /** The window ending in the last edge but one. */
  lemma {:induction false} EarlyWindow(low: Slot, b: Burst)
    requires !low.dco
    ensures Found([low] + Pulses(b)[..9]) == [b.word]
  {
    var w: Window := [low] + Pulses(b)[..9];
    assert w[0] == low && forall k :: 1 <= k < 10 ==> w[k] == Pulses(b)[k - 1];
    Patterns(w);
    EarlyBits(low, b);
  }

  lemma {:induction false} EarlyBits(low: Slot, b: Burst)
    ensures LaneBits(([low] + Pulses(b)[..9])[1..]) == b.word
  {
    var nine := Pulses(b)[..9];
    DropFirst(low, nine);
    PulseBits(b);
  }

  lemma DropFirst(low: Slot, s: seq<Slot>)
    ensures ([low] + s)[1..] == s
  {
  }

  /** The lane bits of the first nine slots of a burst are the word. */
  lemma {:induction false} PulseBits(b: Burst)
    ensures LaneBits(Pulses(b)[..9]) == b.word
  {
    var bits, w := LaneBits(Pulses(b)[..9]), b.word;
    assert bits[0] == w[0] && bits[1] == w[1] && bits[2] == w[2] && bits[3] == w[3] && bits[4] == w[4];
    assert bits[5] == w[5] && bits[6] == w[6] && bits[7] == w[7] && bits[8] == w[8];
  }

  /** The window ending in the last edge. */
  lemma {:induction false} LateWindow(b: Burst)
    ensures Found(Pulses(b)) == [b.word]
  {
    Patterns(Pulses(b));
    PulseBits(b);
  }

  /** A low slot, then a burst: exactly one of the two phases' windows matches, with the same word. */
  lemma {:induction false} ScanPulses(low: Slot, b: Burst, more: seq<Slot>, now: bool)
    requires !low.dco
    ensures Scan([low] + Pulses(b) + more, now) == [b.word] + Scan(Pulses(b)[1..] + more, now)
  {
    var w: Window, x := [low] + Pulses(b)[..9], Pulses(b)[9];
    EarlyWindow(low, b);
    LateWindow(b);
    assert [low] + Pulses(b) + more == w + ([x] + more);
    ScanOne(w, [x] + more, now);
    assert w[1..] + ([x] + more) == Pulses(b) + more;
    ScanOne(Pulses(b), more, !now);
  }

  /** The line is at rest or a burst has just ended. */
  predicate Settled(w: Window) {
    !w[9].dco || Dco(w) == 0x155
  }

  /** The window after the slots of `gap`. */
  function Slide(w: Window, gap: seq<Slot>): Window
    decreases |gap|
  {
    if gap == [] then w else Slide(w[1..] + [gap[0]], gap[1..])
  }

  /** A low slot after a settled window matches nothing and leaves the line settled. */
  lemma {:induction false} GapSlot(w: Window, x: Slot, rest: seq<Slot>, now: bool)
    requires Settled(w) && !x.dco
    ensures Settled(w[1..] + [x])
    ensures Scan(w[1..] + ([x] + rest), now) == Scan(w[2..] + ([x] + rest), !now)
  {
    var w': Window := w[1..] + [x];
    Patterns(w);
    Patterns(w');
    assert w[1..] + ([x] + rest) == w' + rest;
    ScanOne(w', rest, now);
    assert w'[1..] + rest == w[2..] + ([x] + rest);
  }

  lemma GapSlots(w: Window, gap: seq<Slot>, more: seq<Slot>)
    requires gap != []
    ensures w[1..] + gap + more == w[1..] + ([gap[0]] + (gap[1..] + more))
    ensures w[2..] + ([gap[0]] + (gap[1..] + more)) == (w[1..] + [gap[0]])[1..] + gap[1..] + more
  {
  }

  /** Windows over a gap match nothing, whatever ended before it. */
  lemma {:induction false} ScanGap(w: Window, gap: seq<Slot>, more: seq<Slot>, now: bool)
    requires Settled(w) && Low(gap)
    ensures Scan(w[1..] + gap + more, now) == Scan(Slide(w, gap)[1..] + more, Phase(now, |gap|))
    ensures gap != [] ==> !Slide(w, gap)[9].dco
    decreases |gap|
  {
    if gap == [] {
      assert w[1..] + gap + more == w[1..] + more;
    } else {
      GapSlots(w, gap, more);
      GapSlot(w, gap[0], gap[1..] + more, now);
      ScanGap(w[1..] + [gap[0]], gap[1..], more, !now);
    }
  }

  /** One burst after any settled line: its word, once. */
  lemma {:induction false} ScanBurst(w: Window, b: Burst, more: seq<Slot>, now: bool)
    requires Settled(w) && |b.gap| >= 1 && Low(b.gap)
    ensures Scan(w[1..] + b.gap + (Pulses(b) + more), now) ==
            [b.word] + Scan(Pulses(b)[1..] + more, Phase(Phase(now, |b.gap|), 8))
  {
    ScanGap(w, b.gap, Pulses(b) + more, now);
    ScanRunUp(Slide(w, b.gap)[1..], b, more, Phase(now, |b.gap|));
  }

  lemma {:induction false} ScanRunUp(nine: seq<Slot>, b: Burst, more: seq<Slot>, now: bool)
    requires |nine| == 9 && !nine[8].dco
    ensures Scan(nine + (Pulses(b) + more), now) == [b.word] + Scan(Pulses(b)[1..] + more, Phase(now, 8))
  {
    var h := nine + (Pulses(b) + more);
    assert h[8] == nine[8] && h[9] == Pulses(b)[0];
    ScanBefore(h, 8, now);
    assert h[8..] == [nine[8]] + Pulses(b) + more;
    ScanPulses(nine[8], b, more, Phase(now, 8));
  }

  lemma {:induction false} PulsesSettle(b: Burst)
    ensures Settled(Pulses(b))
  {
    Patterns(Pulses(b));
  }

  /**
   * Any stream of bursts, each with its own gap and hence its own phase, decodes to
   * exactly the words of the bursts, one each and in order.
   */
  lemma {:induction false} ScanStream(w: Window, bs: seq<Burst>, tail: seq<Slot>, now: bool)
    requires Settled(w) && Separate(bs) && Low(tail)
    ensures Scan(w[1..] + (StreamSlots(bs) + tail), now) == Words(bs)
    decreases |bs|
  {
    if bs == [] {
      ScanTail(w, tail, now);
      assert StreamSlots(bs) + tail == tail;
    } else {
      var b, more := bs[0], StreamSlots(bs[1..]) + tail;
      Regroup(w[1..], b.gap, Pulses(b), StreamSlots(bs[1..]), tail);
      ScanBurst(w, b, more, now);
      PulsesSettle(b);
      ScanStream(Pulses(b), bs[1..], tail, Phase(Phase(now, |b.gap|), 8));
    }
  }

  lemma {:induction false} Regroup(a: seq<Slot>, b: seq<Slot>, c: seq<Slot>, d: seq<Slot>, e: seq<Slot>)
    ensures a + (b + c + d + e) == a + b + (c + (d + e))
  {
  }

  lemma {:induction false} ScanTail(w: Window, tail: seq<Slot>, now: bool)
    requires Settled(w) && Low(tail)
    ensures Scan(w[1..] + tail, now) == []
  {
    if tail != [] {
      ScanGap(w, tail, [], now);
      assert w[1..] + tail + [] == w[1..] + tail;
    }
  }

  /** DCO alternates, beginning with `first`. */
  predicate Alternates(h: seq<Slot>, first: bool) {
    forall j :: 0 <= j < |h| ==> h[j].dco == if j % 2 == 0 then first else !first
  }

  /** An alternating window matches exactly when it begins low. */
  lemma {:induction false} AlternatingWindow(w: Window, first: bool)
    requires Alternates(w, first)
    ensures |Found(w)| == if first then 0 else 1
  {
    Patterns(w);
  }

  lemma {:induction false} AlternatesOn(h: seq<Slot>, first: bool)
    requires Alternates(h, first) && |h| >= 10
    ensures Alternates(h[..10], first) && Alternates(h[1..], !first)
  {
    forall j | 0 <= j < |h| - 1
      ensures h[1..][j].dco == if j % 2 == 0 then !first else first
    {
      assert (j + 1) % 2 == 1 - j % 2;
      assert h[1..][j] == h[j + 1];
    }
  }

  /** Looked at in the phase that sees windows beginning high, nothing matches; in the other, every window does. */
  lemma {:induction false} ScanAlternating(h: seq<Slot>, now: bool, first: bool)
    requires Alternates(h, first) && |h| >= 10
    ensures now == first ==> Scan(h, now) == []
    ensures now != first ==> |Scan(h, now)| == if now then (|h| - 8) / 2 else (|h| - 9) / 2
    decreases |h|
  {
    AlternatesOn(h, first);
    AlternatingWindow(h[..10], first);
    assert Scan(h, now) == (if now then Found(h[..10]) else []) + Scan(h[1..], !now);
    if |h| > 10 {
      ScanAlternating(h[1..], !now, !first);
    }
  }

  /**
   * The low slot between bursts is needed: with an empty gap the pulses of two bursts
   * alternate without a break. From the first burst's second slot on, one phase matches
   * five times where one word is left to come; the other phase does not match at all, so
   * the second word is lost.
   */
  lemma {:induction false} TouchingBursts(a: Burst, b: Burst)
    ensures |Scan(Pulses(a)[1..] + Pulses(b), false)| == 5
    ensures Scan(Pulses(a)[1..] + Pulses(b), true) == []
  {
    var h := Pulses(a)[1..] + Pulses(b);
    JoinAlternates(Pulses(a), Pulses(b), a, b);
    ScanAlternating(h, false, true);
    ScanAlternating(h, true, true);
  }

  lemma {:induction false} JoinAlternates(p: seq<Slot>, q: seq<Slot>, a: Burst, b: Burst)
    requires p == Pulses(a) && q == Pulses(b)
    ensures Alternates(p[1..] + q, true)
  {
    PulsesAlternate(a);
    PulsesAlternate(b);
    AlternatesOn(p, false);
    AppendAlternates(p[1..], q);
  }

  lemma {:induction false} AppendAlternates(p: seq<Slot>, q: seq<Slot>)
    requires Alternates(p, true) && Alternates(q, false) && |p| == 9
    ensures Alternates(p + q, true)
  {
    forall j | 9 <= j < |p + q|
      ensures (p + q)[j].dco == (j % 2 == 0)
    {
      assert (p + q)[j] == q[j - 9];
      assert (j - 9) % 2 == 1 - j % 2;
    }
  }

  lemma {:induction false} PulsesAlternate(b: Burst)
    ensures Alternates(Pulses(b), false)
  {
  }

  // ---------------------------------------------------------------- read clocks

  function Slots(pairs: seq<(Slot, Slot)>): seq<Slot> {
    if pairs == [] then [] else [pairs[0].0, pairs[0].1] + Slots(pairs[1..])
  }

  /** The words matched in the windows after each read clock. */
  function Matches(w: Window, pairs: seq<(Slot, Slot)>): seq<Word>
    decreases |pairs|
  {
    if pairs == [] then []
    else
      var w' := w[2..] + [pairs[0].0, pairs[0].1];
      Found(w') + Matches(w', pairs[1..])
  }

  lemma {:induction false} MatchesScan(w: Window, pairs: seq<(Slot, Slot)>)
    ensures Matches(w, pairs) == Scan(w[1..] + Slots(pairs), false)
    decreases |pairs|
  {
    if pairs != [] {
      var r, f, more := pairs[0].0, pairs[0].1, Slots(pairs[1..]);
      TwoSlots(w, r, f, more);
      assert Slots(pairs) == [r, f] + more;
      MatchesScan(w[2..] + [r, f], pairs[1..]);
    }
  }

  lemma {:induction false} TwoSlots(w: Window, r: Slot, f: Slot, more: seq<Slot>)
    ensures Scan(w[1..] + ([r, f] + more), false) ==
            Found(w[2..] + [r, f]) + Scan((w[2..] + [r, f])[1..] + more, false)
  {
    var w1: Window := w[1..] + [r];
    var w2: Window := w[2..] + [r, f];
    assert w[1..] + ([r, f] + more) == w1 + ([f] + more);
    ScanOne(w1, [f] + more, false);
    assert w1[1..] + ([f] + more) == w2 + more;
    ScanOne(w2, more, true);
  }

  /**
   * Phase-independent deserialization: however the bursts fall on the read clock,
   * exactly one clock per burst matches, and it recovers the burst's word.
   */
  lemma {:induction false} EveryBurstOnce(w: Window, pairs: seq<(Slot, Slot)>, bs: seq<Burst>, tail: seq<Slot>)
    requires Settled(w) && Separate(bs) && Low(tail)
    requires Slots(pairs) == StreamSlots(bs) + tail
    ensures Matches(w, pairs) == Words(bs)
  {
    MatchesScan(w, pairs);
    ScanStream(w, bs, tail, false);
  }

  // ---------------------------------------------------------------- output registers

  /** One read clock: the clear from the timestamp path and the two slots. */
  datatype ReadClock = ReadClock(clear: bool, r: Slot, f: Slot)

  function FeedChannel(c: Channel, ks: seq<ReadClock>): Channel {
    if ks == [] then c
    else
      var k := ks[|ks| - 1];
      NextChannel(FeedChannel(c, ks[..|ks| - 1]), k.clear, k.r, k.f)
  }

  /** The last ten slots after these clocks. */
  function Moved(w: Window, ks: seq<ReadClock>): Window {
    if ks == [] then w else Moved(w, ks[..|ks| - 1])[2..] + [ks[|ks| - 1].r, ks[|ks| - 1].f]
  }

  /** The words matched in the windows looked at since the last clear. */
  function SinceClear(w: Window, ks: seq<ReadClock>): seq<Word> {
    if ks == [] || ks[|ks| - 1].clear then []
    else SinceClear(w, ks[..|ks| - 1]) + Found(Moved(w, ks[..|ks| - 1]))
  }

  predicate Cleared(ks: seq<ReadClock>) {
    exists j :: 0 <= j < |ks| && ks[j].clear
  }

  /** The flag and the data when these words have been matched, with what was there before. */
  predicate Shows(c: Channel, chValid: bool, qData: Word, ms: seq<Word>) {
    && (c.chValid <==> chValid || ms != [])
    && c.qData == if ms == [] then qData else ms[|ms| - 1]
  }

  lemma {:induction false} MovedWindow(c: Channel, ks: seq<ReadClock>)
    ensures FeedChannel(c, ks).w == Moved(c.w, ks)
  {
    if ks != [] {
      MovedWindow(c, ks[..|ks| - 1]);
    }
  }

  lemma {:induction false} OneClock(c: Channel, k: ReadClock, chValid: bool, qData: Word, ms: seq<Word>)
    requires Shows(c, chValid, qData, ms)
    ensures var c' := NextChannel(c, k.clear, k.r, k.f);
            if k.clear then Shows(c', false, seq(9, _ => Pair(false, false)), [])
            else Shows(c', chValid, qData, ms + Found(c.w))
  {
  }

  lemma {:induction false} ClearedStep(ks: seq<ReadClock>)
    requires ks != []
    ensures Cleared(ks) <==> ks[|ks| - 1].clear || Cleared(ks[..|ks| - 1])
  {
    if Cleared(ks) && !ks[|ks| - 1].clear {
      var j :| 0 <= j < |ks| && ks[j].clear;
      assert ks[..|ks| - 1][j].clear;
    }
  }

  /**
   * The output registers, cleared at any times: the flag is up exactly when a word was matched
   * in a window looked at since the last clear, and the data is the last such word, else zeros.
   */
  lemma {:induction false} OutputKeepsLast(c: Channel, ks: seq<ReadClock>)
    ensures if Cleared(ks) then Shows(FeedChannel(c, ks), false, seq(9, _ => Pair(false, false)), SinceClear(c.w, ks))
            else Shows(FeedChannel(c, ks), c.chValid, c.qData, SinceClear(c.w, ks))
  {
    if ks != [] {
      var before, k := ks[..|ks| - 1], ks[|ks| - 1];
      OutputKeepsLast(c, before);
      MovedWindow(c, before);
      ClearedStep(ks);
      var (chValid, qData) := if Cleared(before) then (false, NoWord()) else (c.chValid, c.qData);
      OneClock(FeedChannel(c, before), k, chValid, qData, SinceClear(c.w, before));
    }
  }

  function PairsOf(ks: seq<ReadClock>): seq<(Slot, Slot)> {
    if ks == [] then [] else PairsOf(ks[..|ks| - 1]) + [(ks[|ks| - 1].r, ks[|ks| - 1].f)]
  }

  /** The window after these slots. */
  function Shifted(w: Window, pairs: seq<(Slot, Slot)>): Window
    decreases |pairs|
  {
    if pairs == [] then w else Shifted(w[2..] + [pairs[0].0, pairs[0].1], pairs[1..])
  }

  lemma {:induction false} MatchesAppend(w: Window, pairs: seq<(Slot, Slot)>, last: (Slot, Slot))
    ensures Shifted(w, pairs + [last]) == Shifted(w, pairs)[2..] + [last.0, last.1]
    ensures Matches(w, pairs + [last]) == Matches(w, pairs) + Found(Shifted(w, pairs + [last]))
    decreases |pairs|
  {
    var all := pairs + [last];
    if pairs == [] {
      assert all == [last] && all[1..] == [];
    } else {
      assert all[0] == pairs[0] && all[1..] == pairs[1..] + [last];
      MatchesAppend(w[2..] + [pairs[0].0, pairs[0].1], pairs[1..], last);
    }
  }

  lemma {:induction false} MovedIsShifted(w: Window, ks: seq<ReadClock>)
    ensures Moved(w, ks) == Shifted(w, PairsOf(ks))
  {
    if ks != [] {
      var before := ks[..|ks| - 1];
      MovedIsShifted(w, before);
      MatchesAppend(w, PairsOf(before), (ks[|ks| - 1].r, ks[|ks| - 1].f));
    }
  }

  /** One clear, in the first clock. */
  predicate ClearedFirst(ks: seq<ReadClock>) {
    ks != [] && ks[0].clear && forall j :: 1 <= j < |ks| ==> !ks[j].clear
  }

  lemma {:induction false} SinceFirstClear(w: Window, ks: seq<ReadClock>)
    requires ClearedFirst(ks)
    ensures SinceClear(w, ks) == Matches(w, PairsOf(ks[..|ks| - 1]))
  {
    if |ks| > 1 {
      var before := ks[..|ks| - 1];
      SinceFirstClear(w, before);
      var last := before[|before| - 1];
      MovedIsShifted(w, before);
      MatchesAppend(w, PairsOf(before[..|before| - 1]), (last.r, last.f));
    }
  }

  /**
   * From a clear on: when the slots looked at bring a stream of bursts, the flag is up
   * exactly when there was one, and the data is the word of the last.
   */
  lemma {:induction false} LastBurstShown(c: Channel, ks: seq<ReadClock>, bs: seq<Burst>, tail: seq<Slot>)
    requires ClearedFirst(ks) && Settled(c.w) && Separate(bs) && Low(tail)
    requires Slots(PairsOf(ks[..|ks| - 1])) == StreamSlots(bs) + tail
    ensures FeedChannel(c, ks).chValid <==> bs != []
    ensures bs != [] ==> FeedChannel(c, ks).qData == bs[|bs| - 1].word
  {
    OutputKeepsLast(c, ks);
    assert ks[0].clear && Cleared(ks);
    SinceFirstClear(c.w, ks);
    EveryBurstOnce(c.w, PairsOf(ks[..|ks| - 1]), bs, tail);
    LastWord(bs);
  }

  lemma {:induction false} LastWord(bs: seq<Burst>)
    ensures |Words(bs)| == |bs|
    ensures bs != [] ==> Words(bs)[|bs| - 1] == bs[|bs| - 1].word
  {
    if |bs| > 1 {
      LastWord(bs[1..]);
    }
  }
}
