/**
 * What the ring is for, without its registers: a framer that cuts the accepted
 * input words into frames, and the words a frame occupies on the wire.
 */
module Framing {
  import opened Bits
  import opened PacketRing

  /** Why a frame ended. `DisabledInGap`: enable fell on a clock that brought no word. */
  datatype Closing = Full | LastWord | Disabled | DisabledInGap

  /** A frame under construction: timestamp and num_samples of its first word's clock. */
  datatype Open = Open(stamp: u64, limit: u16, words: seq<u64>)

  datatype Frame = Frame(number: u32, open: Open, closing: Closing)

  datatype Framer = Framer(frames: seq<Frame>, current: Option<Open>)

  const NO_FRAMES := Framer([], None)

  /** The number of words after which a frame is full. */
  function Capacity(limit: u16): (c: int)
    requires limit >= 1
    ensures 2 <= c <= MAX_SAMPLES
  {
    var m := if limit > MAX_SAMPLES then MAX_SAMPLES else limit;
    if m < 2 then 2 else m
  }

  /** Whether a word offered this clock becomes part of a frame. */
  predicate Accepts(f: Framer, ready: bool, i: Input) {
    ready && i.tvalid && (i.ena || f.current.Some?)
  }

  function Close(f: Framer, o: Open, why: Closing): Framer {
    Framer(f.frames + [Frame((|f.frames| + 1) % TWO32, o, why)], None)
  }

  /** One clock of the framer; `ready` is the TREADY the ring showed. */
  function FramerNext(f: Framer, ready: bool, i: Input): Framer {
    if i.rst then NO_FRAMES
    else if f.current.None? then
      if Accepts(f, ready, i) then f.(current := Some(Open(i.timestamp, i.numSamples, [i.tdata]))) else f
    else
      var o := f.current.value;
      if Accepts(f, ready, i) then
        var o' := o.(words := o.words + [i.tdata]);
        if i.tlast then Close(f, o', LastWord)
        else if !i.ena then Close(f, o', Disabled)
        else if o.limit >= 1 && |o'.words| >= Capacity(o.limit) then Close(f, o', Full)
        else f.(current := Some(o'))
      else if !i.ena then Close(f, o, DisabledInGap)
      else f
  }

  /** The length field: words after the header, one too many when the frame was closed in a gap. */
  function LengthField(fr: Frame): int {
    |fr.open.words| + 1 + if fr.closing.DisabledInGap? then 1 else 0
  }

  /** Data words; TLAST only on the final one. */
  function DataWords(ws: seq<u64>): (r: seq<Word>)
    ensures |r| == |ws|
  {
    seq(|ws|, j requires 0 <= j < |ws| => Word(j == |ws| - 1, ws[j]))
  }

  /** Header, timestamp, data. */
  function Encode(fr: Frame): (r: seq<Word>)
    ensures |r| == |fr.open.words| + 2
  {
    [Word(false, Header(fr.number, LengthField(fr) % TWO16)), Word(false, fr.open.stamp)]
    + DataWords(fr.open.words)
  }

  /** The wire image of the first `k` frames. */
  function FlatTo(frames: seq<Frame>, k: nat): seq<Word>
    requires k <= |frames|
  {
    if k == 0 then [] else FlatTo(frames, k - 1) + Encode(frames[k - 1])
  }

  /** The data words of all frames, in order. */
  function Payload(frames: seq<Frame>): seq<u64> {
    if frames == [] then [] else Payload(frames[..|frames| - 1]) + frames[|frames| - 1].open.words
  }

  function CurrentWords(f: Framer): seq<u64> {
    if f.current.Some? then f.current.value.words else []
  }

  lemma {:induction false} FlatAppend(frames: seq<Frame>, x: Frame, k: nat)
    requires k <= |frames|
    ensures FlatTo(frames + [x], k) == FlatTo(frames, k)
  {
    if k > 0 {
      FlatAppend(frames, x, k - 1);
    }
  }

  lemma {:induction false} FlatPrefix(frames: seq<Frame>, a: nat, b: nat)
    requires a <= b <= |frames|
    ensures FlatTo(frames, a) <= FlatTo(frames, b)
  {
    if a < b {
      FlatPrefix(frames, a, b - 1);
    }
  }

  ghost predicate NonEmpty(frames: seq<Frame>) {
    forall k :: 0 <= k < |frames| ==> 1 <= |frames[k].open.words|
  }

  /** Every frame takes at least three words. */
  lemma {:induction false} FlatGrows(frames: seq<Frame>, a: nat, b: nat)
    requires a <= b <= |frames|
    requires NonEmpty(frames)
    ensures |FlatTo(frames, b)| - |FlatTo(frames, a)| >= 3 * (b - a)
  {
    if a < b {
      FlatGrows(frames, a, b - 1);
    }
  }

  /** The j-th word of frame d in the flat image. */
  lemma {:induction false} FlatAt(frames: seq<Frame>, d: nat, b: nat, j: nat)
    requires d < b <= |frames|
    requires j < |Encode(frames[d])|
    ensures |FlatTo(frames, d)| + j < |FlatTo(frames, b)|
    ensures FlatTo(frames, b)[|FlatTo(frames, d)| + j] == Encode(frames[d])[j]
  {
    FlatPrefix(frames, d + 1, b);
    assert FlatTo(frames, d + 1) == FlatTo(frames, d) + Encode(frames[d]);
  }
}
