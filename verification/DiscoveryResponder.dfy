/** Answering discovery requests (lib/discovery/discovery.c), over whole runs. */
module DiscoveryResponder {
  import opened Bits
  import opened Discovery

  const MIN_DELAY: int := 5

  type Message = m: Bytes | |m| == BEACON_LEN witness seq(BEACON_LEN, _ => 0)

  /** tDiscoveryContext. */
  datatype Context = Context(msg: Message, lastUptime: u64)

  /** The request names this string, or leaves it open. */
  predicate StringFits(beacon: Bytes, request: Bytes, n: nat)
    requires |beacon| == |request| == n + 1
  {
    request[0] == 0 || SameNoCase(beacon, request, n)
  }

  predicate Fits(beacon: Info, request: Info)
    requires |beacon.hwRev| == |request.hwRev| == HW_REV_LEN + 1 && |beacon.fwRev| == |request.fwRev| == FW_REV_LEN + 1
    requires |beacon.vendor| == |request.vendor| == VENDOR_LEN + 1
    requires |beacon.product| == |request.product| == PRODUCT_LEN + 1
  {
    && (request.deviceID == DONT_CARE || beacon.deviceID == request.deviceID)
    && (request.logicalID == DONT_CARE || beacon.logicalID == request.logicalID)
    && StringFits(beacon.hwRev, request.hwRev, HW_REV_LEN)
    && StringFits(beacon.fwRev, request.fwRev, FW_REV_LEN)
    && StringFits(beacon.vendor, request.vendor, VENDOR_LEN)
    && StringFits(beacon.product, request.product, PRODUCT_LEN)
  }

  function Stamped(msg: Message, uptime: u64): Message {
    msg[..8] + Le(uptime, 8) + msg[16..]
  }

  /** Uptimes are unsigned 64-bit numbers, and so is their difference. */
  predicate InTime(last: u64, uptime: u64) {
    (uptime - last) % TWO64 >= MIN_DELAY
  }

  predicate Due(ctx: Context, uptime: u64) {
    InTime(ctx.lastUptime, uptime)
  }

  /** discovery_process_request: the new context, and whether the message is sent. */
  function Process(ctx: Context, rx: Bytes, uptime: u64): (Context, bool) {
    var request, beacon := Decode(rx), Decode(ctx.msg);
    if request.None? || !request.value.isRequest || beacon.None? || !Due(ctx, uptime) then (ctx, false)
    else if !Fits(beacon.value, request.value) then (ctx.(lastUptime := uptime), false)
    else (Context(Stamped(ctx.msg, uptime), uptime), true)
  }

  class Responder {
    const msg: array<u8>
    var lastUptime: u64

    ghost predicate Valid() {
      msg.Length == BEACON_LEN
    }

    ghost function View(): Context
      requires Valid()
      reads this, msg
    {
      Context(msg[..], lastUptime)
    }

    /** discovery_create_beacon. */
    constructor (id: Identity)
      ensures Valid() && fresh(msg)
      ensures View() == Created(id)
    {
      msg := new u8[BEACON_LEN](_ => 0);
      lastUptime := 0;
      new;
      var ok := CreateBeaconInMem(msg, BEACON_LEN, false, 0, id);
      assert Encode(false, 0, id) + [] == Encode(false, 0, id);
    }

    method ProcessRequest(rx: array?<u8>, rxLen: u32, uptime: u64) returns (sent: bool)
      requires Valid() && (rx != null ==> rxLen <= rx.Length)
      modifies this, msg
      ensures (View(), sent) ==
              if rx == null || rxLen < BEACON_LEN then (old(View()), false)
              else old(Process(View(), rx[..rxLen], uptime))
    {
      if rx == null || rxLen < BEACON_LEN {
        return false;
      }
      ghost var was := View();
      var datagram := rx[..rxLen];
      var request := Decode(datagram);
      if request.None? || !request.value.isRequest {
        return false;
      }
      var beacon := Decode(msg[..]);
      if beacon.None? {
        return false;
      }
      if (uptime - lastUptime) % TWO64 < MIN_DELAY {
        return false;
      }
      lastUptime := uptime;
      if !Fits(beacon.value, request.value) {
        return false;
      }
      Put(msg, 8, Le(uptime, 8));
      assert View() == Context(Stamped(was.msg, uptime), uptime);
      assert Process(was, datagram, uptime) == (View(), true);
      return true;
    }
  }

  function Created(id: Identity): Context {
    Context(Encode(false, 0, id), 0)
  }

  // ---------------------------------------------------------------- matching

  lemma {:induction false} LowerOfCons(c: u8, s: Bytes)
    ensures Lower([c] + s) == [ToLower(c)] + Lower(s)
  {
  }

  /** strncasecmp on terminated fields compares whole strings, ignoring the case of ASCII letters. */
  lemma {:induction false} SameNoCaseIsEquality(a: Bytes, b: Bytes, n: nat)
    requires |a| == |b| == n + 1 && a[n] == 0 && b[n] == 0
    ensures SameNoCase(a, b, n) <==> Lower(Str(a)) == Lower(Str(b))
  {
    if n > 0 {
      if a[0] != 0 && b[0] != 0 {
        SameNoCaseIsEquality(a[1..], b[1..], n - 1);
        LowerOfCons(a[0], Str(a[1..]));
        LowerOfCons(b[0], Str(b[1..]));
        assert Lower(Str(a))[1..] == Lower(Str(a[1..])) && Lower(Str(b))[1..] == Lower(Str(b[1..]));
      } else {
        assert a[0] == 0 ==> Str(a) == [] && Lower(Str(a)) == [];
        assert b[0] == 0 ==> Str(b) == [] && Lower(Str(b)) == [];
      }
    }
  }

  /** What a request asks of one string: nothing if empty, else the same text, case aside. */
  predicate Wants(have: Bytes, want: Bytes) {
    want == [] || Lower(have) == Lower(want)
  }

  lemma {:induction false} StringFitsIsWants(beacon: Bytes, request: Bytes, n: nat)
    requires |beacon| == |request| == n + 1 && beacon[n] == 0 && request[n] == 0
    ensures StringFits(beacon, request, n) <==> Wants(Str(beacon), Str(request))
  {
    SameNoCaseIsEquality(beacon, request, n);
  }

  /** Whether the device `id` answers a request for `want`. */
  predicate Answers(id: Identity, want: Identity) {
    && (want.deviceID == DONT_CARE || id.deviceID == want.deviceID)
    && (want.logicalID == DONT_CARE || id.logicalID == want.logicalID)
    && Wants(Cut(id.hwRev, HW_REV_LEN), Cut(want.hwRev, HW_REV_LEN))
    && Wants(Cut(id.fwRev, FW_REV_LEN), Cut(want.fwRev, FW_REV_LEN))
    && Wants(Cut(id.vendor, VENDOR_LEN), Cut(want.vendor, VENDOR_LEN))
    && Wants(Cut(id.product, PRODUCT_LEN), Cut(want.product, PRODUCT_LEN))
  }

  // ---------------------------------------------------------------- runs

  datatype Event = Event(rx: Bytes, uptime: u64)

  /** The context, and the uptimes and messages of the replies so far. */
  datatype Log = Log(ctx: Context, sent: seq<(u64, Message)>)

  function LogNext(l: Log, e: Event): Log {
    var (ctx, sends) := Process(l.ctx, e.rx, e.uptime);
    Log(ctx, if sends then l.sent + [(e.uptime, ctx.msg)] else l.sent)
  }

  function Serve(id: Identity, es: seq<Event>): Log {
    if es == [] then Log(Created(id), []) else LogNext(Serve(id, es[..|es| - 1]), es[|es| - 1])
  }

  /** A reply stamps the message, nothing else changes it. */
  lemma {:induction false} MessageAfter(ctx: Context, rx: Bytes, uptime: u64)
    ensures var (ctx', sends) := Process(ctx, rx, uptime);
            ctx'.msg == if sends then Stamped(ctx.msg, uptime) else ctx.msg
  {
  }

  /** The message is always the device's beacon, with the uptime of the last reply. */
  lemma {:induction false} MessageIsBeacon(id: Identity, es: seq<Event>)
    ensures var l := Serve(id, es);
            l.ctx.msg == Encode(false, if l.sent == [] then 0 else l.sent[|l.sent| - 1].0, id)
  {
    if es != [] {
      MessageIsBeacon(id, es[..|es| - 1]);
      var l, e := Serve(id, es[..|es| - 1]), es[|es| - 1];
      MessageAfter(l.ctx, e.rx, e.uptime);
      StampedBeacon(id, if l.sent == [] then 0 else l.sent[|l.sent| - 1].0, e.uptime);
    }
  }

  lemma {:induction false} StampedBeacon(id: Identity, was: u64, uptime: u64)
    ensures Stamped(Encode(false, was, id), uptime) == Encode(false, uptime, id)
  {
  }

  /** Only bytes 8 to 15 of the message ever change. */
  lemma {:induction false} RestNeverChanges(id: Identity, es: seq<Event>)
    ensures var m, m0 := Serve(id, es).ctx.msg, Created(id).msg;
            m[..8] == m0[..8] && m[16..] == m0[16..]
  {
    if es != [] {
      RestNeverChanges(id, es[..|es| - 1]);
    }
  }

  /** Every reply decodes to the device's identity and the uptime at which it was sent. */
  lemma {:induction false} RepliesDecode(id: Identity, es: seq<Event>, k: nat)
    requires k < |Serve(id, es).sent|
    ensures var (uptime, m) := Serve(id, es).sent[k];
            Decode(m).Some? && Describes(Decode(m).value, false, uptime, id)
    decreases |es|
  {
    var l := Serve(id, es[..|es| - 1]);
    if k < |l.sent| {
      RepliesDecode(id, es[..|es| - 1], k);
    } else {
      MessageIsBeacon(id, es);
      var uptime := es[|es| - 1].uptime;
      BeaconRoundTrip(false, uptime, id, []);
      assert Encode(false, uptime, id) + [] == Encode(false, uptime, id);
    }
  }

  /** Uptime never goes back. */
  ghost predicate Forward(es: seq<Event>) {
    forall i, j :: 0 <= i <= j < |es| ==> es[i].uptime <= es[j].uptime
  }

  /** Replies lie at least 5 apart, none after the last request that came in time. */
  ghost predicate Spread(l: Log) {
    && (forall k :: 0 <= k < |l.sent| ==> 5 <= l.sent[k].0 <= l.ctx.lastUptime)
    && forall j, k :: 0 <= j < k < |l.sent| ==> l.sent[k].0 - 5 >= l.sent[j].0
  }

  lemma {:induction false} SpreadStep(l: Log, e: Event)
    requires Spread(l) && l.ctx.lastUptime <= e.uptime
    ensures Spread(LogNext(l, e)) && l.ctx.lastUptime <= LogNext(l, e).ctx.lastUptime <= e.uptime
  {
    var l' := LogNext(l, e);
    assert l'.sent == l.sent
        || (l'.sent == l.sent + [(e.uptime, l'.ctx.msg)] && e.uptime - l.ctx.lastUptime >= MIN_DELAY);
  }

  /** Rate limit: if uptime never goes back, replies are at least 5 apart, the first at uptime 5 or later. */
  lemma {:induction false} RepliesApart(id: Identity, es: seq<Event>)
    requires Forward(es)
    ensures Spread(Serve(id, es))
    ensures Serve(id, es).ctx.lastUptime <= if es == [] then 0 else es[|es| - 1].uptime
  {
    if es != [] {
      var before := es[..|es| - 1];
      RepliesApart(id, before);
      assert before != [] ==> before[|before| - 1].uptime <= es[|es| - 1].uptime;
      SpreadStep(Serve(id, before), es[|es| - 1]);
    }
  }

  /** What a datagram asks for, if it is a request at all. */
  predicate IsRequest(rx: Bytes) {
    Decode(rx).Some? && Decode(rx).value.isRequest
  }

  /** At least 5 have passed, on a 64-bit clock: an uptime before the last one counts as a turn later. */
  predicate Elapsed(last: u64, uptime: u64) {
    if uptime >= last then uptime - last >= 5 else uptime + 0x1_0000_0000_0000_0000 - last >= 5
  }

  lemma InTimeIsElapsed(last: u64, uptime: u64)
    ensures InTime(last, uptime) <==> Elapsed(last, uptime)
  {
    assert uptime >= last ==> (uptime - last) % TWO64 == uptime - last;
    assert uptime < last ==> (uptime - last) % TWO64 == uptime - last + TWO64;
  }

  /** The uptime of the last request that came in time, answered or not: 5 or more after the one before. */
  function LastInTime(es: seq<Event>): u64 {
    if es == [] then 0
    else
      var before, e := LastInTime(es[..|es| - 1]), es[|es| - 1];
      if IsRequest(e.rx) && Elapsed(before, e.uptime) then e.uptime else before
  }

  /** The device matches the record, wildcards and letter case aside. */
  predicate Matches(id: Identity, request: Info) {
    && (request.deviceID == 0xFFFF_FFFF_FFFF_FFFF || id.deviceID == request.deviceID)
    && (request.logicalID == 0xFFFF_FFFF_FFFF_FFFF || id.logicalID == request.logicalID)
    && Wants(Cut(id.hwRev, HW_REV_LEN), Str(request.hwRev))
    && Wants(Cut(id.fwRev, FW_REV_LEN), Str(request.fwRev))
    && Wants(Cut(id.vendor, VENDOR_LEN), Str(request.vendor))
    && Wants(Cut(id.product, PRODUCT_LEN), Str(request.product))
  }

  lemma {:induction false} FitsIsMatches(beacon: Info, request: Info, id: Identity, up: u64, m1: Bytes, m2: Bytes)
    requires Decode(m1) == Some(beacon) && Decode(m2) == Some(request)
    requires Describes(beacon, false, up, id)
    ensures Fits(beacon, request) <==> Matches(id, request)
  {
    StringFitsIsWants(beacon.hwRev, request.hwRev, HW_REV_LEN);
    StringFitsIsWants(beacon.fwRev, request.fwRev, FW_REV_LEN);
    StringFitsIsWants(beacon.vendor, request.vendor, VENDOR_LEN);
    StringFitsIsWants(beacon.product, request.product, PRODUCT_LEN);
  }

  lemma {:induction false} BeaconDecodes(id: Identity, es: seq<Event>)
    ensures var m, l := Decode(Serve(id, es).ctx.msg), Serve(id, es);
            m.Some? && Describes(m.value, false, if l.sent == [] then 0 else l.sent[|l.sent| - 1].0, id)
  {
    var l := Serve(id, es);
    var last := if l.sent == [] then 0 else l.sent[|l.sent| - 1].0;
    MessageIsBeacon(id, es);
    BeaconRoundTrip(false, last, id, []);
    assert Encode(false, last, id) + [] == l.ctx.msg;
  }

  lemma {:induction false} ProcessIs(ctx: Context, rx: Bytes, uptime: u64)
    requires Decode(ctx.msg).Some?
    ensures Process(ctx, rx, uptime).1 <==>
              IsRequest(rx) && Due(ctx, uptime) && Fits(Decode(ctx.msg).value, Decode(rx).value)
    ensures Process(ctx, rx, uptime).0.lastUptime ==
            if IsRequest(rx) && Due(ctx, uptime) then uptime else ctx.lastUptime
  {
  }

  lemma {:induction false} LastUptimeIsLastInTime(id: Identity, es: seq<Event>)
    ensures Serve(id, es).ctx.lastUptime == LastInTime(es)
  {
    if es != [] {
      LastUptimeIsLastInTime(id, es[..|es| - 1]);
      BeaconDecodes(id, es[..|es| - 1]);
      ProcessIs(Serve(id, es[..|es| - 1]).ctx, es[|es| - 1].rx, es[|es| - 1].uptime);
      InTimeIsElapsed(LastInTime(es[..|es| - 1]), es[|es| - 1].uptime);
    }
  }

  /**
   * After any run, any datagram whatever is answered if and only if it decodes to a
   * request, 5 has passed since the last request that came in time, and every field that
   * is not a wildcard matches. It decodes to a request when it has 256 bytes or more and
   * begins with RQUEST01, case aside.
   */
  lemma {:induction false} AnsweredExactly(id: Identity, es: seq<Event>, rx: Bytes, uptime: u64)
    ensures Process(Serve(id, es).ctx, rx, uptime).1 <==>
              && IsRequest(rx)
              && Elapsed(LastInTime(es), uptime)
              && Matches(id, Decode(rx).value)
    ensures IsRequest(rx) <==> |rx| >= 256 && Spells(rx, "RQUEST01")
  {
    Accepted(rx);
    InTimeIsElapsed(LastInTime(es), uptime);
    var l := Serve(id, es);
    BeaconDecodes(id, es);
    LastUptimeIsLastInTime(id, es);
    AnsweredAt(l.ctx, id, if l.sent == [] then 0 else l.sent[|l.sent| - 1].0, rx, uptime);
  }

  lemma {:induction false} AnsweredAt(ctx: Context, id: Identity, last: u64, rx: Bytes, uptime: u64)
    requires Decode(ctx.msg).Some? && Describes(Decode(ctx.msg).value, false, last, id)
    ensures Process(ctx, rx, uptime).1 <==> IsRequest(rx) && Due(ctx, uptime) && Matches(id, Decode(rx).value)
  {
    ProcessIs(ctx, rx, uptime);
    if IsRequest(rx) {
      FitsIsMatches(Decode(ctx.msg).value, Decode(rx).value, id, last, ctx.msg, rx);
    }
  }

  lemma {:induction false} WantedIsMatched(id: Identity, want: Identity, up: u64, request: Info)
    requires Describes(request, true, up, want)
    ensures Matches(id, request) <==> Answers(id, want)
  {
  }

  /** In particular a request made by the encoder for `want`, whatever follows it in the datagram. */
  lemma {:induction false} EncodedRequestAnswered(
      id: Identity, es: seq<Event>, want: Identity, up: u64, rest: Bytes, uptime: u64)
    ensures Process(Serve(id, es).ctx, Encode(true, up, want) + rest, uptime).1 <==>
              Elapsed(LastInTime(es), uptime) && Answers(id, want)
  {
    var rx := Encode(true, up, want) + rest;
    BeaconRoundTrip(true, up, want, rest);
    AnsweredExactly(id, es, rx, uptime);
    WantedIsMatched(id, want, up, Decode(rx).value);
  }

  // ---------------------------------------------------------------- a request that is due but does not match

  /** Asks for any device. */
  function Anyone(): Identity { Identity(DONT_CARE, DONT_CARE, None, None, None, None) }

  /** Asks for a device that is not `id`. */
  function SomeoneElse(id: Identity): Identity {
    Anyone().(deviceID := if id.deviceID == 0 then 1 else 0)
  }

  /** A request made by the encoder. */
  function Ask(want: Identity): Bytes { Encode(true, 0, want) + [] }

  lemma {:induction false} AskIsRequest(want: Identity)
    ensures IsRequest(Ask(want))
  {
    BeaconRoundTrip(true, 0, want, []);
  }

  lemma {:induction false} AskAnswered(id: Identity, es: seq<Event>, want: Identity, uptime: u64)
    ensures Process(Serve(id, es).ctx, Ask(want), uptime).1 <==> Elapsed(LastInTime(es), uptime) && Answers(id, want)
  {
    EncodedRequestAnswered(id, es, want, 0, [], uptime);
  }

  lemma {:induction false} OneEvent(id: Identity, e: Event)
    requires IsRequest(e.rx) && Elapsed(0, e.uptime)
    ensures LastInTime([]) == 0 && LastInTime([e]) == e.uptime
    ensures !Process(Serve(id, []).ctx, e.rx, e.uptime).1 ==> Serve(id, [e]).sent == []
  {
    assert [e][..0] == [];
    assert Serve(id, [e]) == LogNext(Serve(id, []), e);
  }

  lemma {:induction false} WhoAnswers(id: Identity)
    ensures Answers(id, Anyone()) && !Answers(id, SomeoneElse(id))
  {
  }

  lemma {:induction false} BlockedBy(id: Identity, e: Event, want: Identity, later: u64)
    requires IsRequest(e.rx) && !Process(Serve(id, []).ctx, e.rx, e.uptime).1 && Answers(id, want)
    requires 5 <= e.uptime <= later < e.uptime + 5
    ensures Serve(id, [e]).sent == []
    ensures !Process(Serve(id, [e]).ctx, Ask(want), later).1 && Process(Serve(id, []).ctx, Ask(want), later).1
  {
    OneEvent(id, e);
    AskAnswered(id, [e], want, later);
    AskAnswered(id, [], want, later);
  }

  /**
   * Any device, any uptime from 5 on: a request for someone else is not answered, and makes
   * a request for anyone that comes less than 5 later go unanswered, which alone would be.
   */
  lemma {:induction false} OtherRequestBlocks(id: Identity, uptime: u64, later: u64)
    requires 5 <= uptime <= later < uptime + 5
    ensures var es := [Event(Ask(SomeoneElse(id)), uptime)];
            && Serve(id, es).sent == []
            && !Process(Serve(id, es).ctx, Ask(Anyone()), later).1
            && Process(Serve(id, []).ctx, Ask(Anyone()), later).1
  {
    WhoAnswers(id);
    AskIsRequest(SomeoneElse(id));
    AskAnswered(id, [], SomeoneElse(id), uptime);
    BlockedBy(id, Event(Ask(SomeoneElse(id)), uptime), Anyone(), later);
  }
}
