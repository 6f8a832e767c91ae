/**
 * Loading a delay value (hdl/src/delay_reset_seq.sv): the five-state sequencer,
 * with the delay primitive reduced to the value it last loaded.
 */
module DelaySequencer {
  import opened Bits

  const DELAY_WAIT: u8 := 20

  type Taps = x: int | 0 <= x < 512

  datatype SeqState = Reset | Idle | StartLoad | Load | FinishLoad

  /** The registers, and `loaded`: the value inside the delay primitive. */
  datatype State = State(state: SeqState, load: bool, done: bool, enVtc: bool, count: u8, current: Taps, loaded: Taps)

  datatype Input = Input(rst: bool, rdy: bool, loadValue: Taps)

  function Next(s: State, i: Input): State {
    if i.rst then State(Reset, false, false, true, 0, 0, 0)
    else
      // LOAD high at the edge takes CNTVALUEIN, the held value
      var s0 := s.(loaded := if s.load then s.current else s.loaded);
      match s.state
      case Reset =>
        s0.(state := if i.rdy then Idle else Reset, enVtc := true, load := false, done := false,
            count := 0, current := 0)
      case Idle =>
        s0.(state := if s.current == i.loadValue then Idle else StartLoad, enVtc := false, load := false,
            done := s.current == i.loadValue, count := DELAY_WAIT, current := i.loadValue)
      case StartLoad =>
        s0.(state := if s.count > 0 then StartLoad else Load, enVtc := false, load := false, done := false,
            count := (s.count - 1) % 256)
      case Load =>
        s0.(state := FinishLoad, enVtc := false, load := true, done := false, count := DELAY_WAIT)
      case FinishLoad =>
        s0.(state := if s.count > 0 then FinishLoad else Idle, enVtc := false, load := false, done := false,
            count := (s.count - 1) % 256)
  }

  class Sequencer {
    var state: SeqState
    var load: bool
    var done: bool
    var enVtc: bool
    var count: u8
    var current: Taps
    var loaded: Taps

    constructor ()
    {
      state := Reset;
    }

    ghost function View(): State
      reads this
    {
      State(state, load, done, enVtc, count, current, loaded)
    }

    method Step(i: Input)
      modifies this
      ensures View() == Next(old(View()), i)
    {
      if i.rst {
        state, load, done, enVtc, count, current, loaded := Reset, false, false, true, 0, 0, 0;
        return;
      }
      if load {
        loaded := current;
      }
      load, done := false, false;
      match state
      case Reset =>
        enVtc, count, current := true, 0, 0;
        if i.rdy {
          state := Idle;
        }
      case Idle =>
        enVtc, count := false, DELAY_WAIT;
        if current == i.loadValue {
          done := true;
        } else {
          state, current := StartLoad, i.loadValue;
        }
      case StartLoad =>
        enVtc := false;
        if count == 0 {
          state := Load;
        }
        count := (count - 1) % 256;
      case Load =>
        enVtc, state, load, count := false, FinishLoad, true, DELAY_WAIT;
      case FinishLoad =>
        enVtc := false;
        if count == 0 {
          state := Idle;
        }
        count := (count - 1) % 256;
    }
  }

  // ---------------------------------------------------------------- runs

  /** A run with its number of changes of the held value and of load pulses since reset. */
  datatype Trace = Trace(s: State, changes: nat, pulses: nat)

  function TraceNext(t: Trace, i: Input): Trace {
    Trace(
      Next(t.s, i),
      if i.rst then 0 else if t.s.state.Idle? && t.s.current != i.loadValue then t.changes + 1 else t.changes,
      if i.rst then 0 else if t.s.load then t.pulses + 1 else t.pulses)
  }

  function Feed(t: Trace, ins: seq<Input>): Trace {
    if ins == [] then t else TraceNext(Feed(t, ins[..|ins| - 1]), ins[|ins| - 1])
  }

  ghost predicate Reachable(t: Trace) {
    exists power: State, i: Input, ins: seq<Input> :: i.rst && t == Feed(Trace(Next(power, i), 0, 0), ins)
  }

  /** The held value is the loaded one except between a change and its load pulse. */
  predicate Inv(t: Trace) {
    && (t.s.state.Reset? ==> t.s.current == 0)
    && (t.s.state.StartLoad? || t.s.state.FinishLoad? ==> t.s.count <= DELAY_WAIT)
    && (t.s.load ==> t.s.state.FinishLoad? && t.s.count == DELAY_WAIT)
    && (t.s.state.FinishLoad? && t.s.count == DELAY_WAIT ==> t.s.load)
    && (t.s.state.Reset? || t.s.state.Idle? || (t.s.state.FinishLoad? && !t.s.load) ==> t.s.current == t.s.loaded)
    && t.changes == t.pulses + (if t.s.state.StartLoad? || t.s.state.Load? || t.s.load then 1 else 0)
    && (t.s.done ==> t.s.state.Idle?)
  }

  lemma {:induction false} InvFeed(t: Trace, ins: seq<Input>)
    requires Inv(t)
    ensures Inv(Feed(t, ins))
  {
    if ins != [] {
      InvFeed(t, ins[..|ins| - 1]);
    }
  }

  lemma {:induction false} ReachableInv(t: Trace)
    requires Reachable(t)
    ensures Inv(t)
  {
    var power: State, i: Input, ins: seq<Input> :| i.rst && t == Feed(Trace(Next(power, i), 0, 0), ins);
    InvFeed(Trace(Next(power, i), 0, 0), ins);
  }

  /**
   * In IDLE the held value is the one last loaded; through START_LOAD, LOAD and
   * FINISH_LOAD it does not change; every change has exactly one load pulse, given
   * by the time the sequencer is idle again; `done` is only shown when idle.
   */
  lemma {:induction false} LoadsOnce(t: Trace, i: Input)
    requires Reachable(t) && !i.rst
    ensures t.s.state.Idle? ==> t.s.current == t.s.loaded && t.changes == t.pulses
    ensures t.s.state.StartLoad? || t.s.state.Load? || t.s.state.FinishLoad? ==> Next(t.s, i).current == t.s.current
    ensures t.changes - 1 <= t.pulses <= t.changes
    ensures t.s.done ==> t.s.state.Idle? && t.s.loaded == t.s.current
  {
    ReachableInv(t);
  }

  // ---------------------------------------------------------------- waiting for rdy

  /** rdy has been high since the last reset. */
  predicate SawReady(ins: seq<Input>) {
    ins != [] && !ins[|ins| - 1].rst && (ins[|ins| - 1].rdy || SawReady(ins[..|ins| - 1]))
  }

  /** The last clock still found the sequencer waiting, or reset it. */
  predicate Held(ins: seq<Input>) {
    ins == [] || ins[|ins| - 1].rst || !SawReady(ins[..|ins| - 1])
  }

  /**
   * After a reset clock, whatever the registers held, with further resets at any times: RESET is
   * left in the clock in which rdy is first high, and not before; EN_VTC is high until the clock
   * after and low from then on, so it is low in every load; no load pulse comes earlier.
   */
  lemma {:induction false} WaitsForReady(power: State, i: Input, ins: seq<Input>)
    requires i.rst
    ensures var t := Feed(Trace(Next(power, i), 0, 0), ins);
            && (t.s.state.Reset? <==> !SawReady(ins))
            && (t.s.enVtc <==> Held(ins))
            && (t.s.load || t.s.state.StartLoad? || t.s.state.Load? || t.s.state.FinishLoad? ==> !t.s.enVtc)
            && (!SawReady(ins) ==> !t.s.load && !t.s.done && t.pulses == 0)
  {
    if ins != [] {
      WaitsForReady(power, i, ins[..|ins| - 1]);
    }
  }

  // ---------------------------------------------------------------- progress

  /** Clocks until `done` shows the value `v`, from any state with `rdy` high. */
  function Remaining(s: State, v: Taps): nat {
    var load := 2 * DELAY_WAIT + 3;
    var idle := if s.current == v then 1 else load + 2;
    match s.state
    case Reset => 1 + if v == 0 then 1 else load + 2
    case Idle => idle
    case StartLoad => s.count + 1 + 1 + DELAY_WAIT + 1 + idle
    case Load => 1 + DELAY_WAIT + 1 + idle
    case FinishLoad => s.count + 1 + idle
  }

  /** Every clock counts down by one until it is time; then `done` is up with the value loaded. */
  lemma {:induction false} CountsDown(t: Trace, i: Input)
    requires Inv(t) && !i.rst && i.rdy
    ensures var t' := TraceNext(t, i);
            if Remaining(t.s, i.loadValue) > 1 then
              Remaining(t'.s, i.loadValue) == Remaining(t.s, i.loadValue) - 1 && !t'.s.done
            else
              && t'.s.done && t'.s.loaded == i.loadValue && t'.s.current == i.loadValue
              && Remaining(t'.s, i.loadValue) == 1
  {
  }

  /**
   * From any reachable state, once rdy is high and load_value stays at v, `done` rises
   * after exactly `Remaining` clocks, never more than 88, with v loaded, and stays up.
   */
  lemma {:induction false} DoneRises(t: Trace, ins: seq<Input>, v: Taps)
    requires Reachable(t)
    requires forall k :: 0 <= k < |ins| ==> !ins[k].rst && ins[k].rdy && ins[k].loadValue == v
    ensures Remaining(t.s, v) <= 88 && (t.s.state.Idle? && t.s.current != v ==> Remaining(t.s, v) == 45)
    ensures 0 < |ins| < Remaining(t.s, v) ==> !Feed(t, ins).s.done
    ensures |ins| >= Remaining(t.s, v) ==> Feed(t, ins).s.done && Feed(t, ins).s.loaded == v
  {
    ReachableInv(t);
    Progress(t, ins, v);
  }

  lemma {:induction false} Progress(t: Trace, ins: seq<Input>, v: Taps)
    requires Inv(t)
    requires forall k :: 0 <= k < |ins| ==> !ins[k].rst && ins[k].rdy && ins[k].loadValue == v
    ensures Inv(Feed(t, ins))
    ensures Remaining(Feed(t, ins).s, v) == if |ins| < Remaining(t.s, v) then Remaining(t.s, v) - |ins| else 1
    ensures 0 < |ins| < Remaining(t.s, v) ==> !Feed(t, ins).s.done
    ensures |ins| >= Remaining(t.s, v) ==> Feed(t, ins).s.done && Feed(t, ins).s.loaded == v
  {
    if ins != [] {
      var before := ins[..|ins| - 1];
      Progress(t, before, v);
      CountsDown(Feed(t, before), ins[|ins| - 1]);
    }
  }

  // ---------------------------------------------------------------- the load pulse

  /** Where the sequencer is `j` clocks after an idle one saw a new value. */
  predicate Underway(s: State, j: nat) {
    if j <= 21 then s.state.StartLoad? && s.count == 21 - j && !s.load
    else if j == 22 then s.state.Load? && !s.load
    else if j <= 43 then s.state.FinishLoad? && s.count == 43 - j && (s.load <==> j == 23)
    else s.state.Idle? && !s.load
  }

  /**
   * From idle with a new load_value v that stays: EN_VTC is low and v is held from the first
   * clock on, LOAD is high for one clock, the 23rd, and `done` comes back at the 45th.
   */
  lemma {:induction false} LoadPulse(t: Trace, ins: seq<Input>, v: Taps)
    requires t.s.state.Idle? && t.s.current != v && |ins| >= 1
    requires forall k :: 0 <= k < |ins| ==> !ins[k].rst && ins[k].loadValue == v
    ensures var s := Feed(t, ins).s;
            && Underway(s, |ins|) && s.current == v && !s.enVtc
            && (s.load <==> |ins| == 23) && (s.done <==> |ins| >= 45)
  {
    if |ins| == 1 {
      assert Feed(t, ins[..0]) == t;
    } else {
      LoadPulse(t, ins[..|ins| - 1], v);
    }
  }
}
