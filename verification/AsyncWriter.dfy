/** The asynchronous database writer: a bounded channel, a loop that collects batches and
    hands them over, and a shutdown sentinel. Senders and loop interleave freely. */
module AsyncWriter {
  import opened Collections

  const CHANNEL_CAPACITY := 1000
  const BATCH_SIZE := 100

  /** A write operation; what it writes does not matter here. */
  datatype WriteOp = Write(what: nat) | Shutdown

  /** Where the loop stands: filling a batch, about to flush it, draining the channel after
      the last regular flush, or gone. */
  datatype Phase = Filling | Flushing(exit: bool) | Draining | LastFlush | Exited

  /** `handed` holds the batches given to the database so far. The awaited sentinel of
      `shutdown` may be waiting for room, or already own the next free place. */
  datatype State = State(
    queue: seq<WriteOp>, sendersOpen: bool, waiting: bool, reserved: bool,
    batch: seq<WriteOp>, handed: seq<seq<WriteOp>>, dropped: nat, phase: Phase)

  function Start(): State { State([], true, false, false, [], [], 0, Filling) }

  // ---------------------------------------------------------------------
  // Atomic steps
  // ---------------------------------------------------------------------

  /** Send: a caller's non-blocking send. ShutdownCall: the awaited send of the sentinel is first
      polled. SentinelReady: it is polled again. SendersGone: the last sender is dropped.
      Loop: the loop takes its next step. Tick: its interval fires. */
  datatype Event = Send(op: WriteOp) | ShutdownCall | SentinelReady | SendersGone | Loop | Tick

  predicate Full(s: State) { |s.queue| + (if s.reserved then 1 else 0) >= CHANNEL_CAPACITY }

  /** An event the state allows. Receiving has priority over the interval, which fires only
      while the loop waits for an empty channel. */
  predicate Enabled(s: State, e: Event) {
    match e
    case Send(_) => s.sendersOpen
    case ShutdownCall => s.sendersOpen && !s.waiting
    case SentinelReady => s.sendersOpen && s.waiting && (s.reserved || s.phase.Exited?)
    case SendersGone => s.sendersOpen && !s.waiting
    case Loop => CanStep(s)
    case Tick => s.phase.Filling? && |s.batch| < BATCH_SIZE && s.queue == [] && s.sendersOpen
  }

  predicate CanStep(s: State) {
    match s.phase
    case Filling => |s.batch| >= BATCH_SIZE || s.queue != [] || !s.sendersOpen
    case Exited => false
    case _ => true
  }

  /** Taking one op from the channel hands its place to a waiting sentinel. */
  function Received(s: State): State
    requires s.queue != []
  {
    s.(queue := s.queue[1..], reserved := s.reserved || s.waiting)
  }

  function HandOver(s: State): State {
    if s.batch == [] then s else s.(handed := s.handed + [s.batch], batch := [])
  }

  function LoopStep(s: State): State
    requires CanStep(s)
  {
    match s.phase
    case Filling =>
      if |s.batch| >= BATCH_SIZE then s.(phase := Flushing(false))
      else if s.queue == [] then s.(phase := Flushing(true))
      else if s.queue[0].Shutdown? then Received(s).(phase := Flushing(true))
      else Received(s).(batch := s.batch + [s.queue[0]])
    case Flushing(exit) => HandOver(s).(phase := if exit then Draining else Filling)
    case Draining =>
      if s.queue == [] then s.(phase := LastFlush)
      else if s.queue[0].Shutdown? then Received(s)
      else Received(s).(batch := s.batch + [s.queue[0]])
    case LastFlush => HandOver(s).(phase := Exited)
  }

  function Next(s: State, e: Event): State
    requires Enabled(s, e)
  {
    match e
    case Send(op) =>
      if s.phase.Exited? then s
      else if Full(s) then s.(dropped := s.dropped + 1)
      else s.(queue := s.queue + [op])
    case ShutdownCall =>
      if s.phase.Exited? then s
      else if Full(s) then s.(waiting := true)
      else s.(queue := s.queue + [Shutdown])
    case SentinelReady =>
      if s.phase.Exited? then s.(waiting := false, reserved := false)
      else s.(queue := s.queue + [Shutdown], waiting := false, reserved := false)
    case SendersGone => s.(sendersOpen := false)
    case Loop => LoopStep(s)
    case Tick => s.(phase := Flushing(false))
  }

  // ---------------------------------------------------------------------
  // Runs and what is observed of them
  // ---------------------------------------------------------------------

  /** A run is any sequence of events each allowed when it happens. */
  predicate IsRun(s: State, events: seq<Event>)
    decreases |events|
  {
    events == [] || (Enabled(s, events[0]) && IsRun(Next(s, events[0]), events[1..]))
  }

  function Run(s: State, events: seq<Event>): State
    requires IsRun(s, events)
    decreases |events|
  {
    if events == [] then s else Run(Next(s, events[0]), events[1..])
  }

  /** The ops one event puts into the channel. */
  function Accepts(s: State, e: Event): seq<WriteOp> {
    if s.phase.Exited? then []
    else match e
      case Send(op) => if Full(s) then [] else [op]
      case ShutdownCall => if Full(s) then [] else [Shutdown]
      case SentinelReady => [Shutdown]
      case _ => []
  }

  function Accepted(s: State, events: seq<Event>): seq<WriteOp>
    requires IsRun(s, events)
    decreases |events|
  {
    if events == [] then [] else Accepts(s, events[0]) + Accepted(Next(s, events[0]), events[1..])
  }

  /** How often a non-blocking send met a full channel. */
  function Rejections(s: State, events: seq<Event>): nat
    requires IsRun(s, events)
    decreases |events|
  {
    if events == [] then 0
    else (if events[0].Send? && !s.phase.Exited? && Full(s) then 1 else 0) + Rejections(Next(s, events[0]), events[1..])
  }

  /** The ops the loop takes out of the channel. */
  function TakesOut(s: State, e: Event): seq<WriteOp> {
    if e.Loop? && s.queue != [] && (s.phase.Draining? || (s.phase.Filling? && |s.batch| < BATCH_SIZE))
    then [s.queue[0]] else []
  }

  function TakenOut(s: State, events: seq<Event>): seq<WriteOp>
    requires IsRun(s, events)
    decreases |events|
  {
    if events == [] then [] else TakesOut(s, events[0]) + TakenOut(Next(s, events[0]), events[1..])
  }

  /** Ops accepted after the drain found the channel empty and before the loop was gone. */
  function Late(s: State, events: seq<Event>): seq<WriteOp>
    requires IsRun(s, events)
    decreases |events|
  {
    if events == [] then []
    else (if s.phase.LastFlush? then Accepts(s, events[0]) else []) + Late(Next(s, events[0]), events[1..])
  }

  /** The data ops, without sentinels. */
  function Data(ops: seq<WriteOp>): seq<WriteOp> { Filter((op: WriteOp) => op.Write?, ops) }

  function Flat(batches: seq<seq<WriteOp>>): seq<WriteOp> {
    if batches == [] then [] else Flat(batches[..|batches| - 1]) + batches[|batches| - 1]
  }

  /** What the loop holds or has handed over, in order. */
  function Collected(s: State): seq<WriteOp> { Flat(s.handed) + s.batch }

  // ---------------------------------------------------------------------
  // Conservation
  // ---------------------------------------------------------------------

  /** The batch holds data only; the channel is within its capacity, counting a promised place. */
  ghost predicate Valid(s: State) {
    && (forall op :: op in s.batch ==> op.Write?)
    && |s.queue| + (if s.reserved then 1 else 0) <= CHANNEL_CAPACITY
    && (s.reserved ==> s.waiting)
    && (s.phase.Filling? || s.phase == Flushing(false) ==> |s.batch| <= BATCH_SIZE)
    && (s.phase == Flushing(true) ==> |s.batch| <= BATCH_SIZE)
    && (s.phase.Exited? ==> s.batch == [])
    && (!s.sendersOpen ==> !s.waiting)
  }

  lemma DataConcat(a: seq<WriteOp>, b: seq<WriteOp>)
    ensures Data(a + b) == Data(a) + Data(b)
  {
    FilterConcat((op: WriteOp) => op.Write?, a, b);
  }

  lemma DataOne(op: WriteOp)
    ensures Data([op]) == if op.Write? then [op] else []
  {
  }

  lemma DataNone()
    ensures Data([]) == []
  {
  }

  lemma CollectedHandOver(s: State)
    ensures Collected(HandOver(s)) == Collected(s)
  {
  }

  lemma StepValid(s: State, e: Event)
    requires Valid(s) && Enabled(s, e)
    ensures Valid(Next(s, e))
  {
  }

  /** One step of the channel: what was there and what comes in is what goes out and what stays. */
  lemma StepChannel(s: State, e: Event)
    requires Enabled(s, e)
    ensures s.queue + Accepts(s, e) == TakesOut(s, e) + Next(s, e).queue
  {
    if e.Loop? {
      LoopTakesOut(s);
    } else {
      SendersPutIn(s, e);
    }
  }

  lemma LoopTakesOut(s: State)
    requires CanStep(s)
    ensures s.queue == TakesOut(s, Loop) + LoopStep(s).queue
  {
    if s.queue != [] { assert s.queue == [s.queue[0]] + s.queue[1..]; }
  }

  lemma SendersPutIn(s: State, e: Event)
    requires Enabled(s, e) && !e.Loop?
    ensures Next(s, e).queue == s.queue + Accepts(s, e)
  {
  }

  /** What the loop takes out it keeps, sentinels apart. */
  lemma StepCollects(s: State, e: Event)
    requires Enabled(s, e)
    ensures Collected(Next(s, e)) == Collected(s) + Data(TakesOut(s, e))
  {
    if e.Loop? {
      LoopCollects(s);
    } else {
      DataNone();
    }
  }

  lemma LoopCollects(s: State)
    requires CanStep(s)
    ensures Collected(LoopStep(s)) == Collected(s) + Data(TakesOut(s, Loop))
  {
    hide Flat, Data;
    if TakesOut(s, Loop) != [] {
      DataOne(s.queue[0]);
      assert Flat(s.handed) + (s.batch + [s.queue[0]]) == Collected(s) + [s.queue[0]];
    } else {
      DataNone();
      CollectedHandOver(s);
    }
  }

  lemma {:induction false} ChannelIsFifo(s: State, events: seq<Event>)
    requires IsRun(s, events)
    ensures s.queue + Accepted(s, events) == TakenOut(s, events) + Run(s, events).queue
    decreases |events|
  {
    if events != [] {
      var n := Next(s, events[0]);
      var a, out := Accepts(s, events[0]), TakesOut(s, events[0]);
      hide Next, Enabled, Accepts, TakesOut;
      StepChannel(s, events[0]);
      ChannelIsFifo(n, events[1..]);
      Regroup(s.queue, a, Accepted(n, events[1..]), out, n.queue, TakenOut(n, events[1..]), Run(n, events[1..]).queue);
    }
  }

  lemma Regroup<T>(q: seq<T>, a: seq<T>, later: seq<T>, out: seq<T>, r: seq<T>, outs: seq<T>, t: seq<T>)
    requires q + a == out + r && r + later == outs + t
    ensures q + (a + later) == (out + outs) + t
  {
    assert q + (a + later) == (q + a) + later;
    assert (out + r) + later == out + (r + later);
    assert out + (outs + t) == (out + outs) + t;
  }

  lemma {:induction false} CollectedIsTakenOut(s: State, events: seq<Event>)
    requires IsRun(s, events)
    ensures Collected(Run(s, events)) == Collected(s) + Data(TakenOut(s, events))
    decreases |events|
  {
    if events != [] {
      var n := Next(s, events[0]);
      StepCollects(s, events[0]);
      CollectedIsTakenOut(n, events[1..]);
      DataConcat(TakesOut(s, events[0]), TakenOut(n, events[1..]));
    }
  }

  /** In every interleaving the accepted data ops, in order, are those handed over, then the
      current batch, then the channel: none is lost, repeated or overtaken. */
  lemma Conservation(events: seq<Event>)
    requires IsRun(Start(), events)
    ensures var t := Run(Start(), events);
            Data(Accepted(Start(), events)) == Flat(t.handed) + t.batch + Data(t.queue)
  {
    hide Run, IsRun, Accepted, TakenOut, Data;
    var t := Run(Start(), events);
    ChannelIsFifo(Start(), events);
    CollectedIsTakenOut(Start(), events);
    assert Accepted(Start(), events) == TakenOut(Start(), events) + t.queue;
    DataConcat(TakenOut(Start(), events), t.queue);
  }

  /** The drop counter counts the sends that met a full channel, and nothing else. */
  lemma {:induction false} DroppedIsRejections(s: State, events: seq<Event>)
    requires IsRun(s, events)
    ensures Run(s, events).dropped == s.dropped + Rejections(s, events)
    decreases |events|
  {
    if events != [] {
      DroppedIsRejections(Next(s, events[0]), events[1..]);
    }
  }

  lemma {:induction false} RunValid(s: State, events: seq<Event>)
    requires Valid(s) && IsRun(s, events)
    ensures Valid(Run(s, events))
    decreases |events|
  {
    if events != [] {
      StepValid(s, events[0]);
      RunValid(Next(s, events[0]), events[1..]);
    }
  }

  // ---------------------------------------------------------------------
  // Batches
  // ---------------------------------------------------------------------

  /** No empty batch is handed over, and only the very last one may exceed the batch size. */
  ghost predicate BatchesBounded(s: State) {
    forall k :: 0 <= k < |s.handed| ==>
      0 < |s.handed[k]| && (|s.handed[k]| <= BATCH_SIZE || (s.phase.Exited? && k == |s.handed| - 1))
  }

  lemma {:induction false} BatchesStayBounded(s: State, events: seq<Event>)
    requires Valid(s) && BatchesBounded(s) && IsRun(s, events)
    ensures BatchesBounded(Run(s, events))
    decreases |events|
  {
    if events != [] {
      StepValid(s, events[0]);
      BatchesStayBounded(Next(s, events[0]), events[1..]);
    }
  }

  // ---------------------------------------------------------------------
  // Shutdown
  // ---------------------------------------------------------------------

  predicate Leaving(phase: Phase) { phase == Flushing(true) || phase.Draining? || phase.LastFlush? || phase.Exited? }

  /** The loop leaves because it took out a sentinel, or because the channel was closed and empty. */
  lemma {:induction false} WhyLeaving(s: State, events: seq<Event>)
    requires IsRun(s, events) && (Leaving(s.phase) ==> !s.sendersOpen && s.queue == [])
    ensures var t := Run(s, events);
            Leaving(t.phase) ==> Shutdown in TakenOut(s, events) || (!t.sendersOpen && t.queue == [])
    decreases |events|
  {
    if events != [] {
      var n := Next(s, events[0]);
      if Leaving(n.phase) && !(!n.sendersOpen && n.queue == []) {
        assert Shutdown in TakesOut(s, events[0]);
      } else {
        WhyLeaving(n, events[1..]);
      }
    }
  }

  /** When the loop is gone, every data op accepted before the first sentinel has been handed over,
      in order and once; without a sentinel, every accepted op has. */
  lemma HandedOverBeforeSentinel(events: seq<Event>, i: nat)
    requires IsRun(Start(), events) && Run(Start(), events).phase.Exited?
    requires var acc := Accepted(Start(), events);
             i <= |acc| && Shutdown !in acc[..i] && (i == |acc| || acc[i] == Shutdown)
    ensures Data(Accepted(Start(), events)[..i]) <= Flat(Run(Start(), events).handed)
  {
    hide Run, IsRun, Accepted, TakenOut, Data, Flat;
    var t := Run(Start(), events);
    var acc, out := Accepted(Start(), events), TakenOut(Start(), events);
    ChannelIsFifo(Start(), events);
    WhyLeaving(Start(), events);
    assert acc == out + t.queue;
    if Shutdown in out {
      FirstIsTakenOut(acc, out, t.queue, i);
    } else {
      assert acc == out;
    }
    assert out == acc[..i] + out[i..];
    DataConcat(acc[..i], out[i..]);
    ExitedHandsOver(events);
  }

  lemma FirstIsTakenOut(acc: seq<WriteOp>, out: seq<WriteOp>, rest: seq<WriteOp>, i: nat)
    requires acc == out + rest && i <= |acc| && Shutdown in out && Shutdown !in acc[..i]
    ensures i <= |out|
  {
    forall j | 0 <= j < i ensures acc[j] != Shutdown {
      assert acc[..i][j] in acc[..i];
    }
    var k :| 0 <= k < |out| && out[k] == Shutdown;
    assert acc[k] == Shutdown;
  }

  lemma ExitedHandsOver(events: seq<Event>)
    requires IsRun(Start(), events) && Run(Start(), events).phase.Exited?
    ensures Flat(Run(Start(), events).handed) == Data(TakenOut(Start(), events))
  {
    var t := Run(Start(), events);
    RunValid(Start(), events);
    CollectedIsTakenOut(Start(), events);
    assert Collected(Start()) == [];
    assert Collected(t) == Flat(t.handed);
  }

  // ---------------------------------------------------------------------
  // What can still be lost
  // ---------------------------------------------------------------------

  /** What is left in the channel when the loop is gone is what came in after the drain ended. */
  lemma {:induction false} LeftoverIsLate(s: State, events: seq<Event>)
    requires IsRun(s, events)
    ensures var t := Run(s, events);
            && (s.phase.Exited? ==> t.phase.Exited? && t.queue == s.queue && Late(s, events) == [])
            && (s.phase.LastFlush? ==> t.queue == s.queue + Late(s, events))
            && (!Ending(s.phase) && Ending(t.phase) ==> t.queue == Late(s, events))
    decreases |events|
  {
    if events != [] {
      StepLate(s, events[0]);
      LeftoverIsLate(Next(s, events[0]), events[1..]);
    }
  }

  predicate Ending(phase: Phase) { phase.LastFlush? || phase.Exited? }

  lemma StepLate(s: State, e: Event)
    requires Enabled(s, e)
    ensures var n := Next(s, e);
            && (s.phase.Exited? ==> n.phase.Exited? && n.queue == s.queue)
            && (s.phase.LastFlush? ==> Ending(n.phase) && n.queue == s.queue + Accepts(s, e))
            && (!Ending(s.phase) && Ending(n.phase) ==> n.phase.LastFlush? && n.queue == [])
  {
  }

  /** Everything accepted is handed over if and only if no data op was accepted between the moment
      the drain found the channel empty and the end of the loop. */
  lemma NothingLostIff(events: seq<Event>)
    requires IsRun(Start(), events) && Run(Start(), events).phase.Exited?
    ensures Flat(Run(Start(), events).handed) == Data(Accepted(Start(), events)) <==> Data(Late(Start(), events)) == []
  {
    Conservation(events);
    RunValid(Start(), events);
    LeftoverIsLate(Start(), events);
  }

  /** The event puts a sentinel into the channel, or begins to. */
  predicate SendsSentinel(e: Event) { e.ShutdownCall? || e.SentinelReady? || e == Send(Shutdown) }

  predicate SendsData(e: Event) { e.Send? && e.op.Write? }

  /** What the program asks of its callers: nothing is sent once a shutdown has begun. */
  ghost predicate QuietAfterShutdown(events: seq<Event>) {
    forall i, j :: 0 <= i < j < |events| && SendsSentinel(events[i]) ==> !SendsData(events[j])
  }

  lemma {:induction false} NoDataAccepted(s: State, events: seq<Event>)
    requires IsRun(s, events) && forall i :: 0 <= i < |events| ==> !SendsData(events[i])
    ensures forall op :: op in Accepted(s, events) ==> op == Shutdown
    decreases |events|
  {
    if events != [] {
      NoDataAccepted(Next(s, events[0]), events[1..]);
    }
  }

  /** Then only sentinels are accepted from the first one on. */
  lemma {:induction false} QuietAccepts(s: State, events: seq<Event>) returns (i: nat)
    requires IsRun(s, events) && QuietAfterShutdown(events)
    ensures var acc := Accepted(s, events);
            && i <= |acc| && Shutdown !in acc[..i] && forall op :: op in acc[i..] ==> op == Shutdown
    decreases |events|
  {
    i := 0;
    if events != [] {
      var first, later := Accepts(s, events[0]), Accepted(Next(s, events[0]), events[1..]);
      AcceptsKind(s, events[0]);
      assert QuietAfterShutdown(events[1..]);
      hide Accepts, Next;
      if SendsSentinel(events[0]) {
        NoDataAccepted(Next(s, events[0]), events[1..]);
      } else {
        var n := QuietAccepts(Next(s, events[0]), events[1..]);
        i := |first| + n;
        assert (first + later)[..i] == first + later[..n] && (first + later)[i..] == later[n..];
      }
    }
  }

  lemma AcceptsKind(s: State, e: Event)
    ensures SendsSentinel(e) ==> forall op :: op in Accepts(s, e) ==> op == Shutdown
    ensures !SendsSentinel(e) ==> Shutdown !in Accepts(s, e)
  {
  }

  lemma {:induction false} SentinelsAreNoData(ops: seq<WriteOp>)
    requires forall op :: op in ops ==> op == Shutdown
    ensures Data(ops) == []
  {
    if ops != [] {
      assert forall op :: op in ops[1..] ==> op in ops;
      SentinelsAreNoData(ops[1..]);
    }
  }

  /** If nothing is sent once a shutdown has begun, everything accepted is handed over. */
  lemma QuietShutdownLosesNothing(events: seq<Event>)
    requires IsRun(Start(), events) && Run(Start(), events).phase.Exited? && QuietAfterShutdown(events)
    ensures Flat(Run(Start(), events).handed) == Data(Accepted(Start(), events))
  {
    hide QuietAfterShutdown, IsRun, Run, Accepted, Data;
    var acc := Accepted(Start(), events);
    var i := QuietAccepts(Start(), events);
    assert i < |acc| ==> acc[i] in acc[i..];
    HandedOverBeforeSentinel(events, i);
    Conservation(events);
    SentinelsAreNoData(acc[i..]);
    DataConcat(acc[..i], acc[i..]);
    assert acc == acc[..i] + acc[i..];
  }

  /** Such a loss happens: an op sent after the drain ended is accepted and never handed over. */
  lemma LostOp()
    ensures var events := [ShutdownCall, Loop, Loop, Loop, Send(Write(7)), Loop];
            && IsRun(Start(), events) && Run(Start(), events).phase.Exited?
            && Accepted(Start(), events) == [Shutdown, Write(7)] && Run(Start(), events).handed == []
  {
  }

  // ---------------------------------------------------------------------
  // The loop does exit
  // ---------------------------------------------------------------------

  function Remaining(s: State): nat {
    match s.phase
    case Filling => 4 * |s.queue| + 4 + if |s.batch| >= BATCH_SIZE then 2 else 0
    case Flushing(exit) => if exit then |s.queue| + 3 else 4 * |s.queue| + 5
    case Draining => |s.queue| + 2
    case LastFlush => 1
    case Exited => 0
  }

  function Loops(n: nat): seq<Event> { if n == 0 then [] else [Loop] + Loops(n - 1) }

  predicate WillExit(s: State) { Shutdown in s.queue || !s.sendersOpen || Leaving(s.phase) }

  lemma LoopProgress(s: State)
    requires WillExit(s) && !s.phase.Exited?
    ensures CanStep(s) && WillExit(LoopStep(s)) && Remaining(LoopStep(s)) < Remaining(s)
  {
    if s.queue != [] { assert s.queue == [s.queue[0]] + s.queue[1..]; }
  }

  /** Once a sentinel is in the channel, or all senders are gone, the loop left to itself exits. */
  lemma {:induction false} LoopExits(s: State) returns (n: nat)
    requires Shutdown in s.queue || !s.sendersOpen || Leaving(s.phase)
    ensures n <= Remaining(s)
    ensures IsRun(s, Loops(n)) && Run(s, Loops(n)).phase.Exited?
    decreases Remaining(s)
  {
    hide Remaining, LoopStep, CanStep, Leaving;
    if s.phase.Exited? {
      n := 0;
    } else {
      LoopProgress(s);
      var m := LoopExits(LoopStep(s));
      n := m + 1;
      assert Loops(n)[1..] == Loops(m);
    }
  }

  // ---------------------------------------------------------------------
  // What the loop collects leaves it
  // ---------------------------------------------------------------------

  lemma RunConcat(s: State, a: seq<Event>, b: seq<Event>)
    requires IsRun(s, a) && IsRun(Run(s, a), b)
    ensures IsRun(s, a + b) && Run(s, a + b) == Run(Run(s, a), b)
    decreases |a|
  {
    if a == [] {
      assert a + b == b;
    } else {
      assert (a + b)[1..] == a[1..] + b;
      RunConcat(Next(s, a[0]), a[1..], b);
    }
  }

  /** The interval hands over whatever has been collected, as one batch, and filling goes on. */
  lemma TickFlushes(s: State)
    requires s.phase.Filling? && Enabled(s, Tick)
    ensures IsRun(s, [Tick, Loop])
    ensures Run(s, [Tick, Loop]) == if s.batch == [] then s else s.(handed := s.handed + [s.batch], batch := [])
  {
    var t := s.(phase := Flushing(false));
    assert Next(s, Tick) == t && CanStep(t);
    assert [Tick, Loop][1..] == [Loop] && [Loop][1..] == [];
    assert IsRun(LoopStep(t), []);
    assert IsRun(t, [Loop]);
  }

  /** Ops that fill the batch up to a hundred leave with it as one batch, and none of it leaves before. */
  lemma {:induction false} FullBatchIsFlushed(s: State, ops: seq<WriteOp>, rest: seq<WriteOp>)
    requires s.phase.Filling? && s.queue == ops + rest && |s.batch| + |ops| == 100
    requires forall op :: op in ops ==> op.Write?
    ensures IsRun(s, Loops(|ops| + 2))
    ensures var t := Run(s, Loops(|ops| + 2));
            t.handed == s.handed + [s.batch + ops] && t.batch == [] && t.phase.Filling? && t.queue == rest
    decreases |ops|
  {
    if ops == [] {
      assert s.batch + ops == s.batch;
      FlushTwice(s);
    } else {
      assert ops[0] in ops;
      assert s.queue[0] == ops[0] && s.queue[1..] == ops[1..] + rest;
      var n := LoopStep(s);
      assert n == Received(s).(batch := s.batch + [ops[0]]);
      FullBatchIsFlushed(n, ops[1..], rest);
      assert s.batch + [ops[0]] + ops[1..] == s.batch + ops;
      LoopsCons(s, |ops| + 1);
    }
  }

  lemma LoopsCons(s: State, n: nat)
    requires CanStep(s) && IsRun(LoopStep(s), Loops(n))
    ensures IsRun(s, Loops(n + 1)) && Run(s, Loops(n + 1)) == Run(LoopStep(s), Loops(n))
  {
    assert Loops(n + 1)[0] == Loop && Loops(n + 1)[1..] == Loops(n);
  }

  lemma FlushTwice(s: State)
    requires s.phase.Filling? && |s.batch| == 100
    ensures IsRun(s, Loops(2)) && Run(s, Loops(2)) == s.(handed := s.handed + [s.batch], batch := [])
  {
    var t := LoopStep(s);
    assert t == s.(phase := Flushing(false));
    var u := LoopStep(t);
    assert IsRun(u, Loops(0)) && Run(u, Loops(0)) == u;
    LoopsCons(t, 0);
    LoopsCons(s, 1);
  }

  /** With senders and no sentinel, the loop left to itself comes to wait for an empty channel. */
  lemma {:induction false} LoopComesToWait(s: State) returns (n: nat)
    requires !Leaving(s.phase) && s.sendersOpen && Shutdown !in s.queue
    ensures n <= Remaining(s) && IsRun(s, Loops(n))
    ensures var t := Run(s, Loops(n));
            t.phase.Filling? && t.queue == [] && |t.batch| < BATCH_SIZE && t.sendersOpen
    decreases Remaining(s)
  {
    n := 0;
    if !(s.phase.Filling? && s.queue == [] && |s.batch| < BATCH_SIZE) {
      WaitProgress(s);
      hide Remaining, LoopStep, CanStep, Leaving;
      var m := LoopComesToWait(LoopStep(s));
      n := m + 1;
      LoopsCons(s, m);
    }
  }

  lemma WaitProgress(s: State)
    requires !Leaving(s.phase) && s.sendersOpen && Shutdown !in s.queue
    requires !(s.phase.Filling? && s.queue == [] && |s.batch| < BATCH_SIZE)
    ensures CanStep(s) && Remaining(LoopStep(s)) < Remaining(s)
    ensures !Leaving(LoopStep(s).phase) && LoopStep(s).sendersOpen && Shutdown !in LoopStep(s).queue
  {
    if s.queue != [] { assert s.queue == [s.queue[0]] + s.queue[1..] && s.queue[0] in s.queue; }
  }

  lemma {:induction false} LoopsAcceptNothing(s: State, n: nat)
    requires IsRun(s, Loops(n))
    ensures Accepted(s, Loops(n)) == [] && Late(s, Loops(n)) == []
    decreases n
  {
    if n > 0 {
      assert Loops(n)[0] == Loop && Loops(n)[1..] == Loops(n - 1);
      LoopsAcceptNothing(LoopStep(s), n - 1);
    }
  }

  /** From every state before the last flush: if nothing more is sent, a bounded number of steps of the loop, and
      at most one tick of its interval, hand over every data op that the loop or the channel holds, in order. */
  lemma EverythingLeaves(s: State) returns (events: seq<Event>)
    requires Valid(s) && !Ending(s.phase)
    ensures |events| <= Remaining(s) + 2 && IsRun(s, events)
    ensures exists n: nat :: events == Loops(n) || events == Loops(n) + [Tick, Loop]
    ensures Flat(Run(s, events).handed) == Collected(s) + Data(s.queue)
  {
    hide Remaining, Flat, Data, IsRun, Run, Accepted, Late, LoopStep, Valid;
    if WillExit(s) {
      var n := LoopExits(s);
      events := Loops(n);
      LoopsLength(n);
      LoopsAcceptNothing(s, n);
      LeftoverIsLate(s, events);
      RunValid(s, events);
      ChannelIsFifo(s, events);
      CollectedIsTakenOut(s, events);
      ExitedIsEmpty(Run(s, events));
      assert s.queue + [] == s.queue && TakenOut(s, events) + [] == TakenOut(s, events);
    } else {
      var n := LoopComesToWait(s);
      LoopsLength(n);
      var t := Run(s, Loops(n));
      LoopsAcceptNothing(s, n);
      ChannelIsFifo(s, Loops(n));
      CollectedIsTakenOut(s, Loops(n));
      assert s.queue + [] == s.queue && TakenOut(s, Loops(n)) + [] == TakenOut(s, Loops(n));
      TickFlushes(t);
      RunConcat(s, Loops(n), [Tick, Loop]);
      events := Loops(n) + [Tick, Loop];
      AllHanded(t);
    }
  }

  lemma LoopsLength(n: nat)
    ensures |Loops(n)| == n
  {
  }

  lemma ExitedIsEmpty(s: State)
    requires Valid(s) && s.phase.Exited?
    ensures Collected(s) == Flat(s.handed)
  {
  }

  lemma AllHanded(s: State)
    ensures Flat((if s.batch == [] then s else s.(handed := s.handed + [s.batch], batch := [])).handed) == Collected(s)
  {
    if s.batch != [] { CollectedHandOver(s); }
    var t := HandOver(s);
    assert Collected(t) == Flat(t.handed) + [];
  }

  // ---------------------------------------------------------------------
  // The awaited sentinel gets in
  // ---------------------------------------------------------------------

  /** A sentinel waits only for a full channel. */
  ghost predicate WaitsForRoom(s: State) {
    s.waiting && !s.reserved && !s.phase.Exited? ==> |s.queue| >= CHANNEL_CAPACITY
  }

  lemma {:induction false} RunWaitsForRoom(s: State, events: seq<Event>)
    requires WaitsForRoom(s) && IsRun(s, events)
    ensures WaitsForRoom(Run(s, events))
    decreases |events|
  {
    if events != [] {
      StepWaitsForRoom(s, events[0]);
      RunWaitsForRoom(Next(s, events[0]), events[1..]);
    }
  }

  lemma StepWaitsForRoom(s: State, e: Event)
    requires WaitsForRoom(s) && Enabled(s, e)
    ensures WaitsForRoom(Next(s, e))
  {
  }

  /** In every run: a shutdown that waits for room can send its sentinel after at most three steps of the loop. */
  lemma SentinelGetsIn(events: seq<Event>) returns (n: nat)
    requires IsRun(Start(), events) && Run(Start(), events).waiting && Run(Start(), events).sendersOpen
    ensures n <= 3 && IsRun(Run(Start(), events), Loops(n))
    ensures Enabled(Run(Run(Start(), events), Loops(n)), SentinelReady)
  {
    RunWaitsForRoom(Start(), events);
    n := RoomIsMade(Run(Start(), events));
  }

  lemma RoomIsMade(s: State) returns (n: nat)
    requires s.waiting && s.sendersOpen && WaitsForRoom(s)
    ensures n <= 3 && IsRun(s, Loops(n)) && Enabled(Run(s, Loops(n)), SentinelReady)
  {
    n := 0;
    if !s.reserved && !s.phase.Exited? {
      var t := LoopStep(s);
      assert IsRun(t, Loops(0)) && Run(t, Loops(0)) == t;
      LoopsCons(s, 0);
      n := 1;
      if !Enabled(t, SentinelReady) {
        var u := LoopStep(t);
        assert IsRun(u, Loops(0)) && Run(u, Loops(0)) == u;
        LoopsCons(t, 0);
        LoopsCons(s, 1);
        n := 2;
        if !Enabled(u, SentinelReady) {
          var v := LoopStep(u);
          assert IsRun(v, Loops(0)) && Run(v, Loops(0)) == v;
          LoopsCons(u, 0);
          LoopsCons(t, 1);
          LoopsCons(s, 2);
          n := 3;
        }
      }
    }
  }

  // ---------------------------------------------------------------------
  // Shutting down and dropping the senders end the loop
  // ---------------------------------------------------------------------

  /** In every run: from the moment a shutdown is called, its sentinel enters and the loop exits after a bounded
      number of its steps, with nothing left waiting. */
  lemma ShutdownEndsLoop(events: seq<Event>) returns (n: nat, m: nat)
    requires IsRun(Start(), events) && Enabled(Run(Start(), events), ShutdownCall)
    requires !Run(Start(), events).phase.Exited?
    ensures var s := Next(Run(Start(), events), ShutdownCall);
            var first := if s.waiting then Loops(n) + [SentinelReady] else Loops(n);
            && n <= 3 && IsRun(s, first)
            && var t := Run(s, first);
               IsRun(t, Loops(m)) && Run(t, Loops(m)).phase.Exited? && !Run(t, Loops(m)).waiting
  {
    var r := Run(Start(), events);
    var s := Next(r, ShutdownCall);
    ShutdownCalled(r);
    if s.waiting {
      RunWaitsForRoom(Start(), events);
      StepWaitsForRoom(r, ShutdownCall);
      n := RoomIsMade(s);
      var u := Run(s, Loops(n));
      RunOne(u, SentinelReady);
      RunConcat(s, Loops(n), [SentinelReady]);
      m := LoopExits(Next(u, SentinelReady));
      LoopsKeepWaiting(Next(u, SentinelReady), m);
    } else {
      n := 0;
      RunNone(s);
      m := LoopExits(s);
      LoopsKeepWaiting(s, m);
    }
  }

  lemma ShutdownCalled(s: State)
    requires Enabled(s, ShutdownCall) && !s.phase.Exited?
    ensures var t := Next(s, ShutdownCall); t.sendersOpen && (t.waiting || Shutdown in t.queue)
  {
  }

  lemma RunOne(s: State, e: Event)
    requires Enabled(s, e)
    ensures IsRun(s, [e]) && Run(s, [e]) == Next(s, e)
    ensures e.SentinelReady? ==> WillExit(Next(s, e)) && !Next(s, e).waiting
  {
    assert [e][1..] == [];
  }

  lemma RunNone(s: State)
    ensures IsRun(s, Loops(0)) && Run(s, Loops(0)) == s
  {
  }

  lemma {:induction false} LoopsKeepWaiting(s: State, n: nat)
    requires IsRun(s, Loops(n)) && !s.waiting
    ensures !Run(s, Loops(n)).waiting
    decreases n
  {
    if n > 0 {
      assert Loops(n)[0] == Loop && Loops(n)[1..] == Loops(n - 1);
      LoopsKeepWaiting(LoopStep(s), n - 1);
    }
  }

  /** Dropping the last sender makes the loop, left to itself, exit. */
  lemma DroppedSendersEndLoop(s: State) returns (n: nat)
    requires Enabled(s, SendersGone)
    ensures var t := Next(s, SendersGone);
            n <= Remaining(t) && IsRun(t, Loops(n)) && Run(t, Loops(n)).phase.Exited?
  {
    n := LoopExits(Next(s, SendersGone));
  }

  // ---------------------------------------------------------------------
  // The writer as the program runs it
  // ---------------------------------------------------------------------

  /** Channel, drop counter and loop variables; each method is one atomic step. */
  class Writer {
    var queue: seq<WriteOp>
    var sendersOpen: bool
    var waiting: bool
    var reserved: bool
    var batch: seq<WriteOp>
    var handed: seq<seq<WriteOp>>
    var droppedOps: nat
    var phase: Phase

    function Now(): State
      reads this
    {
      State(queue, sendersOpen, waiting, reserved, batch, handed, droppedOps, phase)
    }

    constructor ()
      ensures Now() == Start()
    {
      queue, sendersOpen, waiting, reserved := [], true, false, false;
      batch, handed, droppedOps, phase := [], [], 0, Filling;
    }

    method TrySend(op: WriteOp)
      requires Enabled(Now(), Send(op))
      modifies this
      ensures !phase.Exited? && |old(queue)| + (if reserved then 1 else 0) < 1000 ==>
                queue == old(queue) + [op] && droppedOps == old(droppedOps)
      ensures !phase.Exited? && |old(queue)| + (if reserved then 1 else 0) >= 1000 ==>
                queue == old(queue) && droppedOps == old(droppedOps) + 1
      ensures Now() == Next(old(Now()), Send(op))
    {
      if phase.Exited? { return; }
      if |queue| + (if reserved then 1 else 0) < CHANNEL_CAPACITY {
        queue := queue + [op];
      } else {
        droppedOps := droppedOps + 1;
      }
    }

    method AwaitSentinel()
      requires Enabled(Now(), ShutdownCall)
      modifies this
      ensures !phase.Exited? && |old(queue)| + (if reserved then 1 else 0) < 1000 ==>
                queue == old(queue) + [Shutdown] && waiting == old(waiting)
      ensures !phase.Exited? && |old(queue)| + (if reserved then 1 else 0) >= 1000 ==>
                queue == old(queue) && waiting
      ensures Now() == Next(old(Now()), ShutdownCall)
    {
      if phase.Exited? { return; }
      if |queue| + (if reserved then 1 else 0) < CHANNEL_CAPACITY {
        queue := queue + [Shutdown];
      } else {
        waiting := true;
      }
    }

    method SendSentinel()
      requires Enabled(Now(), SentinelReady)
      modifies this
      ensures !waiting && !reserved && queue == if phase.Exited? then old(queue) else old(queue) + [Shutdown]
      ensures Now() == Next(old(Now()), SentinelReady)
    {
      if !phase.Exited? { queue := queue + [Shutdown]; }
      waiting, reserved := false, false;
    }

    /** Takes the oldest op; its place goes to a waiting sentinel. */
    method Receive() returns (op: WriteOp)
      requires queue != []
      modifies this
      ensures op == old(queue[0]) && Now() == Received(old(Now()))
    {
      op := queue[0];
      queue := queue[1..];
      if waiting { reserved := true; }
    }

    method FlushBatch()
      modifies this
      ensures Now() == HandOver(old(Now()))
    {
      if batch != [] {
        handed := handed + [batch];
        batch := [];
      }
    }

    method Step()
      requires CanStep(Now())
      modifies this
      ensures Now() == LoopStep(old(Now()))
    {
      match phase {
        case Filling =>
          if |batch| >= BATCH_SIZE {
            phase := Flushing(false);
          } else if queue == [] {
            phase := Flushing(true);
          } else {
            var op := Receive();
            if op.Shutdown? { phase := Flushing(true); } else { batch := batch + [op]; }
          }
        case Flushing(exit) =>
          FlushBatch();
          phase := if exit then Draining else Filling;
        case Draining =>
          if queue == [] {
            phase := LastFlush;
          } else {
            var op := Receive();
            if !op.Shutdown? { batch := batch + [op]; }
          }
        case LastFlush =>
          FlushBatch();
          phase := Exited;
      }
    }

    /** Plays any interleaving of callers, timer and loop. */
    method Play(events: seq<Event>)
      requires IsRun(Now(), events)
      modifies this
      ensures Now() == Run(old(Now()), events)
    {
      for i := 0 to |events|
        invariant IsRun(Now(), events[i..])
        invariant Run(Now(), events[i..]) == Run(old(Now()), events)
      {
        assert events[i..][0] == events[i] && events[i..][1..] == events[i + 1..];
        match events[i] {
          case Send(op) => TrySend(op);
          case ShutdownCall => AwaitSentinel();
          case SentinelReady => SendSentinel();
          case SendersGone => sendersOpen := false;
          case Loop => Step();
          case Tick => phase := Flushing(false);
        }
      }
    }
  }
}
