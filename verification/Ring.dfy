/**
  The ring buffer with one producer and any number of consumers.

  Threads interleave at every load, store and compare-and-swap.  A run also records when each
  operation is called, takes effect and returns; the recorded effects are replayed on a
  bounded FIFO queue, which is what linearizability asks for.
 */
module Rings {
  import opened Modulo
  import opened Wrappers

  /** The pointers that go through the ring. */
  type Value = int

  /** dequeue_spmc, trydequeue_spmc and dequeue_spsc. */
  datatype Kind = Retry | Try | Single

  datatype Thread = Producer | Consumer(i: nat)

  datatype Operation = Enqueue(v: Value) | Dequeue(kind: Kind)

  /** Accepted and Got return true, the others false. */
  datatype Result = Accepted | Full | Got(v: Value) | Empty | Missed

  datatype Event =
    | Call(t: Thread, op: Operation)
    | Effect(t: Thread, op: Operation, res: Result)
    | Return(t: Thread, op: Operation, res: Result)

  // The sequential queue.

  /** The queue after `op` with result `res`, if a FIFO of `cap` places allows that. */
  function Apply(q: seq<Value>, cap: nat, op: Operation, res: Result): Option<seq<Value>> {
    match op
    case Enqueue(v) =>
      if res == Accepted && |q| < cap then Some(q + [v])
      else if res == Full && |q| == cap then Some(q)
      else None
    case Dequeue(kind) =>
      if res.Got? && q != [] && q[0] == res.v then Some(q[1..])
      else if res == Empty && q == [] then Some(q)
      else if res == Missed && kind == Try then Some(q)
      else None
  }

  function ReplayAfter(before: Option<seq<Value>>, cap: nat, e: Event): Option<seq<Value>> {
    if before.Some? && e.Effect? then Apply(before.value, cap, e.op, e.res) else before
  }

  function Replay(trace: seq<Event>, cap: nat): Option<seq<Value>> {
    if trace == [] then Some([])
    else ReplayAfter(Replay(trace[..|trace| - 1], cap), cap, trace[|trace| - 1])
  }

  /** How far a thread is with its current operation; Broken if its events are out of order. */
  datatype Phase = Ready | Called(op: Operation) | Took(op: Operation, res: Result) | Broken

  function PhaseAfter(p: Phase, t: Thread, e: Event): Phase {
    if e.t != t then p
    else match e
      case Call(_, op) => if p == Ready then Called(op) else Broken
      case Effect(_, op, res) => if p == Called(op) then Took(op, res) else Broken
      case Return(_, op, res) => if p == Took(op, res) then Ready else Broken
  }

  function PhaseOf(trace: seq<Event>, t: Thread): Phase {
    if trace == [] then Ready
    else PhaseAfter(PhaseOf(trace[..|trace| - 1], t), t, trace[|trace| - 1])
  }

  /** The values that an event puts into the queue, and takes out of it. */
  function Enters(e: Event): seq<Value> {
    if e.Effect? && e.op.Enqueue? && e.res == Accepted then [e.op.v] else []
  }

  function Takes(e: Event): seq<Value> {
    if e.Effect? && e.op.Dequeue? && e.res.Got? then [e.res.v] else []
  }

  function Entered(trace: seq<Event>): seq<Value> {
    if trace == [] then [] else Entered(trace[..|trace| - 1]) + Enters(trace[|trace| - 1])
  }

  function Taken(trace: seq<Event>): seq<Value> {
    if trace == [] then [] else Taken(trace[..|trace| - 1]) + Takes(trace[|trace| - 1])
  }

  lemma EventBalance(e: Event, q: seq<Value>, cap: nat, q': seq<Value>, entered: seq<Value>, taken: seq<Value>)
    requires entered == taken + q && |q| <= cap && ReplayAfter(Some(q), cap, e) == Some(q')
    ensures entered + Enters(e) == taken + Takes(e) + q' && |q'| <= cap
  {
    if Takes(e) != [] {
      assert q == Takes(e) + q';
    }
  }

  /** What a replayed run says about values: they leave in the order they entered, each once. */
  lemma {:induction false} FirstInFirstOut(trace: seq<Event>, cap: nat)
    requires Replay(trace, cap).Some?
    ensures Entered(trace) == Taken(trace) + Replay(trace, cap).value && |Replay(trace, cap).value| <= cap
  {
    if trace == [] {
    } else {
      var rest, last := trace[..|trace| - 1], trace[|trace| - 1];
      FirstInFirstOut(rest, cap);
      EventBalance(last, Replay(rest, cap).value, cap, Replay(trace, cap).value, Entered(rest), Taken(rest));
    }
  }

  // The ring.

  /** The slot of a position, `k & mask`: k modulo the size n. */
  function Slot(k: nat, n: nat): (i: nat)
    requires n > 0
    ensures i < n
  {
    if k < n then k else Slot(k - n, n)
  }

  lemma {:induction false} SlotIsModulo(k: nat, n: nat)
    requires n > 0
    ensures Slot(k, n) == k % n
  {
    if k < n {
    } else {
      SlotIsModulo(k - n, n);
      ModShift(k - n, n);
    }
  }

  /** Two positions less than a turn apart use different slots. */
  lemma {:induction false} DifferentSlots(a: nat, b: nat, n: nat)
    requires n > 0 && a < b < a + n
    ensures Slot(a, n) != Slot(b, n)
  {
    if a < n {
    } else {
      DifferentSlots(a - n, b - n, n);
    }
  }

  datatype Enqueuing = PIdle | PLoad(v: Value) | PWrite(v: Value) | PStore(v: Value) | PReturn(v: Value, res: Result)

  datatype Dequeuing =
    | CIdle
    | CHead(kind: Kind)
    | CTail(kind: Kind, c: nat)
    | CRead(kind: Kind, c: nat)
    | CSwap(kind: Kind, c: nat, r: Value)
    | CReturn(kind: Kind, res: Result)

  /** `trace` and `since`, the length of the trace when a consumer last called, are history. */
  datatype State = State(
    buf: seq<Value>,
    pTail: nat,
    cHead: nat,
    prod: Enqueuing,
    cons: seq<Dequeuing>,
    trace: seq<Event>,
    since: seq<nat>)

  /** One step of a thread: a call, or the next access of the operation it is in. */
  datatype Step = CallEnqueue(v: Value) | CallDequeue(i: nat, kind: Kind) | Produce | Consume(i: nat)

  ghost predicate Shape(s: State) {
    |s.buf| > 0 && |s.since| == |s.cons|
  }

  ghost predicate Init(s: State) {
    && Shape(s) && s.pTail == 0 && s.cHead == 0 && s.prod == PIdle && s.trace == []
    && forall i :: 0 <= i < |s.cons| ==> s.cons[i] == CIdle && s.since[i] == 0
  }

  predicate Enabled(s: State, l: Step) {
    match l
    case CallEnqueue(v) => s.prod == PIdle
    case CallDequeue(i, kind) => i < |s.cons| && s.cons[i] == CIdle && (kind == Single ==> |s.cons| == 1)
    case Produce => s.prod != PIdle
    case Consume(i) => i < |s.cons| && s.cons[i] != CIdle
  }

  function Log(s: State, e: Event): State {
    s.(trace := s.trace + [e])
  }

  /** ck_ring_enqueue_spsc. */
  function Produced(s: State): State
    requires |s.buf| > 0 && s.prod != PIdle
  {
    var n := |s.buf|;
    match s.prod
    case PLoad(v) =>
      if Slot(s.pTail + 1, n) == Slot(s.cHead, n)
      then Log(s, Effect(Producer, Enqueue(v), Full)).(prod := PReturn(v, Full))
      else s.(prod := PWrite(v))
    case PWrite(v) => s.(buf := s.buf[Slot(s.pTail, n) := v], prod := PStore(v))
    case PStore(v) =>
      Log(s, Effect(Producer, Enqueue(v), Accepted)).(pTail := s.pTail + 1, prod := PReturn(v, Accepted))
    case PReturn(v, res) => Log(s, Return(Producer, Enqueue(v), res)).(prod := PIdle)
  }

  function At(s: State, i: nat, op: Dequeuing): State
    requires i < |s.cons|
  {
    s.(cons := s.cons[i := op])
  }

  function TakesEffect(s: State, i: nat, kind: Kind, res: Result): State
    requires i < |s.cons|
  {
    Log(At(s, i, CReturn(kind, res)), Effect(Consumer(i), Dequeue(kind), res))
  }

  /** ck_ring_dequeue_spmc, ck_ring_trydequeue_spmc and ck_ring_dequeue_spsc. */
  function Consumed(s: State, i: nat): State
    requires |s.buf| > 0 && i < |s.cons| && s.cons[i] != CIdle
  {
    match s.cons[i]
    case CHead(kind) => At(s, i, CTail(kind, s.cHead))
    case CTail(kind, c) => if c == s.pTail then TakesEffect(s, i, kind, Empty) else At(s, i, CRead(kind, c))
    case CRead(kind, c) => At(s, i, CSwap(kind, c, s.buf[Slot(c, |s.buf|)]))
    case CSwap(kind, c, r) =>
      if kind == Single || s.cHead == c then TakesEffect(s, i, kind, Got(r)).(cHead := c + 1)
      else if kind == Try then TakesEffect(s, i, kind, Missed)
      else At(s, i, CTail(kind, s.cHead))
    case CReturn(kind, res) => Log(At(s, i, CIdle), Return(Consumer(i), Dequeue(kind), res))
  }

  function Next(s: State, l: Step): State
    requires |s.buf| > 0 && |s.since| == |s.cons| && Enabled(s, l)
  {
    match l
    case CallEnqueue(v) => Log(s, Call(Producer, Enqueue(v))).(prod := PLoad(v))
    case CallDequeue(i, kind) =>
      Log(At(s, i, CHead(kind)), Call(Consumer(i), Dequeue(kind))).(since := s.since[i := |s.trace| + 1])
    case Produce => Produced(s)
    case Consume(i) => Consumed(s, i)
  }

  // The invariant.

  /** What the slots from `head` up to `tail` hold. */
  function Held(buf: seq<Value>, head: nat, tail: nat): seq<Value>
    requires |buf| > 0 && head <= tail
  {
    seq(tail - head, j requires 0 <= j => buf[Slot(head + j, |buf|)])
  }

  /** What the ring holds, oldest first. */
  function Contents(s: State): seq<Value>
    requires |s.buf| > 0 && s.cHead <= s.pTail
  {
    Held(s.buf, s.cHead, s.pTail)
  }

  ghost predicate Counters(s: State) {
    Shape(s) && s.cHead <= s.pTail < s.cHead + |s.buf|
  }

  ghost predicate Queued(s: State)
    requires Counters(s)
  {
    Replay(s.trace, |s.buf| - 1) == Some(Contents(s))
  }

  ghost predicate ProducerOk(s: State)
    requires Counters(s)
  {
    && (s.prod.PWrite? || s.prod.PStore? ==> s.pTail + 1 < s.cHead + |s.buf|)
    && (s.prod.PStore? ==> s.buf[Slot(s.pTail, |s.buf|)] == s.prod.v)
    && PhaseOf(s.trace, Producer) == (
      match s.prod
      case PIdle => Ready
      case PReturn(v, res) => Took(Enqueue(v), res)
      case _ => Called(Enqueue(s.prod.v)))
  }

  ghost predicate Snapshot(s: State, op: Dequeuing) {
    op.CTail? || op.CRead? || op.CSwap? ==> op.c <= s.cHead && (|s.cons| == 1 ==> op.c == s.cHead)
  }

  ghost predicate ConsumerOk(s: State, i: nat)
    requires Counters(s) && i < |s.cons|
  {
    var op := s.cons[i];
    && Snapshot(s, op)
    && (!op.CIdle? && op.kind == Single ==> |s.cons| == 1)
    && (op.CRead? || op.CSwap? ==> op.c < s.pTail)
    && (op.CSwap? && op.c == s.cHead ==> op.r == s.buf[Slot(op.c, |s.buf|)])
    && PhaseOf(s.trace, Consumer(i)) == (
      match op
      case CIdle => Ready
      case CReturn(kind, res) => Took(Dequeue(kind), res)
      case _ => Called(Dequeue(op.kind)))
  }

  ghost predicate Inv(s: State) {
    && Counters(s) && Queued(s) && ProducerOk(s)
    && forall i :: 0 <= i < |s.cons| ==> ConsumerOk(s, i)
  }

  lemma {:induction false} Logged(trace: seq<Event>, e: Event)
    ensures forall t :: PhaseOf(trace + [e], t) == PhaseAfter(PhaseOf(trace, t), t, e)
    ensures forall cap: nat :: Replay(trace + [e], cap) == ReplayAfter(Replay(trace, cap), cap, e)
  {
    assert (trace + [e])[..|trace|] == trace;
  }

  lemma FullMeansFull(s: State)
    requires Counters(s)
    ensures Slot(s.pTail + 1, |s.buf|) == Slot(s.cHead, |s.buf|) <==> |Contents(s)| == |s.buf| - 1
  {
    var n := |s.buf|;
    if s.pTail + 1 < s.cHead + n {
      DifferentSlots(s.cHead, s.pTail + 1, n);
    } else {
      assert Slot(s.cHead + n, n) == Slot(s.cHead, n);
    }
  }

  /** The slot behind the last value is none of those in use. */
  lemma WriteBehind(buf: seq<Value>, head: nat, tail: nat, v: Value)
    requires |buf| > 0 && head <= tail < head + |buf|
    ensures Held(buf[Slot(tail, |buf|) := v], head, tail) == Held(buf, head, tail)
  {
    forall k: nat | head <= k < tail ensures Slot(k, |buf|) != Slot(tail, |buf|) {
      DifferentSlots(k, tail, |buf|);
    }
  }

  lemma OneMore(buf: seq<Value>, head: nat, tail: nat)
    requires |buf| > 0 && head <= tail
    ensures Held(buf, head, tail + 1) == Held(buf, head, tail) + [buf[Slot(tail, |buf|)]]
  {
  }

  lemma OneLess(buf: seq<Value>, head: nat, tail: nat)
    requires |buf| > 0 && head < tail
    ensures Held(buf, head, tail) == [buf[Slot(head, |buf|)]] + Held(buf, head + 1, tail)
  {
    var a, b := Held(buf, head, tail), Held(buf, head + 1, tail);
    assert forall j :: 1 <= j < tail - head ==> a[j] == b[j - 1];
  }

  lemma ProduceQueued(s: State)
    requires Inv(s) && s.prod != PIdle
    ensures Counters(Produced(s)) && Queued(Produced(s))
  {
    var s' := Produced(s);
    match s.prod
    case PLoad(v) =>
      FullMeansFull(s);
      Logged(s.trace, Effect(Producer, Enqueue(v), Full));
    case PWrite(v) => WriteBehind(s.buf, s.cHead, s.pTail, v);
    case PStore(v) =>
      OneMore(s.buf, s.cHead, s.pTail);
      Logged(s.trace, Effect(Producer, Enqueue(v), Accepted));
    case PReturn(v, res) => Logged(s.trace, Return(Producer, Enqueue(v), res));
  }

  lemma ProduceProducer(s: State)
    requires Inv(s) && s.prod != PIdle && Counters(Produced(s))
    ensures ProducerOk(Produced(s))
  {
    FullMeansFull(s);
    var s' := Produced(s);
    if s'.trace != s.trace {
      Logged(s.trace, s'.trace[|s.trace|]);
    }
  }

  lemma ProduceInv(s: State)
    requires Inv(s) && s.prod != PIdle
    ensures Inv(Produced(s))
  {
    var s' := Produced(s);
    ProduceQueued(s);
    ProduceProducer(s);
    if s.cHead < s.pTail {
      DifferentSlots(s.cHead, s.pTail, |s.buf|);
    }
    if s'.trace != s.trace {
      Logged(s.trace, s'.trace[|s.trace|]);
    }
    forall i | 0 <= i < |s'.cons| ensures ConsumerOk(s', i) {
      assert ConsumerOk(s, i);
    }
  }

  /** What a consumer's step leaves to the other threads. */
  lemma OthersOk(s: State, s': State, i: nat)
    requires Inv(s) && i < |s.cons|
    requires Counters(s') && s'.buf == s.buf && s'.pTail == s.pTail && s'.prod == s.prod && |s'.cons| == |s.cons|
    requires s.cHead <= s'.cHead && (|s.cons| > 1 || s'.cHead == s.cHead || i == 0)
    requires forall j :: 0 <= j < |s.cons| && j != i ==> s'.cons[j] == s.cons[j]
    requires forall t: Thread :: t != Consumer(i) ==> PhaseOf(s'.trace, t) == PhaseOf(s.trace, t)
    ensures ProducerOk(s') && forall j :: 0 <= j < |s.cons| && j != i ==> ConsumerOk(s', j)
  {
    forall j | 0 <= j < |s.cons| && j != i ensures ConsumerOk(s', j) {
      assert ConsumerOk(s, j);
    }
  }

  /** A consumer takes the oldest value. */
  lemma TakeInv(s: State, i: nat)
    requires Inv(s) && i < |s.cons| && s.cons[i].CSwap? && s.cons[i].c == s.cHead
    ensures Inv(Consumed(s, i))
  {
    var s' := Consumed(s, i);
    Logged(s.trace, s'.trace[|s.trace|]);
    assert ConsumerOk(s, i);
    OneLess(s.buf, s.cHead, s.pTail);
    OthersOk(s, s', i);
  }

  /** A consumer takes effect on nothing, or returns. */
  lemma LoggedInv(s: State, i: nat)
    requires Inv(s) && i < |s.cons| && s.cons[i] != CIdle
    requires Consumed(s, i).trace != s.trace && Consumed(s, i).cHead == s.cHead
    ensures Inv(Consumed(s, i))
  {
    var s' := Consumed(s, i);
    assert ConsumerOk(s, i);
    Logged(s.trace, s'.trace[|s.trace|]);
    OthersOk(s, s', i);
  }

  lemma ConsumeInv(s: State, i: nat)
    requires Inv(s) && i < |s.cons| && s.cons[i] != CIdle
    ensures Inv(Consumed(s, i))
  {
    var s' := Consumed(s, i);
    assert ConsumerOk(s, i);
    if s'.cHead != s.cHead {
      TakeInv(s, i);
    } else if s'.trace != s.trace {
      LoggedInv(s, i);
    } else {
      OthersOk(s, s', i);
    }
  }

  lemma CallEnqueueInv(s: State, v: Value)
    requires Inv(s) && s.prod == PIdle
    ensures Inv(Next(s, CallEnqueue(v)))
  {
    var s' := Next(s, CallEnqueue(v));
    Logged(s.trace, Call(Producer, Enqueue(v)));
    forall j | 0 <= j < |s'.cons| ensures ConsumerOk(s', j) {
      assert ConsumerOk(s, j);
    }
  }

  lemma CallDequeueInv(s: State, i: nat, kind: Kind)
    requires Inv(s) && Enabled(s, CallDequeue(i, kind))
    ensures Inv(Next(s, CallDequeue(i, kind)))
  {
    var s' := Next(s, CallDequeue(i, kind));
    Logged(s.trace, Call(Consumer(i), Dequeue(kind)));
    assert ConsumerOk(s, i);
    OthersOk(s, s', i);
  }

  lemma StepInv(s: State, l: Step)
    requires Inv(s) && Enabled(s, l)
    ensures Inv(Next(s, l)) && |Next(s, l).buf| == |s.buf| && |Next(s, l).cons| == |s.cons|
  {
    match l
    case Produce => ProduceInv(s);
    case Consume(i) => ConsumeInv(s, i);
    case CallEnqueue(v) => CallEnqueueInv(s, v);
    case CallDequeue(i, kind) => CallDequeueInv(s, i, kind);
  }

  ghost predicate CanRun(s: State, steps: seq<Step>)
    requires Shape(s)
    decreases |steps|
  {
    steps == [] || (Enabled(s, steps[0]) && CanRun(Next(s, steps[0]), steps[1..]))
  }

  ghost function Final(s: State, steps: seq<Step>): State
    requires Shape(s) && CanRun(s, steps)
    decreases |steps|
  {
    if steps == [] then s else Final(Next(s, steps[0]), steps[1..])
  }

  lemma {:induction false} RunInv(s: State, steps: seq<Step>)
    requires Inv(s) && CanRun(s, steps)
    ensures Inv(Final(s, steps)) && |Final(s, steps).buf| == |s.buf| && |Final(s, steps).cons| == |s.cons|
    decreases |steps|
  {
    if steps == [] {
    } else {
      StepInv(s, steps[0]);
      RunInv(Next(s, steps[0]), steps[1..]);
    }
  }

  lemma InitInv(s: State)
    requires Init(s)
    ensures Inv(s)
  {
    assert Contents(s) == [];
  }

  /** Every run is linearizable: each operation takes effect once, between its call and its
      return and with the result it returns, and the effects are those of a FIFO queue with one
      place fewer than the ring has slots, whose contents the ring holds. */
  lemma {:induction false} Linearizable(s0: State, steps: seq<Step>)
    requires Init(s0) && CanRun(s0, steps)
    ensures var s := Final(s0, steps);
      && Counters(s) && Replay(s.trace, |s0.buf| - 1) == Some(Contents(s))
      && (forall t :: t == Producer || (t.Consumer? && t.i < |s.cons|) ==> PhaseOf(s.trace, t) != Broken)
  {
    InitInv(s0);
    RunInv(s0, steps);
    var s := Final(s0, steps);
    forall t | t == Producer || (t.Consumer? && t.i < |s.cons|) ensures PhaseOf(s.trace, t) != Broken {
      if t.Consumer? {
        assert ConsumerOk(s, t.i);
      }
    }
  }

  // trydequeue_spmc also returns false when it loses the race for c_head.

  /** The queue was empty at some moment since consumer i last called. */
  ghost predicate WasEmpty(s: State, i: nat)
    requires Shape(s) && i < |s.cons|
  {
    exists k :: s.since[i] <= k <= |s.trace| && Replay(s.trace[..k], |s.buf| - 1) == Some([])
  }

  /** Consumer i read a c_head that has been overtaken. */
  predicate Overtaken(s: State, i: nat)
    requires i < |s.cons|
  {
    var op := s.cons[i];
    (op.CTail? || op.CRead? || op.CSwap?) && op.c != s.cHead
  }

  ghost predicate EmptyOk(s: State, i: nat)
    requires Shape(s) && i < |s.cons|
  {
    s.since[i] <= |s.trace| && (Overtaken(s, i) ==> WasEmpty(s, i))
  }

  ghost predicate EmptiesOk(s: State)
    requires Shape(s)
  {
    forall i :: 0 <= i < |s.cons| ==> EmptyOk(s, i)
  }

  lemma StillEmpty(s: State, s': State, i: nat)
    requires Shape(s) && Shape(s') && |s'.buf| == |s.buf| && i < |s.cons| == |s'.cons|
    requires s.trace <= s'.trace && s'.since[i] == s.since[i] && WasEmpty(s, i)
    ensures WasEmpty(s', i)
  {
    var k :| s.since[i] <= k <= |s.trace| && Replay(s.trace[..k], |s.buf| - 1) == Some([]);
    assert s'.trace[..k] == s.trace[..k];
  }

  /** With two slots a consumer that takes a value leaves the queue empty. */
  lemma TakeEmpties(s: State, i: nat)
    requires Inv(s) && |s.buf| <= 2 && i < |s.cons| && s.cons[i] != CIdle && Consumed(s, i).cHead != s.cHead
    ensures var s' := Consumed(s, i);
      s'.trace[..|s'.trace|] == s'.trace && Replay(s'.trace, |s'.buf| - 1) == Some([])
  {
    ConsumeInv(s, i);
    assert ConsumerOk(s, i);
    assert Contents(Consumed(s, i)) == [];
  }

  lemma EmptyStep(s: State, l: Step)
    requires Inv(s) && Enabled(s, l) && |s.buf| <= 2 && EmptiesOk(s)
    ensures EmptiesOk(Next(s, l))
  {
    var s' := Next(s, l);
    forall i | 0 <= i < |s'.cons| ensures EmptyOk(s', i) {
      assert EmptyOk(s, i);
      if s'.cHead != s.cHead {
        TakeEmpties(s, l.i);
      } else {
        EmptyStays(s, l, i);
      }
    }
  }

  /** A step that takes no value out. */
  lemma EmptyStays(s: State, l: Step, i: nat)
    requires Shape(s) && Enabled(s, l) && Next(s, l).cHead == s.cHead && i < |s.cons| && EmptyOk(s, i)
    ensures Shape(Next(s, l)) && EmptyOk(Next(s, l), i)
  {
    if Overtaken(s, i) && Next(s, l).since[i] == s.since[i] {
      StillEmpty(s, Next(s, l), i);
    }
  }

  lemma {:induction false} EmptyRun(s: State, steps: seq<Step>)
    requires Inv(s) && CanRun(s, steps) && |s.buf| <= 2 && EmptiesOk(s)
    ensures Shape(Final(s, steps)) && EmptiesOk(Final(s, steps))
    decreases |steps|
  {
    if steps == [] {
    } else {
      StepInv(s, steps[0]);
      EmptyStep(s, steps[0]);
      EmptyRun(Next(s, steps[0]), steps[1..]);
    }
  }

  ghost predicate Reaches(s0: State, s: State)
    requires Shape(s0)
  {
    exists steps :: CanRun(s0, steps) && Final(s0, steps) == s
  }

  /** Consumer i is about to return false without having seen an empty queue. */
  predicate Misses(s: State, i: nat) {
    i < |s.cons| && s.cons[i].CSwap? && s.cons[i].kind == Try && s.cons[i].c != s.cHead
  }

  /** In a ring with n slots and m consumers, trydequeue_spmc returns false only if the queue was
      empty at some moment during the call. */
  ghost predicate Truthful(n: nat, m: nat) {
    forall s0, s, i ::
      Init(s0) && |s0.buf| == n && |s0.cons| == m && Reaches(s0, s) && Misses(s, i) ==> Shape(s) && WasEmpty(s, i)
  }

  lemma SmallIsTruthful(s0: State, s: State, i: nat)
    requires Init(s0) && (|s0.buf| <= 2 || |s0.cons| <= 1) && Reaches(s0, s) && Misses(s, i)
    ensures Shape(s) && WasEmpty(s, i)
  {
    var steps :| CanRun(s0, steps) && Final(s0, steps) == s;
    InitInv(s0);
    RunInv(s0, steps);
    assert ConsumerOk(s, i);
    if |s0.buf| <= 2 {
      assert forall j :: 0 <= j < |s0.cons| ==> EmptyOk(s0, j);
      EmptyRun(s0, steps);
      assert EmptyOk(s, i);
    }
  }

  lemma {:induction false} RunFurther(s0: State, steps: seq<Step>, l: Step)
    requires Shape(s0) && CanRun(s0, steps) && Shape(Final(s0, steps)) && Enabled(Final(s0, steps), l)
    ensures CanRun(s0, steps + [l]) && Final(s0, steps + [l]) == Next(Final(s0, steps), l)
    decreases |steps|
  {
    if steps == [] {
      assert [l][1..] == [];
    } else {
      RunFurther(Next(s0, steps[0]), steps[1..], l);
      assert (steps + [l])[1..] == steps[1..] + [l];
    }
  }

  lemma Take(s0: State, s: State, l: Step) returns (s': State)
    requires Shape(s0) && Reaches(s0, s) && Inv(s) && Enabled(s, l)
    ensures s' == Next(s, l) && Reaches(s0, s') && Inv(s')
  {
    ReachFurther(s0, s, l);
    StepInv(s, l);
    s' := Next(s, l);
  }

  lemma ReachFurther(s0: State, s: State, l: Step)
    requires Shape(s0) && Reaches(s0, s) && Shape(s) && Enabled(s, l)
    ensures Reaches(s0, Next(s, l))
  {
    var steps :| CanRun(s0, steps) && Final(s0, steps) == s;
    RunFurther(s0, steps, l);
  }

  /** The producer enqueues a value while there is room and the consumers rest. */
  lemma RunEnqueue(s0: State, s: State, v: Value) returns (s': State)
    requires Shape(s0) && Reaches(s0, s) && Inv(s) && s.prod == PIdle && s.pTail + 1 < s.cHead + |s.buf|
    ensures Reaches(s0, s') && Inv(s') && s'.prod == PIdle && |s'.buf| == |s.buf|
    ensures s'.pTail == s.pTail + 1 && s'.cHead == s.cHead && s'.cons == s.cons
  {
    FullMeansFull(s);
    s' := Take(s0, s, CallEnqueue(v));
    s' := Take(s0, s', Produce);
    s' := Take(s0, s', Produce);
    s' := Take(s0, s', Produce);
    s' := Take(s0, s', Produce);
  }

  /** A consumer gets as far as its compare-and-swap. */
  lemma RunDequeue(s0: State, s: State, i: nat, kind: Kind) returns (s': State)
    requires Shape(s0) && Reaches(s0, s) && Inv(s) && i < |s.cons| && s.cons[i] == CIdle
    requires s.cHead < s.pTail && kind != Single
    ensures Reaches(s0, s') && Inv(s') && s'.buf == s.buf && s'.pTail == s.pTail && s'.cHead == s.cHead
    ensures exists r :: s'.cons == s.cons[i := CSwap(kind, s.cHead, r)]
    ensures s'.since == s.since[i := |s.trace| + 1] && s'.trace == s.trace + [Call(Consumer(i), Dequeue(kind))]
  {
    s' := Take(s0, s, CallDequeue(i, kind));
    s' := Take(s0, s', Consume(i));
    s' := Take(s0, s', Consume(i));
    var r := s'.buf[Slot(s.cHead, |s'.buf|)];
    s' := Take(s0, s', Consume(i));
    assert s'.cons == s.cons[i := CSwap(kind, s.cHead, r)];
  }

  lemma NeverEmpty(s1: State, s2: State, s3: State)
    requires Inv(s1) && Inv(s2) && Inv(s3) && |s1.buf| == |s2.buf| == |s3.buf| && |s3.cons| > 0
    requires s1.cHead < s1.pTail && s2.cHead < s2.pTail && s3.cHead < s3.pTail
    requires s3.since[0] == |s1.trace| && |s3.trace| == |s1.trace| + 2
    requires s1.trace == s3.trace[..|s1.trace|] && s2.trace == s3.trace[..|s1.trace| + 1]
    ensures !WasEmpty(s3, 0)
  {
    forall k | s3.since[0] <= k <= |s3.trace| ensures Replay(s3.trace[..k], |s3.buf| - 1) != Some([]) {
      assert s3.trace[..|s3.trace|] == s3.trace;
    }
  }

  /** Two values are queued; consumer 0 reads c_head and consumer 1 takes the first value. */
  lemma LosesTheRace(s0: State, s: State) returns (s3: State)
    requires Shape(s0) && Reaches(s0, s) && Inv(s) && s.cHead + 2 == s.pTail && |s.buf| >= 3
    requires |s.cons| >= 2 && s.cons[0] == CIdle && s.cons[1] == CIdle
    ensures Reaches(s0, s3) && Misses(s3, 0) && Shape(s3) && !WasEmpty(s3, 0)
  {
    var s1 := RunDequeue(s0, s, 0, Try);
    var s2 := RunDequeue(s0, s1, 1, Retry);
    s3 := Take(s0, s2, Consume(1));
    NeverEmpty(s1, s2, s3);
  }

  lemma BigIsNot(n: nat, m: nat) returns (s0: State, s: State)
    requires n >= 3 && m >= 2
    ensures Init(s0) && |s0.buf| == n && |s0.cons| == m
    ensures Reaches(s0, s) && Misses(s, 0) && Shape(s) && !WasEmpty(s, 0)
  {
    s0 := State(seq(n, _ => 0), 0, 0, PIdle, seq(m, _ => CIdle), [], seq(m, _ => 0));
    InitInv(s0);
    assert CanRun(s0, []) && Final(s0, []) == s0;
    s := RunEnqueue(s0, s0, 1);
    s := RunEnqueue(s0, s, 2);
    s := LosesTheRace(s0, s);
  }

  /** Exactly when the promise holds of trydequeue_spmc. */
  lemma TruthfulExactly(n: nat, m: nat)
    requires n > 0
    ensures Truthful(n, m) <==> n <= 2 || m <= 1
  {
    if n <= 2 || m <= 1 {
      forall s0, s, i | Init(s0) && |s0.buf| == n && |s0.cons| == m && Reaches(s0, s) && Misses(s, i)
        ensures Shape(s) && WasEmpty(s, i)
      {
        SmallIsTruthful(s0, s, i);
      }
    } else {
      var s0, s := BigIsNot(n, m);
    }
  }
}
