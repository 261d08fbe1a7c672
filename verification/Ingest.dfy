/**
 * The ingest pipeline: producers offer deliveries to a bounded queue, one worker evaluates, acknowledges and
 * dispatches them, and a forced stop ends the worker early. Every atomic action is a step, and steps
 * interleave in any order.
 */
module Ingest {
  import opened Wrappers
  import opened Doubles

  const WORD: nat := TWO_64

  type Delivery = nat

  /** A producer that enqueued a delivery still has to count it. */
  datatype Producer = Ready | Counting

  /** What the worker has in hand and how far it got with it. */
  datatype Worker =
    | Receiving
    | Received(d: Delivery)
    | Accepted(d: Delivery)
    | Counted(d: Delivery)
    | Evaluated(d: Delivery)
    | Acked(d: Delivery)
    | Stopped

  datatype State = State(
    queue: seq<Delivery>, sendersOpen: bool, force: bool, depth: nat, producers: seq<Producer>, worker: Worker,
    enqueued: seq<Delivery>, dropped: seq<Delivery>, evaluated: seq<Delivery>, acked: seq<Delivery>,
    dispatched: seq<Delivery>, abandoned: seq<Delivery>)

  datatype Step =
    | TrySend(p: nat, d: Delivery)
    | CountEnqueued(p: nat)
    | CloseSenders
    | ForceStop
    | Receive
    | Disconnect
    | CheckFlag(seen: bool)
    | CountDequeued
    | Evaluate
    | Ack
    | Dispatch
  {
    predicate IsWorkers() { !TrySend? && !CountEnqueued? && !CloseSenders? && !ForceStop? }
  }

  function Initial(producers: nat): State {
    State([], true, false, 0, seq(producers, _ => Ready), Receiving, [], [], [], [], [], [])
  }

  function When(b: bool, s: State): Option<State> {
    if b then Some(s) else None
  }

  /** One step, if it can be taken. Each delivery is offered at most once; a relaxed load of the stop flag may
      miss that it was set. */
  function Take(capacity: nat, s: State, step: Step): Option<State> {
    match step
    case TrySend(p, d) =>
      if !(p < |s.producers| && s.producers[p].Ready? && s.sendersOpen && d !in s.enqueued && d !in s.dropped) then None
      else if s.worker.Stopped? || |s.queue| >= capacity then Some(s.(dropped := s.dropped + [d]))
      else Some(s.(queue := s.queue + [d], enqueued := s.enqueued + [d], producers := s.producers[p := Counting]))
    case CountEnqueued(p) =>
      if p < |s.producers| && s.producers[p].Counting? then
        Some(s.(depth := (s.depth + 1) % WORD, producers := s.producers[p := Ready]))
      else None
    case CloseSenders =>
      When(forall p :: 0 <= p < |s.producers| ==> s.producers[p].Ready?, s.(sendersOpen := false))
    case ForceStop => Some(s.(force := true))
    case Receive =>
      if s.worker.Receiving? && s.queue != [] then Some(s.(worker := Received(s.queue[0]), queue := s.queue[1..]))
      else None
    case Disconnect =>
      When(s.worker.Receiving? && s.queue == [] && !s.sendersOpen, s.(worker := Stopped))
    case CheckFlag(seen) =>
      if s.worker.Received? && (seen ==> s.force) then
        Some(if seen then s.(worker := Stopped, abandoned := s.abandoned + [s.worker.d])
             else s.(worker := Accepted(s.worker.d)))
      else None
    case CountDequeued =>
      if s.worker.Accepted? then Some(s.(depth := (s.depth + WORD - 1) % WORD, worker := Counted(s.worker.d))) else None
    case Evaluate =>
      if s.worker.Counted? then Some(s.(evaluated := s.evaluated + [s.worker.d], worker := Evaluated(s.worker.d)))
      else None
    case Ack =>
      if s.worker.Evaluated? then Some(s.(acked := s.acked + [s.worker.d], worker := Acked(s.worker.d))) else None
    case Dispatch =>
      if s.worker.Acked? then Some(s.(dispatched := s.dispatched + [s.worker.d], worker := Receiving)) else None
  }

  function Run(capacity: nat, producers: nat, steps: seq<Step>): Option<State> {
    if steps == [] then Some(Initial(producers))
    else
      match Run(capacity, producers, steps[..|steps| - 1])
      case None => None
      case Some(s) => Take(capacity, s, steps[|steps| - 1])
  }

  lemma RunNext(capacity: nat, producers: nat, steps: seq<Step>, s: State, step: Step)
    requires Run(capacity, producers, steps) == Some(s)
    ensures Run(capacity, producers, steps + [step]) == Take(capacity, s, step)
  {
    assert (steps + [step])[..|steps|] == steps;
  }

  // ----- what an offer does, and when steps can be taken -----

  /** The queue takes another delivery: its worker still receives and it is shorter than its capacity. */
  predicate HasRoom(capacity: nat, s: State) {
    !s.worker.Stopped? && |s.queue| < capacity
  }

  /** The delivery goes to the end of the queue, or to the dropped ones; the rest of the two lists stays. */
  ghost predicate Accepts(s: State, s': State, d: Delivery) {
    s'.queue == s.queue + [d] && s'.enqueued == s.enqueued + [d] && s'.dropped == s.dropped
  }

  ghost predicate Drops(s: State, s': State, d: Delivery) {
    s'.queue == s.queue && s'.enqueued == s.enqueued && s'.dropped == s.dropped + [d]
  }

  /** An offer in any run is accepted exactly when the queue has room, and dropped otherwise. A ready producer can
      offer any new delivery while the senders are open. */
  lemma OfferInRun(capacity: nat, producers: nat, steps: seq<Step>, p: nat, d: Delivery)
    requires Run(capacity, producers, steps).Some?
    ensures var s, after := Run(capacity, producers, steps).value, Run(capacity, producers, steps + [TrySend(p, d)]);
            && (after.Some? ==> if HasRoom(capacity, s) then Accepts(s, after.value, d) else Drops(s, after.value, d))
            && (after.Some? <==> p < |s.producers| && s.producers[p] == Ready && s.sendersOpen &&
                                 d !in s.enqueued && d !in s.dropped)
  {
    RunNext(capacity, producers, steps, Run(capacity, producers, steps).value, TrySend(p, d));
  }

  lemma OtherStepsOffer(capacity: nat, s: State, step: Step)
    requires Take(capacity, s, step).Some? && !step.TrySend?
    ensures Take(capacity, s, step).value.dropped == s.dropped && Take(capacity, s, step).value.enqueued == s.enqueued
  {}

  /** The steps before the n-th lead to a state in which the queue has room or has none, and the n-th offers d. */
  ghost predicate OfferedAt(capacity: nat, producers: nat, steps: seq<Step>, d: Delivery, n: nat, room: bool) {
    && n < |steps| && steps[n].TrySend? && steps[n].d == d && Run(capacity, producers, steps[..n]).Some?
    && HasRoom(capacity, Run(capacity, producers, steps[..n]).value) == room
  }

  lemma OfferedBefore(capacity: nat, producers: nat, steps: seq<Step>, d: Delivery, n: nat, room: bool)
    requires steps != [] && OfferedAt(capacity, producers, steps[..|steps| - 1], d, n, room)
    ensures OfferedAt(capacity, producers, steps, d, n, room)
  {
    assert steps[..|steps| - 1][..n] == steps[..n];
  }

  /** Every dropped delivery was offered when the queue had no room, and every enqueued one when it had. */
  lemma {:induction false} OfferOf(capacity: nat, producers: nat, steps: seq<Step>, d: Delivery) returns (n: nat)
    requires Run(capacity, producers, steps).Some?
    requires var s := Run(capacity, producers, steps).value; d in s.dropped || d in s.enqueued
    ensures var s := Run(capacity, producers, steps).value;
            OfferedAt(capacity, producers, steps, d, n, d !in s.dropped)
  {
    RunKeeps(capacity, producers, steps);
    var last, before := |steps| - 1, steps[..|steps| - 1];
    var s, s' := Run(capacity, producers, before).value, Run(capacity, producers, steps).value;
    if d in s.dropped || d in s.enqueued {
      n := OfferOf(capacity, producers, before, d);
      if !steps[last].TrySend? { OtherStepsOffer(capacity, s, steps[last]); }
      OfferedBefore(capacity, producers, steps, d, n, d !in s.dropped);
    } else {
      n := last;
      if !steps[last].TrySend? { OtherStepsOffer(capacity, s, steps[last]); }
    }
  }

  /** A delivery was dropped only when the queue held its full capacity or the worker had stopped. */
  lemma DroppedWhenFull(capacity: nat, producers: nat, steps: seq<Step>, d: Delivery) returns (n: nat)
    requires Run(capacity, producers, steps).Some? && d in Run(capacity, producers, steps).value.dropped
    ensures n < |steps| && steps[n].TrySend? && steps[n].d == d && Run(capacity, producers, steps[..n]).Some?
    ensures var s := Run(capacity, producers, steps[..n]).value; s.worker.Stopped? || |s.queue| == capacity
  {
    n := OfferOf(capacity, producers, steps, d);
    RunKeeps(capacity, producers, steps[..n]);
  }

  /** The worker waits: it receives from an empty queue whose senders are open. */
  predicate Waits(s: State) {
    s.worker.Receiving? && s.queue == [] && s.sendersOpen
  }

  /** The worker can step unless it has stopped or waits, and then it cannot. */
  lemma WorkerCanStep(capacity: nat, s: State, step: Step) returns (next: Step)
    ensures !s.worker.Stopped? && !Waits(s) ==> next.IsWorkers() && Take(capacity, s, next).Some?
    ensures step.IsWorkers() && Take(capacity, s, step).Some? ==> !s.worker.Stopped? && !Waits(s)
  {
    next := match s.worker
      case Receiving => if s.queue != [] then Receive else Disconnect
      case Received(_) => CheckFlag(false)
      case Accepted(_) => CountDequeued
      case Counted(_) => Evaluate
      case Evaluated(_) => Ack
      case Acked(_) => Dispatch
      case Stopped => Receive;
  }

  /** A producer that enqueued can count it, a stop can be forced at any time and is seen by a worker that then
      checks, and the senders close once no producer is counting. */
  lemma OthersCanStep(capacity: nat, s: State, p: nat)
    ensures p < |s.producers| && s.producers[p].Counting? ==> Take(capacity, s, CountEnqueued(p)).Some?
    ensures Take(capacity, s, ForceStop) == Some(s.(force := true))
    ensures s.worker.Received? && s.force ==>
              Take(capacity, s, CheckFlag(true)) == Some(s.(worker := Stopped, abandoned := s.abandoned + [s.worker.d]))
    ensures (forall q :: 0 <= q < |s.producers| ==> s.producers[q] == Ready) ==>
              Take(capacity, s, CloseSenders) == Some(s.(sendersOpen := false))
  {}

  // ----- what every interleaving keeps -----

  /** The delivery received but not yet evaluated. */
  function InHand(w: Worker): seq<Delivery> {
    match w
    case Received(d) => [d]
    case Accepted(d) => [d]
    case Counted(d) => [d]
    case _ => []
  }

  function Pending(producers: seq<Producer>): nat {
    if producers == [] then 0
    else Pending(producers[..|producers| - 1]) + if producers[|producers| - 1].Counting? then 1 else 0
  }

  /** What was enqueued was evaluated, then is in hand or was abandoned, then is still queued. */
  ghost predicate NoneLost(s: State) {
    s.enqueued == s.evaluated + InHand(s.worker) + s.abandoned + s.queue
  }

  /** What was acknowledged was evaluated, and what was dispatched was acknowledged, one delivery behind at most. */
  ghost predicate Follows(s: State) {
    && s.evaluated == s.acked + (if s.worker.Evaluated? then [s.worker.d] else [])
    && s.acked == s.dispatched + (if s.worker.Acked? then [s.worker.d] else [])
  }

  /** No delivery is lost, repeated or reordered. */
  ghost predicate InOrder(s: State) {
    && NoneLost(s) && Follows(s)
    && NoDuplicates(s.enqueued + s.dropped)
  }

  ghost predicate StopsRight(s: State) {
    && |s.abandoned| <= 1
    && (s.abandoned != [] ==> s.worker.Stopped? && s.force)
    && (s.worker.Stopped? && s.abandoned == [] ==> s.queue == [] && !s.sendersOpen)
  }

  /** Deliveries that left the queue and were not counted as dequeued: in hand, or abandoned. */
  function Uncounted(s: State): nat {
    |s.abandoned| + if s.worker.Received? || s.worker.Accepted? then 1 else 0
  }

  ghost predicate DepthHolds(s: State) {
    s.depth < WORD && (s.depth + Pending(s.producers)) % WORD == (|s.queue| + Uncounted(s)) % WORD
  }

  ghost predicate Invariant(capacity: nat, s: State) {
    |s.queue| <= capacity && InOrder(s) && StopsRight(s) && DepthHolds(s)
  }

  lemma {:induction false} PendingAfter(producers: seq<Producer>, p: nat, now: Producer)
    requires p < |producers|
    ensures Pending(producers[p := now]) + (if producers[p].Counting? then 1 else 0) ==
            Pending(producers) + if now.Counting? then 1 else 0
  {
    var n := |producers| - 1;
    if p < n {
      PendingAfter(producers[..n], p, now);
      assert producers[p := now][..n] == producers[..n][p := now];
    } else {
      assert producers[p := now][..n] == producers[..n];
    }
  }

  lemma {:induction false} NonePending(producers: seq<Producer>)
    requires forall p :: 0 <= p < |producers| ==> producers[p].Ready?
    ensures Pending(producers) == 0
  {
    if producers != [] {
      NonePending(producers[..|producers| - 1]);
    }
  }

  lemma DistinctWith<T>(a: seq<T>, b: seq<T>, d: T)
    requires NoDuplicates(a + b) && d !in a && d !in b
    ensures NoDuplicates(a + [d] + b) && NoDuplicates(a + b + [d])
  {
    var c, n := a + [d] + b, |a|;
    forall i, j | 0 <= i < j < |c| ensures c[i] != c[j] {
      assert i != n ==> c[i] == (a + b)[if i < n then i else i - 1];
      assert j != n ==> c[j] == (a + b)[if j < n then j else j - 1];
      assert i != n ==> (a + b)[if i < n then i else i - 1] != d;
      assert j != n ==> (a + b)[if j < n then j else j - 1] != d;
    }
  }

  lemma Regroup<T>(a: seq<T>, h: seq<T>, b: seq<T>, q: seq<T>, d: T)
    ensures a + h + b + (q + [d]) == a + h + b + q + [d]
    ensures a + [d] + [] + q == a + [] + [] + ([d] + q)
    ensures a + [d] + [] + q == a + [] + [d] + q
  {}

  lemma WorkerLosesNone(capacity: nat, s: State, step: Step)
    requires step.Receive? || step.CheckFlag? || step.Evaluate?
    requires NoneLost(s) && StopsRight(s) && Take(capacity, s, step).Some?
    ensures NoneLost(Take(capacity, s, step).value)
  {
    var s' := Take(capacity, s, step).value;
    assert s.abandoned == [] && s'.enqueued == s.enqueued;
    if step.Receive? {
      assert s.queue == [s.queue[0]] + s'.queue;
      Regroup(s.evaluated, [], [], s'.queue, s.queue[0]);
    } else {
      assert s'.queue == s.queue;
      Regroup(s.evaluated, [], [], s.queue, s.worker.d);
    }
  }

  lemma StepLosesNone(capacity: nat, s: State, step: Step)
    requires NoneLost(s) && StopsRight(s) && Take(capacity, s, step).Some?
    ensures NoneLost(Take(capacity, s, step).value)
  {
    if step.Receive? || step.CheckFlag? || step.Evaluate? {
      WorkerLosesNone(capacity, s, step);
    } else if step.TrySend? {
      Regroup(s.evaluated, InHand(s.worker), s.abandoned, s.queue, step.d);
    }
  }

  lemma StepKeepsDistinct(capacity: nat, s: State, step: Step)
    requires NoDuplicates(s.enqueued + s.dropped) && Take(capacity, s, step).Some?
    ensures var s' := Take(capacity, s, step).value; NoDuplicates(s'.enqueued + s'.dropped)
  {
    var s' := Take(capacity, s, step).value;
    if step.TrySend? {
      DistinctWith(s.enqueued, s.dropped, step.d);
      assert s'.enqueued + s'.dropped == s.enqueued + s.dropped + [step.d] ||
             s'.enqueued + s'.dropped == s.enqueued + [step.d] + s.dropped;
    }
  }

  lemma StepKeepsFollowing(capacity: nat, s: State, step: Step)
    requires Follows(s) && Take(capacity, s, step).Some?
    ensures Follows(Take(capacity, s, step).value)
  {}

  lemma StepKeepsOrder(capacity: nat, s: State, step: Step)
    requires InOrder(s) && StopsRight(s) && Take(capacity, s, step).Some?
    ensures InOrder(Take(capacity, s, step).value)
  {
    StepLosesNone(capacity, s, step);
    StepKeepsDistinct(capacity, s, step);
    StepKeepsFollowing(capacity, s, step);
  }

  lemma StepKeepsStops(capacity: nat, s: State, step: Step)
    requires |s.queue| <= capacity && StopsRight(s) && Take(capacity, s, step).Some?
    ensures StopsRight(Take(capacity, s, step).value) && |Take(capacity, s, step).value.queue| <= capacity
  {}

  lemma AddModulo(a: int, b: int, c: int)
    requires a % WORD == b % WORD
    ensures (a + c) % WORD == (b + c) % WORD
  {
    assert a + c == b + c + (a / WORD - b / WORD) * WORD;
  }

  /** By how much a step changes the gauge. */
  function GaugeChange(step: Step): int {
    if step.CountEnqueued? then 1 else if step.CountDequeued? then -1 else 0
  }

  lemma PendingMoves(capacity: nat, s: State, step: Step) returns (f: int)
    requires Take(capacity, s, step).Some?
    ensures var s' := Take(capacity, s, step).value;
            && Pending(s'.producers) == Pending(s.producers) + f
            && f == if step.CountEnqueued? then -1 else if s'.enqueued != s.enqueued then 1 else 0
  {
    var s' := Take(capacity, s, step).value;
    f := if step.CountEnqueued? then -1 else if s'.enqueued != s.enqueued then 1 else 0;
    if step.CountEnqueued? || f == 1 {
      PendingAfter(s.producers, step.p, s'.producers[step.p]);
    }
  }

  lemma UncountedMoves(capacity: nat, s: State, step: Step)
    requires Take(capacity, s, step).Some?
    ensures var s' := Take(capacity, s, step).value;
            |s'.queue| + Uncounted(s') == |s.queue| + Uncounted(s) +
              if step.CountDequeued? then -1 else if s'.enqueued != s.enqueued then 1 else 0
  {}

  lemma GaugeMoves(capacity: nat, s: State, step: Step)
    requires Take(capacity, s, step).Some? && s.depth < WORD
    ensures Take(capacity, s, step).value.depth == (s.depth + GaugeChange(step)) % WORD
  {}

  lemma StepKeepsDepth(capacity: nat, s: State, step: Step)
    requires DepthHolds(s) && Take(capacity, s, step).Some?
    ensures DepthHolds(Take(capacity, s, step).value)
  {
    var f := PendingMoves(capacity, s, step);
    UncountedMoves(capacity, s, step);
    GaugeMoves(capacity, s, step);
    DepthMoves(s.depth, Pending(s.producers), |s.queue| + Uncounted(s),
               Take(capacity, s, step).value.depth, GaugeChange(step), f);
  }

  lemma DepthMoves(depth: int, pending: int, held: int, depth': int, e: int, f: int)
    requires (depth + pending) % WORD == held % WORD && depth' == (depth + e) % WORD
    ensures 0 <= depth' < WORD && (depth' + pending + f) % WORD == (held + e + f) % WORD
  {
    AddModulo(depth + pending, held, e + f);
    AddModulo(depth', depth + e, pending + f);
  }

  lemma {:induction false} RunKeeps(capacity: nat, producers: nat, steps: seq<Step>)
    requires Run(capacity, producers, steps).Some?
    ensures Invariant(capacity, Run(capacity, producers, steps).value)
  {
    if steps == [] {
      NonePending(Initial(producers).producers);
    } else {
      var s := Run(capacity, producers, steps[..|steps| - 1]).value;
      RunKeeps(capacity, producers, steps[..|steps| - 1]);
      StepKeepsOrder(capacity, s, steps[|steps| - 1]);
      StepKeepsStops(capacity, s, steps[|steps| - 1]);
      StepKeepsDepth(capacity, s, steps[|steps| - 1]);
    }
  }

  // ----- what this means for acknowledgements, shutdown and the depth gauge -----

  ghost predicate AcksSafe(s: State) {
    && s.dispatched <= s.acked <= s.evaluated <= s.enqueued
    && |s.evaluated| <= |s.acked| + 1 && |s.abandoned| <= 1
    && NoDuplicates(s.acked)
    && forall d :: d in s.acked ==> d !in s.dropped && d !in s.abandoned && d !in s.queue
  }

  /** In every reachable state: deliveries are acknowledged in the order they were enqueued, each only after
      its evaluation, none twice, and none that was dropped, abandoned or is still queued. */
  lemma AcksAreSafe(capacity: nat, producers: nat, steps: seq<Step>)
    requires Run(capacity, producers, steps).Some?
    ensures AcksSafe(Run(capacity, producers, steps).value)
  {
    RunKeeps(capacity, producers, steps);
    InOrderIsSafe(Run(capacity, producers, steps).value);
  }

  lemma InOrderIsSafe(s: State)
    requires InOrder(s) && StopsRight(s)
    ensures AcksSafe(s)
  {
    PartsAreDisjoint(s.acked, if s.worker.Evaluated? then [s.worker.d] else [],
                     InHand(s.worker), s.abandoned, s.queue, s.dropped);
    assert s.enqueued == s.evaluated + (InHand(s.worker) + s.abandoned + s.queue);
  }

  lemma PartsAreDisjoint<T>(acked: seq<T>, unacked: seq<T>, hand: seq<T>, abandoned: seq<T>, queue: seq<T>,
                            dropped: seq<T>)
    requires NoDuplicates(acked + unacked + hand + abandoned + queue + dropped)
    ensures NoDuplicates(acked)
    ensures forall d :: d in acked ==> d !in dropped && d !in abandoned && d !in queue
  {
    var rest := unacked + hand + abandoned + queue + dropped;
    assert acked + unacked + hand + abandoned + queue + dropped == acked + rest;
    DistinctParts(acked, rest);
    assert forall d :: d in dropped || d in abandoned || d in queue ==> d in rest;
  }

  lemma DistinctParts<T>(a: seq<T>, b: seq<T>)
    requires NoDuplicates(a + b)
    ensures NoDuplicates(a) && forall x :: x in a ==> x !in b
  {
    forall x | x in a ensures x !in b {
      var i :| 0 <= i < |a| && a[i] == x;
      assert (a + b)[i] == x;
      assert forall j :: 0 <= j < |b| ==> b[j] == (a + b)[|a| + j];
    }
    forall i, j | 0 <= i < j < |a| ensures a[i] != a[j] {
      assert (a + b)[i] == a[i] && (a + b)[j] == a[j];
    }
  }

  /** Without a forced stop, a worker that has exited has evaluated, acknowledged and dispatched everything
      that was ever enqueued. */
  lemma ExitMeansDrained(capacity: nat, producers: nat, steps: seq<Step>)
    requires Run(capacity, producers, steps).Some?
    requires Run(capacity, producers, steps).value.worker.Stopped? && !Run(capacity, producers, steps).value.force
    ensures var s := Run(capacity, producers, steps).value;
            s.queue == [] && s.dispatched == s.acked == s.evaluated == s.enqueued
  {
    RunKeeps(capacity, producers, steps);
  }

  /** How much the worker still has to do once the senders are closed. */
  function Work(s: State): nat {
    7 * |s.queue| +
    match s.worker
    case Stopped => 0
    case Receiving => 1
    case Acked(_) => 2
    case Evaluated(_) => 3
    case Counted(_) => 4
    case Accepted(_) => 5
    case Received(_) => 6
  }

  /** After the senders close, the worker can always step until it exits, and every step leaves it less to do. */
  lemma DrainTerminates(capacity: nat, s: State, step: Step) returns (next: Step)
    requires !s.sendersOpen
    ensures !s.worker.Stopped? ==> next.IsWorkers() && Take(capacity, s, next).Some?
    ensures step.IsWorkers() && Take(capacity, s, step).Some? ==> Work(Take(capacity, s, step).value) < Work(s)
    ensures !step.IsWorkers() && Take(capacity, s, step).Some? ==> Work(Take(capacity, s, step).value) == Work(s)
  {
    next := WorkerCanStep(capacity, s, step);
  }

  /** When nobody is between an operation and its counting and nothing was abandoned, the gauge is the queue
      length; an abandoned delivery leaves it one too high for good. */
  lemma GaugeAtRest(capacity: nat, producers: nat, steps: seq<Step>)
    requires capacity + 1 < WORD && Run(capacity, producers, steps).Some?
    requires var s := Run(capacity, producers, steps).value;
             !s.worker.Received? && !s.worker.Accepted? && forall p :: 0 <= p < |s.producers| ==> s.producers[p].Ready?
    ensures var s := Run(capacity, producers, steps).value;
            && s.depth == |s.queue| + |s.abandoned|
            && (s.depth == |s.queue| <==> s.abandoned == [])
  {
    RunKeeps(capacity, producers, steps);
    DepthAtRest(capacity, Run(capacity, producers, steps).value);
  }

  lemma DepthAtRest(capacity: nat, s: State)
    requires capacity + 1 < WORD && Invariant(capacity, s)
    requires !s.worker.Received? && !s.worker.Accepted? && forall p :: 0 <= p < |s.producers| ==> s.producers[p].Ready?
    ensures s.depth == |s.queue| + |s.abandoned|
  {
    NonePending(s.producers);
    SmallModulo(s.depth, |s.queue| + |s.abandoned|);
  }

  lemma SmallModulo(a: nat, b: nat)
    requires a < WORD && b < WORD && a % WORD == b % WORD
    ensures a == b
  {}

  /** A stop forced while a delivery is in the worker's hand abandons it, and the gauge of the empty queue
      stays at 1. */
  lemma StopCanAbandon()
    ensures var run := Run(1, 1, [TrySend(0, 7), CountEnqueued(0), Receive, ForceStop, CheckFlag(true)]);
            && run.Some? && run.value.queue == [] && run.value.abandoned == [7] && run.value.depth == 1
            && run.value.worker.Stopped? && run.value.producers == [Ready]
  {
    var p1: seq<Step> := [TrySend(0, 7)];
    var p2, p3 := p1 + [CountEnqueued(0)], p1 + [CountEnqueued(0)] + [Receive];
    var s0 := Initial(1);
    assert s0.producers == [Ready] && [] + p1 == p1;
    RunNext(1, 1, [], s0, p1[0]);
    var s1 := Take(1, s0, p1[0]).value;
    assert s1.queue == [7] && s1.producers == [Counting];
    RunNext(1, 1, p1, s1, CountEnqueued(0));
    var s2 := Take(1, s1, CountEnqueued(0)).value;
    assert s2.depth == 1 && s2.producers == [Ready];
    RunNext(1, 1, p2, s2, Receive);
    var s3 := Take(1, s2, Receive).value;
    RunNext(1, 1, p3, s3, ForceStop);
    RunNext(1, 1, p3 + [ForceStop], s3.(force := true), CheckFlag(true));
    assert p3 + [ForceStop] + [CheckFlag(true)] ==
           [TrySend(0, 7), CountEnqueued(0), Receive, ForceStop, CheckFlag(true)];
  }
}
