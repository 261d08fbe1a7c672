/**
 * Concurrent latency recording. Each thread adds to a count and a total and then raises a shared maximum
 * with a compare-exchange loop; the threads' atomic steps interleave in any order.
 */
module LatencyMax {
  import opened Wrappers
  import opened Doubles

  const WORD: nat := TWO_64

  /** Where a thread stands in recording its duration. */
  datatype Pc = Counting | Adding | Loading | Comparing(current: nat) | Done

  /** The shared words, every value the maximum has had so far, and the threads. */
  datatype State = State(count: nat, total: nat, history: seq<nat>, threads: seq<Pc>)

  /** A relaxed load, and a failed exchange, may see any value the maximum has had. */
  datatype Step =
    | AddCount(t: nat)
    | AddTotal(t: nat)
    | Load(t: nat, seen: nat)
    | Leave(t: nat)
    | Exchange(t: nat)
    | FailExchange(t: nat, seen: nat)

  function Max(s: State): nat
    requires s.history != []
  {
    s.history[|s.history| - 1]
  }

  function Initial(durations: seq<nat>): State {
    State(0, 0, [0], seq(|durations|, _ => Counting))
  }

  /** One atomic step of one thread, if it can take it. */
  function Take(durations: seq<nat>, s: State, step: Step): Option<State>
    requires |s.threads| == |durations| && s.history != []
  {
    var t := step.t;
    if t >= |durations| then None
    else
      var pc, d := s.threads[t], durations[t];
      match step
      case AddCount(_) =>
        if pc.Counting? then Some(s.(count := (s.count + 1) % WORD, threads := s.threads[t := Adding])) else None
      case AddTotal(_) =>
        if pc.Adding? then Some(s.(total := (s.total + d) % WORD, threads := s.threads[t := Loading])) else None
      case Load(_, seen) =>
        if pc.Loading? && seen < |s.history| then Some(s.(threads := s.threads[t := Comparing(s.history[seen])]))
        else None
      case Leave(_) =>
        if pc.Comparing? && d <= pc.current then Some(s.(threads := s.threads[t := Done])) else None
      case Exchange(_) =>
        if pc.Comparing? && d > pc.current && pc.current == Max(s) then
          Some(s.(history := s.history + [d], threads := s.threads[t := Done]))
        else None
      case FailExchange(_, seen) =>
        if pc.Comparing? && d > pc.current && seen < |s.history| then
          Some(s.(threads := s.threads[t := Comparing(s.history[seen])]))
        else None
  }

  /** The state after a run of steps; None if one of them could not be taken. */
  function Run(durations: seq<nat>, steps: seq<Step>): (r: Option<State>)
    ensures r.Some? ==> |r.value.threads| == |durations| && r.value.history != []
  {
    if steps == [] then Some(Initial(durations))
    else
      match Run(durations, steps[..|steps| - 1])
      case None => None
      case Some(s) => Take(durations, s, steps[|steps| - 1])
  }

  // ----- sums over threads -----

  function CountOf(threads: seq<Pc>): nat {
    if threads == [] then 0
    else CountOf(threads[..|threads| - 1]) + if threads[|threads| - 1].Counting? then 0 else 1
  }

  function TotalOf(durations: seq<nat>, threads: seq<Pc>): nat
    requires |durations| == |threads|
  {
    if threads == [] then 0
    else
      var n := |threads| - 1;
      TotalOf(durations[..n], threads[..n]) + if threads[n].Counting? || threads[n].Adding? then 0 else durations[n]
  }

  lemma {:induction false} SumsAfter(durations: seq<nat>, threads: seq<Pc>, t: nat, pc: Pc)
    requires |durations| == |threads| && t < |threads|
    ensures CountOf(threads[t := pc]) + (if threads[t].Counting? then 0 else 1) ==
            CountOf(threads) + if pc.Counting? then 0 else 1
    ensures TotalOf(durations, threads[t := pc]) +
            (if threads[t].Counting? || threads[t].Adding? then 0 else durations[t]) ==
            TotalOf(durations, threads) + if pc.Counting? || pc.Adding? then 0 else durations[t]
  {
    var n := |threads| - 1;
    if t < n {
      SumsAfter(durations[..n], threads[..n], t, pc);
      assert threads[t := pc][..n] == threads[..n][t := pc];
    } else {
      assert threads[t := pc][..n] == threads[..n];
    }
  }

  lemma {:induction false} SumsInitially(durations: seq<nat>, threads: seq<Pc>)
    requires |durations| == |threads| && forall t :: 0 <= t < |threads| ==> threads[t] == Counting
    ensures CountOf(threads) == 0 && TotalOf(durations, threads) == 0
  {
    if threads != [] {
      SumsInitially(durations[..|threads| - 1], threads[..|threads| - 1]);
    }
  }

  // ----- what every interleaving keeps -----

  ghost predicate Increasing(history: seq<nat>) {
    forall i, j :: 0 <= i < j < |history| ==> history[i] < history[j]
  }

  ghost predicate MaximumHolds(durations: seq<nat>, s: State) {
    && |s.threads| == |durations|
    && s.history != [] && s.history[0] == 0 && Increasing(s.history)
    && (forall i :: 0 < i < |s.history| ==> s.history[i] in durations)
    && (forall t :: 0 <= t < |durations| && s.threads[t].Comparing? ==> s.threads[t].current in s.history)
    && (forall t :: 0 <= t < |durations| && s.threads[t].Done? ==> durations[t] <= Max(s))
  }

  ghost predicate SumsHold(durations: seq<nat>, s: State) {
    && |s.threads| == |durations|
    && s.count == CountOf(s.threads) % WORD
    && s.total == TotalOf(durations, s.threads) % WORD
  }

  ghost predicate Invariant(durations: seq<nat>, s: State) {
    MaximumHolds(durations, s) && SumsHold(durations, s)
  }

  lemma AddModulo(a: nat, b: nat)
    ensures (a % WORD + b) % WORD == (a + b) % WORD
  {}

  lemma StepKeepsSums(durations: seq<nat>, s: State, step: Step)
    requires |s.threads| == |durations| && s.history != []
    requires SumsHold(durations, s) && Take(durations, s, step).Some?
    ensures SumsHold(durations, Take(durations, s, step).value)
  {
    var s' := Take(durations, s, step).value;
    var t := step.t;
    SumsAfter(durations, s.threads, t, s'.threads[t]);
    assert s'.threads == s.threads[t := s'.threads[t]];
    if step.AddCount? {
      AddModulo(CountOf(s.threads), 1);
    } else if step.AddTotal? {
      AddModulo(TotalOf(durations, s.threads), durations[t]);
    }
  }

  /** A thread that finishes has its duration below the new maximum. */
  lemma FinishedBelow(durations: seq<nat>, s: State, step: Step)
    requires MaximumHolds(durations, s) && Take(durations, s, step).Some?
    requires Take(durations, s, step).value.threads[step.t].Done?
    ensures durations[step.t] <= Max(Take(durations, s, step).value)
  {
    if !step.Exchange? {
      var i :| 0 <= i < |s.history| && s.history[i] == s.threads[step.t].current;
      assert s.history[i] <= Max(s);
    }
  }

  lemma StepKeepsMaximum(durations: seq<nat>, s: State, step: Step)
    requires MaximumHolds(durations, s) && Take(durations, s, step).Some?
    ensures MaximumHolds(durations, Take(durations, s, step).value)
    ensures s.history <= Take(durations, s, step).value.history
    ensures Max(s) <= Max(Take(durations, s, step).value)
  {
    var s' := Take(durations, s, step).value;
    var t := step.t;
    assert s'.history == if step.Exchange? then s.history + [durations[t]] else s.history;
    assert Increasing(s'.history) && Max(s) <= Max(s');
    forall u | 0 <= u < |durations| && s'.threads[u].Comparing? ensures s'.threads[u].current in s'.history {
      if u != t { assert s'.threads[u] == s.threads[u]; }
    }
    forall u | 0 <= u < |durations| && s'.threads[u].Done? ensures durations[u] <= Max(s') {
      if u != t { assert s'.threads[u] == s.threads[u]; } else { FinishedBelow(durations, s, step); }
    }
  }

  lemma {:induction false} RunKeeps(durations: seq<nat>, steps: seq<Step>)
    requires Run(durations, steps).Some?
    ensures Invariant(durations, Run(durations, steps).value)
  {
    if steps == [] {
      SumsInitially(durations, Initial(durations).threads);
    } else {
      RunKeeps(durations, steps[..|steps| - 1]);
      StepKeepsSums(durations, Run(durations, steps[..|steps| - 1]).value, steps[|steps| - 1]);
      StepKeepsMaximum(durations, Run(durations, steps[..|steps| - 1]).value, steps[|steps| - 1]);
    }
  }

  /** In every reachable state the maximum is 0 or a recorded duration, at least every finished thread's
      duration, and no later step of any run lowers it. */
  lemma MaximumIsSafe(durations: seq<nat>, steps: seq<Step>, step: Step, t: nat)
    requires Run(durations, steps).Some? && t < |durations|
    ensures var s := Run(durations, steps).value;
            && (Max(s) == 0 || Max(s) in durations)
            && (s.threads[t].Done? ==> durations[t] <= Max(s))
            && (Take(durations, s, step).Some? ==> Max(s) <= Max(Take(durations, s, step).value))
  {
    var s := Run(durations, steps).value;
    RunKeeps(durations, steps);
    if Take(durations, s, step).Some? {
      StepKeepsMaximum(durations, s, step);
    }
  }

  // ----- a thread is never stuck -----

  lemma RunNext(durations: seq<nat>, steps: seq<Step>, s: State, step: Step)
    requires Run(durations, steps) == Some(s)
    ensures Run(durations, steps + [step]) == Take(durations, s, step)
  {
    assert (steps + [step])[..|steps|] == steps;
  }

  /** What a thread that is not done can do next when it sees the newest maximum. */
  function NextOf(durations: seq<nat>, s: State, t: nat): Step
    requires t < |durations| && |s.threads| == |durations| && s.history != []
  {
    match s.threads[t]
    case Counting => AddCount(t)
    case Adding => AddTotal(t)
    case Loading => Load(t, |s.history| - 1)
    case Comparing(current) =>
      if durations[t] <= current then Leave(t)
      else if current == Max(s) then Exchange(t)
      else FailExchange(t, |s.history| - 1)
    case Done => Leave(t)
  }

  /** The steps a thread has left when nobody disturbs it. */
  function Left(durations: seq<nat>, s: State, t: nat): nat
    requires t < |durations| && |s.threads| == |durations| && s.history != []
  {
    match s.threads[t]
    case Counting => 4
    case Adding => 3
    case Loading => 2
    case Comparing(current) => if durations[t] <= current || current == Max(s) then 1 else 2
    case Done => 0
  }

  lemma NextOfIsTaken(durations: seq<nat>, s: State, t: nat)
    requires t < |durations| && |s.threads| == |durations| && s.history != [] && !s.threads[t].Done?
    ensures Take(durations, s, NextOf(durations, s, t)).Some?
    ensures Left(durations, Take(durations, s, NextOf(durations, s, t)).value, t) < Left(durations, s, t)
  {}

  /** From any reachable state a thread that is left undisturbed is done after at most four more steps. */
  lemma FinishesAlone(durations: seq<nat>, steps: seq<Step>, t: nat) returns (more: seq<Step>)
    requires Run(durations, steps).Some? && t < |durations|
    ensures |more| <= 4 && forall i :: 0 <= i < |more| ==> more[i].t == t
    ensures Run(durations, steps + more).Some? && Run(durations, steps + more).value.threads[t].Done?
  {
    more := [];
    var s := Run(durations, steps).value;
    assert steps + more == steps;
    while !s.threads[t].Done?
      invariant Run(durations, steps + more) == Some(s)
      invariant |more| + Left(durations, s, t) <= 4 && forall i :: 0 <= i < |more| ==> more[i].t == t
      decreases Left(durations, s, t)
    {
      var next := NextOf(durations, s, t);
      NextOfIsTaken(durations, s, t);
      RunNext(durations, steps + more, s, next);
      assert steps + (more + [next]) == steps + more + [next];
      more := more + [next];
      s := Take(durations, s, next).value;
    }
  }

  // ----- when all threads are done -----

  function Largest(durations: seq<nat>): nat {
    if durations == [] then 0
    else
      var rest, last := Largest(durations[..|durations| - 1]), durations[|durations| - 1];
      if last > rest then last else rest
  }

  function Sum(durations: seq<nat>): nat {
    if durations == [] then 0 else Sum(durations[..|durations| - 1]) + durations[|durations| - 1]
  }

  lemma {:induction false} LargestHolds(durations: seq<nat>)
    ensures forall d :: d in durations ==> d <= Largest(durations)
    ensures Largest(durations) == 0 || Largest(durations) in durations
  {
    if durations != [] {
      LargestHolds(durations[..|durations| - 1]);
      assert durations == durations[..|durations| - 1] + [durations[|durations| - 1]];
    }
  }

  lemma {:induction false} SumsFinally(durations: seq<nat>, threads: seq<Pc>)
    requires |durations| == |threads| && forall t :: 0 <= t < |threads| ==> threads[t] == Done
    ensures CountOf(threads) == |threads| && TotalOf(durations, threads) == Sum(durations)
  {
    if threads != [] {
      SumsFinally(durations[..|threads| - 1], threads[..|threads| - 1]);
    }
  }

  /** Once every thread is done, whatever the interleaving, the words hold the number of recordings, their
      sum and their largest duration. */
  lemma FinallyExact(durations: seq<nat>, steps: seq<Step>)
    requires Run(durations, steps).Some?
    requires forall t :: 0 <= t < |durations| ==> Run(durations, steps).value.threads[t] == Done
    ensures var s := Run(durations, steps).value;
            Max(s) == Largest(durations) && s.count == |durations| % WORD && s.total == Sum(durations) % WORD
  {
    var s := Run(durations, steps).value;
    RunKeeps(durations, steps);
    LargestHolds(durations);
    SumsFinally(durations, s.threads);
    if Largest(durations) != 0 {
      var t :| 0 <= t < |durations| && durations[t] == Largest(durations);
      assert s.threads[t].Done?;
    }
  }
}
