// revocationPaths of pkg/fx/app.go: the validations of one request, run
// concurrently with a bounded number at a time.

module Validations {
  import opened Types

  const MAX_CONCURRENT: nat := 16

  /** How validating one item ends: revocationPath returns, or it panics. */
  datatype Verdict<P, E> = Returns(result: Result<P, E>) | Panics

  /** The error an item ends up with: its own, or errValidationPanicked. */
  datatype Failure<E> = Invalid(error: E) | ValidationPanicked

  /** recoverRevocationPath: the path and error written for an item. */
  function Recovered<P, E>(v: Verdict<P, E>): Result<P, Failure<E>> {
    match v
    case Returns(Ok(path)) => Ok(path)
    case Returns(Err(e)) => Err(Invalid(e))
    case Panics => Err(ValidationPanicked)
  }

  /** The validations run one by one, in item order. */
  function Sequential<P, E>(verdicts: seq<Verdict<P, E>>): (rs: seq<Result<P, Failure<E>>>)
    ensures |rs| == |verdicts|
    ensures forall i :: 0 <= i < |rs| ==> rs[i] == Recovered(verdicts[i])
  {
    seq(|verdicts|, i requires 0 <= i < |verdicts| => Recovered(verdicts[i]))
  }

  // ----------------------------------------------------------------- system

  /** A goroutine: validating, having written its result but still holding its slot, or gone. */
  datatype Worker = Running | Wrote | Gone

  /**
   * The launching loop and its goroutines. `holding` is set between taking a
   * slot and starting the goroutine it is for; `joined` once Wait has returned.
   */
  datatype State<P, E> = State(
    slots: nat,
    holding: bool,
    workers: seq<Worker>,
    results: seq<Option<Result<P, Failure<E>>>>,
    joined: bool)

  ghost predicate Init<P, E>(n: nat, s: State<P, E>) {
    s == State(0, false, [], seq(n, _ => None), false)
  }

  /** Sending on the slots channel, which blocks while it is full. */
  ghost predicate Acquire<P, E>(n: nat, s: State<P, E>, s': State<P, E>) {
    && |s.workers| < n && !s.holding && s.slots < MAX_CONCURRENT
    && s' == s.(slots := s.slots + 1, holding := true)
  }

  ghost predicate Launch<P, E>(s: State<P, E>, s': State<P, E>) {
    s.holding && s' == s.(holding := false, workers := s.workers + [Running])
  }

  /** A goroutine writes its own item's result, whether or not validation panicked. */
  ghost predicate Write<P, E>(verdicts: seq<Verdict<P, E>>, s: State<P, E>, s': State<P, E>, i: nat) {
    && i < |s.workers| && i < |verdicts| && i < |s.results| && s.workers[i] == Running
    && s' == s.(workers := s.workers[i := Wrote], results := s.results[i := Some(Recovered(verdicts[i]))])
  }

  /** The deferred receive gives the slot back. */
  ghost predicate Release<P, E>(s: State<P, E>, s': State<P, E>, i: nat) {
    && i < |s.workers| && s.workers[i] == Wrote && s.slots > 0
    && s' == s.(slots := s.slots - 1, workers := s.workers[i := Gone])
  }

  ghost predicate Join<P, E>(n: nat, s: State<P, E>, s': State<P, E>) {
    && !s.joined && |s.workers| == n && (forall i :: 0 <= i < n ==> s.workers[i] == Gone)
    && s' == s.(joined := true)
  }

  ghost predicate Next<P, E>(verdicts: seq<Verdict<P, E>>, s: State<P, E>, s': State<P, E>) {
    || Acquire(|verdicts|, s, s')
    || Launch(s, s')
    || (exists i :: Write(verdicts, s, s', i))
    || (exists i :: Release(s, s', i))
    || Join(|verdicts|, s, s')
  }

  ghost predicate IsRun<P, E>(verdicts: seq<Verdict<P, E>>, trace: seq<State<P, E>>) {
    && |trace| > 0 && Init(|verdicts|, trace[0])
    && (forall i :: 0 <= i < |trace| - 1 ==> Next(verdicts, trace[i], trace[i + 1]))
  }

  // -------------------------------------------------------------- invariant

  /** How many goroutines are still there. */
  function Live(workers: seq<Worker>): nat {
    if workers == [] then 0
    else Live(workers[..|workers| - 1]) + if workers[|workers| - 1] == Gone then 0 else 1
  }

  function Validating(workers: seq<Worker>): nat {
    if workers == [] then 0
    else Validating(workers[..|workers| - 1]) + if workers[|workers| - 1] == Running then 1 else 0
  }

  /** Steps the goroutines have left. */
  function Work(workers: seq<Worker>): nat {
    if workers == [] then 0
    else
      Work(workers[..|workers| - 1])
      + match workers[|workers| - 1] case Running => 2 case Wrote => 1 case Gone => 0
  }

  lemma {:induction false} CountsUpdate(workers: seq<Worker>, i: nat, w: Worker)
    requires i < |workers|
    ensures
      var workers' := workers[i := w];
      && Live(workers') == Live(workers) - (if workers[i] == Gone then 0 else 1) + (if w == Gone then 0 else 1)
      && Work(workers') == Work(workers) - Work([workers[i]]) + Work([w])
    decreases |workers|
  {
    var last, workers' := |workers| - 1, workers[i := w];
    if i == last {
      assert workers'[..last] == workers[..last];
    } else {
      CountsUpdate(workers[..last], i, w);
      assert workers'[..last] == workers[..last][i := w];
    }
  }

  lemma {:induction false} ValidatingIsLive(workers: seq<Worker>)
    ensures Validating(workers) <= Live(workers)
    decreases |workers|
  {
    if workers == [] {
    } else {
      ValidatingIsLive(workers[..|workers| - 1]);
    }
  }

  lemma {:induction false} NoneLive(workers: seq<Worker>)
    ensures Live(workers) == 0 <==> forall i :: 0 <= i < |workers| ==> workers[i] == Gone
    decreases |workers|
  {
    if workers == [] {
    } else {
      NoneLive(workers[..|workers| - 1]);
    }
  }

  /** Slots taken are those of live goroutines and of the one about to start; results are there once written. */
  ghost predicate Inv<P, E>(verdicts: seq<Verdict<P, E>>, s: State<P, E>) {
    var n := |verdicts|;
    && |s.workers| <= n && |s.results| == n && (s.holding ==> |s.workers| < n)
    && s.slots == Live(s.workers) + (if s.holding then 1 else 0) <= MAX_CONCURRENT
    && (forall i :: 0 <= i < |s.workers| && s.workers[i] != Running ==> s.results[i] == Some(Recovered(verdicts[i])))
    && (s.joined ==> |s.workers| == n && Live(s.workers) == 0 && !s.holding)
  }

  lemma {:induction false} NextKeeps<P, E>(verdicts: seq<Verdict<P, E>>, s: State<P, E>, s': State<P, E>)
    requires Inv(verdicts, s) && Next(verdicts, s, s')
    ensures Inv(verdicts, s')
  {
    if Launch(s, s') {
      assert s'.workers[..|s.workers|] == s.workers;
    } else if i: nat :| Write(verdicts, s, s', i) {
      CountsUpdate(s.workers, i, Wrote);
      NoneLive(s.workers);
    } else if i: nat :| Release(s, s', i) {
      CountsUpdate(s.workers, i, Gone);
      NoneLive(s.workers);
    } else if Join(|verdicts|, s, s') {
      NoneLive(s.workers);
    }
  }

  lemma {:induction false} RunKeeps<P, E>(verdicts: seq<Verdict<P, E>>, trace: seq<State<P, E>>, i: nat)
    requires IsRun(verdicts, trace) && i < |trace|
    ensures Inv(verdicts, trace[i])
  {
    if i == 0 {
    } else {
      RunKeeps(verdicts, trace, i - 1);
      assert Next(verdicts, trace[i - 1], trace[i - 1 + 1]);
      NextKeeps(verdicts, trace[i - 1], trace[i]);
    }
  }

  // ------------------------------------------------------------- properties

  /** Over every schedule, at most MAX_CONCURRENT validations run at once. */
  lemma BoundedConcurrency<P, E>(verdicts: seq<Verdict<P, E>>, trace: seq<State<P, E>>)
    requires IsRun(verdicts, trace)
    ensures Validating(trace[|trace| - 1].workers) <= MAX_CONCURRENT
  {
    RunKeeps(verdicts, trace, |trace| - 1);
    ValidatingIsLive(trace[|trace| - 1].workers);
  }

  /**
   * Once joined, every slot has been released and the results are those of
   * validating in sequence: an item has the path or the error its validation
   * returned, and errValidationPanicked if and only if that panicked.
   */
  lemma JoinedIsSequential<P, E>(verdicts: seq<Verdict<P, E>>, trace: seq<State<P, E>>)
    requires IsRun(verdicts, trace) && trace[|trace| - 1].joined
    ensures
      var s := trace[|trace| - 1];
      && s.slots == 0 && |s.results| == |verdicts|
      && (forall i :: 0 <= i < |verdicts| ==> s.results[i] == Some(Sequential(verdicts)[i]))
    ensures forall i, path ::
      0 <= i < |verdicts| ==> (Sequential(verdicts)[i] == Ok(path) <==> verdicts[i] == Returns(Ok(path)))
    ensures forall i, e ::
      0 <= i < |verdicts| ==> (Sequential(verdicts)[i] == Err(Invalid(e)) <==> verdicts[i] == Returns(Err(e)))
    ensures forall i ::
      0 <= i < |verdicts| ==> (Sequential(verdicts)[i] == Err(ValidationPanicked) <==> verdicts[i].Panics?)
  {
    RunKeeps(verdicts, trace, |trace| - 1);
    NoneLive(trace[|trace| - 1].workers);
  }

  /** The steps left: four for each item still to launch, those of the goroutines, and the join. */
  function Remaining<P, E>(n: nat, s: State<P, E>): int {
    4 * (n - |s.workers|) - (if s.holding then 1 else 0) + Work(s.workers) + (if s.joined then 0 else 1)
  }

  lemma {:induction false} StepCounts<P, E>(verdicts: seq<Verdict<P, E>>, s: State<P, E>, s': State<P, E>)
    requires Inv(verdicts, s) && Next(verdicts, s, s')
    ensures Remaining(|verdicts|, s') == Remaining(|verdicts|, s) - 1 && Remaining(|verdicts|, s) >= 1
  {
    assert Work([]) == 0;
    assert Work([Running]) == 2 && Work([Wrote]) == 1 && Work([Gone]) == 0;
    if Launch(s, s') {
      assert s'.workers[..|s.workers|] == s.workers;
    } else if i: nat :| Write(verdicts, s, s', i) {
      CountsUpdate(s.workers, i, Wrote);
    } else if i: nat :| Release(s, s', i) {
      CountsUpdate(s.workers, i, Gone);
    }
  }

  /** No schedule deadlocks: until it has joined, some step can be taken. */
  lemma NeverStuck<P, E>(verdicts: seq<Verdict<P, E>>, trace: seq<State<P, E>>, s: State<P, E>)
    requires IsRun(verdicts, trace) && s == trace[|trace| - 1] && !s.joined
    ensures exists s' :: Next(verdicts, s, s')
  {
    RunKeeps(verdicts, trace, |trace| - 1);
    NoneLive(s.workers);
    var s': State<P, E>;
    if s.holding {
      s' := s.(holding := false, workers := s.workers + [Running]);
      assert Launch(s, s');
    } else if i: nat :| i < |s.workers| && s.workers[i] == Running {
      s' := s.(workers := s.workers[i := Wrote], results := s.results[i := Some(Recovered(verdicts[i]))]);
      assert Write(verdicts, s, s', i);
    } else if i: nat :| i < |s.workers| && s.workers[i] == Wrote {
      s' := s.(slots := s.slots - 1, workers := s.workers[i := Gone]);
      assert Release(s, s', i);
    } else if |s.workers| < |verdicts| {
      s' := s.(slots := s.slots + 1, holding := true);
      assert Acquire(|verdicts|, s, s');
    } else {
      s' := s.(joined := true);
      assert Join(|verdicts|, s, s');
    }
    assert Next(verdicts, s, s');
  }

  /** Every schedule terminates: a run of n items has at most 4n + 1 steps. */
  lemma {:induction false} RunsAreBounded<P, E>(verdicts: seq<Verdict<P, E>>, trace: seq<State<P, E>>)
    requires IsRun(verdicts, trace)
    ensures |trace| + Remaining(|verdicts|, trace[|trace| - 1]) == 4 * |verdicts| + 2
    ensures Remaining(|verdicts|, trace[|trace| - 1]) >= 0
    decreases |trace|
  {
    var last := |trace| - 1;
    if last == 0 {
    } else {
      assert IsRun(verdicts, trace[..last]);
      RunsAreBounded(verdicts, trace[..last]);
      RunKeeps(verdicts, trace, last - 1);
      assert Next(verdicts, trace[last - 1], trace[last - 1 + 1]);
      StepCounts(verdicts, trace[last - 1], trace[last]);
    }
  }
}
