/**
 The worker pool of the chunked download, as a state machine over the steps of its goroutines: workers
 that range over a closed channel of chunks, a buffered error channel, the goroutine that closes it, and
 the collector.
 */
module WorkerPool {

  /** `Drained` left because the chunk channel was empty, `Failed` after sending its error. */
  datatype Worker = Idle | Busy(chunk: nat) | Sending(chunk: nat) | Drained | Failed(chunk: nat)

  datatype Main = Collecting | Returned(chunk: nat) | Assembling

  /**
   `next` is the front of the chunk channel; `errors` is what the error channel holds. `taker`,
   `outcome` and `sent` record the history: who took each chunk, how its download ended, and every
   error ever sent.
   */
  datatype State = State(
    n: nat,
    next: nat,
    workers: seq<Worker>,
    errors: seq<nat>,
    closed: bool,
    main: Main,
    taker: seq<nat>,
    outcome: map<nat, bool>,
    sent: seq<nat>
  )

  datatype Step =
    | Take(w: nat) | Drain(w: nat) | Finish(w: nat, ok: bool) | Send(w: nat)
    | CloseErrors | Receive | EndOfErrors

  function Start(n: nat, maxWorkers: nat): State {
    State(n, 0, seq(if maxWorkers > n then n else maxWorkers, _ => Idle), [], false, Collecting, [], map[], [])
  }

  predicate Exited(w: Worker) {
    w == Drained || w.Failed?
  }

  predicate Enabled(s: State, step: Step) {
    match step
    case Take(w) => w < |s.workers| && s.workers[w] == Idle && s.next < s.n
    case Drain(w) => w < |s.workers| && s.workers[w] == Idle && s.next >= s.n
    case Finish(w, _) => w < |s.workers| && s.workers[w].Busy?
    case Send(w) => w < |s.workers| && s.workers[w].Sending? && |s.errors| < s.n
    case CloseErrors => !s.closed && forall w | 0 <= w < |s.workers| :: Exited(s.workers[w])
    case Receive => s.main == Collecting && s.errors != []
    case EndOfErrors => s.main == Collecting && s.errors == [] && s.closed
  }

  function Apply(s: State, step: Step): State
    requires Enabled(s, step)
  {
    match step
    case Take(w) => s.(workers := s.workers[w := Busy(s.next)], next := s.next + 1, taker := s.taker + [w])
    case Drain(w) => s.(workers := s.workers[w := Drained])
    case Finish(w, ok) =>
      var c := s.workers[w].chunk;
      s.(workers := s.workers[w := if ok then Idle else Sending(c)], outcome := s.outcome[c := ok])
    case Send(w) =>
      var c := s.workers[w].chunk;
      s.(workers := s.workers[w := Failed(c)], errors := s.errors + [c], sent := s.sent + [c])
    case CloseErrors => s.(closed := true)
    case Receive => s.(main := Returned(s.errors[0]), errors := s.errors[1..])
    case EndOfErrors => s.(main := Assembling)
  }

  predicate Run(s: State, steps: seq<Step>)
    decreases |steps|
  {
    steps == [] || (Enabled(s, steps[0]) && Run(Apply(s, steps[0]), steps[1..]))
  }

  function After(s: State, steps: seq<Step>): State
    requires Run(s, steps)
    decreases |steps|
  {
    if steps == [] then s else After(Apply(s, steps[0]), steps[1..])
  }

  // The invariant.

  /** Worker `w` and the history agree. */
  predicate WorkerInv(s: State, w: nat)
    requires w < |s.workers|
  {
    match s.workers[w]
    case Idle => true
    case Busy(c) => c < |s.taker| && s.taker[c] == w && c !in s.outcome
    case Sending(c) => c < |s.taker| && s.taker[c] == w && c in s.outcome && !s.outcome[c] && c !in s.sent
    case Drained => s.next == s.n
    case Failed(c) => c in s.sent
  }

  /** A chunk that was taken is being downloaded by its taker, or succeeded, or failed and is or will be reported. */
  predicate ChunkInv(s: State, c: nat)
    requires c < |s.taker|
  {
    && s.taker[c] < |s.workers|
    && (c !in s.outcome ==> s.workers[s.taker[c]] == Busy(c))
    && (c in s.outcome && !s.outcome[c] && c !in s.sent ==> s.workers[s.taker[c]] == Sending(c))
  }

  predicate HistoryInv(s: State) {
    && |s.taker| == s.next <= s.n
    && (forall c | c in s.outcome :: c < s.next)
    && (forall i | 0 <= i < |s.sent| :: s.sent[i] in s.outcome && !s.outcome[s.sent[i]])
    && (forall i, j | 0 <= i < j < |s.sent| :: s.sent[i] != s.sent[j])
  }

  predicate MainInv(s: State) {
    && (s.closed ==> forall w | 0 <= w < |s.workers| :: Exited(s.workers[w]))
    && match s.main
       case Collecting => s.sent == s.errors
       case Returned(c) => s.sent == [c] + s.errors
       case Assembling => s.closed && s.sent == []
  }

  predicate Inv(s: State) {
    && HistoryInv(s) && MainInv(s)
    && (forall w: nat | w < |s.workers| :: WorkerInv(s, w))
    && (forall c: nat | c < |s.taker| :: ChunkInv(s, c))
  }

  predicate ByWorker(step: Step) {
    step.Take? || step.Drain? || step.Finish? || step.Send?
  }

  lemma ActorInv(s: State, step: Step)
    requires Inv(s) && Enabled(s, step)
    ensures ByWorker(step) ==> step.w < |s.workers| && WorkerInv(s, step.w)
  {
  }

  lemma StepKeepsHistory(s: State, step: Step)
    requires Inv(s) && Enabled(s, step)
    ensures HistoryInv(Apply(s, step))
  {
    ActorInv(s, step);
  }

  lemma StepKeepsMain(s: State, step: Step)
    requires Inv(s) && Enabled(s, step)
    ensures MainInv(Apply(s, step))
  {
  }

  lemma StepKeepsWorker(s: State, step: Step, w: nat)
    requires Inv(s) && Enabled(s, step) && w < |s.workers|
    ensures WorkerInv(Apply(s, step), w)
  {
    ActorInv(s, step);
    assert WorkerInv(s, w);
  }

  lemma StepKeepsChunk(s: State, step: Step, c: nat)
    requires Inv(s) && Enabled(s, step) && c < |Apply(s, step).taker|
    ensures ChunkInv(Apply(s, step), c)
  {
    if c < |s.taker| {
      ActorInv(s, step);
      assert ChunkInv(s, c);
    }
  }

  lemma StepKeepsInv(s: State, step: Step)
    requires Inv(s) && Enabled(s, step)
    ensures Inv(Apply(s, step)) && Apply(s, step).n == s.n && |Apply(s, step).workers| == |s.workers|
  {
    var t := Apply(s, step);
    StepKeepsHistory(s, step);
    StepKeepsMain(s, step);
    forall w: nat | w < |t.workers| ensures WorkerInv(t, w) {
      StepKeepsWorker(s, step, w);
    }
    forall c: nat | c < |t.taker| ensures ChunkInv(t, c) {
      StepKeepsChunk(s, step, c);
    }
  }

  /** Every reachable state of every schedule satisfies the invariant. */
  lemma {:induction false} RunKeepsInv(s: State, steps: seq<Step>)
    requires Inv(s) && Run(s, steps)
    ensures Inv(After(s, steps)) && After(s, steps).n == s.n && |After(s, steps).workers| == |s.workers|
    decreases |steps|
  {
    if steps != [] {
      StepKeepsInv(s, steps[0]);
      RunKeepsInv(Apply(s, steps[0]), steps[1..]);
    }
  }

  // What the invariant is for.

  lemma DistinctBelow(q: seq<nat>, n: nat)
    requires forall i | 0 <= i < |q| :: q[i] < n
    requires forall i, j | 0 <= i < j < |q| :: q[i] != q[j]
    ensures |q| <= n
    decreases n
  {
    assert q != [] ==> q[0] < n;
    if q == [] {
    } else if i :| 0 <= i < |q| && q[i] == n - 1 {
      DistinctBelow(q[..i] + q[i + 1..], n - 1);
    } else {
      DistinctBelow(q, n - 1);
    }
  }

  /** A worker that has an error to report never blocks on the error channel, even if nobody receives any more. */
  lemma SendNeverBlocks(s: State, w: nat)
    requires Inv(s) && w < |s.workers| && s.workers[w].Sending?
    ensures Enabled(s, Send(w))
  {
    assert WorkerInv(s, w);
    var c := s.workers[w].chunk;
    DistinctBelow(s.sent + [c], s.n);
    assert |s.errors| <= |s.sent|;
  }

  /** No chunk is ever held by two workers. */
  lemma OneHolder(s: State, v: nat, w: nat)
    requires Inv(s) && v < |s.workers| && w < |s.workers|
    requires (s.workers[v].Busy? || s.workers[v].Sending?) && (s.workers[w].Busy? || s.workers[w].Sending?)
    ensures s.workers[v].chunk == s.workers[w].chunk ==> v == w
  {
    assert WorkerInv(s, v) && WorkerInv(s, w);
  }

  /** The initial states are those the code builds; with a positive limit and a chunk there is a worker. */
  lemma StartKeepsInv(n: nat, maxWorkers: nat)
    ensures Inv(Start(n, maxWorkers))
    ensures n > 0 && maxWorkers > 0 ==> Start(n, maxWorkers).workers != []
  {
  }

  predicate AllSucceeded(s: State) {
    forall c: nat | c < s.n :: c in s.outcome && s.outcome[c]
  }

  /** Assembly is reached only if the download of every chunk returned nil, each by one worker. */
  lemma AssemblyMeansAllSucceeded(s: State)
    requires Inv(s) && s.main == Assembling && s.workers != []
    ensures AllSucceeded(s) && |s.taker| == s.n
  {
    assert WorkerInv(s, 0);
    forall c: nat | c < s.n ensures c in s.outcome && s.outcome[c] {
      assert ChunkInv(s, c);
      var w := s.taker[c];
      assert Exited(s.workers[w]) && WorkerInv(s, w);
    }
  }

  /** An error is returned only for a chunk whose download failed. */
  lemma ReturnMeansFailed(s: State)
    requires Inv(s) && s.main.Returned?
    ensures s.main.chunk < s.n && s.main.chunk in s.outcome && !s.outcome[s.main.chunk]
  {
    assert s.sent[0] == s.main.chunk;
  }

  /** Nothing is left to do: the collector is through, all workers are gone, the error channel is closed. */
  predicate Finished(s: State) {
    s.main != Collecting && s.closed && forall w | 0 <= w < |s.workers| :: Exited(s.workers[w])
  }

  /** The pool never deadlocks: some step is possible until it has finished. */
  lemma Progress(s: State) returns (step: Step)
    requires Inv(s) && !Finished(s)
    ensures Enabled(s, step)
  {
    if w: nat :| w < |s.workers| && !Exited(s.workers[w]) {
      match s.workers[w] {
        case Idle => step := if s.next < s.n then Take(w) else Drain(w);
        case Busy(_) => step := Finish(w, true);
        case Sending(_) =>
          SendNeverBlocks(s, w);
          step := Send(w);
      }
    } else if !s.closed {
      step := CloseErrors;
    } else {
      step := if s.errors != [] then Receive else EndOfErrors;
    }
  }

  /** What a finished pool returned is decided by the downloads alone, not by the schedule. */
  lemma ResultIff(s: State)
    requires Inv(s) && Finished(s) && s.workers != []
    ensures s.main == Assembling <==> AllSucceeded(s)
  {
    if s.main == Assembling {
      AssemblyMeansAllSucceeded(s);
    } else {
      ReturnMeansFailed(s);
    }
  }

  // Termination.

  function Weight(w: Worker): nat {
    match w
    case Idle => 1
    case Busy(_) => 2
    case Sending(_) => 1
    case Drained => 0
    case Failed(_) => 0
  }

  function TotalWeight(ws: seq<Worker>): nat {
    if ws == [] then 0 else Weight(ws[0]) + TotalWeight(ws[1..])
  }

  lemma {:induction false} WeightOfUpdate(ws: seq<Worker>, w: nat, x: Worker)
    requires w < |ws|
    ensures TotalWeight(ws[w := x]) + Weight(ws[w]) == TotalWeight(ws) + Weight(x)
  {
    if w == 0 {
      assert ws[w := x][1..] == ws[1..];
    } else {
      WeightOfUpdate(ws[1..], w - 1, x);
      assert ws[w := x][1..] == ws[1..][w - 1 := x];
    }
  }

  lemma {:induction false} WeightOfIdle(n: nat)
    ensures TotalWeight(seq(n, _ => Idle)) == n
  {
    if n > 0 {
      assert seq(n, _ => Idle)[1..] == seq(n - 1, _ => Idle);
      WeightOfIdle(n - 1);
    }
  }

  function Measure(s: State): int {
    2 * (s.n - s.next) + TotalWeight(s.workers) + (if s.closed then 0 else 1) + (if s.main == Collecting then 1 else 0)
  }

  lemma StepDecreases(s: State, step: Step)
    requires Inv(s) && Enabled(s, step)
    ensures 0 <= Measure(Apply(s, step)) < Measure(s)
  {
    StepKeepsHistory(s, step);
    if ByWorker(step) {
      WeightOfUpdate(s.workers, step.w, Apply(s, step).workers[step.w]);
    }
  }

  lemma {:induction false} RunIsBounded(s: State, steps: seq<Step>)
    requires Inv(s) && Run(s, steps)
    ensures |steps| + Measure(After(s, steps)) <= Measure(s) && Measure(After(s, steps)) >= 0
    decreases |steps|
  {
    if steps != [] {
      StepDecreases(s, steps[0]);
      StepKeepsInv(s, steps[0]);
      RunIsBounded(Apply(s, steps[0]), steps[1..]);
    }
  }

  /**
   The whole pool, under every schedule: runs have a fixed maximal length, a run that cannot go on has
   finished, and it went on to assembly exactly when every download succeeded.
   */
  lemma PoolIsCorrect(n: nat, maxWorkers: nat, steps: seq<Step>)
    requires n > 0 && maxWorkers > 0 && Run(Start(n, maxWorkers), steps)
    ensures |steps| <= 3 * n + 2
    ensures var s := After(Start(n, maxWorkers), steps);
      && (s.main == Assembling ==> AllSucceeded(s))
      && ((forall step :: !Enabled(s, step)) ==> Finished(s) && (s.main == Assembling <==> AllSucceeded(s)))
  {
    var start := Start(n, maxWorkers);
    StartKeepsInv(n, maxWorkers);
    RunKeepsInv(start, steps);
    RunIsBounded(start, steps);
    WeightOfIdle(|start.workers|);
    assert start.workers == seq(|start.workers|, _ => Idle);
    var s := After(start, steps);
    if s.main == Assembling {
      AssemblyMeansAllSucceeded(s);
    }
    if !Finished(s) {
      var step := Progress(s);
    } else {
      ResultIff(s);
    }
  }

  /** Without a worker nothing is downloaded and assembly starts all the same. */
  lemma NoWorkerAssembles(n: nat)
    requires n > 0
    ensures Run(Start(n, 0), [CloseErrors, EndOfErrors])
    ensures var s := After(Start(n, 0), [CloseErrors, EndOfErrors]); s.main == Assembling && !AllSucceeded(s)
  {
    var s := Start(n, 0);
    var t := Apply(s, CloseErrors);
    assert [CloseErrors, EndOfErrors][1..] == [EndOfErrors] && [EndOfErrors][1..] == [];
    assert Run(t, [EndOfErrors]);
    assert 0 !in Apply(t, EndOfErrors).outcome;
  }
}
