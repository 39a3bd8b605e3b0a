/**
 The worker pool of the conformance runner: `concurrency` goroutines taking playbooks from an
 unbuffered channel and sending failures to a buffered one, as a state machine whose actions
 interleave in any order. Playbooks are numbered; a test is one step that passes or fails.
 */
module Pool {

  datatype Worker =
    | Ranging                 // at the receive of `range playbookCh` (or not started yet)
    | Running(test: nat)
    | Reporting(test: nat)    // the test failed; at the send to `errCh`
    | Leaving                 // the range ended; the deferred `wg.Done` is next
    | Exited

  datatype Main =
    | Spawning(i: nat)
    | Sending(j: nat)
    | Waiting
    | ClosingErrors
    | Collecting
    | Returned(failed: bool)

  /** The program state, and three histories: tests in the order they started, finished and failed. */
  datatype State = State(
    main: Main, workers: seq<Worker>, wg: int, workClosed: bool, errClosed: bool,
    errCh: seq<nat>, collected: seq<nat>,
    started: seq<nat>, finished: seq<nat>, failed: seq<nat>)

  datatype Config = Config(concurrency: int, tests: nat) {
    function Spawned(): nat { if concurrency > 0 then concurrency else 0 }
    /** `make(chan error, len(playbooks))`. */
    function Capacity(): nat { tests }
  }

  const BASE_PORT: nat := 2222

  function Port(worker: nat): nat { BASE_PORT + worker }

  const INIT := State(Spawning(0), [], 0, false, false, [], [], [], [], [])

  datatype Action =
    | Spawn | Spawned | Handoff(w: nat) | CloseWork
    | Finish(w: nat, ok: bool) | Report(w: nat) | SeeClosed(w: nat) | Leave(w: nat)
    | WaitDone | CloseErrors | Collect | Return

  predicate Enabled(c: Config, s: State, a: Action) {
    match a
    case Spawn => s.main.Spawning? && s.main.i < c.concurrency
    case Spawned => s.main.Spawning? && s.main.i >= c.concurrency
    case Handoff(w) => s.main.Sending? && s.main.j < c.tests && w < |s.workers| && s.workers[w].Ranging?
    case CloseWork => s.main.Sending? && s.main.j >= c.tests
    case Finish(w, ok) => w < |s.workers| && s.workers[w].Running?
    case Report(w) => w < |s.workers| && s.workers[w].Reporting? && |s.errCh| < c.Capacity()
    case SeeClosed(w) => w < |s.workers| && s.workers[w].Ranging? && s.workClosed
    case Leave(w) => w < |s.workers| && s.workers[w].Leaving?
    case WaitDone => s.main.Waiting? && s.wg == 0
    case CloseErrors => s.main.ClosingErrors?
    case Collect => s.main.Collecting? && s.errCh != []
    case Return => s.main.Collecting? && s.errCh == [] && s.errClosed
  }

  function Do(c: Config, s: State, a: Action): State
    requires Enabled(c, s, a)
  {
    match a
    case Spawn => s.(main := Spawning(s.main.i + 1), workers := s.workers + [Ranging], wg := s.wg + 1)
    case Spawned => s.(main := Sending(0))
    case Handoff(w) =>
      s.(main := Sending(s.main.j + 1), workers := s.workers[w := Running(s.main.j)], started := s.started + [s.main.j])
    case CloseWork => s.(main := Waiting, workClosed := true)
    case Finish(w, ok) =>
      var t := s.workers[w].test;
      if ok then s.(workers := s.workers[w := Ranging], finished := s.finished + [t])
      else s.(workers := s.workers[w := Reporting(t)], finished := s.finished + [t], failed := s.failed + [t])
    case Report(w) => s.(workers := s.workers[w := Ranging], errCh := s.errCh + [s.workers[w].test])
    case SeeClosed(w) => s.(workers := s.workers[w := Leaving])
    case Leave(w) => s.(workers := s.workers[w := Exited], wg := s.wg - 1)
    case WaitDone => s.(main := ClosingErrors)
    case CloseErrors => s.(main := Collecting, errClosed := true)
    case Collect => s.(errCh := s.errCh[1..], collected := s.collected + [s.errCh[0]])
    case Return => s.(main := Returned(s.collected != []))
  }

  /** What makes a Go program panic here: a send on a closed channel, a second close, a negative WaitGroup. */
  predicate Panics(c: Config, s: State) {
    || (exists w :: 0 <= w < |s.workers| && s.workers[w].Reporting? && s.errClosed)
    || (s.main.Sending? && s.workClosed)
    || (s.main.ClosingErrors? && s.errClosed)
    || (exists w :: 0 <= w < |s.workers| && s.workers[w].Leaving? && s.wg <= 0)
  }

  /** A schedule from the start: its states and the actions between them. */
  ghost predicate IsRun(c: Config, states: seq<State>, acts: seq<Action>) {
    && |states| == |acts| + 1
    && states[0] == INIT
    && forall k :: 0 <= k < |acts| ==> Enabled(c, states[k], acts[k]) && states[k + 1] == Do(c, states[k], acts[k])
  }

  ghost predicate Stopped(c: Config, s: State) {
    forall a :: !Enabled(c, s, a)
  }

  // ---------------------------------------------------------------- sums over the workers

  function Sum(ws: seq<Worker>, f: Worker -> int): int {
    if ws == [] then 0 else Sum(ws[..|ws| - 1], f) + f(ws[|ws| - 1])
  }

  function Alive(): Worker -> int { (w: Worker) => if w.Exited? then 0 else 1 }
  function AtWork(): Worker -> int { (w: Worker) => if w.Running? then 1 else 0 }
  function AtReport(): Worker -> int { (w: Worker) => if w.Reporting? then 1 else 0 }
  function Runs(t: nat): Worker -> int { (w: Worker) => if w == Running(t) then 1 else 0 }
  function Reports(t: nat): Worker -> int { (w: Worker) => if w == Reporting(t) then 1 else 0 }

  lemma {:induction false} SumUpdate(ws: seq<Worker>, f: Worker -> int, k: nat, x: Worker)
    requires k < |ws|
    ensures Sum(ws[k := x], f) == Sum(ws, f) - f(ws[k]) + f(x)
  {
    var last := |ws| - 1;
    if k < last {
      SumUpdate(ws[..last], f, k, x);
      assert ws[k := x][..last] == ws[..last][k := x];
    } else {
      assert ws[k := x][..last] == ws[..last];
    }
  }

  lemma SumExtend(ws: seq<Worker>, f: Worker -> int, x: Worker)
    ensures Sum(ws + [x], f) == Sum(ws, f) + f(x)
  {
    assert (ws + [x])[..|ws|] == ws;
  }

  lemma {:induction false} SumBound(ws: seq<Worker>, f: Worker -> int)
    requires forall w :: f(w) >= 0
    ensures Sum(ws, f) >= 0
    ensures forall k :: 0 <= k < |ws| ==> f(ws[k]) <= Sum(ws, f)
    ensures Sum(ws, f) > 0 ==> exists k :: 0 <= k < |ws| && f(ws[k]) > 0
  {
    if ws != [] {
      SumBound(ws[..|ws| - 1], f);
      if Sum(ws[..|ws| - 1], f) > 0 {
        var k :| 0 <= k < |ws| - 1 && f(ws[..|ws| - 1][k]) > 0;
        assert f(ws[k]) > 0;
      }
    }
  }

  // ---------------------------------------------------------------- the invariant

  /** The playbooks handed over so far. */
  function Sent(c: Config, s: State): nat {
    match s.main
    case Spawning(_) => 0
    case Sending(j) => j
    case _ => c.tests
  }

  function Range(n: nat): seq<nat> {
    seq(n, i => i)
  }

  ghost predicate WorkersInv(c: Config, s: State) {
    && (if s.main.Spawning? then |s.workers| == s.main.i <= c.Spawned() else |s.workers| == c.Spawned())
    && s.wg == Sum(s.workers, Alive())
    && (s.workClosed <==> !s.main.Spawning? && !s.main.Sending?)
    && (s.errClosed <==> s.main.Collecting? || s.main.Returned?)
    && (forall k :: 0 <= k < |s.workers| && (s.workers[k].Leaving? || s.workers[k].Exited?) ==> s.workClosed)
    && (s.main.ClosingErrors? || s.main.Collecting? || s.main.Returned? ==> s.wg == 0)
    && (c.concurrency <= 0 && c.tests > 0 ==> s.main == Spawning(0) || s.main == Sending(0))
  }

  /** How many tests are where. */
  ghost predicate NumbersInv(c: Config, s: State) {
    && Sent(c, s) <= c.tests
    && s.started == Range(Sent(c, s))
    && |s.started| == |s.finished| + Sum(s.workers, AtWork())
    && |s.failed| == Sum(s.workers, AtReport()) + |s.errCh| + |s.collected|
    && |s.failed| <= |s.finished|
    && (s.main.Returned? ==> s.errCh == [] && (s.main.failed <==> s.collected != []))
  }

  /** One test's bookkeeping: handed over = finished or running; failed = unreported, in the channel, or collected. */
  ghost predicate TestInv(s: State, t: nat) {
    && multiset(s.started)[t] == multiset(s.finished)[t] + Sum(s.workers, Runs(t))
    && multiset(s.failed)[t] == Sum(s.workers, Reports(t)) + multiset(s.errCh)[t] + multiset(s.collected)[t]
    && multiset(s.failed)[t] <= multiset(s.finished)[t]
  }

  /** Which tests are where. */
  ghost predicate TestsInv(s: State) {
    forall t: nat :: TestInv(s, t)
  }

  ghost predicate Inv(c: Config, s: State) {
    WorkersInv(c, s) && NumbersInv(c, s) && TestsInv(s)
  }

  predicate OfWorker(a: Action) {
    a.Handoff? || a.Finish? || a.Report? || a.SeeClosed? || a.Leave?
  }

  lemma SumStep(c: Config, s: State, a: Action, f: Worker -> int)
    requires Enabled(c, s, a)
    ensures OfWorker(a) ==>
              Sum(Do(c, s, a).workers, f) == Sum(s.workers, f) - f(s.workers[a.w]) + f(Do(c, s, a).workers[a.w])
    ensures a.Spawn? ==> Sum(Do(c, s, a).workers, f) == Sum(s.workers, f) + f(Ranging)
    ensures !OfWorker(a) && !a.Spawn? ==> Do(c, s, a).workers == s.workers
  {
    if OfWorker(a) {
      SumUpdate(s.workers, f, a.w, Do(c, s, a).workers[a.w]);
    } else if a.Spawn? {
      SumExtend(s.workers, f, Ranging);
    }
  }

  lemma WorkerKeepsWorkersInv(c: Config, s: State, a: Action)
    requires WorkersInv(c, s) && Enabled(c, s, a) && OfWorker(a)
    ensures WorkersInv(c, Do(c, s, a))
  {
    SumStep(c, s, a, Alive());
    SumBound(s.workers, Alive());
  }

  lemma MainKeepsWorkersInv(c: Config, s: State, a: Action)
    requires WorkersInv(c, s) && Enabled(c, s, a) && !OfWorker(a)
    ensures WorkersInv(c, Do(c, s, a))
  {
    SumStep(c, s, a, Alive());
  }

  lemma StepKeepsWorkersInv(c: Config, s: State, a: Action)
    requires WorkersInv(c, s) && Enabled(c, s, a)
    ensures WorkersInv(c, Do(c, s, a))
  {
    if OfWorker(a) { WorkerKeepsWorkersInv(c, s, a); } else { MainKeepsWorkersInv(c, s, a); }
  }

  lemma HandoffKeepsNumbersInv(c: Config, s: State, a: Action)
    requires WorkersInv(c, s) && NumbersInv(c, s) && Enabled(c, s, a) && a.Handoff?
    ensures NumbersInv(c, Do(c, s, a))
  {
    SumStep(c, s, a, AtWork());
    SumStep(c, s, a, AtReport());
    assert Range(s.main.j + 1) == Range(s.main.j) + [s.main.j];
  }

  lemma WorkerKeepsNumbersInv(c: Config, s: State, a: Action)
    requires WorkersInv(c, s) && NumbersInv(c, s) && Enabled(c, s, a) && OfWorker(a) && !a.Handoff?
    ensures NumbersInv(c, Do(c, s, a))
  {
    SumStep(c, s, a, AtWork());
    SumStep(c, s, a, AtReport());
    SumBound(s.workers, Alive());
  }

  lemma MainKeepsNumbersInv(c: Config, s: State, a: Action)
    requires WorkersInv(c, s) && NumbersInv(c, s) && Enabled(c, s, a) && !OfWorker(a)
    ensures NumbersInv(c, Do(c, s, a))
  {
    SumStep(c, s, a, AtWork());
    SumStep(c, s, a, AtReport());
  }

  lemma StepKeepsNumbersInv(c: Config, s: State, a: Action)
    requires WorkersInv(c, s) && NumbersInv(c, s) && Enabled(c, s, a)
    ensures NumbersInv(c, Do(c, s, a))
  {
    if a.Handoff? {
      HandoffKeepsNumbersInv(c, s, a);
    } else if OfWorker(a) {
      WorkerKeepsNumbersInv(c, s, a);
    } else {
      MainKeepsNumbersInv(c, s, a);
    }
  }

  lemma HandoffKeepsTest(c: Config, s: State, w: nat, t: nat)
    requires TestInv(s, t) && Enabled(c, s, Handoff(w))
    ensures TestInv(Do(c, s, Handoff(w)), t)
  {
    SumUpdate(s.workers, Runs(t), w, Running(s.main.j));
    SumUpdate(s.workers, Reports(t), w, Running(s.main.j));
  }

  lemma FinishKeepsTest(c: Config, s: State, w: nat, ok: bool, t: nat)
    requires TestInv(s, t) && Enabled(c, s, Finish(w, ok))
    ensures TestInv(Do(c, s, Finish(w, ok)), t)
  {
    var x := if ok then Ranging else Reporting(s.workers[w].test);
    SumUpdate(s.workers, Runs(t), w, x);
    SumUpdate(s.workers, Reports(t), w, x);
  }

  lemma ReportKeepsTest(c: Config, s: State, w: nat, t: nat)
    requires TestInv(s, t) && Enabled(c, s, Report(w))
    ensures TestInv(Do(c, s, Report(w)), t)
  {
    SumUpdate(s.workers, Runs(t), w, Ranging);
    SumUpdate(s.workers, Reports(t), w, Ranging);
  }

  lemma CollectKeepsTest(c: Config, s: State, t: nat)
    requires TestInv(s, t) && Enabled(c, s, Collect)
    ensures TestInv(Do(c, s, Collect), t)
  {
    assert s.errCh == [s.errCh[0]] + s.errCh[1..];
  }

  lemma OtherKeepsTest(c: Config, s: State, a: Action, t: nat)
    requires TestInv(s, t) && Enabled(c, s, a)
    requires !a.Handoff? && !a.Finish? && !a.Report? && !a.Collect?
    ensures TestInv(Do(c, s, a), t)
  {
    SumStep(c, s, a, Runs(t));
    SumStep(c, s, a, Reports(t));
  }

  lemma StepKeepsTestsInv(c: Config, s: State, a: Action)
    requires TestsInv(s) && Enabled(c, s, a)
    ensures TestsInv(Do(c, s, a))
  {
    forall t: nat ensures TestInv(Do(c, s, a), t) {
      assert TestInv(s, t);
      match a {
        case Handoff(w) => HandoffKeepsTest(c, s, w, t);
        case Finish(w, ok) => FinishKeepsTest(c, s, w, ok, t);
        case Report(w) => ReportKeepsTest(c, s, w, t);
        case Collect => CollectKeepsTest(c, s, t);
        case _ => OtherKeepsTest(c, s, a, t);
      }
    }
  }

  lemma {:induction false} InvAlongRun(c: Config, states: seq<State>, acts: seq<Action>)
    requires IsRun(c, states, acts)
    ensures forall k :: 0 <= k < |states| ==> Inv(c, states[k])
  {
    if acts != [] {
      var n := |acts| - 1;
      InvAlongRun(c, states[..n + 1], acts[..n]);
      assert Inv(c, states[..n + 1][n]);
      StepKeepsWorkersInv(c, states[n], acts[n]);
      StepKeepsNumbersInv(c, states[n], acts[n]);
      StepKeepsTestsInv(c, states[n], acts[n]);
      forall k | 0 <= k < |states| ensures Inv(c, states[k]) {
        if k < n + 1 { assert states[k] == states[..n + 1][k]; }
      }
    }
  }

  // ---------------------------------------------------------------- safety

  lemma TwoWorkersTwoTests(ws: seq<Worker>, k: nat, l: nat)
    requires k < l < |ws| && ws[k].Running? && ws[l] == ws[k]
    ensures Sum(ws, Runs(ws[k].test)) >= 2
  {
    SumUpdate(ws, Runs(ws[k].test), l, Exited);
    SumBound(ws[l := Exited], Runs(ws[k].test));
  }

  lemma {:induction false} RangeOnce(n: nat)
    ensures forall t: nat :: multiset(Range(n))[t] == if t < n then 1 else 0
  {
    if n > 0 {
      RangeOnce(n - 1);
      assert Range(n) == Range(n - 1) + [n - 1];
    }
  }

  /** A worker with a failure to report finds room in the channel. */
  lemma RoomToReport(c: Config, s: State, w: nat)
    requires NumbersInv(c, s) && w < |s.workers| && s.workers[w].Reporting?
    ensures Enabled(c, s, Report(w))
  {
    SumBound(s.workers, AtWork());
    SumBound(s.workers, AtReport());
  }

  /**
   Safety, in every state of every schedule: every playbook handed over is finished or being run
   by one worker, once in all, and no other one is; concurrent tests use different ports; the error
   channel never exceeds its capacity, so no send on it blocks; the WaitGroup counts the
   goroutines that have not exited; nothing panics.
   */
  lemma Safety(c: Config, states: seq<State>, acts: seq<Action>, k: nat)
    requires IsRun(c, states, acts) && k < |states|
    ensures var s := states[k];
            && s.started == Range(Sent(c, s)) && Sent(c, s) <= c.tests
            && (forall t: nat :: multiset(s.finished)[t] + Sum(s.workers, Runs(t)) == if t < Sent(c, s) then 1 else 0)
            && (forall v, w :: 0 <= v < w < |s.workers| && s.workers[v].Running? && s.workers[w].Running? ==>
                  s.workers[v].test != s.workers[w].test && Port(v) != Port(w))
            && |s.errCh| <= c.Capacity()
            && (forall w :: 0 <= w < |s.workers| && s.workers[w].Reporting? ==> Enabled(c, s, Report(w)))
            && s.wg == Sum(s.workers, Alive())
            && !Panics(c, s)
  {
    var s := states[k];
    InvAlongRun(c, states, acts);
    SafeState(c, s);
  }

  lemma SafeState(c: Config, s: State)
    requires Inv(c, s)
    ensures forall t: nat :: multiset(s.finished)[t] + Sum(s.workers, Runs(t)) == if t < Sent(c, s) then 1 else 0
    ensures forall v, w :: 0 <= v < w < |s.workers| && s.workers[v].Running? && s.workers[w].Running? ==>
              s.workers[v].test != s.workers[w].test
    ensures |s.errCh| <= c.Capacity()
    ensures forall w :: 0 <= w < |s.workers| && s.workers[w].Reporting? ==> Enabled(c, s, Report(w))
    ensures !Panics(c, s)
  {
    EachOnce(c, s);
    SumBound(s.workers, AtWork());
    SumBound(s.workers, AtReport());
    SumBound(s.workers, Alive());
    forall w | 0 <= w < |s.workers| && s.workers[w].Reporting? ensures Enabled(c, s, Report(w)) {
      RoomToReport(c, s, w);
    }
  }

  lemma EachOnce(c: Config, s: State)
    requires Inv(c, s)
    ensures forall t: nat :: multiset(s.finished)[t] + Sum(s.workers, Runs(t)) == if t < Sent(c, s) then 1 else 0
    ensures forall v, w :: 0 <= v < w < |s.workers| && s.workers[v].Running? && s.workers[w].Running? ==>
              s.workers[v].test != s.workers[w].test
  {
    RangeOnce(Sent(c, s));
    forall t: nat
      ensures multiset(s.started)[t] == multiset(s.finished)[t] + Sum(s.workers, Runs(t))
    {
      assert TestInv(s, t);
    }
    forall v, w | 0 <= v < w < |s.workers| && s.workers[v].Running? && s.workers[w].Running?
      ensures s.workers[v].test != s.workers[w].test
    {
      if s.workers[v].test == s.workers[w].test {
        TwoWorkersTwoTests(s.workers, v, w);
        assert false;
      }
    }
  }

  // ---------------------------------------------------------------- liveness

  function Weight(): Worker -> int {
    (w: Worker) =>
      match w
      case Ranging => 2
      case Running(_) => 5
      case Reporting(_) => 4
      case Leaving => 1
      case Exited => 0
  }

  function MainWeight(c: Config, m: Main): int {
    match m
    case Spawning(i) => 3 * (c.Spawned() - i) + 4 * c.tests + 5
    case Sending(j) => 4 * (c.tests - j) + 4
    case Waiting => 3
    case ClosingErrors => 2
    case Collecting => 1
    case Returned(_) => 0
  }

  function Measure(c: Config, s: State): int {
    MainWeight(c, s.main) + Sum(s.workers, Weight()) + |s.errCh|
  }

  lemma MeasureIsPositive(c: Config, s: State)
    requires WorkersInv(c, s) && NumbersInv(c, s)
    ensures Measure(c, s) >= 0
  {
    SumBound(s.workers, Weight());
  }

  lemma HandoffDecreases(c: Config, s: State, a: Action)
    requires WorkersInv(c, s) && NumbersInv(c, s) && Enabled(c, s, a) && a.Handoff?
    ensures Measure(c, Do(c, s, a)) < Measure(c, s)
  {
    SumStep(c, s, a, Weight());
  }

  lemma WorkerStepDecreases(c: Config, s: State, a: Action)
    requires WorkersInv(c, s) && NumbersInv(c, s) && Enabled(c, s, a) && OfWorker(a) && !a.Handoff?
    ensures Measure(c, Do(c, s, a)) < Measure(c, s)
  {
    SumStep(c, s, a, Weight());
  }

  lemma MainStepDecreases(c: Config, s: State, a: Action)
    requires WorkersInv(c, s) && NumbersInv(c, s) && Enabled(c, s, a) && !OfWorker(a)
    ensures Measure(c, Do(c, s, a)) < Measure(c, s)
  {
    SumStep(c, s, a, Weight());
  }

  /** Every step uses some of the measure up. */
  lemma StepDecreases(c: Config, s: State, a: Action)
    requires WorkersInv(c, s) && NumbersInv(c, s) && Enabled(c, s, a)
    ensures Measure(c, Do(c, s, a)) < Measure(c, s)
    ensures Measure(c, s) >= 0
  {
    MeasureIsPositive(c, s);
    if a.Handoff? {
      HandoffDecreases(c, s, a);
    } else if OfWorker(a) {
      WorkerStepDecreases(c, s, a);
    } else {
      MainStepDecreases(c, s, a);
    }
  }

  /** No schedule is longer than 3 * workers + 4 * tests + 5 steps. */
  lemma {:induction false} SchedulesEnd(c: Config, states: seq<State>, acts: seq<Action>)
    requires IsRun(c, states, acts)
    ensures |acts| <= 3 * c.Spawned() + 4 * c.tests + 5
  {
    MeasureLeft(c, states, acts);
    InvAlongRun(c, states, acts);
    SumBound(states[|acts|].workers, Weight());
  }

  lemma {:induction false} MeasureLeft(c: Config, states: seq<State>, acts: seq<Action>)
    requires IsRun(c, states, acts)
    ensures |acts| + Measure(c, states[|acts|]) <= 3 * c.Spawned() + 4 * c.tests + 5
  {
    if acts != [] {
      var n := |acts| - 1;
      InvAlongRun(c, states, acts);
      MeasureLeft(c, states[..n + 1], acts[..n]);
      StepDecreases(c, states[n], acts[n]);
    }
  }

  /** With a worker, or with no playbook, the pool can always move until it has returned. */
  lemma NoDeadlock(c: Config, s: State) returns (a: Action)
    requires Inv(c, s) && !s.main.Returned? && (c.concurrency >= 1 || c.tests == 0)
    ensures Enabled(c, s, a)
  {
    match s.main {
      case Spawning(i) => a := if i < c.concurrency then Spawn else Spawned;
      case Sending(j) =>
        if j >= c.tests { a := CloseWork; } else { a := WorkerMoves(c, s, 0); }
      case Waiting =>
        if s.wg == 0 {
          a := WaitDone;
        } else {
          SumBound(s.workers, Alive());
          var w: nat :| w < |s.workers| && Alive()(s.workers[w]) > 0;
          a := WorkerMoves(c, s, w);
        }
      case ClosingErrors => a := CloseErrors;
      case Collecting => a := if s.errCh == [] then Return else Collect;
    }
  }

  lemma WorkerMoves(c: Config, s: State, w: nat) returns (a: Action)
    requires Inv(c, s) && w < |s.workers| && !s.workers[w].Exited?
    requires s.workClosed || (s.main.Sending? && s.main.j < c.tests)
    ensures Enabled(c, s, a)
  {
    match s.workers[w] {
      case Ranging => a := if s.workClosed then SeeClosed(w) else Handoff(w);
      case Running(_) => a := Finish(w, true);
      case Reporting(_) =>
        RoomToReport(c, s, w);
        a := Report(w);
      case Leaving => a := Leave(w);
    }
  }

  /** Without workers and with a playbook to send, nothing moves after the spawning loop. */
  lemma BlockedAtFirstSend(c: Config, s: State)
    requires Inv(c, s) && c.concurrency <= 0 && c.tests > 0
    ensures s.main == Spawning(0) || (s.main == Sending(0) && Stopped(c, s))
  {
    assert s.workers == [];
  }

  /** When everybody has left, everything was run once and every failure collected. */
  lemma AllDone(c: Config, s: State)
    requires Inv(c, s) && s.main.Returned?
    ensures multiset(s.finished) == multiset(Range(c.tests))
    ensures multiset(s.collected) == multiset(s.failed)
    ensures s.main.failed <==> s.failed != []
  {
    SumBound(s.workers, Alive());
    SumBound(s.workers, AtReport());
    forall t: nat
      ensures multiset(s.finished)[t] == multiset(Range(c.tests))[t]
      ensures multiset(s.collected)[t] == multiset(s.failed)[t]
    {
      assert TestInv(s, t);
      SumBound(s.workers, Runs(t));
      SumBound(s.workers, Reports(t));
    }
  }

  /** What a schedule that cannot go on has done: returned, exactly when there was a worker or nothing to run. */
  lemma Completion(c: Config, states: seq<State>, acts: seq<Action>)
    requires IsRun(c, states, acts) && Stopped(c, states[|acts|])
    ensures var s := states[|acts|];
            && (s.main.Returned? <==> c.concurrency >= 1 || c.tests == 0)
            && (s.main.Returned? ==>
                  && multiset(s.finished) == multiset(Range(c.tests))
                  && multiset(s.collected) == multiset(s.failed)
                  && (s.main.failed <==> s.failed != []))
  {
    var s := states[|acts|];
    InvAlongRun(c, states, acts);
    if c.concurrency >= 1 || c.tests == 0 {
      if !s.main.Returned? {
        var a := NoDeadlock(c, s);
        assert false;
      }
      AllDone(c, s);
    } else {
      BlockedAtFirstSend(c, s);
      if s.main == Spawning(0) {
        assert Enabled(c, s, Spawned);
      }
    }
  }

  // ---------------------------------------------------------------- results, from the actions alone

  /** The test that an action finishes in a state, if it does: any, or only one that does not pass. */
  function Finished(s: State, a: Action, failedOnly: bool): seq<nat> {
    match a
    case Finish(w, ok) =>
      if w < |s.workers| && s.workers[w].Running? && !(failedOnly && ok) then [s.workers[w].test] else []
    case _ => []
  }

  /** All of them along a schedule, in order. */
  function Finishes(states: seq<State>, acts: seq<Action>, failedOnly: bool): seq<nat>
    requires |acts| < |states|
  {
    if acts == [] then []
    else
      var n := |acts| - 1;
      Finishes(states[..n + 1], acts[..n], failedOnly) + Finished(states[n], acts[n], failedOnly)
  }

  lemma HistoryStep(c: Config, s: State, a: Action)
    requires Enabled(c, s, a)
    ensures Do(c, s, a).finished == s.finished + Finished(s, a, false)
    ensures Do(c, s, a).failed == s.failed + Finished(s, a, true)
  {}

  lemma {:induction false} HistoriesAreFinishes(c: Config, states: seq<State>, acts: seq<Action>)
    requires IsRun(c, states, acts)
    ensures states[|acts|].finished == Finishes(states, acts, false)
    ensures states[|acts|].failed == Finishes(states, acts, true)
  {
    if acts != [] {
      var n := |acts| - 1;
      HistoriesAreFinishes(c, states[..n + 1], acts[..n]);
      assert states[..n + 1][n] == states[n] && Enabled(c, states[n], acts[n]);
      HistoryStep(c, states[n], acts[n]);
    }
  }

  /** Some test did not pass. */
  ghost predicate SomeFailure(acts: seq<Action>) {
    exists k :: 0 <= k < |acts| && acts[k].Finish? && !acts[k].ok
  }

  lemma {:induction false} FailuresShow(c: Config, states: seq<State>, acts: seq<Action>)
    requires IsRun(c, states, acts)
    ensures Finishes(states, acts, true) != [] <==> SomeFailure(acts)
  {
    if acts != [] {
      var n := |acts| - 1;
      FailuresShow(c, states[..n + 1], acts[..n]);
      assert Enabled(c, states[n], acts[n]) && states[..n + 1][n] == states[n];
      if SomeFailure(acts[..n]) {
        var k :| 0 <= k < n && acts[..n][k].Finish? && !acts[..n][k].ok;
        assert acts[k] == acts[..n][k];
      }
      if SomeFailure(acts) {
        var k :| 0 <= k < |acts| && acts[k].Finish? && !acts[k].ok;
        if k < n { assert acts[..n][k] == acts[k]; }
      }
    }
  }

  /**
   What a schedule that has returned reports, from its actions: every test was finished once, the
   collected errors are those of the tests that did not pass, and an error is returned if and only
   if some test did not.
   */
  lemma ReportsExactlyFailures(c: Config, states: seq<State>, acts: seq<Action>)
    requires IsRun(c, states, acts) && states[|acts|].main.Returned?
    ensures multiset(Finishes(states, acts, false)) == multiset(Range(c.tests))
    ensures multiset(states[|acts|].collected) == multiset(Finishes(states, acts, true))
    ensures states[|acts|].main.failed <==> SomeFailure(acts)
  {
    InvAlongRun(c, states, acts);
    AllDone(c, states[|acts|]);
    HistoriesAreFinishes(c, states, acts);
    FailuresShow(c, states, acts);
  }

  /**
   Once the spawning loop is over there are as many workers as asked for, each with a port of its own from
   2222 on.
  */
  lemma WorkersSpawned(c: Config, states: seq<State>, acts: seq<Action>, k: nat)
    requires IsRun(c, states, acts) && k < |states| && !states[k].main.Spawning?
    ensures |states[k].workers| == if c.concurrency > 0 then c.concurrency else 0
    ensures forall w: nat :: w < |states[k].workers| ==> Port(w) == 2222 + w
  {
    InvAlongRun(c, states, acts);
  }
}
