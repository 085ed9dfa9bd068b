/**
 The sync worker pool as a step system. One goroutine per running task takes a worker, makes the
 request and reports; a dispatcher retries failed tasks; a collector gathers one result per task.
 Channels are queues with the capacities the source gives them.
 */
module WorkerPool {
  import opened Basics

  type Worker = nat

  /** Where the goroutine of a task is. `Running` is inside the request. */
  datatype Pc = Waiting | Running(w: Worker) | Failing | Returning(w: Worker) | Reporting(w: Worker)

  datatype Exec = Exec(task: nat, pc: Pc)

  /** A result; without a worker it stands for a task given up. */
  datatype Outcome = Outcome(task: nat, who: Option<Worker>)

  datatype Dispatcher = Idle | Holding(task: nat) | Giving(task: nat) | Stopped

  /** `lost` and `requests` record what has happened: the workers that failed and the requests made. */
  datatype State = State(
    pool: seq<Worker>, execs: seq<Exec>, failed: seq<nat>, disp: Dispatcher,
    results: seq<Outcome>, collected: seq<Outcome>, closed: bool,
    lost: seq<Worker>, requests: nat)

  /** What is submitted: tasks `0..count`, and the workers known at that time. */
  datatype Job = Job(count: nat, workers: seq<Worker>)

  function Start(j: Job): State {
    State(j.workers, seq(j.count, t requires 0 <= t => Exec(t, Waiting)), [], Idle, [], [], false, [], 0)
  }

  // ---------------------------------------------------------------- steps

  datatype Label =
    | Take(i: nat) | Succeed(i: nat) | Fail(i: nat) | SendFailed(i: nat) | Return(i: nat) | Report(i: nat)
    | Receive | Decide | Give | Collect | Close | Stop

  function Replace(execs: seq<Exec>, i: nat, mid: seq<Exec>): seq<Exec>
    requires i < |execs|
  {
    execs[..i] + mid + execs[i + 1..]
  }

  /** A step can happen: a receive needs something to receive, a send needs room. */
  predicate Enabled(j: Job, s: State, l: Label) {
    match l
    case Take(i) => i < |s.execs| && s.execs[i].pc.Waiting? && s.pool != []
    case Succeed(i) => i < |s.execs| && s.execs[i].pc.Running?
    case Fail(i) => i < |s.execs| && s.execs[i].pc.Running?
    case SendFailed(i) => i < |s.execs| && s.execs[i].pc.Failing? && |s.failed| < j.count
    case Return(i) => i < |s.execs| && s.execs[i].pc.Returning? && |s.pool| < |j.workers|
    case Report(i) => i < |s.execs| && s.execs[i].pc.Reporting? && |s.results| < j.count
    case Receive => s.disp.Idle? && s.failed != []
    case Decide => s.disp.Holding?
    case Give => s.disp.Giving? && |s.results| < j.count
    case Collect => s.results != [] && |s.collected| < j.count
    case Close => |s.collected| == j.count && !s.closed
    case Stop => s.disp.Idle? && s.closed && s.failed == []
  }

  function Apply(j: Job, s: State, l: Label): State
    requires Enabled(j, s, l)
  {
    match l
    case Take(i) =>
      s.(pool := s.pool[1..], requests := s.requests + 1,
         execs := Replace(s.execs, i, [Exec(s.execs[i].task, Running(s.pool[0]))]))
    case Succeed(i) =>
      s.(execs := Replace(s.execs, i, [Exec(s.execs[i].task, Returning(s.execs[i].pc.w))]))
    case Fail(i) =>
      s.(execs := Replace(s.execs, i, [Exec(s.execs[i].task, Failing)]), lost := s.lost + [s.execs[i].pc.w])
    case SendFailed(i) =>
      s.(execs := Replace(s.execs, i, []), failed := s.failed + [s.execs[i].task])
    case Return(i) =>
      s.(pool := s.pool + [s.execs[i].pc.w],
         execs := Replace(s.execs, i, [Exec(s.execs[i].task, Reporting(s.execs[i].pc.w))]))
    case Report(i) =>
      s.(execs := Replace(s.execs, i, []), results := s.results + [Outcome(s.execs[i].task, Some(s.execs[i].pc.w))])
    case Receive =>
      s.(failed := s.failed[1..], disp := Holding(s.failed[0]))
    case Decide =>
      if s.pool != [] then s.(disp := Idle, execs := s.execs + [Exec(s.disp.task, Waiting)])
      else s.(disp := Giving(s.disp.task))
    case Give =>
      s.(disp := Idle, results := s.results + [Outcome(s.disp.task, None)])
    case Collect =>
      s.(results := s.results[1..], collected := s.collected + [s.results[0]])
    case Close => s.(closed := true)
    case Stop => s.(disp := Stopped)
  }

  /** Sending on the failed-task channel after it is closed would panic. */
  predicate Panics(s: State, l: Label) {
    l.SendFailed? && s.closed
  }

  /** All goroutines have ended and the results can be returned. */
  predicate Finished(s: State) {
    s.execs == [] && s.disp.Stopped? && s.closed
  }

  // ---------------------------------------------------------------- runs

  ghost predicate IsRun(j: Job, s: State, ls: seq<Label>, s': State)
    decreases ls
  {
    if ls == [] then s == s' else Enabled(j, s, ls[0]) && IsRun(j, Apply(j, s, ls[0]), ls[1..], s')
  }

  ghost predicate Reachable(j: Job, s: State) {
    exists ls :: IsRun(j, Start(j), ls, s)
  }

  lemma {:induction false} RunAppend(j: Job, a: State, ls: seq<Label>, b: State, ms: seq<Label>, c: State)
    requires IsRun(j, a, ls, b) && IsRun(j, b, ms, c)
    ensures IsRun(j, a, ls + ms, c)
    decreases ls
  {
    if ls == [] {
      assert ls + ms == ms;
    } else {
      RunAppend(j, Apply(j, a, ls[0]), ls[1..], b, ms, c);
      assert (ls + ms)[1..] == ls[1..] + ms;
    }
  }

  // ---------------------------------------------------------------- sums

  function Sum<T>(xs: seq<T>, f: T -> nat): nat {
    if xs == [] then 0 else f(xs[0]) + Sum(xs[1..], f)
  }

  lemma {:induction false} SumConcat<T>(a: seq<T>, b: seq<T>, f: T -> nat)
    ensures Sum(a + b, f) == Sum(a, f) + Sum(b, f)
    decreases a
  {
    if a == [] {
      assert a + b == b;
    } else {
      assert (a + b)[1..] == a[1..] + b;
      SumConcat(a[1..], b, f);
    }
  }

  lemma {:induction false} SumAppend<T>(xs: seq<T>, x: T, f: T -> nat)
    ensures Sum(xs + [x], f) == Sum(xs, f) + f(x)
  {
    SumConcat(xs, [x], f);
  }

  /** Replacing one goroutine exchanges what it contributes. */
  lemma {:induction false} SumReplace(es: seq<Exec>, i: nat, mid: seq<Exec>, f: Exec -> nat)
    requires i < |es|
    ensures Sum(Replace(es, i, mid), f) + f(es[i]) == Sum(es, f) + Sum(mid, f)
  {
    SumConcat(es[..i] + mid, es[i + 1..], f);
    SumConcat(es[..i], mid, f);
    SumConcat(es[..i], [es[i]] + es[i + 1..], f);
    SumConcat([es[i]], es[i + 1..], f);
    assert es == es[..i] + ([es[i]] + es[i + 1..]);
  }

  lemma {:induction false} SumAtMost<T>(xs: seq<T>, f: T -> nat)
    requires forall x :: f(x) <= 1
    ensures Sum(xs, f) <= |xs|
  {
    if xs != [] { SumAtMost(xs[1..], f); }
  }

  lemma {:induction false} SumSome<T>(xs: seq<T>, f: T -> nat, i: nat)
    requires i < |xs|
    ensures Sum(xs, f) >= f(xs[i])
  {
    if i > 0 { SumSome(xs[1..], f, i - 1); }
  }

  function Is(x: nat): nat -> nat { (y: nat) => if y == x then 1 else 0 }

  function TaskIs(t: nat): Exec -> nat { (e: Exec) => if e.task == t then 1 else 0 }

  function Carries(w: Worker): Exec -> nat {
    (e: Exec) => if (e.pc.Running? || e.pc.Returning?) && e.pc.w == w then 1 else 0
  }

  function CarriesOne(): Exec -> nat { (e: Exec) => if e.pc.Running? || e.pc.Returning? then 1 else 0 }

  function Requested(): Exec -> nat { (e: Exec) => if e.pc.Waiting? || e.pc.Failing? then 0 else 1 }

  function Effort(): Exec -> nat {
    (e: Exec) => match e.pc
      case Waiting => 5
      case Running(_) => 14
      case Failing => 8
      case Returning(_) => 13
      case Reporting(_) => 2
  }

  function ResultIs(t: nat): Outcome -> nat { (o: Outcome) => if o.task == t then 1 else 0 }

  function Completed(): Outcome -> nat { (o: Outcome) => if o.who.Some? then 1 else 0 }

  function Holds(d: Dispatcher, t: nat): nat { if (d.Holding? || d.Giving?) && d.task == t then 1 else 0 }

  function Busy(d: Dispatcher): nat { if d.Holding? || d.Giving? then 1 else 0 }

  // ---------------------------------------------------------------- what every step keeps

  /** How often a task is somewhere in the system. */
  function Places(s: State, t: nat): nat {
    Sum(s.execs, TaskIs(t)) + Sum(s.failed, Is(t)) + Holds(s.disp, t)
    + Sum(s.results, ResultIs(t)) + Sum(s.collected, ResultIs(t))
  }

  /** How often a worker is somewhere in the system. */
  function Posts(s: State, w: Worker): nat {
    Sum(s.pool, Is(w)) + Sum(s.execs, Carries(w)) + Sum(s.lost, Is(w))
  }

  function Requests(s: State): nat {
    |s.lost| + Sum(s.execs, Requested()) + Sum(s.results, Completed()) + Sum(s.collected, Completed())
  }

  /** Nothing is lost or doubled, and the failed-task channel is closed only when every result is in. */
  ghost predicate Inv(j: Job, s: State) {
    && (forall t: nat {:trigger Places(s, t)} :: Places(s, t) == if t < j.count then 1 else 0)
    && (forall w: Worker {:trigger Posts(s, w)} :: Posts(s, w) == Sum(j.workers, Is(w)))
    && |s.execs| + |s.failed| + Busy(s.disp) + |s.results| + |s.collected| == j.count
    && |s.pool| + Sum(s.execs, CarriesOne()) + |s.lost| == |j.workers|
    && s.requests == Requests(s)
    && (s.closed ==> |s.collected| == j.count) && (s.disp.Stopped? ==> s.closed)
  }

  /** The steps still possible: a worker fails at most once, so every retry is paid for. */
  function Weight(s: State): nat {
    Sum(s.execs, Effort()) + 7 * |s.failed|
    + (match s.disp case Idle => 1 case Holding(_) => 7 case Giving(_) => 3 case Stopped => 0)
    + |s.results| + 10 * |s.pool| + (if s.closed then 0 else 1)
  }

  function Starting(n: nat, m: nat): seq<Exec> { seq(n, i requires 0 <= i => Exec(m + i, Waiting)) }

  lemma {:induction false} StartSums(n: nat, m: nat, t: nat, w: Worker)
    ensures Sum(Starting(n, m), TaskIs(t)) == if m <= t < m + n then 1 else 0
    ensures Sum(Starting(n, m), Carries(w)) == 0 && Sum(Starting(n, m), CarriesOne()) == 0
    ensures Sum(Starting(n, m), Requested()) == 0 && Sum(Starting(n, m), Effort()) == 5 * n
    decreases n
  {
    if n > 0 {
      StartSums(n - 1, m + 1, t, w);
      assert Starting(n, m)[1..] == Starting(n - 1, m + 1);
    }
  }

  lemma {:induction false} StartInv(j: Job)
    ensures Inv(j, Start(j)) && Weight(Start(j)) == 5 * j.count + 10 * |j.workers| + 2
  {
    assert Start(j).execs == Starting(j.count, 0);
    forall t: nat ensures Places(Start(j), t) == if t < j.count then 1 else 0 { StartSums(j.count, 0, t, 0); }
    forall w: Worker ensures Posts(Start(j), w) == Sum(j.workers, Is(w)) { StartSums(j.count, 0, 0, w); }
    StartSums(j.count, 0, 0, 0);
  }

  /** The steps of a goroutine that carries a task. */
  predicate Moves(l: Label) {
    l.Take? || l.Succeed? || l.Fail? || l.SendFailed? || l.Return? || l.Report?
  }

  /** A step moves one goroutine on, or removes it. */
  function Moved(s: State, l: Label): seq<Exec>
    requires Moves(l)
    requires l.i < |s.execs| && (l.Take? ==> s.pool != [])
    requires (l.Succeed? || l.Return? ==> s.execs[l.i].pc.Running? || s.execs[l.i].pc.Returning?)
  {
    var t := s.execs[l.i].task;
    match l
    case Take(i) => [Exec(t, Running(s.pool[0]))]
    case Succeed(i) => [Exec(t, Returning(s.execs[i].pc.w))]
    case Fail(i) => [Exec(t, Failing)]
    case Return(i) => [Exec(t, Reporting(s.execs[i].pc.w))]
    case _ => []
  }

  /** What a step does to a sum over the goroutines. */
  lemma {:induction false} ExecsStep(j: Job, s: State, l: Label, f: Exec -> nat)
    requires Enabled(j, s, l)
    ensures var s' := Apply(j, s, l);
      if Moves(l) then
        Sum(s'.execs, f) + f(s.execs[l.i]) == Sum(s.execs, f) + Sum(Moved(s, l), f)
      else if l.Decide? && s.pool != [] then Sum(s'.execs, f) == Sum(s.execs, f) + f(Exec(s.disp.task, Waiting))
      else s'.execs == s.execs
  {
    if Moves(l) {
      SumReplace(s.execs, l.i, Moved(s, l), f);
    } else if l.Decide? && s.pool != [] {
      SumAppend(s.execs, Exec(s.disp.task, Waiting), f);
    }
  }

  lemma {:induction false} StepPlaces(j: Job, s: State, l: Label, t: nat)
    requires Enabled(j, s, l)
    ensures Places(Apply(j, s, l), t) == Places(s, t)
  {
    if l.SendFailed? || l.Report? {
      LeavePlaces(j, s, l, t);
    } else if Moves(l) {
      ExecsStep(j, s, l, TaskIs(t));
    } else {
      DispatchPlaces(j, s, l, t);
    }
  }

  /** A goroutine ends: its task goes to the failed tasks or into a result. */
  lemma {:induction false} LeavePlaces(j: Job, s: State, l: Label, t: nat)
    requires Enabled(j, s, l) && (l.SendFailed? || l.Report?)
    ensures Places(Apply(j, s, l), t) == Places(s, t)
  {
    ExecsStep(j, s, l, TaskIs(t));
    if l.SendFailed? {
      SumAppend(s.failed, s.execs[l.i].task, Is(t));
    } else {
      SumAppend(s.results, Outcome(s.execs[l.i].task, Some(s.execs[l.i].pc.w)), ResultIs(t));
    }
  }

  /** A step of the dispatcher or the collector. */
  lemma {:induction false} DispatchPlaces(j: Job, s: State, l: Label, t: nat)
    requires Enabled(j, s, l) && !Moves(l)
    ensures Places(Apply(j, s, l), t) == Places(s, t)
  {
    ExecsStep(j, s, l, TaskIs(t));
    if l.Give? { SumAppend(s.results, Outcome(s.disp.task, None), ResultIs(t)); }
    if l.Collect? { SumAppend(s.collected, s.results[0], ResultIs(t)); }
  }

  lemma {:induction false} StepPosts(j: Job, s: State, l: Label, w: Worker)
    requires Enabled(j, s, l)
    ensures Posts(Apply(j, s, l), w) == Posts(s, w)
  {
    if l.Fail? {
      ExecsStep(j, s, l, Carries(w));
      SumAppend(s.lost, s.execs[l.i].pc.w, Is(w));
    } else if l.Return? {
      ExecsStep(j, s, l, Carries(w));
      SumAppend(s.pool, s.execs[l.i].pc.w, Is(w));
    } else {
      OtherPosts(j, s, l, w);
    }
  }

  lemma {:induction false} OtherPosts(j: Job, s: State, l: Label, w: Worker)
    requires Enabled(j, s, l) && !l.Fail? && !l.Return?
    ensures Posts(Apply(j, s, l), w) == Posts(s, w)
  {
    ExecsStep(j, s, l, Carries(w));
  }

  lemma {:induction false} StepTotals(j: Job, s: State, l: Label)
    requires Enabled(j, s, l)
    ensures var s' := Apply(j, s, l);
      && |s'.pool| + Sum(s'.execs, CarriesOne()) + |s'.lost| == |s.pool| + Sum(s.execs, CarriesOne()) + |s.lost|
      && s'.requests - Requests(s') == s.requests - Requests(s)
  {
    StepWorkers(j, s, l);
    StepRequests(j, s, l);
  }

  lemma {:induction false} StepWorkers(j: Job, s: State, l: Label)
    requires Enabled(j, s, l)
    ensures var s' := Apply(j, s, l);
      |s'.pool| + Sum(s'.execs, CarriesOne()) + |s'.lost| == |s.pool| + Sum(s.execs, CarriesOne()) + |s.lost|
  {
    ExecsStep(j, s, l, CarriesOne());
  }

  lemma {:induction false} StepRequests(j: Job, s: State, l: Label)
    requires Enabled(j, s, l)
    ensures var s' := Apply(j, s, l); s'.requests - Requests(s') == s.requests - Requests(s)
  {
    ExecsStep(j, s, l, Requested());
    if l.Report? { SumAppend(s.results, Outcome(s.execs[l.i].task, Some(s.execs[l.i].pc.w)), Completed()); }
    if l.Give? { SumAppend(s.results, Outcome(s.disp.task, None), Completed()); }
    if l.Collect? { SumAppend(s.collected, s.results[0], Completed()); }
  }

  /** Every step brings the end nearer. */
  lemma {:induction false} StepWeight(j: Job, s: State, l: Label)
    requires Enabled(j, s, l)
    ensures Weight(Apply(j, s, l)) < Weight(s)
  {
    ExecsStep(j, s, l, Effort());
  }

  lemma {:induction false} StepInv(j: Job, s: State, l: Label)
    requires Inv(j, s) && Enabled(j, s, l)
    ensures Inv(j, Apply(j, s, l)) && !Panics(s, l)
  {
    var s' := Apply(j, s, l);
    forall t: nat ensures Places(s', t) == Places(s, t) { StepPlaces(j, s, l, t); }
    forall w: Worker ensures Posts(s', w) == Posts(s, w) { StepPosts(j, s, l, w); }
    StepTotals(j, s, l);
  }

  // ---------------------------------------------------------------- whole runs

  lemma {:induction false} RunKeeps(j: Job, s: State, ls: seq<Label>, s': State)
    requires Inv(j, s) && IsRun(j, s, ls, s')
    ensures Inv(j, s') && |ls| + Weight(s') <= Weight(s)
    decreases ls
  {
    if ls != [] {
      StepInv(j, s, ls[0]);
      StepWeight(j, s, ls[0]);
      RunKeeps(j, Apply(j, s, ls[0]), ls[1..], s');
    }
  }

  /** No channel holds more than its capacity, and no goroutine ever has to wait to send. */
  ghost predicate RoomToSend(j: Job, s: State) {
    && |s.pool| <= |j.workers| && |s.failed| <= j.count && |s.results| <= j.count
    && (forall i {:trigger s.execs[i]} :: 0 <= i < |s.execs| ==>
          && (s.execs[i].pc.Failing? ==> Enabled(j, s, SendFailed(i)))
          && (s.execs[i].pc.Returning? ==> Enabled(j, s, Return(i)))
          && (s.execs[i].pc.Reporting? ==> Enabled(j, s, Report(i))))
    && (s.disp.Giving? ==> Enabled(j, s, Give))
  }

  lemma {:induction false} InvRoom(j: Job, s: State)
    requires Inv(j, s)
    ensures RoomToSend(j, s)
  {
    forall i {:trigger s.execs[i]} | 0 <= i < |s.execs| ensures s.execs[i].pc.Returning? ==> |s.pool| < |j.workers| {
      SumSome(s.execs, CarriesOne(), i);
    }
  }

  lemma {:induction false} InvRequests(j: Job, s: State)
    requires Inv(j, s)
    ensures s.requests <= j.count + |j.workers|
  {
    SumAtMost(s.execs, Requested());
    SumAtMost(s.results, Completed());
    SumAtMost(s.collected, Completed());
  }

  /**
   In every interleaving: each task is in exactly one place and each worker in as many as it was
   submitted, sends never block or panic, and requests and steps are bounded.
   */
  lemma {:induction false} SafeOverRuns(j: Job, ls: seq<Label>, s: State)
    requires IsRun(j, Start(j), ls, s)
    ensures forall t: nat :: Places(s, t) == if t < j.count then 1 else 0
    ensures forall w: Worker :: Posts(s, w) == Sum(j.workers, Is(w))
    ensures RoomToSend(j, s) && forall l :: Enabled(j, s, l) ==> !Panics(s, l)
    ensures s.requests <= j.count + |j.workers| && |ls| <= 5 * j.count + 10 * |j.workers| + 2
  {
    StartInv(j);
    RunKeeps(j, Start(j), ls, s);
    InvRoom(j, s);
    InvRequests(j, s);
  }

  // ---------------------------------------------------------------- deadlock

  ghost predicate Stuck(j: Job, s: State) {
    forall l :: !Enabled(j, s, l)
  }

  ghost predicate SomeWaiting(s: State) {
    exists i :: 0 <= i < |s.execs| && s.execs[i].pc.Waiting?
  }

  /** Every worker has failed while a task still waits for one. */
  ghost predicate Doomed(j: Job, s: State) {
    |s.lost| == |j.workers| && SomeWaiting(s)
  }

  lemma {:induction false} NoneCarried(es: seq<Exec>)
    requires forall i {:trigger es[i]} :: 0 <= i < |es| ==> es[i].pc.Waiting?
    ensures Sum(es, CarriesOne()) == 0
  {
    if es != [] {
      assert es[0].pc.Waiting?;
      NoneCarried(es[1..]);
    }
  }

  /** A state without a next step is the end of the run or a deadlock. */
  lemma {:induction false} StuckMeans(j: Job, s: State)
    requires Inv(j, s) && Stuck(j, s)
    ensures Finished(s) || Doomed(j, s)
  {
    InvRoom(j, s);
    if s.execs != [] {
      forall i {:trigger s.execs[i]} | 0 <= i < |s.execs| ensures s.execs[i].pc.Waiting? && s.pool == [] {
        assert !Enabled(j, s, Take(i)) && !Enabled(j, s, Succeed(i)) && !Enabled(j, s, SendFailed(i));
        assert !Enabled(j, s, Return(i)) && !Enabled(j, s, Report(i));
      }
      NoneCarried(s.execs);
      assert s.execs[0].pc.Waiting?;
    } else {
      assert !Enabled(j, s, Receive) && !Enabled(j, s, Decide) && !Enabled(j, s, Give);
      assert !Enabled(j, s, Collect) && !Enabled(j, s, Close) && !Enabled(j, s, Stop);
    }
  }

  lemma {:induction false} DoomedStep(j: Job, s: State, l: Label)
    requires Inv(j, s) && Doomed(j, s) && Enabled(j, s, l)
    ensures Doomed(j, Apply(j, s, l))
  {
    var i :| 0 <= i < |s.execs| && s.execs[i].pc.Waiting?;
    var s' := Apply(j, s, l);
    StepInv(j, s, l);
    forall n {:trigger s.execs[n]} | 0 <= n < |s.execs| ensures !s.execs[n].pc.Running? {
      SumSome(s.execs, CarriesOne(), n);
    }
    var k := if (l.SendFailed? || l.Report?) && l.i < i then i - 1 else i;
    assert s'.execs[k].pc.Waiting?;
  }

  /** A deadlock is for ever: no continuation finishes. */
  lemma {:induction false} DoomedForever(j: Job, s: State, ls: seq<Label>, s': State)
    requires Inv(j, s) && Doomed(j, s) && IsRun(j, s, ls, s')
    ensures Doomed(j, s') && !Finished(s')
    decreases ls
  {
    if ls != [] {
      StepInv(j, s, ls[0]);
      DoomedStep(j, s, ls[0]);
      DoomedForever(j, Apply(j, s, ls[0]), ls[1..], s');
    }
  }

  lemma {:induction false} PoolLost(xs: seq<Worker>, w: Worker)
    requires w in xs
    ensures Sum(xs, Is(w)) > 0
  {
    if xs[0] != w { PoolLost(xs[1..], w); }
  }

  lemma {:induction false} CarriedCounted(es: seq<Exec>, w: Worker)
    ensures Sum(es, Carries(w)) <= Sum(es, CarriesOne())
  {
    if es != [] { CarriedCounted(es[1..], w); }
  }

  lemma {:induction false} AbsentCount(xs: seq<Worker>, w: Worker)
    requires w !in xs
    ensures Sum(xs, Is(w)) == 0
  {
    if xs != [] { AbsentCount(xs[1..], w); }
  }

  /** While some worker has not failed, an unfinished run can go on. */
  lemma {:induction false} SurvivorMeansProgress(j: Job, ls: seq<Label>, s: State, w: Worker)
    requires IsRun(j, Start(j), ls, s) && w in j.workers && w !in s.lost
    ensures !Doomed(j, s) && (Finished(s) || exists l :: Enabled(j, s, l))
  {
    StartInv(j);
    RunKeeps(j, Start(j), ls, s);
    PoolLost(j.workers, w);
    CarriedCounted(s.execs, w);
    AbsentCount(s.lost, w);
    assert Posts(s, w) == Sum(j.workers, Is(w)) && (|s.lost| == |j.workers| ==> s.pool == []);
    if Stuck(j, s) { StuckMeans(j, s); }
  }

  /** Where the deadlocking run is: nothing but waiting goroutines, two or more. */
  ghost predicate AllWait(s: State) {
    && |s.execs| >= 2 && s.disp.Idle? && s.failed == []
    && forall i {:trigger s.execs[i]} :: 0 <= i < |s.execs| ==> s.execs[i].pc.Waiting?
  }

  /** One worker is taken by the first goroutine and fails; its work is queued again behind the others. */
  lemma {:induction false} LoseWorker(j: Job, s: State) returns (ls: seq<Label>, s': State)
    requires Inv(j, s) && AllWait(s) && s.pool != []
    ensures IsRun(j, s, ls, s') && Inv(j, s')
    ensures if |s.pool| == 1 then Doomed(j, s') else AllWait(s') && |s'.pool| == |s.pool| - 1
  {
    var s1 := Apply(j, s, Take(0));
    StepInv(j, s, Take(0));
    var s2 := Apply(j, s1, Fail(0));
    StepInv(j, s1, Fail(0));
    NoneCarried(s.execs);
    assert forall i :: 0 < i < |s2.execs| ==> s2.execs[i] == s.execs[i];
    ls, s' := [], s2;
    if |s.pool| > 1 { ls, s' := Retry(j, s2); }
    Cons(j, s1, Fail(0), ls, s');
    Cons(j, s, Take(0), [Fail(0)] + ls, s');
    ls := [Take(0)] + ([Fail(0)] + ls);
  }

  lemma {:induction false} Retry(j: Job, s: State) returns (ls: seq<Label>, s': State)
    requires Inv(j, s) && |s.execs| >= 2 && s.disp.Idle? && s.failed == [] && s.pool != [] && s.execs[0].pc.Failing?
    requires forall i {:trigger s.execs[i]} :: 0 < i < |s.execs| ==> s.execs[i].pc.Waiting?
    ensures IsRun(j, s, ls, s') && Inv(j, s') && AllWait(s') && s'.pool == s.pool
  {
    InvRoom(j, s);
    var s1 := Apply(j, s, SendFailed(0));
    StepInv(j, s, SendFailed(0));
    var s2 := Apply(j, s1, Receive);
    StepInv(j, s1, Receive);
    s' := Apply(j, s2, Decide);
    StepInv(j, s2, Decide);
    Cons(j, s2, Decide, [], s');
    Cons(j, s1, Receive, [Decide] + [], s');
    Cons(j, s, SendFailed(0), [Receive] + ([Decide] + []), s');
    ls := [SendFailed(0)] + ([Receive] + ([Decide] + []));
    forall i {:trigger s'.execs[i]} | 0 <= i < |s'.execs| ensures s'.execs[i].pc.Waiting? {
      assert i + 1 < |s.execs| ==> s'.execs[i] == s.execs[i + 1];
    }
  }

  lemma {:induction false} Cons(j: Job, s: State, l: Label, ls: seq<Label>, s': State)
    requires Enabled(j, s, l) && IsRun(j, Apply(j, s, l), ls, s')
    ensures IsRun(j, s, [l] + ls, s')
  {
    assert ([l] + ls)[1..] == ls;
  }

  lemma {:induction false} LoseAll(j: Job, s: State) returns (ls: seq<Label>, s': State)
    requires Inv(j, s) && AllWait(s)
    ensures IsRun(j, s, ls, s') && Doomed(j, s')
    decreases |s.pool|
  {
    if s.pool == [] {
      NoneCarried(s.execs);
      assert s.execs[0].pc.Waiting?;
      ls, s' := [], s;
    } else {
      var first, mid := LoseWorker(j, s);
      if |s.pool| == 1 {
        ls, s' := first, mid;
      } else {
        var rest;
        rest, s' := LoseAll(j, mid);
        RunAppend(j, s, first, mid, rest, s');
        ls := first + rest;
      }
    }
  }

  /** With one task, a goroutine waits only while there is a worker to take. */
  lemma {:induction false} OneTaskRun(j: Job, s: State, ls: seq<Label>, s': State)
    requires j.count == 1 && Inv(j, s) && (SomeWaiting(s) ==> s.pool != []) && IsRun(j, s, ls, s')
    ensures Inv(j, s') && (SomeWaiting(s') ==> s'.pool != [])
    decreases ls
  {
    if ls != [] {
      StepInv(j, s, ls[0]);
      OneTaskRun(j, Apply(j, s, ls[0]), ls[1..], s');
    }
  }

  /** Submitting tasks can deadlock exactly when there is no worker, or there are two tasks or more. */
  lemma {:induction false} CanDeadlockIff(j: Job)
    requires j.count > 0
    ensures (exists s :: Reachable(j, s) && Doomed(j, s)) <==> |j.workers| == 0 || j.count >= 2
  {
    StartInv(j);
    assert Start(j).execs[0].pc.Waiting?;
    if |j.workers| == 0 {
      assert IsRun(j, Start(j), [], Start(j));
      assert Reachable(j, Start(j)) && Doomed(j, Start(j));
    } else if j.count >= 2 {
      var ls, s := LoseAll(j, Start(j));
      assert Reachable(j, s) && Doomed(j, s);
    } else {
      forall s | Reachable(j, s) ensures !Doomed(j, s) {
        var ls :| IsRun(j, Start(j), ls, s);
        OneTaskRun(j, Start(j), ls, s);
      }
    }
  }
}
