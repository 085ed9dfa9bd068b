/**
 Who gets the credit for a task. A run of the worker pool is read as a log of the requests made and the
 requests that failed; every result names the worker whose request answered it.
 */
module WorkerCredits {
  import opened Basics
  import opened WorkerPool

  /** A goroutine took a worker for a task, or its request to that worker failed. */
  datatype Entry = Took(task: nat, w: Worker) | Lost(task: nat, w: Worker)

  /** What one step adds to the log: a receive from the worker channel, or an error of the request. */
  function Logged(j: Job, s: State, l: Label): seq<Entry>
    requires Enabled(j, s, l)
  {
    match l
    case Take(i) => [Took(s.execs[i].task, s.pool[0])]
    case Fail(i) => [Lost(s.execs[i].task, s.execs[i].pc.w)]
    case _ => []
  }

  ghost function Log(j: Job, s: State, ls: seq<Label>, s': State): seq<Entry>
    requires IsRun(j, s, ls, s')
    decreases ls
  {
    if ls == [] then [] else Logged(j, s, ls[0]) + Log(j, Apply(j, s, ls[0]), ls[1..], s')
  }

  // ---------------------------------------------------------------- reading the log

  /** The request of entry `k` failed: that is the next thing the log says about its task. */
  ghost predicate Fails(log: seq<Entry>, k: nat)
    requires k < |log|
  {
    exists m {:trigger log[m]} ::
      && k < m < |log| && log[m] == Lost(log[k].task, log[k].w)
      && forall n {:trigger log[n]} :: k < n < m ==> log[n].task != log[k].task
  }

  /** Every request made for `t` failed. */
  ghost predicate AllFailed(log: seq<Entry>, t: nat) {
    forall k: nat {:trigger Fails(log, k)} :: k < |log| && log[k].Took? && log[k].task == t ==> Fails(log, k)
  }

  /** There was a request for `t`. */
  ghost predicate Tried(log: seq<Entry>, t: nat) {
    exists k {:trigger log[k]} :: 0 <= k < |log| && log[k].Took? && log[k].task == t
  }

  /** The last thing the log says about `t` is a request to `w`, and all earlier ones failed. */
  ghost predicate Served(log: seq<Entry>, t: nat, w: Worker) {
    exists k: nat :: k < |log| && LastTake(log, t, w, k)
  }

  ghost predicate LastTake(log: seq<Entry>, t: nat, w: Worker, k: nat)
    requires k < |log|
  {
    && log[k] == Took(t, w) && AllFailed(log[..k], t)
    && forall n {:trigger log[n]} :: k < n < |log| ==> log[n].task != t
  }

  lemma {:induction false} FailsLater(log: seq<Entry>, k: nat, x: Entry)
    requires k < |log| && Fails(log, k)
    ensures Fails(log + [x], k)
  {
    var m :| k < m < |log| && log[m] == Lost(log[k].task, log[k].w)
      && forall n {:trigger log[n]} :: k < n < m ==> log[n].task != log[k].task;
    var more := log + [x];
    assert more[m] == log[m] && more[k] == log[k];
    assert forall n {:trigger more[n]} :: k < n < m ==> more[n] == log[n];
  }

  /** An entry about another task changes nothing for this one. */
  lemma {:induction false} OtherTask(log: seq<Entry>, x: Entry, t: nat)
    requires x.task != t
    ensures AllFailed(log, t) ==> AllFailed(log + [x], t)
    ensures Tried(log, t) ==> Tried(log + [x], t)
    ensures forall w :: Served(log, t, w) ==> Served(log + [x], t, w)
  {
    var more := log + [x];
    if AllFailed(log, t) {
      forall k: nat | k < |more| && more[k].Took? && more[k].task == t ensures Fails(more, k) { FailsLater(log, k, x); }
    }
    if Tried(log, t) {
      var k :| 0 <= k < |log| && log[k].Took? && log[k].task == t;
      assert more[k] == log[k];
    }
    forall w | Served(log, t, w) ensures Served(more, t, w) {
      var k: nat :| k < |log| && LastTake(log, t, w, k);
      assert more[..k] == log[..k];
      assert LastTake(more, t, w, k);
    }
  }

  lemma {:induction false} NewTake(log: seq<Entry>, t: nat, w: Worker)
    requires AllFailed(log, t)
    ensures Served(log + [Took(t, w)], t, w)
  {
    var more := log + [Took(t, w)];
    assert more[..|log|] == log;
    assert LastTake(more, t, w, |log|);
  }

  lemma {:induction false} NewLoss(log: seq<Entry>, t: nat, w: Worker)
    requires Served(log, t, w)
    ensures AllFailed(log + [Lost(t, w)], t) && Tried(log + [Lost(t, w)], t)
  {
    var more := log + [Lost(t, w)];
    var last: nat :| last < |log| && LastTake(log, t, w, last);
    assert more[last] == Took(t, w);
    forall k: nat | k < |more| && more[k].Took? && more[k].task == t ensures Fails(more, k) {
      assert more[k] == log[k] && k <= last;
      if k == last {
        assert more[|log|] == Lost(t, w);
        assert forall n {:trigger more[n]} :: k < n < |log| ==> more[n] == log[n];
      } else {
        assert log[..last][k] == log[k];
        FailsEarly(log, last, k, Lost(t, w));
      }
    }
  }

  lemma {:induction false} FailsEarly(log: seq<Entry>, last: nat, k: nat, x: Entry)
    requires k < last <= |log| && Fails(log[..last], k)
    ensures Fails(log + [x], k)
  {
    var pre, more := log[..last], log + [x];
    var m :| k < m < |pre| && pre[m] == Lost(pre[k].task, pre[k].w)
      && forall n {:trigger pre[n]} :: k < n < m ==> pre[n].task != pre[k].task;
    assert forall n {:trigger more[n]} :: 0 <= n < last ==> more[n] == pre[n];
    assert more[m] == Lost(more[k].task, more[k].w);
  }

  // ---------------------------------------------------------------- what every step keeps

  /** A goroutine is where the log says its task is. */
  ghost predicate ExecFits(j: Job, log: seq<Entry>, e: Exec) {
    match e.pc
    case Waiting => AllFailed(log, e.task)
    case Failing => GivenUp(log, e.task)
    case Running(w) => Credited(j, log, e.task, w)
    case Returning(w) => Credited(j, log, e.task, w)
    case Reporting(w) => Credited(j, log, e.task, w)
  }

  ghost predicate GivenUp(log: seq<Entry>, t: nat) { Tried(log, t) && AllFailed(log, t) }

  ghost predicate Credited(j: Job, log: seq<Entry>, t: nat, w: Worker) { w in j.workers && Served(log, t, w) }

  /** A completed result names the worker that served its task; the other kind is of a task whose requests failed. */
  ghost predicate ResultFits(j: Job, log: seq<Entry>, r: Outcome) {
    match r.who
    case Some(w) => Credited(j, log, r.task, w)
    case None => GivenUp(log, r.task)
  }

  ghost predicate Fits(j: Job, s: State, log: seq<Entry>) {
    && (forall w :: w in s.pool ==> w in j.workers)
    && (forall e :: e in s.execs ==> ExecFits(j, log, e))
    && (forall t :: t in s.failed ==> GivenUp(log, t))
    && (s.disp.Holding? || s.disp.Giving? ==> GivenUp(log, s.disp.task))
    && (forall r :: r in s.results ==> ResultFits(j, log, r))
    && (forall r :: r in s.collected ==> ResultFits(j, log, r))
  }

  lemma {:induction false} SumTwo(es: seq<Exec>, f: Exec -> nat, i: nat, k: nat)
    requires i < k < |es|
    ensures Sum(es, f) >= f(es[i]) + f(es[k])
  {
    if i == 0 { SumSome(es[1..], f, k - 1); } else { SumTwo(es[1..], f, i - 1, k - 1); }
  }

  /** A task carried by a goroutine is nowhere else. */
  lemma {:induction false} Alone(j: Job, s: State, i: nat)
    requires Inv(j, s) && i < |s.execs|
    ensures var t := s.execs[i].task;
      && (forall k :: 0 <= k < |s.execs| && k != i ==> s.execs[k].task != t)
      && t !in s.failed && (s.disp.Holding? || s.disp.Giving? ==> s.disp.task != t)
      && (forall r :: r in s.results || r in s.collected ==> r.task != t)
  {
    var t := s.execs[i].task;
    assert Places(s, t) <= 1;
    SumSome(s.execs, TaskIs(t), i);
    forall k | 0 <= k < |s.execs| && k != i ensures s.execs[k].task != t {
      if i < k { SumTwo(s.execs, TaskIs(t), i, k); } else { SumTwo(s.execs, TaskIs(t), k, i); }
    }
    if t in s.failed { PoolLost(s.failed, t); }
    forall r | r in s.results || r in s.collected ensures r.task != t { AloneResults(s, t, r); }
  }

  lemma {:induction false} AloneResults(s: State, t: nat, r: Outcome)
    requires r in s.results || r in s.collected
    ensures r.task == t ==> Sum(s.results, ResultIs(t)) + Sum(s.collected, ResultIs(t)) > 0
  {
    if r in s.results {
      var k :| 0 <= k < |s.results| && s.results[k] == r;
      SumSome(s.results, ResultIs(t), k);
    } else {
      var k :| 0 <= k < |s.collected| && s.collected[k] == r;
      SumSome(s.collected, ResultIs(t), k);
    }
  }

  lemma {:induction false} OtherExec(j: Job, log: seq<Entry>, x: Entry, e: Exec)
    requires ExecFits(j, log, e) && e.task != x.task
    ensures ExecFits(j, log + [x], e)
  {
    OtherTask(log, x, e.task);
  }

  lemma {:induction false} OtherResult(j: Job, log: seq<Entry>, x: Entry, r: Outcome)
    requires ResultFits(j, log, r) && r.task != x.task
    ensures ResultFits(j, log + [x], r)
  {
    OtherTask(log, x, r.task);
  }

  /** Everything about other tasks still fits after one more entry. */
  lemma {:induction false} OthersFit(j: Job, s: State, log: seq<Entry>, i: nat, x: Entry)
    requires Inv(j, s) && Fits(j, s, log) && i < |s.execs| && x.task == s.execs[i].task
    ensures Fits(j, s.(execs := Replace(s.execs, i, [])), log + [x])
  {
    Alone(j, s, i);
    forall e | e in Replace(s.execs, i, []) ensures ExecFits(j, log + [x], e) {
      OthersOf(s.execs, i, e);
      OtherExec(j, log, x, e);
    }
    forall t | t in s.failed ensures GivenUp(log + [x], t) { OtherTask(log, x, t); }
    if s.disp.Holding? || s.disp.Giving? { OtherTask(log, x, s.disp.task); }
    forall r | r in s.results ensures ResultFits(j, log + [x], r) { OtherResult(j, log, x, r); }
    forall r | r in s.collected ensures ResultFits(j, log + [x], r) { OtherResult(j, log, x, r); }
  }

  lemma {:induction false} OthersOf(es: seq<Exec>, i: nat, e: Exec)
    requires i < |es| && e in Replace(es, i, [])
    requires forall k :: 0 <= k < |es| && k != i ==> es[k].task != es[i].task
    ensures e in es && e.task != es[i].task
  {
    var rest := Replace(es, i, []);
    var k :| 0 <= k < |rest| && rest[k] == e;
    assert e == es[if k < i then k else k + 1];
  }

  lemma {:induction false} ReplacedMembers(es: seq<Exec>, i: nat, mid: seq<Exec>, e: Exec)
    requires i < |es| && e in Replace(es, i, mid)
    ensures e in mid || e in Replace(es, i, [])
  {
  }

  lemma {:induction false} TakeFits(j: Job, s: State, log: seq<Entry>, i: nat)
    requires Inv(j, s) && Fits(j, s, log) && Enabled(j, s, Take(i))
    ensures Fits(j, Apply(j, s, Take(i)), log + Logged(j, s, Take(i)))
  {
    var t, w := s.execs[i].task, s.pool[0];
    var s' := Apply(j, s, Take(i));
    OthersFit(j, s, log, i, Took(t, w));
    assert s.execs[i] in s.execs && w in s.pool;
    NewTake(log, t, w);
    forall e | e in s'.execs ensures ExecFits(j, log + [Took(t, w)], e) {
      ReplacedMembers(s.execs, i, [Exec(t, Running(w))], e);
    }
  }

  lemma {:induction false} FailFits(j: Job, s: State, log: seq<Entry>, i: nat)
    requires Inv(j, s) && Fits(j, s, log) && Enabled(j, s, Fail(i))
    ensures Fits(j, Apply(j, s, Fail(i)), log + Logged(j, s, Fail(i)))
  {
    var t, w := s.execs[i].task, s.execs[i].pc.w;
    var s' := Apply(j, s, Fail(i));
    OthersFit(j, s, log, i, Lost(t, w));
    assert s.execs[i] in s.execs;
    NewLoss(log, t, w);
    forall e | e in s'.execs ensures ExecFits(j, log + [Lost(t, w)], e) {
      ReplacedMembers(s.execs, i, [Exec(t, Failing)], e);
    }
  }

  /** A step that says nothing new to the log. */
  lemma {:induction false} SilentFits(j: Job, s: State, log: seq<Entry>, l: Label)
    requires Fits(j, s, log) && Enabled(j, s, l) && !l.Take? && !l.Fail?
    ensures Fits(j, Apply(j, s, l), log)
  {
    var s' := Apply(j, s, l);
    if Moves(l) {
      assert s.execs[l.i] in s.execs;
      forall e | e in s'.execs ensures ExecFits(j, log, e) { ReplacedMembers(s.execs, l.i, Moved(s, l), e); }
    }
  }

  lemma {:induction false} StepFits(j: Job, s: State, log: seq<Entry>, l: Label)
    requires Inv(j, s) && Fits(j, s, log) && Enabled(j, s, l)
    ensures Fits(j, Apply(j, s, l), log + Logged(j, s, l))
  {
    if l.Take? {
      TakeFits(j, s, log, l.i);
    } else if l.Fail? {
      FailFits(j, s, log, l.i);
    } else {
      SilentFits(j, s, log, l);
      assert log + [] == log;
    }
  }

  lemma {:induction false} RunFits(j: Job, s: State, log: seq<Entry>, ls: seq<Label>, s': State)
    requires Inv(j, s) && Fits(j, s, log) && IsRun(j, s, ls, s')
    ensures Fits(j, s', log + Log(j, s, ls, s'))
    decreases ls
  {
    if ls == [] {
      assert log + [] == log;
    } else {
      var now, s1 := Logged(j, s, ls[0]), Apply(j, s, ls[0]);
      StepInv(j, s, ls[0]);
      StepFits(j, s, log, ls[0]);
      RunFits(j, s1, log + now, ls[1..], s');
      assert log + (now + Log(j, s1, ls[1..], s')) == log + now + Log(j, s1, ls[1..], s');
    }
  }

  // ---------------------------------------------------------------- whole runs

  /**
   In every interleaving: a completed result names a submitted worker, the one of the last request for its task,
   and that request did not fail; a result without a worker is for a task that was tried and whose every request failed.
   */
  lemma {:induction false} CreditsOverRuns(j: Job, ls: seq<Label>, s: State)
    requires IsRun(j, Start(j), ls, s)
    ensures var log := Log(j, Start(j), ls, s);
      forall r :: r in s.results || r in s.collected ==> ResultFits(j, log, r)
  {
    StartInv(j);
    RunFits(j, Start(j), [], ls, s);
    assert [] + Log(j, Start(j), ls, s) == Log(j, Start(j), ls, s);
  }

  /**
   A finished run returns exactly one result per task, naming the worker that served it; every worker that did
   not fail is back in the pool; every request ended in a completed result or cost a worker.
   */
  lemma {:induction false} FinishedRun(j: Job, ls: seq<Label>, s: State)
    requires IsRun(j, Start(j), ls, s) && Finished(s)
    ensures |s.collected| == j.count
    ensures forall t: nat :: t < j.count ==> Sum(s.collected, ResultIs(t)) == 1
    ensures forall r :: r in s.collected ==> ResultFits(j, Log(j, Start(j), ls, s), r)
    ensures forall w: Worker :: Sum(s.pool, Is(w)) + Sum(s.lost, Is(w)) == Sum(j.workers, Is(w))
    ensures s.requests == |s.lost| + Sum(s.collected, Completed())
  {
    StartInv(j);
    RunKeeps(j, Start(j), ls, s);
    CreditsOverRuns(j, ls, s);
    assert s.failed == [] && s.results == [];
    forall t: nat | t < j.count ensures Sum(s.collected, ResultIs(t)) == 1 { assert Places(s, t) == 1; }
    forall w: Worker ensures Sum(s.pool, Is(w)) + Sum(s.lost, Is(w)) == Sum(j.workers, Is(w)) {
      assert Posts(s, w) == Sum(j.workers, Is(w));
    }
  }
}
