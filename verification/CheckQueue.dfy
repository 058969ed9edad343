/**
 The check queue (src/checkqueue.h): a master adds batches of checks, any number of
 workers run them, and the master's Wait joins in and returns whether all succeeded.

 Everything a thread does between taking the mutex and releasing it (by waiting,
 returning or starting a batch) is one step.  Running one check is a step outside the
 mutex.  A wait can end for no reason.  Module CheckQueueObject has the locked sections
 as methods on the object; module CheckQueue has the protocol they make up.
 */
module CheckQueue {

  /** A verification; calling it gives `passes`. */
  datatype Check = Check(id: nat, passes: bool)

  predicate AllPass(checks: seq<Check>) {
    forall i :: 0 <= i < |checks| ==> checks[i].passes
  }

  /** The fields the mutex protects.  fQuit is never set. */
  datatype Shared = Shared(queue: seq<Check>, nIdle: int, nTotal: int, fAllOk: bool, nTodo: int, nBatchSize: nat)

  /** Why a thread takes the mutex. */
  datatype Arrival = Starting | Finishing(nNow: nat, fOk: bool) | Waking

  /** How a thread leaves it. */
  datatype Outcome = Returns(result: bool) | Waits | Takes(batch: seq<Check>, fOk: bool)

  /** The clean-up at the start of a locked section. */
  function Arrive(sh: Shared, arrival: Arrival): Shared {
    match arrival
    case Starting => sh.(nTotal := sh.nTotal + 1)
    case Finishing(nNow, fOk) => sh.(fAllOk := sh.fAllOk && fOk, nTodo := sh.nTodo - nNow)
    case Waking => sh.(nIdle := sh.nIdle - 1)
  }

  function Min(a: int, b: int): int { if a < b then a else b }
  function Max(a: int, b: int): int { if a < b then b else a }

  /** How many checks to take: at least one, at most nBatchSize, a share of the queue. */
  function BatchLength(sh: Shared): (n: int)
    requires sh.nTotal >= 0 && sh.nIdle >= 0 && sh.queue != []
    ensures 1 <= n <= |sh.queue|
  {
    DivisionShrinks(|sh.queue|, sh.nTotal + sh.nIdle + 1);
    Max(1, Min(sh.nBatchSize, |sh.queue| / (sh.nTotal + sh.nIdle + 1)))
  }

  /** The most checks that are within the batch size and a share for every thread, but at least one. */
  lemma BatchIsShare(sh: Shared, n: int)
    requires sh.nTotal >= 0 && sh.nIdle >= 0 && sh.queue != [] && n == BatchLength(sh)
    ensures n == 1 || (n <= sh.nBatchSize && n * (sh.nTotal + sh.nIdle + 1) <= |sh.queue|)
    ensures n + 1 > sh.nBatchSize || (n + 1) * (sh.nTotal + sh.nIdle + 1) > |sh.queue|
  {
    var w := sh.nTotal + sh.nIdle + 1;
    ShareIs(|sh.queue|, w, |sh.queue| / w);
    if n <= |sh.queue| / w {
      ShareMonotone(n, |sh.queue| / w, w);
    }
    if n >= |sh.queue| / w {
      ShareMonotone(|sh.queue| / w + 1, n + 1, w);
    }
  }

  lemma ShareIs(a: nat, w: nat, q: nat)
    requires w > 0 && q == a / w
    ensures q * w <= a < (q + 1) * w
  {
  }

  lemma {:induction false} ShareMonotone(a: nat, b: nat, w: nat)
    requires a <= b
    ensures a * w <= b * w
  {
    if w > 0 {
      ShareMonotone(a, b, w - 1);
    }
  }

  lemma DivisionShrinks(a: nat, b: nat)
    requires b > 0
    ensures a / b <= a
  {
    if a / b > a {
      Multiple(b, a / b);
    }
  }

  lemma {:induction false} Multiple(b: nat, q: nat)
    requires b > 0
    ensures b * q >= q
  {
    if b > 1 {
      Multiple(b - 1, q);
    }
  }

  /** The last n checks of the queue, the last one first. */
  function Batch(queue: seq<Check>, n: nat): seq<Check>
    requires n <= |queue|
  {
    seq(n, i requires 0 <= i < n => queue[|queue| - 1 - i])
  }

  /** The rest of a locked section: return, wait or take a batch. */
  function Proceed(sh: Shared, fMaster: bool): (Shared, Outcome)
    requires sh.nTotal >= 0 && sh.nIdle >= 0
  {
    if sh.queue == [] then
      if fMaster && sh.nTodo == 0 then
        (sh.(nTotal := sh.nTotal - 1, fAllOk := true), Returns(sh.fAllOk))
      else
        (sh.(nIdle := sh.nIdle + 1), Waits)
    else
      var n := BatchLength(sh);
      (sh.(queue := sh.queue[..|sh.queue| - n]), Takes(Batch(sh.queue, n), sh.fAllOk))
  }

  predicate IsIdle(sh: Shared) {
    sh.nTotal == sh.nIdle && sh.nTodo == 0 && sh.fAllOk
  }

  // ---------------------------------------------------------------------------
  // The threads.  Thread 0 is the master.

  datatype Thread =
    | Outside
    | Running(batch: seq<Check>, done: nat, fOk: bool)
    | Waiting
    | Awake

  /** `added` records the checks added since the master last returned from Wait. */
  datatype System = System(sh: Shared, threads: seq<Thread>, added: seq<Check>)

  datatype Move =
    | Add(checks: seq<Check>, choice: nat)  // `choice` is the worker notify_one wakes
    | Exec(t: nat)                          // run the next check of a batch
    | Lock(t: nat)                          // one locked section
    | Spurious(t: nat)                      // a wait ends without a notification

  predicate WaitingWorker(threads: seq<Thread>, t: nat) {
    0 < t < |threads| && threads[t].Waiting?
  }

  /** Where a thread stands when it takes the mutex. */
  function ArrivalOf(t: Thread): Arrival {
    match t
    case Outside => Starting
    case Running(batch, _, fOk) => Finishing(|batch|, fOk)
    case _ => Waking
  }

  /** Only the master adds, before it waits; a batch is finished before the mutex is taken. */
  predicate Enabled(s: System, m: Move) {
    match m
    case Add(checks, choice) =>
      && |s.threads| > 0 && s.threads[0].Outside?
      && (WaitingWorker(s.threads, choice) || forall t :: 0 <= t < |s.threads| ==> !WaitingWorker(s.threads, t))
    case Exec(t) => t < |s.threads| && s.threads[t].Running? && s.threads[t].done < |s.threads[t].batch|
    case Lock(t) =>
      && t < |s.threads| && !s.threads[t].Waiting?
      && (s.threads[t].Running? ==> s.threads[t].done == |s.threads[t].batch|)
    case Spurious(t) => t < |s.threads| && s.threads[t].Waiting?
  }

  /** notify_all on the workers' condition. */
  function WakeWorkers(threads: seq<Thread>): seq<Thread> {
    seq(|threads|, i requires 0 <= i < |threads| => if WaitingWorker(threads, i) then Awake else threads[i])
  }

  /** notify_one on the master's condition. */
  function WakeMaster(threads: seq<Thread>): seq<Thread> {
    if |threads| > 0 && threads[0].Waiting? then threads[0 := Awake] else threads
  }

  function RunNext(t: Thread): Thread
    requires t.Running? && t.done < |t.batch|
  {
    t.(done := t.done + 1, fOk := t.fOk && t.batch[t.done].passes)
  }

  function AfterSection(o: Outcome): Thread {
    match o
    case Returns(_) => Outside
    case Waits => Waiting
    case Takes(batch, fOk) => Running(batch, 0, fOk)
  }

  /** A finishing worker that brings nTodo to zero notifies the master. */
  predicate Notifies(sh: Shared, arrival: Arrival, fMaster: bool) {
    arrival.Finishing? && Arrive(sh, arrival).nTodo == 0 && !fMaster
  }

  function Section(s: System, t: nat): (System, Outcome)
    requires t < |s.threads|
    requires Arrive(s.sh, ArrivalOf(s.threads[t])).nTotal >= 0 && Arrive(s.sh, ArrivalOf(s.threads[t])).nIdle >= 0
  {
    var arrival := ArrivalOf(s.threads[t]);
    var (sh, o) := Proceed(Arrive(s.sh, arrival), t == 0);
    var threads := if Notifies(s.sh, arrival, t == 0) then WakeMaster(s.threads) else s.threads;
    (System(sh, threads[t := AfterSection(o)], if o.Returns? then [] else s.added), o)
  }

  function Step(s: System, m: Move): System
    requires Inv(s) && Enabled(s, m)
  {
    match m
    case Add(checks, choice) =>
      System(s.sh.(queue := s.sh.queue + checks, nTodo := s.sh.nTodo + |checks|),
             if |checks| == 1 then
               if WaitingWorker(s.threads, choice) then s.threads[choice := Awake] else s.threads
             else if |checks| > 1 then WakeWorkers(s.threads)
             else s.threads,
             s.added + checks)
    case Exec(t) => s.(threads := s.threads[t := RunNext(s.threads[t])])
    case Lock(t) =>
      SectionIsSafe(s, t);
      Section(s, t).0
    case Spurious(t) => s.(threads := s.threads[t := Awake])
  }

  /** One check wakes one sleeping worker if there is one, more wake them all, and no other thread changes. */
  lemma AddWakes(s: System, checks: seq<Check>, choice: nat)
    requires Inv(s) && Enabled(s, Add(checks, choice))
    ensures var s' := Step(s, Add(checks, choice));
            && s'.sh.queue == s.sh.queue + checks && s'.added == s.added + checks && |s'.threads| == |s.threads|
            && (checks == [] ==> s'.threads == s.threads)
            && (|checks| > 1 ==> forall t :: 0 < t < |s.threads| && s.threads[t].Waiting? ==> s'.threads[t].Awake?)
            && (|checks| == 1 && (exists t :: 0 < t < |s.threads| && s.threads[t].Waiting?) ==>
                  exists t :: 0 < t < |s.threads| && s.threads[t].Waiting? && s'.threads == s.threads[t := Awake])
            && (forall t :: 0 <= t < |s.threads| && !(t > 0 && s.threads[t].Waiting?) ==> s'.threads[t] == s.threads[t])
  {
    if t :| 0 < t < |s.threads| && s.threads[t].Waiting? {
      assert WaitingWorker(s.threads, t) && WaitingWorker(s.threads, choice);
    }
  }

  // ---------------------------------------------------------------------------
  // Sums over threads.

  datatype Kind = Checks | Runners | Sleepers | Potential

  function Weight(k: Kind, t: Thread): int {
    match k
    case Checks => if t.Running? then |t.batch| else 0
    case Runners => if t.Running? then 1 else 0
    case Sleepers => if t.Waiting? || t.Awake? then 1 else 0
    case Potential =>
      match t
      case Outside => 1
      case Running(batch, done, _) => 2 + |batch| - done
      case Waiting => 0
      case Awake => 1
  }

  function Sum(k: Kind, ts: seq<Thread>): int {
    if ts == [] then 0 else Sum(k, ts[..|ts| - 1]) + Weight(k, ts[|ts| - 1])
  }

  lemma {:induction false} SumUpdate(k: Kind, ts: seq<Thread>, i: nat, t: Thread)
    requires i < |ts|
    ensures Sum(k, ts[i := t]) == Sum(k, ts) - Weight(k, ts[i]) + Weight(k, t)
  {
    var n := |ts| - 1;
    if i == n {
      assert ts[i := t][..n] == ts[..n];
    } else {
      SumUpdate(k, ts[..n], i, t);
      assert ts[i := t][..n] == ts[..n][i := t];
    }
  }

  lemma {:induction false} SumSame(k: Kind, ts: seq<Thread>, us: seq<Thread>)
    requires |ts| == |us| && forall i :: 0 <= i < |ts| ==> Weight(k, ts[i]) == Weight(k, us[i])
    ensures Sum(k, ts) == Sum(k, us)
  {
    if ts != [] {
      SumSame(k, ts[..|ts| - 1], us[..|us| - 1]);
    }
  }

  /** A sum of non-negative weights is at least each of them. */
  lemma {:induction false} SumBounds(k: Kind, ts: seq<Thread>)
    requires forall i :: 0 <= i < |ts| ==> WellFormed(ts[i])
    ensures Sum(k, ts) >= 0
    ensures forall i :: 0 <= i < |ts| ==> Weight(k, ts[i]) <= Sum(k, ts)
  {
    if ts != [] {
      SumBounds(k, ts[..|ts| - 1]);
      forall i | 0 <= i < |ts| ensures Weight(k, ts[i]) <= Sum(k, ts) {
        assert i < |ts| - 1 ==> Weight(k, ts[..|ts| - 1][i]) <= Sum(k, ts[..|ts| - 1]);
      }
    }
  }

  /** A positive sum has a positive summand. */
  lemma {:induction false} SomeWeight(k: Kind, ts: seq<Thread>) returns (i: nat)
    requires Sum(k, ts) > 0
    ensures i < |ts| && Weight(k, ts[i]) > 0
  {
    if Weight(k, ts[|ts| - 1]) > 0 {
      i := |ts| - 1;
    } else {
      i := SomeWeight(k, ts[..|ts| - 1]);
    }
  }

  // ---------------------------------------------------------------------------
  // The invariant.

  predicate WellFormed(t: Thread) {
    t.Running? ==> 0 < |t.batch| && t.done <= |t.batch|
  }

  /** What a batch in progress will report, if nothing fails elsewhere. */
  predicate WillPass(t: Thread) {
    t.Running? ==> t.fOk && AllPass(t.batch[Min(t.done, |t.batch|)..])
  }

  ghost predicate BatchesPass(threads: seq<Thread>) {
    forall i :: 0 <= i < |threads| ==> WillPass(threads[i])
  }

  /** nTodo is the queue and the batches; nTotal is the threads in Loop, nIdle those in wait. */
  ghost predicate Counts(s: System) {
    && s.sh.nTodo == |s.sh.queue| + Sum(Checks, s.threads)
    && s.sh.nTotal - s.sh.nIdle == Sum(Runners, s.threads)
    && s.sh.nIdle == Sum(Sleepers, s.threads)
    && s.sh.nTodo <= |s.added|
  }

  /** All checks added pass exactly if no failure is recorded, in a batch or still to come. */
  ghost predicate Verdict(s: System) {
    AllPass(s.added) <==> s.sh.fAllOk && AllPass(s.sh.queue) && BatchesPass(s.threads)
  }

  ghost predicate Inv(s: System) {
    && |s.threads| > 0
    && (forall i :: 0 <= i < |s.threads| ==> WellFormed(s.threads[i]))
    && Counts(s)
    && Verdict(s)
    && (s.threads[0].Waiting? ==> s.sh.queue == [] && s.sh.nTodo > 0)
  }

  function Initial(nThreads: nat, nBatchSize: nat): System
    requires nThreads > 0
  {
    System(Shared([], 0, 0, true, 0, nBatchSize), seq(nThreads, i => Outside), [])
  }

  lemma {:induction false} SumOutside(k: Kind, ts: seq<Thread>)
    requires k != Potential && forall i :: 0 <= i < |ts| ==> ts[i].Outside?
    ensures Sum(k, ts) == 0
  {
    if ts != [] {
      SumOutside(k, ts[..|ts| - 1]);
    }
  }

  lemma InitialIsConsistent(nThreads: nat, nBatchSize: nat)
    requires nThreads > 0
    ensures Inv(Initial(nThreads, nBatchSize))
  {
    var ts := Initial(nThreads, nBatchSize).threads;
    SumOutside(Checks, ts);
    SumOutside(Runners, ts);
    SumOutside(Sleepers, ts);
  }

  lemma SectionIsSafe(s: System, t: nat)
    requires Inv(s) && t < |s.threads| && !s.threads[t].Waiting?
    ensures Arrive(s.sh, ArrivalOf(s.threads[t])).nTotal >= 0 && Arrive(s.sh, ArrivalOf(s.threads[t])).nIdle >= 0
  {
    SumBounds(Runners, s.threads);
    SumBounds(Sleepers, s.threads);
    assert Weight(Sleepers, s.threads[t]) <= Sum(Sleepers, s.threads);
  }

  // ---------------------------------------------------------------------------
  // Each kind of step keeps it.

  lemma UpdateBatches(ts: seq<Thread>, i: nat, t: Thread)
    requires i < |ts|
    ensures BatchesPass(ts[i := t]) && WillPass(ts[i]) <==> BatchesPass(ts) && WillPass(t)
  {
    if BatchesPass(ts[i := t]) && WillPass(ts[i]) {
      forall j | 0 <= j < |ts| ensures WillPass(ts[j]) {
        assert j != i ==> ts[i := t][j] == ts[j];
      }
      assert WillPass(ts[i := t][i]);
    }
  }

  lemma AllPassAppend(a: seq<Check>, b: seq<Check>)
    ensures AllPass(a + b) <==> AllPass(a) && AllPass(b)
  {
    if AllPass(a + b) {
      forall i | 0 <= i < |b| ensures b[i].passes {
        assert b[i] == (a + b)[|a| + i];
      }
      forall i | 0 <= i < |a| ensures a[i].passes {
        assert a[i] == (a + b)[i];
      }
    }
  }

  lemma AllPassSplit(queue: seq<Check>, n: nat)
    requires n <= |queue|
    ensures AllPass(queue) <==> AllPass(queue[..|queue| - n]) && AllPass(Batch(queue, n))
  {
    var rest := |queue| - n;
    if AllPass(queue[..rest]) && AllPass(Batch(queue, n)) {
      forall i | 0 <= i < |queue| ensures queue[i].passes {
        assert i < rest ==> queue[i] == queue[..rest][i];
        assert i >= rest ==> queue[i] == Batch(queue, n)[|queue| - 1 - i];
      }
    }
  }

  /** A thread between Waiting and Awake weighs the same and promises the same. */
  lemma WakingKeepsInv(s: System, t: nat)
    requires Inv(s) && t < |s.threads| && s.threads[t].Waiting?
    ensures Inv(s.(threads := s.threads[t := Awake]))
  {
    SumUpdate(Checks, s.threads, t, Awake);
    SumUpdate(Runners, s.threads, t, Awake);
    SumUpdate(Sleepers, s.threads, t, Awake);
    UpdateBatches(s.threads, t, Awake);
  }

  lemma WakingAllKeepsInv(s: System)
    requires Inv(s)
    ensures Inv(s.(threads := WakeWorkers(s.threads)))
  {
    var ts := WakeWorkers(s.threads);
    SumSame(Checks, s.threads, ts);
    SumSame(Runners, s.threads, ts);
    SumSame(Sleepers, s.threads, ts);
    assert BatchesPass(ts) <==> BatchesPass(s.threads) by {
      forall i | 0 <= i < |ts| ensures WillPass(ts[i]) <==> WillPass(s.threads[i]) {
      }
    }
  }

  lemma AddingKeepsInv(s: System, checks: seq<Check>)
    requires Inv(s) && s.threads[0].Outside?
    ensures Inv(s.(sh := s.sh.(queue := s.sh.queue + checks, nTodo := s.sh.nTodo + |checks|), added := s.added + checks))
  {
    AllPassAppend(s.sh.queue, checks);
    AllPassAppend(s.added, checks);
  }

  lemma AddKeepsInv(s: System, checks: seq<Check>, choice: nat)
    requires Inv(s) && Enabled(s, Add(checks, choice))
    ensures Inv(Step(s, Add(checks, choice)))
  {
    AddingKeepsInv(s, checks);
    var s1 := s.(sh := s.sh.(queue := s.sh.queue + checks, nTodo := s.sh.nTodo + |checks|), added := s.added + checks);
    if |checks| > 1 {
      WakingAllKeepsInv(s1);
    } else if |checks| == 1 && WaitingWorker(s.threads, choice) {
      WakingKeepsInv(s1, choice);
    }
  }

  lemma RunNextWillPass(t: Thread)
    requires t.Running? && t.done < |t.batch|
    ensures WillPass(RunNext(t)) <==> WillPass(t)
  {
    var rest := t.batch[t.done..];
    assert rest == [t.batch[t.done]] + t.batch[t.done + 1..];
    AllPassAppend([t.batch[t.done]], t.batch[t.done + 1..]);
  }

  lemma ExecKeepsInv(s: System, t: nat)
    requires Inv(s) && Enabled(s, Exec(t))
    ensures Inv(Step(s, Exec(t)))
  {
    var u := RunNext(s.threads[t]);
    assert WellFormed(s.threads[t]);
    SumUpdate(Checks, s.threads, t, u);
    SumUpdate(Runners, s.threads, t, u);
    SumUpdate(Sleepers, s.threads, t, u);
    RunNextWillPass(s.threads[t]);
    UpdateBatches(s.threads, t, u);
    UpdateBatches(s.threads[t := u], t, s.threads[t]);
  }

  // A locked section, in two halves.  In between, the thread counts as outside.

  /** The system after the clean-up of thread t, with t taken out of nTotal again. */
  function Arrived(s: System, t: nat): System
    requires t < |s.threads|
  {
    var arrival := ArrivalOf(s.threads[t]);
    var sh := Arrive(s.sh, arrival);
    var threads := if Notifies(s.sh, arrival, t == 0) then WakeMaster(s.threads) else s.threads;
    System(sh.(nTotal := sh.nTotal - 1), threads[t := Outside], s.added)
  }

  lemma FinishedWillPass(t: Thread)
    requires t.Running? && t.done == |t.batch|
    ensures WillPass(t) <==> t.fOk
  {
    assert t.batch[t.done..] == [];
  }

  /** Taking t out of the threads takes its weight out of the counts and its promise into fAllOk. */
  lemma LeavingKeepsInv(s: System, t: nat)
    requires Inv(s) && Enabled(s, Lock(t))
    requires s.threads[0].Waiting? ==> Arrive(s.sh, ArrivalOf(s.threads[t])).nTodo > 0
    ensures var sh := Arrive(s.sh, ArrivalOf(s.threads[t]));
            Inv(System(sh.(nTotal := sh.nTotal - 1), s.threads[t := Outside], s.added))
  {
    SumUpdate(Checks, s.threads, t, Outside);
    SumUpdate(Runners, s.threads, t, Outside);
    SumUpdate(Sleepers, s.threads, t, Outside);
    UpdateBatches(s.threads, t, Outside);
    if s.threads[t].Running? {
      FinishedWillPass(s.threads[t]);
    }
  }

  lemma ArrivingKeepsInv(s: System, t: nat)
    requires Inv(s) && Enabled(s, Lock(t))
    ensures Inv(Arrived(s, t))
  {
    var arrival := ArrivalOf(s.threads[t]);
    if Notifies(s.sh, arrival, t == 0) && s.threads[0].Waiting? {
      WakingKeepsInv(s, 0);
      LeavingKeepsInv(s.(threads := s.threads[0 := Awake]), t);
    } else {
      if arrival.Finishing? {
        SumUpdate(Checks, s.threads, t, Outside);
        WithoutRunner(s.threads, t);
      }
      LeavingKeepsInv(s, t);
    }
  }

  lemma WithoutRunner(ts: seq<Thread>, t: nat)
    requires t < |ts| && forall i :: 0 <= i < |ts| ==> WellFormed(ts[i])
    ensures Sum(Checks, ts[t := Outside]) >= 0
  {
    SumBounds(Checks, ts[t := Outside]);
  }

  /** With nothing left to do, no batch is in progress. */
  lemma NothingRunning(s: System)
    requires Inv(s) && s.sh.nTodo == 0
    ensures s.sh.queue == [] && Sum(Runners, s.threads) == 0 && s.sh.nTotal == s.sh.nIdle
    ensures BatchesPass(s.threads)
  {
    SumBounds(Checks, s.threads);
    forall i | 0 <= i < |s.threads| ensures !s.threads[i].Running? {
      assert Weight(Checks, s.threads[i]) <= Sum(Checks, s.threads);
      assert WellFormed(s.threads[i]);
    }
    SumSame(Runners, s.threads, seq(|s.threads|, i => Outside));
    SumOutside(Runners, seq(|s.threads|, i => Outside));
  }

  lemma ReturningKeepsInv(s: System)
    requires Inv(s) && s.sh.nTodo == 0 && s.threads[0].Outside?
    ensures Inv(s.(sh := s.sh.(fAllOk := true), added := []))
    ensures s.sh.fAllOk == AllPass(s.added)
  {
    NothingRunning(s);
  }

  /** A thread counted outside starts to wait or takes a batch. */
  lemma JoiningKeepsInv(s: System, t: nat)
    requires Inv(s) && t < |s.threads| && s.threads[t].Outside?
    ensures s.sh.queue == [] && (t == 0 ==> s.sh.nTodo != 0) ==>
              Inv(s.(sh := s.sh.(nTotal := s.sh.nTotal + 1, nIdle := s.sh.nIdle + 1), threads := s.threads[t := Waiting]))
  {
    SumBounds(Checks, s.threads);
    SumUpdate(Checks, s.threads, t, Waiting);
    SumUpdate(Runners, s.threads, t, Waiting);
    SumUpdate(Sleepers, s.threads, t, Waiting);
    UpdateBatches(s.threads, t, Waiting);
  }

  lemma TakingKeepsInv(s: System, t: nat, n: nat)
    requires Inv(s) && t < |s.threads| && s.threads[t].Outside? && 0 < n <= |s.sh.queue|
    ensures Inv(s.(sh := s.sh.(nTotal := s.sh.nTotal + 1, queue := s.sh.queue[..|s.sh.queue| - n]),
                   threads := s.threads[t := Running(Batch(s.sh.queue, n), 0, s.sh.fAllOk)]))
  {
    var u := Running(Batch(s.sh.queue, n), 0, s.sh.fAllOk);
    SumUpdate(Checks, s.threads, t, u);
    SumUpdate(Runners, s.threads, t, u);
    SumUpdate(Sleepers, s.threads, t, u);
    UpdateBatches(s.threads, t, u);
    AllPassSplit(s.sh.queue, n);
    assert Batch(s.sh.queue, n)[0..] == Batch(s.sh.queue, n);
  }

  /** The second half of a section of thread t, which counts as outside. */
  function Resume(s: System, t: nat): (System, Outcome)
    requires t < |s.threads| && s.sh.nTotal + 1 >= 0 && s.sh.nIdle >= 0
  {
    var (sh, o) := Proceed(s.sh.(nTotal := s.sh.nTotal + 1), t == 0);
    (System(sh, s.threads[t := AfterSection(o)], if o.Returns? then [] else s.added), o)
  }

  lemma SectionSplits(s: System, t: nat)
    requires Inv(s) && Enabled(s, Lock(t))
    ensures Arrived(s, t).sh.nTotal + 1 >= 0 && Arrived(s, t).sh.nIdle >= 0
    ensures Step(s, Lock(t)) == Resume(Arrived(s, t), t).0
  {
    SectionIsSafe(s, t);
    var m := Arrived(s, t);
    assert m.sh.(nTotal := m.sh.nTotal + 1) == Arrive(s.sh, ArrivalOf(s.threads[t]));
    var (s', o) := Section(s, t);
    assert s'.threads == m.threads[t := AfterSection(o)];
  }

  lemma ResumeKeepsInv(m: System, t: nat)
    requires Inv(m) && t < |m.threads| && m.threads[t].Outside? && m.sh.nTotal >= 0 && m.sh.nIdle >= 0
    ensures Inv(Resume(m, t).0)
  {
    if m.sh.queue == [] {
      if t == 0 && m.sh.nTodo == 0 {
        ReturningKeepsInv(m);
        assert m.threads[t := Outside] == m.threads;
      } else {
        JoiningKeepsInv(m, t);
      }
    } else {
      TakingKeepsInv(m, t, BatchLength(m.sh.(nTotal := m.sh.nTotal + 1)));
    }
  }

  lemma LockKeepsInv(s: System, t: nat)
    requires Inv(s) && Enabled(s, Lock(t))
    ensures Inv(Step(s, Lock(t)))
  {
    ArrivingKeepsInv(s, t);
    SectionSplits(s, t);
    var m := Arrived(s, t);
    SumBounds(Runners, m.threads);
    SumBounds(Sleepers, m.threads);
    ResumeKeepsInv(m, t);
  }

  lemma StepKeepsInv(s: System, m: Move)
    requires Inv(s) && Enabled(s, m)
    ensures Inv(Step(s, m))
  {
    match m
    case Add(checks, choice) => AddKeepsInv(s, checks, choice);
    case Exec(t) => ExecKeepsInv(s, t);
    case Lock(t) => LockKeepsInv(s, t);
    case Spurious(t) => WakingKeepsInv(s, t);
  }

  // ---------------------------------------------------------------------------
  // Runs.

  /** A run from s: every move is enabled when it is made. */
  ghost predicate Legal(s: System, moves: seq<Move>)
    requires Inv(s)
    decreases |moves|
  {
    moves != [] ==> Enabled(s, moves[0]) && (StepKeepsInv(s, moves[0]); Legal(Step(s, moves[0]), moves[1..]))
  }

  /** Every reachable state is consistent, whatever the interleaving, workers and batch size. */
  ghost function Run(s: System, moves: seq<Move>): (s': System)
    requires Inv(s) && Legal(s, moves)
    ensures Inv(s') && |s'.threads| == |s.threads|
    decreases |moves|
  {
    if moves == [] then s
    else
      StepKeepsInv(s, moves[0]);
      Run(Step(s, moves[0]), moves[1..])
  }

  /** What the master's section of a run does: Wait returns here, with this result. */
  ghost predicate WaitReturns(s: System, result: bool)
    requires Inv(s)
  {
    Enabled(s, Lock(0)) && (SectionIsSafe(s, 0); Section(s, 0).1 == Returns(result))
  }

  /** Wait returns true exactly if every check added since the last Wait passes, and the queue is idle then. */
  lemma WaitIsCorrect(nThreads: nat, nBatchSize: nat, moves: seq<Move>, result: bool)
    requires nThreads > 0 && Inv(Initial(nThreads, nBatchSize)) && Legal(Initial(nThreads, nBatchSize), moves)
    requires WaitReturns(Run(Initial(nThreads, nBatchSize), moves), result)
    ensures var s := Run(Initial(nThreads, nBatchSize), moves);
            && result == AllPass(s.added)
            && IsIdle(Step(s, Lock(0)).sh) && Step(s, Lock(0)).added == []
            && var sh := Step(s, Lock(0)).sh; sh.queue == [] && sh.nTodo == 0 && sh.nTotal == sh.nIdle && sh.fAllOk
  {
    var s := Run(Initial(nThreads, nBatchSize), moves);
    SectionIsSafe(s, 0);
    ArrivingKeepsInv(s, 0);
    ReturningKeepsInv(Arrived(s, 0));
    LockKeepsInv(s, 0);
    NothingRunning(Step(s, Lock(0)));
  }

  /** Whenever nothing was added since the last Wait, the control object finds the queue idle. */
  lemma UnusedIsIdle(s: System)
    requires Inv(s) && s.added == []
    ensures IsIdle(s.sh) && s.sh.queue == [] && s.sh.nTodo == 0 && s.sh.nTotal == s.sh.nIdle && s.sh.fAllOk
  {
    SumBounds(Checks, s.threads);
    NothingRunning(s);
  }

  /** No lost wake-up: while the master sleeps, a worker holds a batch that it has yet to report. */
  lemma MasterIsNotForgotten(s: System) returns (t: nat)
    requires Inv(s) && s.threads[0].Waiting?
    ensures 0 < t < |s.threads| && s.threads[t].Running? && 0 < |s.threads[t].batch| <= s.sh.nTodo
  {
    t := SomeWeight(Checks, s.threads);
    SumBounds(Checks, s.threads);
    assert Weight(Checks, s.threads[t]) <= Sum(Checks, s.threads);
  }

  /** The report that brings nTodo to zero wakes the master. */
  lemma LastReportWakesMaster(s: System, t: nat)
    requires Inv(s) && Enabled(s, Lock(t)) && s.threads[t].Running?
    requires s.threads[0].Waiting? && |s.threads[t].batch| == s.sh.nTodo
    ensures Step(s, Lock(t)).threads[0].Awake?
  {
    SectionIsSafe(s, t);
  }

  // ---------------------------------------------------------------------------
  // Wait ends: while the master is inside, some thread can move, and moves run out.

  predicate Voluntary(m: Move) { m.Exec? || m.Lock? }

  /** Work still to be done, and threads still to go to sleep. */
  function Work(s: System): int {
    3 * |s.sh.queue| + Sum(Potential, s.threads)
  }

  lemma SomeoneCanMove(s: System) returns (m: Move)
    requires Inv(s) && !s.threads[0].Outside?
    ensures Voluntary(m) && Enabled(s, m)
  {
    var t := 0;
    if s.threads[0].Waiting? {
      t := MasterIsNotForgotten(s);
    }
    assert WellFormed(s.threads[t]);
    m := if s.threads[t].Running? && s.threads[t].done < |s.threads[t].batch| then Exec(t) else Lock(t);
  }

  lemma ExecUsesWork(s: System, t: nat)
    requires Inv(s) && Enabled(s, Exec(t))
    ensures Work(Step(s, Exec(t))) < Work(s)
  {
    SumUpdate(Potential, s.threads, t, RunNext(s.threads[t]));
  }

  lemma LockUsesWork(s: System, t: nat)
    requires Inv(s) && Enabled(s, Lock(t)) && !(t == 0 && s.threads[0].Outside?)
    ensures (t == 0 && Step(s, Lock(t)).threads[0].Outside?) || Work(Step(s, Lock(t))) < Work(s)
  {
    SectionIsSafe(s, t);
    var arrival := ArrivalOf(s.threads[t]);
    var (s', o) := Section(s, t);
    var ts := if Notifies(s.sh, arrival, t == 0) then WakeMaster(s.threads) else s.threads;
    if ts != s.threads {
      SumUpdate(Potential, s.threads, 0, Awake);
    }
    assert ts[t] == s.threads[t];
    SumUpdate(Potential, ts, t, AfterSection(o));
  }

  lemma MovesUseWork(s: System, m: Move)
    requires Inv(s) && Enabled(s, m) && Voluntary(m) && !s.threads[0].Outside?
    ensures Step(s, m).threads[0].Outside? || Work(Step(s, m)) < Work(s)
  {
    match m
    case Exec(t) => ExecUsesWork(s, t);
    case Lock(t) => LockUsesWork(s, t);
  }

  lemma WorkIsBounded(s: System)
    requires Inv(s)
    ensures Work(s) >= 0
  {
    SumBounds(Potential, s.threads);
  }

  /** However the scheduler chooses, the master is out of Wait after at most Work(s) voluntary moves. */
  lemma {:induction false} WaitEnds(s: System, moves: seq<Move>)
    requires Inv(s) && !s.threads[0].Outside? && Legal(s, moves)
    requires forall i :: 0 <= i < |moves| ==> Voluntary(moves[i])
    requires |moves| > Work(s)
    ensures exists n :: 0 <= n <= |moves| && Legal(s, moves[..n]) && Run(s, moves[..n]).threads[0].Outside?
    decreases |moves|
  {
    WorkIsBounded(s);
    MovesUseWork(s, moves[0]);
    StepKeepsInv(s, moves[0]);
    var s1 := Step(s, moves[0]);
    var n := 0;
    if !s1.threads[0].Outside? {
      WaitEnds(s1, moves[1..]);
      n :| 0 <= n <= |moves[1..]| && Legal(s1, moves[1..][..n]) && Run(s1, moves[1..][..n]).threads[0].Outside?;
    }
    var prefix := moves[..n + 1];
    assert prefix[0] == moves[0] && prefix[1..] == moves[1..][..n];
    assert Legal(s, prefix) && Run(s, prefix) == Run(s1, prefix[1..]);
  }
}

/** CCheckQueue in place: its fields and the sections that change them. */
module CheckQueueObject {
  import opened CheckQueue

  class Queue {
    var queue: seq<Check>
    var nIdle: int
    var nTotal: int
    var fAllOk: bool
    var nTodo: int
    const nBatchSize: nat

    constructor (nBatchSize: nat)
      ensures Fields() == Initial(1, nBatchSize).sh
    {
      queue, nIdle, nTotal, fAllOk, nTodo := [], 0, 0, true, 0;
      this.nBatchSize := nBatchSize;
    }

    ghost function Fields(): Shared
      reads this
    {
      Shared(queue, nIdle, nTotal, fAllOk, nTodo, nBatchSize)
    }

    /** Loop from taking the mutex to releasing it.  `notify` is condMaster.notify_one. */
    method LockedSection(fMaster: bool, arrival: Arrival) returns (outcome: Outcome, notify: bool)
      requires Arrive(Fields(), arrival).nTotal >= 0 && Arrive(Fields(), arrival).nIdle >= 0
      modifies this
      ensures (Fields(), outcome) == Proceed(Arrive(old(Fields()), arrival), fMaster)
      ensures notify == Notifies(old(Fields()), arrival, fMaster)
    {
      notify := false;
      match arrival {
        case Finishing(nNow, fOk) =>
          fAllOk := fAllOk && fOk;
          nTodo := nTodo - nNow;
          notify := nTodo == 0 && !fMaster;
        case Starting => nTotal := nTotal + 1;
        case Waking => nIdle := nIdle - 1;
      }
      if queue == [] {
        if fMaster && nTodo == 0 {
          nTotal := nTotal - 1;
          outcome := Returns(fAllOk);
          fAllOk := true;
        } else {
          nIdle := nIdle + 1;
          outcome := Waits;
        }
        return;
      }
      var nNow := BatchLength(Shared(queue, nIdle, nTotal, fAllOk, nTodo, nBatchSize));
      ghost var all := queue;
      var vChecks := [];
      for i := 0 to nNow
        invariant queue == all[..|all| - i] && vChecks == Batch(all, i)
        invariant nIdle == old(Arrive(Fields(), arrival)).nIdle && nTotal == old(Arrive(Fields(), arrival)).nTotal
        invariant fAllOk == old(Arrive(Fields(), arrival)).fAllOk && nTodo == old(Arrive(Fields(), arrival)).nTodo
      {
        vChecks := vChecks + [queue[|queue| - 1]];
        queue := queue[..|queue| - 1];
      }
      outcome := Takes(vChecks, fAllOk);
    }

    /** Add, without its notifications: one worker for one check, all workers for more. */
    method AddChecks(vChecks: seq<Check>)
      modifies this`queue, this`nTodo
      ensures Fields() == old(Fields()).(queue := old(queue) + vChecks, nTodo := old(nTodo) + |vChecks|)
    {
      for i := 0 to |vChecks|
        invariant queue == old(queue) + vChecks[..i] && nTodo == old(nTodo)
      {
        queue := queue + [vChecks[i]];
      }
      assert vChecks[..|vChecks|] == vChecks;
      nTodo := nTodo + |vChecks|;
    }
  }

  /** Running a batch outside the mutex: once something failed, the rest is skipped. */
  method RunBatch(vChecks: seq<Check>, start: bool) returns (fOk: bool)
    ensures fOk == (start && AllPass(vChecks))
  {
    fOk := start;
    for i := 0 to |vChecks|
      invariant fOk == (start && AllPass(vChecks[..i]))
    {
      AllPassAppend(vChecks[..i], [vChecks[i]]);
      assert vChecks[..i + 1] == vChecks[..i] + [vChecks[i]];
      if fOk {
        fOk := vChecks[i].passes;
      }
    }
    assert vChecks[..|vChecks|] == vChecks;
  }
}
