/** Shutting a thread pool down: the destructor's pushes and the workers' loops, interleaved at will. */
module PoolShutdown {
  import opened TaskQueues
  import opened Division

  /** A worker waits for a task, runs it, tests the stop flag and goes on or leaves. */
  datatype Phase = Waiting | Running(task: Task) | Testing | Gone

  /** `took` once the worker has popped a stop task. */
  datatype Worker = Worker(phase: Phase, took: bool)

  /** Also how many stop tasks each queue still gets. */
  datatype State = State(queues: seq<seq<Task>>, capacity: nat, workers: seq<Worker>, stop: bool, left: seq<nat>)

  datatype Step = Push(queue: nat) | Pop(worker: nat) | Run(worker: nat) | Test(worker: nat)

  /** How many stop tasks every queue gets. */
  function Stops(workers: nat, queues: nat): nat
    requires queues > 0
  {
    workers / queues + 1
  }

  predicate Shaped(s: State) {
    |s.queues| == |s.left| > 0
  }

  /** The queue a worker serves. */
  function QueueOf(w: nat, s: State): (r: nat)
    requires Shaped(s)
    ensures r < |s.queues|
  {
    w % |s.queues|
  }

  predicate Enabled(s: State, t: Step)
    requires Shaped(s)
  {
    match t
    case Push(q) =>
      q < |s.left| && s.left[q] > 0 && (forall p | 0 <= p < q :: s.left[p] == 0) && |s.queues[q]| < s.capacity
    case Pop(w) => w < |s.workers| && s.workers[w].phase == Waiting && s.queues[QueueOf(w, s)] != []
    case Run(w) => w < |s.workers| && s.workers[w].phase.Running?
    case Test(w) => w < |s.workers| && s.workers[w].phase == Testing
  }

  function After(s: State, t: Step): (r: State)
    requires Shaped(s) && Enabled(s, t)
    ensures Shaped(r) && |r.queues| == |s.queues| && |r.workers| == |s.workers|
  {
    match t
    case Push(q) => s.(queues := s.queues[q := s.queues[q] + [Stop]], left := s.left[q := s.left[q] - 1])
    case Pop(w) =>
      var q := QueueOf(w, s);
      var task := s.queues[q][0];
      s.(queues := s.queues[q := s.queues[q][1..]],
         workers := s.workers[w := Worker(Running(task), s.workers[w].took || task == Stop)])
    case Run(w) =>
      s.(workers := s.workers[w := s.workers[w].(phase := Testing)], stop := s.stop || s.workers[w].phase.task == Stop)
    case Test(w) =>
      s.(workers := s.workers[w := s.workers[w].(phase := if s.stop then Gone else Waiting)])
  }

  // ----- Counting -----

  function CountStops(tasks: seq<Task>): nat {
    if tasks == [] then 0 else (if tasks[0] == Stop then 1 else 0) + CountStops(tasks[1..])
  }

  lemma {:induction false} CountSnoc(tasks: seq<Task>, x: Task)
    ensures CountStops(tasks + [x]) == CountStops(tasks) + if x == Stop then 1 else 0
  {
    if tasks != [] {
      assert (tasks + [x])[1..] == tasks[1..] + [x];
      CountSnoc(tasks[1..], x);
    }
  }

  /** How many of the first n workers serve queue q. */
  function Members(n: nat, queues: nat, q: nat): nat
    requires queues > 0
  {
    if n == 0 then 0 else Members(n - 1, queues, q) + if (n - 1) % queues == q then 1 else 0
  }

  /** How many of the first n workers serve queue q and have taken a stop task. */
  function Took(ws: seq<Worker>, n: nat, queues: nat, q: nat): nat
    requires queues > 0 && n <= |ws|
  {
    if n == 0 then 0 else Took(ws, n - 1, queues, q) + if (n - 1) % queues == q && ws[n - 1].took then 1 else 0
  }

  lemma DivStep(n: nat, m: nat)
    requires m > 0
    ensures if n % m + 1 == m then (n + 1) / m == n / m + 1 && (n + 1) % m == 0
            else (n + 1) / m == n / m && (n + 1) % m == n % m + 1
  {
    var a, b := n / m, n % m;
    assert n == a * m + b;
    if b + 1 == m {
      assert n + 1 == (a + 1) * m + 0;
      QuotientIsUnique(a + 1, 0, m);
    } else {
      QuotientIsUnique(a, b + 1, m);
    }
  }

  lemma {:induction false} MembersExactly(n: nat, queues: nat, q: nat)
    requires q < queues
    ensures Members(n, queues, q) == n / queues + if n % queues > q then 1 else 0
    decreases n
  {
    if n == 0 {
      QuotientIsUnique(0, 0, queues);
    } else {
      MembersExactly(n - 1, queues, q);
      DivStep(n - 1, queues);
    }
  }

  /** As many to a queue as it takes for all queues together to get more stop tasks than there are workers. */
  lemma StopsAreExact(n: nat, queues: nat)
    requires queues > 0
    ensures (Stops(n, queues) - 1) * queues <= n < Stops(n, queues) * queues
  {
    assert n == n / queues * queues + n % queues;
    assert (n / queues + 1) * queues == n / queues * queues + queues;
  }

  /** Every queue gets a stop task for each of its workers. */
  lemma StopsCoverMembers(n: nat, queues: nat, q: nat)
    requires q < queues
    ensures Members(n, queues, q) <= Stops(n, queues)
  {
    MembersExactly(n, queues, q);
  }

  lemma {:induction false} TookAtMost(ws: seq<Worker>, n: nat, queues: nat, q: nat)
    requires queues > 0 && n <= |ws|
    ensures Took(ws, n, queues, q) <= Members(n, queues, q)
    ensures (exists w | 0 <= w < n :: w % queues == q && !ws[w].took) ==> Took(ws, n, queues, q) < Members(n, queues, q)
    decreases n
  {
    if n > 0 {
      TookAtMost(ws, n - 1, queues, q);
    }
  }

  lemma {:induction false} TookUpdate(ws: seq<Worker>, n: nat, queues: nat, q: nat, w: nat, x: Worker)
    requires queues > 0 && n <= |ws| && w < |ws| && (ws[w].took ==> x.took)
    ensures Took(ws[w := x], n, queues, q)
            == Took(ws, n, queues, q) + if w < n && w % queues == q && x.took && !ws[w].took then 1 else 0
    decreases n
  {
    if n > 0 {
      TookUpdate(ws, n - 1, queues, q, w, x);
    }
  }

  // ----- What every step keeps -----

  ghost predicate WorkerOk(x: Worker, stop: bool) {
    && (x.took ==> x.phase == Running(Stop) || (x.phase == Testing && stop) || x.phase == Gone)
    && (x.phase == Running(Stop) ==> x.took)
    && (x.phase == Gone ==> stop)
  }

  function TookOf(s: State, q: nat): nat
    requires Shaped(s)
  {
    Took(s.workers, |s.workers|, |s.queues|, q)
  }

  function StopsOf(s: State): nat
    requires Shaped(s)
  {
    Stops(|s.workers|, |s.queues|)
  }

  /** No stop task is lost: it is still to come, in the queue, or taken by a worker of that queue. */
  ghost predicate Conserved(s: State, q: nat)
    requires Shaped(s) && q < |s.queues|
  {
    s.left[q] + CountStops(s.queues[q]) + TookOf(s, q) == StopsOf(s)
  }

  ghost predicate OnlyStops(tasks: seq<Task>) {
    forall i | 0 <= i < |tasks| :: tasks[i] == Stop
  }

  ghost predicate StopsLast(tasks: seq<Task>) {
    forall i, j | 0 <= i < j < |tasks| && tasks[i] == Stop :: tasks[j] == Stop
  }

  /** Stop tasks come behind all others, and once one is taken nothing else is left. */
  ghost predicate InOrder(s: State, q: nat)
    requires Shaped(s) && q < |s.queues|
  {
    StopsLast(s.queues[q]) && (TookOf(s, q) > 0 ==> OnlyStops(s.queues[q]))
  }

  /** The queues get their stop tasks one after another. */
  ghost predicate PushedInTurn(s: State)
    requires Shaped(s)
  {
    forall p, q | 0 <= p < q < |s.left| && s.left[q] < StopsOf(s) :: s.left[p] == 0
  }

  /**
   Room for the stop tasks. The first queue needs less of it if it has a worker: when one of its stop
   tasks has been taken, all other tasks are gone from it.
   */
  ghost predicate Room(s: State)
    requires Shaped(s)
  {
    && (forall q | 0 < q < |s.queues| :: |s.queues[q]| + s.left[q] <= s.capacity)
    && if |s.workers| == 0 then |s.queues[0]| + s.left[0] <= s.capacity
       else 1 <= s.capacity && StopsOf(s) <= s.capacity + 1
  }

  ghost predicate SomeTook(s: State) {
    exists w | 0 <= w < |s.workers| :: s.workers[w].took
  }

  ghost predicate Inv(s: State) {
    && Shaped(s) && PushedInTurn(s) && Room(s) && (s.stop ==> SomeTook(s))
    && (forall w | 0 <= w < |s.workers| :: WorkerOk(s.workers[w], s.stop))
    && (forall q | 0 <= q < |s.queues| :: Conserved(s, q) && InOrder(s, q))
  }

  /** A pool with any user tasks queued and running. */
  ghost predicate Initial(s: State) {
    && Shaped(s) && !s.stop
    && (forall w | 0 <= w < |s.workers| ::
       !s.workers[w].took && s.workers[w].phase != Gone && s.workers[w].phase != Running(Stop))
    && (forall q | 0 <= q < |s.queues| ::
          CountStops(s.queues[q]) == 0 && s.left[q] == StopsOf(s) && |s.queues[q]| <= s.capacity)
  }

  lemma {:induction false} TookNone(ws: seq<Worker>, n: nat, queues: nat, q: nat)
    requires queues > 0 && n <= |ws| && forall w | 0 <= w < |ws| :: !ws[w].took
    ensures Took(ws, n, queues, q) == 0
    decreases n
  {
    if n > 0 {
      TookNone(ws, n - 1, queues, q);
    }
  }

  lemma {:induction false} NoStopAt(tasks: seq<Task>, i: nat)
    requires CountStops(tasks) == 0 && i < |tasks|
    ensures tasks[i] != Stop
    decreases i
  {
    if i > 0 {
      NoStopAt(tasks[1..], i - 1);
    }
  }

  lemma {:induction false} CountOnlyStops(tasks: seq<Task>)
    requires OnlyStops(tasks)
    ensures CountStops(tasks) == |tasks|
  {
    if tasks != [] {
      CountOnlyStops(tasks[1..]);
    }
  }

  lemma InitialIsOk(s: State)
    requires Initial(s) && Room(s)
    ensures Inv(s)
  {
    forall q | 0 <= q < |s.queues| ensures Conserved(s, q) && InOrder(s, q) {
      TookNone(s.workers, |s.workers|, |s.queues|, q);
      forall i | 0 <= i < |s.queues[q]| ensures s.queues[q][i] != Stop {
        NoStopAt(s.queues[q], i);
      }
    }
  }

  /** How a step changes the number of stop tasks taken from a queue. */
  lemma StepTakes(s: State, t: Step, q: nat)
    requires Inv(s) && Enabled(s, t) && q < |s.queues|
    ensures TookOf(After(s, t), q)
            == TookOf(s, q) + if t.Pop? && QueueOf(t.worker, s) == q && s.queues[q][0] == Stop then 1 else 0
  {
    var n, m := |s.workers|, |s.queues|;
    match t
    case Push(p) =>
    case Pop(w) =>
      assert WorkerOk(s.workers[w], s.stop);
      TookUpdate(s.workers, n, m, q, w, After(s, t).workers[w]);
    case Run(w) => TookUpdate(s.workers, n, m, q, w, After(s, t).workers[w]);
    case Test(w) => TookUpdate(s.workers, n, m, q, w, After(s, t).workers[w]);
  }

  lemma StepConserves(s: State, t: Step, q: nat)
    requires Inv(s) && Enabled(s, t) && q < |s.queues|
    ensures Conserved(After(s, t), q)
  {
    assert Conserved(s, q);
    StepTakes(s, t, q);
    if t.Push? {
      CountSnoc(s.queues[t.queue], Stop);
    }
  }

  lemma StepOrders(s: State, t: Step, q: nat)
    requires Inv(s) && Enabled(s, t) && q < |s.queues|
    ensures InOrder(After(s, t), q)
  {
    assert InOrder(s, q);
    StepTakes(s, t, q);
    var was, now := s.queues[q], After(s, t).queues[q];
    if t.Pop? && QueueOf(t.worker, s) == q {
      forall i | 0 <= i < |now| ensures now[i] == was[i + 1] {
      }
    }
  }

  lemma StepWorkers(s: State, t: Step)
    requires Inv(s) && Enabled(s, t)
    ensures var s' := After(s, t);
            (s'.stop ==> SomeTook(s')) && forall w | 0 <= w < |s'.workers| :: WorkerOk(s'.workers[w], s'.stop)
  {
    var s' := After(s, t);
    forall w | 0 <= w < |s'.workers| ensures WorkerOk(s'.workers[w], s'.stop) {
      assert WorkerOk(s.workers[w], s.stop);
    }
    if s.stop {
      var w :| 0 <= w < |s.workers| && s.workers[w].took;
      assert s'.workers[w].took;
    } else if s'.stop {
      assert s'.workers[t.worker].took;
    }
  }

  lemma StepKeeps(s: State, t: Step)
    requires Inv(s) && Enabled(s, t)
    ensures Inv(After(s, t))
  {
    StepWorkers(s, t);
    forall q | 0 <= q < |s.queues| ensures Conserved(After(s, t), q) && InOrder(After(s, t), q) {
      StepConserves(s, t, q);
      StepOrders(s, t, q);
    }
  }

  // ----- Nobody is left behind -----

  ghost predicate AllGone(s: State) {
    forall w | 0 <= w < |s.workers| :: s.workers[w].phase == Gone
  }

  ghost predicate AllPushed(s: State) {
    forall q | 0 <= q < |s.left| :: s.left[q] == 0
  }

  lemma {:induction false} FirstLeft(left: seq<nat>, q: nat) returns (p: nat)
    requires q < |left| && left[q] > 0
    ensures p < |left| && left[p] > 0 && forall r | 0 <= r < p :: left[r] == 0
    decreases q
  {
    p := q;
    if r :| 0 <= r < q && left[r] > 0 {
      p := FirstLeft(left, r);
    }
  }

  /** While the first queue gets its stop tasks, nobody has taken one from another queue. */
  lemma TakenFromFirst(s: State)
    requires Inv(s) && s.left[0] > 0 && s.stop
    ensures TookOf(s, 0) > 0
  {
    var w :| 0 <= w < |s.workers| && s.workers[w].took;
    var q := QueueOf(w, s);
    TookSome(s.workers, |s.workers|, |s.queues|, w);
    assert Conserved(s, q);
  }

  lemma {:induction false} TookSome(ws: seq<Worker>, n: nat, queues: nat, w: nat)
    requires queues > 0 && w < n <= |ws| && ws[w].took
    ensures Took(ws, n, queues, w % queues) > 0
    decreases n
  {
    if w < n - 1 {
      TookSome(ws, n - 1, queues, w);
    }
  }

  /** If the first queue is full and has stop tasks to get, its first worker is still there. */
  lemma FirstStays(s: State)
    requires Inv(s) && s.left[0] > 0 && |s.queues[0]| >= s.capacity && |s.workers| > 0
    ensures s.workers[0].phase != Gone && s.queues[0] != []
  {
    assert WorkerOk(s.workers[0], s.stop) && Conserved(s, 0) && InOrder(s, 0);
    if s.stop {
      TakenFromFirst(s);
      CountOnlyStops(s.queues[0]);
    }
  }

  /** As long as a push is to come, something can happen. */
  lemma PushesGoOn(s: State, q: nat) returns (t: Step)
    requires Inv(s) && q < |s.left| && s.left[q] > 0
    ensures Enabled(s, t)
  {
    var p := FirstLeft(s.left, q);
    t := Push(p);
    if p == 0 && |s.queues[0]| >= s.capacity {
      assert |s.workers| > 0;
      FirstStays(s);
      assert QueueOf(0, s) == 0;
      var phase := s.workers[0].phase;
      t := if phase == Waiting then Pop(0) else if phase.Running? then Run(0) else Test(0);
    }
  }

  /** Once all is pushed, a waiting worker always has a task: at worst a stop task that is left for it. */
  lemma WaitersAreServed(s: State, w: nat)
    requires Inv(s) && AllPushed(s) && w < |s.workers| && s.workers[w].phase == Waiting
    ensures Enabled(s, Pop(w))
  {
    var q := QueueOf(w, s);
    assert Conserved(s, q) && WorkerOk(s.workers[w], s.stop);
    assert w % |s.queues| == q && !s.workers[w].took;
    TookAtMost(s.workers, |s.workers|, |s.queues|, q);
    StopsCoverMembers(|s.workers|, |s.queues|, q);
  }

  /** As long as a worker is in its loop or a push is to come, something can happen. */
  lemma NeverStuck(s: State) returns (t: Step)
    requires Inv(s) && !(AllGone(s) && AllPushed(s))
    ensures Enabled(s, t)
  {
    if !AllPushed(s) {
      var q :| 0 <= q < |s.left| && s.left[q] > 0;
      t := PushesGoOn(s, q);
    } else {
      var w :| 0 <= w < |s.workers| && s.workers[w].phase != Gone;
      match s.workers[w].phase
      case Waiting =>
        WaitersAreServed(s, w);
        t := Pop(w);
      case Running(_) => t := Run(w);
      case Testing => t := Test(w);
    }
  }

  // ----- And it ends -----

  function Sum(s: seq<nat>): nat {
    if s == [] then 0 else s[0] + Sum(s[1..])
  }

  lemma {:induction false} SumUpdate(s: seq<nat>, i: nat, x: nat)
    requires i < |s|
    ensures Sum(s[i := x]) == Sum(s) - s[i] + x
    decreases |s|
  {
    if i > 0 {
      assert s[i := x][1..] == s[1..][i - 1 := x];
      SumUpdate(s[1..], i - 1, x);
    } else {
      assert s[i := x][1..] == s[1..];
    }
  }

  function Effort(p: Phase): nat {
    match p
    case Waiting => 0
    case Running(_) => 2
    case Testing => 1
    case Gone => 0
  }

  function Lengths(queues: seq<seq<Task>>): seq<nat> {
    seq(|queues|, i requires 0 <= i < |queues| => |queues[i]|)
  }

  function Efforts(ws: seq<Worker>): seq<nat> {
    seq(|ws|, i requires 0 <= i < |ws| => Effort(ws[i].phase))
  }

  /** How many steps are left, if no worker is ever done early. */
  function Work(s: State): nat {
    4 * Sum(s.left) + 3 * Sum(Lengths(s.queues)) + Sum(Efforts(s.workers))
  }

  lemma StepWorks(s: State, t: Step)
    requires Shaped(s) && Enabled(s, t)
    ensures Work(After(s, t)) == Work(s) - 1
  {
    var s' := After(s, t);
    match t
    case Push(q) =>
      SumUpdate(s.left, q, s.left[q] - 1);
      LengthsUpdate(s.queues, q, s.queues[q] + [Stop]);
    case Pop(w) =>
      LengthsUpdate(s.queues, QueueOf(w, s), s.queues[QueueOf(w, s)][1..]);
      EffortsUpdate(s.workers, w, s'.workers[w]);
    case Run(w) => EffortsUpdate(s.workers, w, s'.workers[w]);
    case Test(w) => EffortsUpdate(s.workers, w, s'.workers[w]);
  }

  lemma LengthsUpdate(queues: seq<seq<Task>>, q: nat, x: seq<Task>)
    requires q < |queues|
    ensures Sum(Lengths(queues[q := x])) == Sum(Lengths(queues)) - |queues[q]| + |x|
  {
    assert Lengths(queues[q := x]) == Lengths(queues)[q := |x|];
    SumUpdate(Lengths(queues), q, |x|);
  }

  lemma EffortsUpdate(ws: seq<Worker>, w: nat, x: Worker)
    requires w < |ws|
    ensures Sum(Efforts(ws[w := x])) == Sum(Efforts(ws)) - Effort(ws[w].phase) + Effort(x.phase)
  {
    assert Efforts(ws[w := x]) == Efforts(ws)[w := Effort(x.phase)];
    SumUpdate(Efforts(ws), w, Effort(x.phase));
  }

  // ----- Whole runs -----

  ghost predicate IsRun(s: State, steps: seq<Step>)
    requires Shaped(s)
    decreases |steps|
  {
    steps == [] || (Enabled(s, steps[0]) && IsRun(After(s, steps[0]), steps[1..]))
  }

  ghost function Final(s: State, steps: seq<Step>): (r: State)
    requires Shaped(s) && IsRun(s, steps)
    ensures Shaped(r)
    decreases |steps|
  {
    if steps == [] then s else Final(After(s, steps[0]), steps[1..])
  }

  lemma {:induction false} RunKeeps(s: State, steps: seq<Step>)
    requires Inv(s) && IsRun(s, steps)
    ensures Inv(Final(s, steps)) && |steps| + Work(Final(s, steps)) == Work(s)
    decreases |steps|
  {
    if steps != [] {
      StepKeeps(s, steps[0]);
      StepWorks(s, steps[0]);
      RunKeeps(After(s, steps[0]), steps[1..]);
    }
  }

  ghost predicate Stuck(s: State)
    requires Shaped(s)
  {
    forall t :: !Enabled(s, t)
  }

  /**
   Every interleaving ends, and it ends with all stop tasks pushed and all workers out of their loops:
   no run is longer than the work at hand, and a run that cannot go on has left nobody behind.
   */
  lemma EveryWorkerLeaves(s: State, steps: seq<Step>)
    requires Initial(s) && Room(s) && IsRun(s, steps)
    ensures |steps| <= Work(s)
    ensures Stuck(Final(s, steps)) ==> AllPushed(Final(s, steps)) && AllGone(Final(s, steps))
  {
    InitialIsOk(s);
    RunKeeps(s, steps);
    if !(AllPushed(Final(s, steps)) && AllGone(Final(s, steps))) {
      var t := NeverStuck(Final(s, steps));
    }
  }
}
