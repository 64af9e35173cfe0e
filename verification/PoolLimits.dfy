/** The room a shutdown needs is exactly the room it is proved with. */
module PoolLimits {
  import opened TaskQueues
  import opened PoolShutdown

  /** Some run leads from s to r. */
  ghost predicate Leads(s: State, r: State) {
    Shaped(s) && exists steps :: IsRun(s, steps) && Final(s, steps) == r
  }

  lemma LeadsHere(s: State)
    requires Shaped(s)
    ensures Leads(s, s)
  {
    assert IsRun(s, []) && Final(s, []) == s;
  }

  lemma LeadsFirst(s: State, t: Step, r: State)
    requires Shaped(s) && Enabled(s, t) && Leads(After(s, t), r)
    ensures Leads(s, r)
  {
    var steps :| IsRun(After(s, t), steps) && Final(After(s, t), steps) == r;
    var more := [t] + steps;
    assert more[0] == t && more[1..] == steps;
    assert IsRun(s, more) && Final(s, more) == r;
  }

  lemma {:induction false} RunThen(s: State, steps: seq<Step>, r: State)
    requires Shaped(s) && IsRun(s, steps) && Leads(Final(s, steps), r)
    ensures Leads(s, r)
    decreases |steps|
  {
    if steps != [] {
      RunThen(After(s, steps[0]), steps[1..], r);
      LeadsFirst(s, steps[0], r);
    }
  }

  lemma LeadsThen(s: State, m: State, r: State)
    requires Leads(s, m) && Leads(m, r)
    ensures Leads(s, r)
  {
    var steps :| IsRun(s, steps) && Final(s, steps) == m;
    RunThen(s, steps, r);
  }

  /** Every state leads to one where nothing can happen any more. */
  lemma {:induction false} LeadsToEnd(s: State) returns (r: State)
    requires Shaped(s)
    ensures Leads(s, r) && Shaped(r) && Stuck(r)
    decreases Work(s)
  {
    if t :| Enabled(s, t) {
      StepWorks(s, t);
      r := LeadsToEnd(After(s, t));
      LeadsFirst(s, t, r);
    } else {
      r := s;
      LeadsHere(s);
    }
  }

  // ----- Once all workers are gone, only pushes remain -----

  lemma GoneStep(s: State, t: Step, q: nat)
    requires Shaped(s) && AllGone(s) && Enabled(s, t) && q < |s.queues| && |s.queues[q]| <= s.capacity
    ensures var s' := After(s, t);
            && AllGone(s') && s'.capacity == s.capacity && |s'.queues[q]| <= s.capacity
            && |s'.queues[q]| + s'.left[q] == |s.queues[q]| + s.left[q]
  {
  }

  lemma {:induction false} GoneRun(s: State, steps: seq<Step>, q: nat)
    requires Shaped(s) && AllGone(s) && IsRun(s, steps) && q < |s.queues| && |s.queues[q]| <= s.capacity
    ensures var r := Final(s, steps);
            q < |r.queues| && |r.queues[q]| <= s.capacity && |r.queues[q]| + r.left[q] == |s.queues[q]| + s.left[q]
    decreases |steps|
  {
    if steps != [] {
      GoneStep(s, steps[0], q);
      GoneRun(After(s, steps[0]), steps[1..], q);
    }
  }

  /** Without workers, a queue that cannot hold all it is to get blocks the destructor. */
  lemma GoneBlocks(s: State, r: State, q: nat)
    requires AllGone(s) && Leads(s, r) && q < |s.queues| && |s.queues[q]| <= s.capacity < |s.queues[q]| + s.left[q]
    ensures !AllPushed(r)
  {
    var steps :| IsRun(s, steps) && Final(s, steps) == r;
    GoneRun(s, steps, q);
    assert r.left[q] > 0;
  }

  /** A queue without capacity never gets anything. */
  lemma {:induction false} NoCapacity(s: State, steps: seq<Step>)
    requires Shaped(s) && s.capacity == 0 && IsRun(s, steps)
    ensures Final(s, steps).left == s.left
    decreases |steps|
  {
    if steps != [] {
      NoCapacity(After(s, steps[0]), steps[1..]);
    }
  }

  // ----- How all workers can leave on one stop task -----

  /** s with another first queue and another state of worker 0. */
  function At(s: State, queue: seq<Task>, x: Worker): (r: State)
    requires Shaped(s) && |s.workers| > 0
    ensures Shaped(r)
  {
    s.(queues := s.queues[0 := queue], workers := s.workers[0 := x])
  }

  /** Worker 0 takes the oldest of its queue and tests the flag. */
  lemma TakeOne(s: State, task: Task, rest: seq<Task>)
    requires Shaped(s) && |s.workers| > 0 && !s.stop
    ensures var r := At(s, rest, Worker(if task == Stop then Gone else Waiting, task == Stop)).(stop := task == Stop);
            Leads(At(s, [task] + rest, Worker(Waiting, false)), r)
  {
    var a := At(s, [task] + rest, Worker(Waiting, false));
    assert QueueOf(0, a) == 0 && ([task] + rest)[1..] == rest;
    var b := At(s, rest, Worker(Running(task), task == Stop));
    assert After(a, Pop(0)) == b;
    var c := At(s, rest, Worker(Testing, task == Stop)).(stop := task == Stop);
    assert After(b, Run(0)) == c;
    var d := At(s, rest, Worker(if task == Stop then Gone else Waiting, task == Stop)).(stop := task == Stop);
    assert After(c, Test(0)) == d;
    LeadsHere(d);
    LeadsFirst(c, Test(0), d);
    LeadsFirst(b, Run(0), d);
    LeadsFirst(a, Pop(0), d);
  }

  /** Worker 0 empties its queue. */
  lemma {:induction false} Drain(s: State, queue: seq<Task>)
    requires Shaped(s) && |s.workers| > 0 && !s.stop && CountStops(queue) == 0
    ensures Leads(At(s, queue, Worker(Waiting, false)), At(s, [], Worker(Waiting, false)))
    decreases |queue|
  {
    var a, d := At(s, queue, Worker(Waiting, false)), At(s, [], Worker(Waiting, false));
    if queue == [] {
      LeadsHere(d);
    } else {
      NoStopAt(queue, 0);
      assert queue == [queue[0]] + queue[1..];
      TakeOne(s, queue[0], queue[1..]);
      Drain(s, queue[1..]);
      assert At(s, queue[1..], Worker(Waiting, false)).(stop := false) == At(s, queue[1..], Worker(Waiting, false));
      LeadsThen(a, At(s, queue[1..], Worker(Waiting, false)), d);
    }
  }

  ghost predicate AllRunning(s: State) {
    forall w | 0 <= w < |s.workers| ::
      s.workers[w].phase.Running? && s.workers[w].phase.task != Stop && !s.workers[w].took
  }

  /** Worker 0 finishes what it runs and empties its queue; the others still run. */
  lemma FirstWaits(s: State)
    requires Initial(s) && AllRunning(s) && |s.workers| > 0
    ensures Leads(s, At(s, [], Worker(Waiting, false)))
  {
    var queue, d := s.queues[0], At(s, [], Worker(Waiting, false));
    var b, c := At(s, queue, Worker(Testing, false)), At(s, queue, Worker(Waiting, false));
    assert After(s, Run(0)) == b && After(b, Test(0)) == c;
    Drain(s, queue);
    LeadsFirst(b, Test(0), d);
    LeadsFirst(s, Run(0), d);
  }

  /** s once worker 0 has left with the first stop task. */
  function FirstGone(s: State): (r: State)
    requires Shaped(s) && |s.workers| > 0 && s.left[0] > 0
    ensures Shaped(r)
  {
    At(s, [], Worker(Gone, true)).(stop := true, left := s.left[0 := s.left[0] - 1])
  }

  lemma FirstLeaves(s: State)
    requires Initial(s) && AllRunning(s) && |s.workers| > 0 && s.capacity > 0
    ensures Leads(s, FirstGone(s))
  {
    var d, u := At(s, [], Worker(Waiting, false)), s.(left := s.left[0 := s.left[0] - 1]);
    assert d.queues[0] + [Stop] == [Stop];
    assert After(d, Push(0)) == At(u, [Stop], Worker(Waiting, false));
    assert [Stop] + [] == [Stop];
    TakeOne(u, Stop, []);
    LeadsFirst(d, Push(0), FirstGone(s));
    FirstWaits(s);
    LeadsThen(s, d, FirstGone(s));
  }

  /** With the flag set, every worker leaves after what it runs. */
  lemma {:induction false} OthersLeave(s: State, k: nat) returns (r: State)
    requires Shaped(s) && s.stop && k <= |s.workers|
    requires forall w | 0 <= w < k :: s.workers[w].phase == Gone
    requires forall w | k <= w < |s.workers| :: s.workers[w].phase.Running?
    ensures Leads(s, r) && AllGone(r) && r.queues == s.queues && r.left == s.left && r.capacity == s.capacity
    decreases |s.workers| - k
  {
    if k == |s.workers| {
      r := s;
      LeadsHere(s);
    } else {
      var b := After(s, Run(k));
      var c := After(b, Test(k));
      r := OthersLeave(c, k + 1);
      LeadsFirst(b, Test(k), r);
      LeadsFirst(s, Run(k), r);
    }
  }

  /** If all workers are busy when the shutdown begins and there is not that room, it may block. */
  lemma NoRoomMayBlock(s: State) returns (r: State)
    requires Initial(s) && AllRunning(s) && !Room(s)
    ensures Leads(s, r) && Shaped(r) && Stuck(r) && !AllPushed(r)
  {
    if s.capacity == 0 {
      r := LeadsToEnd(s);
      var steps :| IsRun(s, steps) && Final(s, steps) == r;
      NoCapacity(s, steps);
      assert r.left[0] > 0;
    } else if |s.workers| == 0 {
      r := LeadsToEnd(s);
      var q :| 0 <= q < |s.queues| && |s.queues[q]| + s.left[q] > s.capacity;
      GoneBlocks(s, r, q);
    } else {
      r := BusyMayBlock(s);
    }
  }

  lemma BusyMayBlock(s: State) returns (r: State)
    requires Initial(s) && AllRunning(s) && !Room(s) && s.capacity > 0 && |s.workers| > 0
    ensures Leads(s, r) && Shaped(r) && Stuck(r) && !AllPushed(r)
  {
    FirstLeaves(s);
    var m := FirstGone(s);
    var d := OthersLeave(m, 1);
    r := LeadsToEnd(d);
    LeadsThen(m, d, r);
    LeadsThen(s, m, r);
    if q :| 0 < q < |s.queues| && |s.queues[q]| + s.left[q] > s.capacity {
      assert d.queues[q] == s.queues[q] && d.left[q] == s.left[q];
      GoneBlocks(d, r, q);
    } else {
      assert d.queues[0] == [] && d.left[0] == s.left[0] - 1;
      GoneBlocks(d, r, 0);
    }
  }

  /** A shutdown of n workers with these queues. */
  ghost predicate Begins(s: State, queues: seq<seq<Task>>, capacity: nat, n: nat) {
    Initial(s) && s.queues == queues && s.capacity == capacity && |s.workers| == n
  }

  /** The same for the pool's parameters. */
  ghost predicate Enough(queues: seq<seq<Task>>, capacity: nat, n: nat)
    requires queues != []
  {
    && (forall q | 0 < q < |queues| :: |queues[q]| + Stops(n, |queues|) <= capacity)
    && if n == 0 then |queues[0]| + Stops(n, |queues|) <= capacity
       else 1 <= capacity && Stops(n, |queues|) <= capacity + 1
  }

  ghost predicate AlwaysEnds(queues: seq<seq<Task>>, capacity: nat, n: nat) {
    forall s, r | Begins(s, queues, capacity, n) && Leads(s, r) && Shaped(r) && Stuck(r) :: AllPushed(r) && AllGone(r)
  }

  /** Whatever the workers are doing, every run ends with all of them gone if and only if there is that room. */
  lemma RoomIsExact(queues: seq<seq<Task>>, capacity: nat, n: nat)
    requires queues != [] && forall q | 0 <= q < |queues| :: CountStops(queues[q]) == 0 && |queues[q]| <= capacity
    ensures AlwaysEnds(queues, capacity, n) <==> Enough(queues, capacity, n)
  {
    if Enough(queues, capacity, n) {
      forall s, r | Begins(s, queues, capacity, n) && Leads(s, r) && Shaped(r) && Stuck(r)
        ensures AllPushed(r) && AllGone(r)
      {
        var steps :| IsRun(s, steps) && Final(s, steps) == r;
        assert Room(s);
        EveryWorkerLeaves(s, steps);
      }
    } else {
      var left := seq(|queues|, _ => Stops(n, |queues|));
      var s := State(queues, capacity, seq(n, _ => Worker(Running(User(0)), false)), false, left);
      assert Begins(s, queues, capacity, n) && !Room(s);
      var r := NoRoomMayBlock(s);
    }
  }
}
