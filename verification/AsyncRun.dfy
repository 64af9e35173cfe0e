/**
 Threads stepping one context. An RPC visit launches calls and leaves the context to whichever of two
 threads comes last: the one that launched, or the one the barrier schedules after the last response.
 Every action below is one atomic step of one thread; any interleaving is allowed.
 */
module AsyncRun {
  import opened ExecutionGraphs
  import opened Contexts

  datatype Pc =
    | Test              // read is_async
    | Decrement         // take the counter down and look at its old value
    | CheckDone
    | Enter             // the handler's BaseRun
    | Calling(left: nat)
    | SetEdge(value: bool)
    | CheckFinish       // does this step end here?
    | Advance
    | Exited

  /** The barrier's callback: idle, about to announce the responses, about to schedule the context. */
  datatype Callback = Idle | Announce | Schedule

  /**
   The context, the threads that were ever started on it, and the RPC barrier. The remaining fields
   record what happened in the current step: who launched the calls, who was scheduled by the barrier,
   how often the barrier called back, how the counter tests came out and how often responses were processed.
   */
  datatype State = State(
    ctx: Ctx,
    threads: seq<Pc>,
    times: int,
    outstanding: nat,
    callback: Callback,
    launcher: nat,
    callee: nat,
    callbacks: nat,
    trueTests: nat,
    falseTests: nat,
    afters: nat)

  datatype Action = Run(thread: nat) | Complete | CallBack

  /** What the world does: the graph, its entry, and every visit in turn. */
  datatype World = World(table: Table, entry: Stop, visits: nat -> Visit)

  /** RPC visits that get as far as launching have a non-empty client group. */
  ghost predicate Sensible(w: World) {
    && Closed(w.table) && w.entry.Handler? && w.entry.name in w.table
    && forall k :: Begin(w.visits(k)).Launch? ==> Begin(w.visits(k)).calls > 0
  }

  function Current(w: World, s: State): Visit {
    w.visits(|s.ctx.path|)
  }

  function Init(w: World): State {
    State(Fresh(w.entry), [Test], 0, 0, Idle, 0, 0, 0, 0, 0, 0)
  }

  function At(s: State, i: nat, pc: Pc): State
    requires i < |s.threads|
  {
    s.(threads := s.threads[i := pc])
  }

  /** The next state, or s itself if the action is not possible. */
  function Next(w: World, s: State, a: Action): State {
    match a
    case Run(i) => if i < |s.threads| then Move(w, s, i) else s
    case Complete =>
      if s.outstanding == 0 then s
      else s.(outstanding := s.outstanding - 1, times := s.times - 1,
              callback := if s.times == 1 then Announce else s.callback,
              callbacks := if s.times == 1 then s.callbacks + 1 else s.callbacks)
    case CallBack =>
      match s.callback
      case Idle => s
      case Announce => s.(ctx := s.ctx.(asyncState := After), callback := Schedule)
      case Schedule => s.(threads := s.threads + [Test], callback := Idle, callee := |s.threads|)
  }

  function Move(w: World, s: State, i: nat): State
    requires i < |s.threads|
  {
    var c := s.ctx;
    match s.threads[i]
    case Test => At(s, i, if c.isAsync then Decrement else CheckDone)
    case Decrement =>
      var s' := s.(ctx := c.(counter := c.counter - 1));
      if c.counter > 0 then At(s'.(trueTests := s.trueTests + 1), i, Exited)
      else At(s'.(falseTests := s.falseTests + 1), i, CheckDone)
    case CheckDone => At(s, i, if c.node == Done then Exited else Enter)
    case Enter => EnterHandler(w, s, i)
    case Calling(left) =>
      if left == 0 then At(s, i, SetEdge(true))
      else At(s.(outstanding := s.outstanding + 1), i, Calling(left - 1))
    case SetEdge(v) => At(s.(ctx := c.(nextEdge := v)), i, CheckFinish)
    case CheckFinish => At(s, i, if StepEnds(c) then Advance else Test)
    case Advance =>
      if c.node.Handler? && c.node.name in w.table then
        At(s.(ctx := Advanced(c, w.table), launcher := i, callee := i,
              callbacks := 0, trueTests := 0, falseTests := 0, afters := 0), i, Test)
      else s
    case Exited => s
  }

  function EnterHandler(w: World, s: State, i: nat): State
    requires i < |s.threads|
  {
    var c := s.ctx;
    match c.asyncState
    case Before =>
      (match Begin(Current(w, s))
       case Immediate(r) => At(s.(ctx := WithAsync(c, false)), i, SetEdge(r))
       case Launch(n) => At(s.(ctx := WithAsync(c, true), times := n), i, Calling(n)))
    case After =>
      (match Current(w, s)
       case Plain(r) => At(s, i, SetEdge(r))
       case Rpc(_, _, _, response) =>
         At(s.(ctx := c.(asyncState := Finish), afters := s.afters + 1), i, SetEdge(response)))
    case Finish => At(s, i, SetEdge(false))
  }

  /** The state after a run; every sequence of actions is a run. */
  function RunFrom(w: World, s: State, run: seq<Action>): State
    decreases |run|
  {
    if run == [] then s else RunFrom(w, Next(w, s, run[0]), run[1..])
  }

  function StateAfter(w: World, run: seq<Action>): State {
    RunFrom(w, Init(w), run)
  }

  // ----- The invariant -----

  function Answers(w: World, k: nat): seq<bool> {
    seq(k, i requires 0 <= i < k => Edge(w.visits(i)))
  }

  /** The context is where a single thread taking the answers in turn would be. */
  ghost predicate OnTrack(w: World, c: Ctx) {
    && c.path == Walk(w.table, w.entry, Answers(w, |c.path|))
    && c.node == Position(w.table, w.entry, Answers(w, |c.path|))
  }

  ghost predicate OthersExited(s: State) {
    && s.launcher < |s.threads| && s.callee < |s.threads|
    && forall i | 0 <= i < |s.threads| && i != s.launcher && i != s.callee :: s.threads[i] == Exited
  }

  /** No RPC in flight: one thread at work. */
  ghost predicate Quiet(w: World, s: State)
    requires s.launcher < |s.threads|
  {
    var c, pc, start := s.ctx, s.threads[s.launcher], Begin(Current(w, s));
    && s.callee == s.launcher && s.callback == Idle && s.outstanding == 0
    && c.asyncState == Before && c.counter == 0
    && s.callbacks == s.trueTests == s.falseTests == s.afters == 0
    && (pc.Enter? || pc.SetEdge? || pc.CheckFinish? || pc.Advance? ==> c.node != Done)
    && (pc.SetEdge? || pc.CheckFinish? || pc.Advance? ==> start.Immediate?)
    && (pc.SetEdge? ==> pc.value == start.result)
    && (pc.CheckFinish? || pc.Advance? ==> c.nextEdge == start.result)
    && (pc.Exited? ==> c.node == Done)
    && !pc.Calling? && !pc.Decrement?
  }

  /** The launching thread has not tested the counter yet. */
  ghost predicate Untested(pc: Pc) {
    pc.Test? || pc.Decrement? || pc.Calling? || pc == SetEdge(true) || pc.CheckFinish?
  }

  /** Calls are out and the barrier has not scheduled anybody yet. */
  ghost predicate Waiting(s: State)
    requires s.launcher < |s.threads|
  {
    var c, pc := s.ctx, s.threads[s.launcher];
    && s.callee == s.launcher && s.falseTests == s.afters == 0
    && (Untested(pc) || pc.Exited?)
    && c.counter == (if pc.Exited? then 0 else 1) && s.trueTests == (if pc.Exited? then 1 else 0)
    && s.times == s.outstanding + (if pc.Calling? then pc.left else 0)
    && (match s.callback
        case Idle => c.asyncState == Before && s.callbacks == 0 && s.times > 0
        case Announce => c.asyncState == Before && s.callbacks == 1 && s.times == 0
        case Schedule => c.asyncState == After && s.callbacks == 1 && s.times == 0)
  }

  /** Both threads are there: one leaves at its test, the other one goes on. */
  ghost predicate Handover(a: Pc, b: Pc, s: State) {
    || (Untested(a) && Untested(b) && s.ctx.counter == 1 && s.trueTests == 0 && s.falseTests == 0)
    || (a.Exited? && Untested(b) && s.ctx.counter == 0 && s.trueTests == 1 && s.falseTests == 0)
    || (a.Exited? && (b.CheckDone? || b.Enter?) && s.ctx.counter == -1 && s.trueTests == 1 && s.falseTests == 1)
  }

  /** The remaining thread processes the responses and takes the edge. */
  ghost predicate Finishing(a: Pc, b: Pc, s: State, response: bool) {
    && a.Exited? && s.trueTests == 1 && s.falseTests == 1
    && (b == SetEdge(response) || ((b.CheckFinish? || b.Advance?) && s.ctx.nextEdge == response))
  }

  ghost predicate Called(w: World, s: State)
    requires s.launcher < |s.threads| && s.callee < |s.threads|
  {
    var a, b := s.threads[s.launcher], s.threads[s.callee];
    && s.callee != s.launcher && s.callback == Idle && s.outstanding == 0 && s.times == 0 && s.callbacks == 1
    && (a.Calling? ==> a.left == 0) && (b.Calling? ==> b.left == 0)
    && match s.ctx.asyncState
       case Before => false
       case After => s.afters == 0 && (Handover(a, b, s) || Handover(b, a, s))
       case Finish =>
         s.afters == 1 && (Finishing(a, b, s, Edge(Current(w, s))) || Finishing(b, a, s, Edge(Current(w, s))))
  }

  ghost predicate Inv(w: World, s: State) {
    && OnTrack(w, s.ctx) && OthersExited(s)
    && if !s.ctx.isAsync then Quiet(w, s)
       else s.ctx.node != Done && Begin(Current(w, s)).Launch? && (Waiting(s) || Called(w, s))
  }

  // ----- Every step keeps it -----

  lemma InitInv(w: World)
    requires Sensible(w)
    ensures Inv(w, Init(w))
  {
  }

  lemma OnTrackHandler(w: World, c: Ctx)
    requires Sensible(w) && OnTrack(w, c) && c.node != Done
    ensures c.node.Handler? && c.node.name in w.table
  {
    PositionStays(w.table, w.entry, Answers(w, |c.path|));
  }

  lemma AdvanceOnTrack(w: World, c: Ctx)
    requires Sensible(w) && OnTrack(w, c) && c.node.Handler? && c.node.name in w.table
    requires c.nextEdge == Edge(w.visits(|c.path|))
    ensures OnTrack(w, Advanced(c, w.table)) && |Advanced(c, w.table).path| == |c.path| + 1
  {
    var k := |c.path|;
    assert Answers(w, k + 1) == Answers(w, k) + [Edge(w.visits(k))];
    WalkOn(w.table, w.entry, Answers(w, k), Edge(w.visits(k)));
  }

  lemma CompleteInv(w: World, s: State)
    requires Sensible(w) && Inv(w, s)
    ensures Inv(w, Next(w, s, Complete))
  {
  }

  lemma CallBackInv(w: World, s: State)
    requires Sensible(w) && Inv(w, s)
    ensures Inv(w, Next(w, s, CallBack))
  {
  }

  lemma MoveInv(w: World, s: State, i: nat)
    requires Sensible(w) && Inv(w, s) && i < |s.threads|
    ensures Inv(w, Move(w, s, i))
  {
    if i == s.launcher || i == s.callee {
      if s.threads[i].Advance? {
        OnTrackHandler(w, s.ctx);
        AdvanceOnTrack(w, s.ctx);
      } else if !s.ctx.isAsync {
        QuietMove(w, s, i);
      } else if Waiting(s) {
        WaitingMove(w, s, i);
      } else {
        CalledMove(w, s, i);
      }
    }
  }

  lemma QuietMove(w: World, s: State, i: nat)
    requires Sensible(w) && Inv(w, s) && i == s.launcher && !s.ctx.isAsync && !s.threads[i].Advance?
    ensures Inv(w, Move(w, s, i))
  {
  }

  lemma WaitingMove(w: World, s: State, i: nat)
    requires Sensible(w) && Inv(w, s) && i == s.launcher && s.ctx.isAsync && Waiting(s)
    ensures Inv(w, Move(w, s, i))
  {
  }

  /** One of the two threads, i, moves while j stands still. */
  lemma CalledMove(w: World, s: State, i: nat)
    requires Sensible(w) && Inv(w, s) && (i == s.launcher || i == s.callee) && s.ctx.isAsync && Called(w, s)
    requires !s.threads[i].Advance?
    ensures Inv(w, Move(w, s, i))
  {
    var j := if i == s.launcher then s.callee else s.launcher;
    if s.ctx.asyncState == Finish {
      FinishingMove(w, s, i, j);
    } else if s.threads[i].Enter? {
      ResponsesMove(w, s, i, j);
    } else {
      HandoverMove(w, s, i, j);
    }
  }

  lemma HandoverMove(w: World, s: State, i: nat, j: nat)
    requires Inv(w, s) && s.ctx.isAsync && Called(w, s) && s.ctx.asyncState == After
    requires ((i == s.launcher && j == s.callee) || (i == s.callee && j == s.launcher)) && !s.threads[i].Enter?
    ensures Inv(w, Move(w, s, i))
  {
    if s.threads[i].Exited? {
      assert Move(w, s, i) == s;
    } else if s.threads[i].Decrement? {
      DecrementMove(w, s, i, j);
    } else {
      UntestedMove(w, s, i, j);
    }
  }

  lemma DecrementMove(w: World, s: State, i: nat, j: nat)
    requires Inv(w, s) && s.ctx.isAsync && Called(w, s) && s.ctx.asyncState == After
    requires ((i == s.launcher && j == s.callee) || (i == s.callee && j == s.launcher)) && s.threads[i].Decrement?
    ensures Inv(w, Move(w, s, i))
  {
    var s' := Move(w, s, i);
    assert s'.threads[j] == s.threads[j] && OthersExited(s');
    assert Handover(s'.threads[i], s'.threads[j], s') || Handover(s'.threads[j], s'.threads[i], s');
  }

  /** What a thread does before its test, and behind it until it enters the handler. */
  lemma UntestedStep(w: World, s: State, i: nat)
    requires i < |s.threads| && s.ctx.isAsync && s.ctx.asyncState == After && s.ctx.node != Done
    requires (Untested(s.threads[i]) && !s.threads[i].Decrement?) || s.threads[i].CheckDone?
    requires s.threads[i].Calling? ==> s.threads[i].left == 0
    ensures var s' := Move(w, s, i);
            && s' == s.(threads := s'.threads, ctx := s'.ctx) && s'.threads == s.threads[i := s'.threads[i]]
            && s'.ctx == s.ctx.(nextEdge := s'.ctx.nextEdge) && !s'.threads[i].Calling?
            && if Untested(s.threads[i]) then Untested(s'.threads[i]) else s'.threads[i].Enter?
  {
  }

  lemma UntestedMove(w: World, s: State, i: nat, j: nat)
    requires Inv(w, s) && s.ctx.isAsync && Called(w, s) && s.ctx.asyncState == After
    requires ((i == s.launcher && j == s.callee) || (i == s.callee && j == s.launcher))
    requires !s.threads[i].Enter? && !s.threads[i].Exited? && !s.threads[i].Decrement?
    ensures Inv(w, Move(w, s, i))
  {
    UntestedStep(w, s, i);
    var s' := Move(w, s, i);
    assert s'.threads[j] == s.threads[j] && OthersExited(s');
    assert Handover(s'.threads[i], s'.threads[j], s') || Handover(s'.threads[j], s'.threads[i], s');
  }

  lemma ResponsesMove(w: World, s: State, i: nat, j: nat)
    requires Inv(w, s) && s.ctx.isAsync && Called(w, s) && s.ctx.asyncState == After
    requires ((i == s.launcher && j == s.callee) || (i == s.callee && j == s.launcher)) && s.threads[i].Enter?
    ensures Inv(w, Move(w, s, i))
  {
  }

  lemma FinishingMove(w: World, s: State, i: nat, j: nat)
    requires Inv(w, s) && s.ctx.isAsync && Called(w, s) && s.ctx.asyncState == Finish
    requires ((i == s.launcher && j == s.callee) || (i == s.callee && j == s.launcher)) && !s.threads[i].Advance?
    ensures Inv(w, Move(w, s, i))
  {
    var s' := Move(w, s, i);
    assert s'.threads[j] == s.threads[j] && OthersExited(s');
    assert s.threads[i] != Exited ==> Finishing(s'.threads[j], s'.threads[i], s', Edge(Current(w, s)));
  }

  // ----- Main results, for every run -----

  lemma NextInv(w: World, s: State, a: Action)
    requires Sensible(w) && Inv(w, s)
    ensures Inv(w, Next(w, s, a))
  {
    match a
    case Complete => CompleteInv(w, s);
    case CallBack => CallBackInv(w, s);
    case Run(i) => if i < |s.threads| { MoveInv(w, s, i); }
  }

  lemma {:induction false} RunKeepsInv(w: World, s: State, run: seq<Action>)
    requires Sensible(w) && Inv(w, s)
    ensures Inv(w, RunFrom(w, s, run))
    decreases |run|
  {
    if run != [] {
      NextInv(w, s, run[0]);
      RunKeepsInv(w, Next(w, s, run[0]), run[1..]);
    }
  }

  lemma RunsKeepInv(w: World, run: seq<Action>)
    requires Sensible(w)
    ensures Inv(w, StateAfter(w, run))
  {
    InitInv(w);
    RunKeepsInv(w, Init(w), run);
  }

  /** In every interleaving the walked path is the sequential walk that takes each visit's answer in turn. */
  lemma AsyncIsTransparent(w: World, run: seq<Action>)
    requires Sensible(w)
    ensures var c := StateAfter(w, run).ctx;
            && c.path == Walk(w.table, w.entry, Answers(w, |c.path|))
            && c.node == Position(w.table, w.entry, Answers(w, |c.path|))
  {
    RunsKeepInv(w, run);
  }

  /**
   At no moment of a step has the barrier called back twice, or a test come out the same way twice, or
   the responses been processed twice. When a thread takes the edge of an RPC step, each has happened once.
   */
  lemma HandoverIsExact(w: World, run: seq<Action>, i: nat)
    requires Sensible(w) && i < |StateAfter(w, run).threads|
    ensures var s := StateAfter(w, run);
            && s.callbacks <= 1 && s.trueTests <= 1 && s.falseTests <= 1 && s.afters <= s.falseTests
            && (s.threads[i].Advance? && Begin(Current(w, s)).Launch? ==>
                  s.callbacks == s.trueTests == s.falseTests == s.afters == 1)
            && (s.threads[i].Advance? ==> forall j | 0 <= j < |s.threads| && j != i :: s.threads[j].Exited?)
  {
    RunsKeepInv(w, run);
  }

  // ----- Progress -----

  /** How much is left of the current step. */
  function Rank(w: World, s: State): nat
    requires s.launcher < |s.threads| && s.callee < |s.threads|
  {
    var a := PcRank(w, s, s.threads[s.launcher]);
    if s.callee == s.launcher then a + s.outstanding + CallbackRank(s)
    else a + PcRank(w, s, s.threads[s.callee])
  }

  function CallbackRank(s: State): nat {
    if !s.ctx.isAsync then 0
    else match s.callback
         case Idle => 30
         case Announce => 29
         case Schedule => 28
  }

  function PcRank(w: World, s: State, pc: Pc): nat {
    var quiet := if s.ctx.isAsync then 0
      else 100 + (match Begin(Current(w, s)) case Immediate(_) => 0 case Launch(n) => 2 * n);
    match pc
    case Exited => 0
    case Advance => 1
    case CheckFinish => if s.ctx.isAsync && s.ctx.asyncState != Finish then 10 else 2
    case SetEdge(_) => if s.ctx.isAsync && s.ctx.asyncState != Finish then 11 else 3
    case Enter => quiet + 4
    case CheckDone => quiet + 5
    case Decrement => 6
    case Test => quiet + 7
    case Calling(left) => 12 + 2 * left
  }

  ghost predicate Shrinks(w: World, s: State, s': State)
    requires OthersExited(s) && OthersExited(s')
  {
    |s'.ctx.path| == |s.ctx.path| + 1 || (s'.ctx.path == s.ctx.path && Rank(w, s') < Rank(w, s))
  }

  lemma MoveShrinks(w: World, s: State, i: nat)
    requires Sensible(w) && Inv(w, s) && i < |s.threads| && Inv(w, Move(w, s, i)) && Move(w, s, i) != s
    ensures Shrinks(w, s, Move(w, s, i))
  {
    if s.threads[i].Advance? {
      assert |Move(w, s, i).ctx.path| == |s.ctx.path| + 1;
    } else if !s.ctx.isAsync {
      assert i == s.launcher;
    } else if Waiting(s) {
      assert i == s.launcher;
    } else {
      CalledShrinks(w, s, i, if i == s.launcher then s.callee else s.launcher);
    }
  }

  lemma CalledShrinks(w: World, s: State, i: nat, j: nat)
    requires OthersExited(s) && s.ctx.isAsync && s.ctx.node != Done && Begin(Current(w, s)).Launch? && Called(w, s)
    requires ((i == s.launcher && j == s.callee) || (i == s.callee && j == s.launcher))
    requires !s.threads[i].Advance? && !s.threads[i].Exited? && OthersExited(Move(w, s, i))
    ensures Shrinks(w, s, Move(w, s, i))
  {
    var s' := Move(w, s, i);
    MoveFrame(w, s, i, j);
    CalledRank(w, s, i, j);
  }

  /** A thread that does not take an edge leaves the path, the roles and the other threads alone. */
  lemma MoveFrame(w: World, s: State, i: nat, j: nat)
    requires i < |s.threads| && j < |s.threads| && i != j && !s.threads[i].Advance?
    ensures var s' := Move(w, s, i);
            && |s'.threads| == |s.threads| && s'.threads[j] == s.threads[j] && s'.ctx.path == s.ctx.path
            && s'.launcher == s.launcher && s'.callee == s.callee
  {
  }

  lemma CalledRank(w: World, s: State, i: nat, j: nat)
    requires OthersExited(s) && s.ctx.isAsync && s.ctx.node != Done && Begin(Current(w, s)).Launch? && Called(w, s)
    requires ((i == s.launcher && j == s.callee) || (i == s.callee && j == s.launcher))
    requires !s.threads[i].Advance? && !s.threads[i].Exited? && OthersExited(Move(w, s, i))
    ensures PcRank(w, Move(w, s, i), Move(w, s, i).threads[i]) < PcRank(w, s, s.threads[i])
    ensures PcRank(w, Move(w, s, i), s.threads[j]) == PcRank(w, s, s.threads[j])
  {
    if s.threads[i].Enter? || s.ctx.asyncState == Finish {
      assert s.threads[j].Exited?;
    }
  }

  /** Every effective action either takes an edge or leaves less of the step to do. */
  lemma StepShrinks(w: World, s: State, a: Action)
    requires Sensible(w) && Inv(w, s) && Inv(w, Next(w, s, a)) && Next(w, s, a) != s
    ensures Shrinks(w, s, Next(w, s, a))
  {
    if a.Run? {
      MoveShrinks(w, s, a.thread);
    } else {
      CallbackShrinks(w, s, a);
    }
  }

  lemma CallbackShrinks(w: World, s: State, a: Action)
    requires Sensible(w) && Inv(w, s) && !a.Run? && Inv(w, Next(w, s, a)) && Next(w, s, a) != s
    ensures Shrinks(w, s, Next(w, s, a))
  {
  }

  /** Every action of the run changes the state. */
  ghost predicate Effective(w: World, s: State, run: seq<Action>)
    decreases |run|
  {
    run == [] || (Next(w, s, run[0]) != s && Effective(w, Next(w, s, run[0]), run[1..]))
  }

  /** A step cannot go on for ever: once enough has happened, an edge has been taken. */
  lemma {:induction false} StepsEnd(w: World, s: State, run: seq<Action>)
    requires Sensible(w) && Inv(w, s) && Effective(w, s, run) && |run| > Rank(w, s)
    ensures |RunFrom(w, s, run).ctx.path| > |s.ctx.path|
    decreases |run|
  {
    var s' := Next(w, s, run[0]);
    NextInv(w, s, run[0]);
    StepShrinks(w, s, run[0]);
    if |s'.ctx.path| == |s.ctx.path| {
      StepsEnd(w, s', run[1..]);
    } else {
      PathGrows(w, s', run[1..]);
    }
  }

  lemma {:induction false} PathGrows(w: World, s: State, run: seq<Action>)
    ensures |RunFrom(w, s, run).ctx.path| >= |s.ctx.path|
    decreases |run|
  {
    if run != [] {
      NextGrows(w, s, run[0]);
      PathGrows(w, Next(w, s, run[0]), run[1..]);
    }
  }

  lemma NextGrows(w: World, s: State, a: Action)
    ensures |Next(w, s, a).ctx.path| >= |s.ctx.path|
  {
  }

  /** No run gets stuck: until the end node is reached some action is possible. */
  lemma NeverStuck(w: World, run: seq<Action>)
    requires Sensible(w) && StateAfter(w, run).ctx.node != Done
    ensures exists a :: Next(w, StateAfter(w, run), a) != StateAfter(w, run)
  {
    RunsKeepInv(w, run);
    var s := StateAfter(w, run);
    if s.ctx.isAsync && Waiting(s) && s.threads[s.launcher].Exited? {
      assert Next(w, s, if s.callback == Idle then Complete else CallBack) != s;
    } else {
      var i := if s.threads[s.launcher].Exited? then s.callee else s.launcher;
      if s.threads[i].Advance? {
        OnTrackHandler(w, s.ctx);
      }
      assert Next(w, s, Run(i)) != s;
    }
  }

  // ----- A group without clients -----

  /** Nothing can happen any more. */
  ghost predicate Still(w: World, s: State) {
    forall a :: Next(w, s, a) == s
  }

  lemma {:induction false} StillStays(w: World, s: State, run: seq<Action>)
    requires Still(w, s)
    ensures RunFrom(w, s, run) == s
    decreases |run|
  {
    if run != [] {
      StillStays(w, s, run[1..]);
    }
  }

  lemma RunTwo(w: World, s: State, a: seq<Action>, b: seq<Action>)
    ensures RunFrom(w, s, a + b) == RunFrom(w, RunFrom(w, s, a), b)
    decreases |a|
  {
    if a == [] {
      assert a + b == b;
    } else {
      assert (a + b)[1..] == a[1..] + b;
      RunTwo(w, Next(w, s, a[0]), a[1..], b);
    }
  }

  /** The thread up to its handler, and from there out of the loop. */
  lemma ThreadHangs(w: World, s: State) returns (run: seq<Action>)
    requires s.threads == [Test] && s.outstanding == 0 && s.callback == Idle && s.ctx == Fresh(w.entry)
    requires w.entry.Handler? && Begin(w.visits(0)) == Launch(0)
    ensures var r := RunFrom(w, s, run); Still(w, r) && r.ctx.node == w.entry
  {
    var a, b, c := Next(w, s, Run(0)), Next(w, Next(w, s, Run(0)), Run(0)), Next(w, Next(w, Next(w, s, Run(0)), Run(0)),
        Run(0));
    assert a == s.(threads := [CheckDone]) && b == s.(threads := [Enter]);
    assert Current(w, b) == w.visits(0);
    assert c == s.(threads := [Calling(0)], ctx := WithAsync(s.ctx, true), times := 0);
    var d := Next(w, c, Run(0));
    var e := Next(w, d, Run(0));
    var f := Next(w, e, Run(0));
    assert f.threads == [Test] && f.ctx.isAsync && f.ctx.counter == 1 && f.outstanding == 0 && f.callback == Idle;
    var g := Next(w, f, Run(0));
    var h := Next(w, g, Run(0));
    assert h.threads == [Exited] && h.outstanding == 0 && h.callback == Idle && h.ctx.node == w.entry;
    run := [Run(0), Run(0), Run(0), Run(0)] + [Run(0), Run(0), Run(0), Run(0)];
    RunFour(w, s, a, b, c, d);
    RunFour(w, d, e, f, g, h);
    RunTwo(w, s, [Run(0), Run(0), Run(0), Run(0)], [Run(0), Run(0), Run(0), Run(0)]);
  }

  lemma RunFour(w: World, s: State, a: State, b: State, c: State, d: State)
    requires a == Next(w, s, Run(0)) && b == Next(w, a, Run(0)) && c == Next(w, b, Run(0)) && d == Next(w, c, Run(0))
    ensures RunFrom(w, s, [Run(0), Run(0), Run(0), Run(0)]) == d
  {
    var four := [Run(0), Run(0), Run(0), Run(0)];
    assert four[1..] == [Run(0), Run(0), Run(0)] && four[1..][1..] == [Run(0), Run(0)];
    assert [Run(0), Run(0)][1..] == [Run(0)] && [Run(0)][1..] == [];
    assert RunFrom(w, c, [Run(0)]) == d;
    assert RunFrom(w, b, [Run(0), Run(0)]) == d;
    assert RunFrom(w, a, [Run(0), Run(0), Run(0)]) == d;
  }

  /** If the first handler asks a group without clients, some run never gets past it. */
  lemma EmptyGroupHangs(w: World) returns (run: seq<Action>)
    requires w.entry.Handler? && Begin(w.visits(0)) == Launch(0)
    ensures forall more :: StateAfter(w, run + more) == StateAfter(w, run)
    ensures StateAfter(w, run).ctx.node == w.entry
  {
    run := ThreadHangs(w, Init(w));
    forall more ensures StateAfter(w, run + more) == StateAfter(w, run) {
      RunTwo(w, Init(w), run, more);
      StillStays(w, StateAfter(w, run), more);
    }
  }
}
