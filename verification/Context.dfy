/** The context that walks an execution graph, and the handlers it runs. */
module Contexts {
  import opened ExecutionGraphs

  datatype AsyncState = Before | After | Finish

  /** The fields of a context that stepping reads and writes. */
  datatype Ctx = Ctx(node: Stop, nextEdge: bool, path: seq<string>,
                     isAsync: bool, asyncState: AsyncState, counter: int)

  function Fresh(entry: Stop): Ctx {
    Ctx(entry, false, [], false, Before, 0)
  }

  function WithReset(c: Ctx): Ctx {
    c.(isAsync := false, asyncState := Before, counter := 0)
  }

  function WithAsync(c: Ctx, async: bool): Ctx {
    if async then c.(counter := 1, asyncState := Before, isAsync := true) else c.(isAsync := false)
  }

  /** Takes the chosen edge. */
  function Advanced(c: Ctx, t: Table): Ctx
    requires c.node.Handler? && c.node.name in t
  {
    WithReset(c.(path := c.path + [c.node.name], node := Follow(t[c.node.name], c.nextEdge)))
  }

  predicate StepEnds(c: Ctx) {
    !c.isAsync || c.asyncState == Finish
  }

  // ----- Handlers -----

  datatype Group = NoClients | Clients(size: nat)

  /**
   What the world does in one visit of a handler. A plain handler only has a result. An RPC handler
   may fail to build its requests, builds some of them with response slots, finds a client group or
   not, and finally turns the responses into a result.
   */
  datatype Visit =
    | Plain(result: bool)
    | Rpc(built: bool, slots: seq<nat>, group: Group, response: bool)

  datatype Start = Immediate(result: bool) | Launch(calls: nat)

  /** Every request has a response slot for every client. */
  predicate SlotsMatch(slots: seq<nat>, size: nat) {
    forall i | 0 <= i < |slots| :: slots[i] == size
  }

  /** The first phase of a visit. */
  function Begin(v: Visit): Start {
    match v
    case Plain(r) => Immediate(r)
    case Rpc(built, slots, group, _) =>
      if !built then Immediate(false)
      else if slots == [] then Immediate(true)
      else if group.NoClients? || !SlotsMatch(slots, group.size) then Immediate(false)
      else Launch(|slots| * group.size)
  }

  /** The edge a visit takes in the end. */
  function Edge(v: Visit): bool {
    match Begin(v)
    case Immediate(r) => r
    case Launch(_) => v.response
  }

  /** An RPC visit takes the true edge if there is nothing to ask, or if it can ask and is content with the answers. */
  lemma EdgeIsExact(v: Visit)
    ensures v.Plain? ==> Edge(v) == v.result && Begin(v).Immediate?
    ensures v.Rpc? ==>
              var can := v.group.Clients? && forall i | 0 <= i < |v.slots| :: v.slots[i] == v.group.size;
              && (Edge(v) <==> v.built && (v.slots == [] || (can && v.response)))
              && (Begin(v).Launch? <==> v.built && v.slots != [] && can)
              && (Begin(v).Launch? ==> Begin(v).calls == |v.slots| * v.group.size)
  {
  }

  /** What running the handler of a visit does to the context, in each phase of an asynchronous step. */
  function Visited(c: Ctx, v: Visit): Ctx {
    if v.Plain? then WithAsync(c, false).(nextEdge := v.result)
    else
      match c.asyncState
      case Before =>
        (match Begin(v)
         case Immediate(r) => WithAsync(c, false).(nextEdge := r)
         case Launch(_) => WithAsync(c, true).(nextEdge := true))
      case After => c.(asyncState := Finish, nextEdge := v.response)
      case Finish => c.(nextEdge := false)
  }

  /** One step: the handler runs, and the chosen edge is taken if the step is over. */
  function Stepped(c: Ctx, t: Table, v: Visit): Ctx
    requires c.node.Handler? && c.node.name in t
  {
    var d := Visited(c, v);
    if StepEnds(d) then Advanced(d, t) else d
  }

  /** A step that launches calls ends with the second visit, and then takes the edge of the responses. */
  lemma TwoVisits(c: Ctx, t: Table, v: Visit)
    requires c.node.Handler? && c.node.name in t && c == WithReset(c)
    ensures Begin(v).Immediate? ==> Stepped(c, t, v) == Advanced(c.(nextEdge := Edge(v)), t)
    ensures Begin(v).Launch? ==>
              var d := Stepped(c, t, v);
              && d.node == c.node && d.path == c.path && d.isAsync && d.counter == 1
              && forall n ::
                 Stepped(d.(asyncState := After, counter := n), t, v) == Advanced(c.(nextEdge := Edge(v)), t)
  {
  }

  // ----- The context as an object -----

  class Context {
    var node: Stop
    var nextEdge: bool
    var path: seq<string>
    var isAsync: bool
    var asyncState: AsyncState
    var counter: int

    function Value(): Ctx
      reads this
    {
      Ctx(node, nextEdge, path, isAsync, asyncState, counter)
    }

    constructor (entry: Stop)
      ensures Value() == Fresh(entry) == Ctx(entry, false, [], false, Before, 0)
    {
      node, nextEdge, path := entry, false, [];
      isAsync, asyncState, counter := false, Before, 0;
    }

    /** The test that decides which of two threads goes on: the counter lets exactly one of them leave. */
    method IsAsync() returns (r: bool)
      modifies this
      ensures r == (old(isAsync) && old(counter) > 0)
      ensures Value() == old(Value()).(counter := if old(isAsync) then old(counter) - 1 else old(counter))
    {
      r := false;
      if isAsync {
        r := counter > 0;
        counter := counter - 1;
      }
    }

    method IsDone() returns (r: bool)
      ensures r == (node == Done)
    {
      r := node == Done;
    }

    method SetAsync(async: bool)
      modifies this
      ensures Value() == WithAsync(old(Value()), async)
    {
      if async {
        counter := 1;
        asyncState := Before;
      }
      isAsync := async;
    }

    method StepReset()
      modifies this
      ensures Value() == WithReset(old(Value()))
    {
      isAsync := false;
      asyncState := Before;
      counter := 0;
    }

    method NextStep(t: Table)
      requires node.Handler? && node.name in t
      modifies this
      ensures Value() == Advanced(old(Value()), t)
    {
      path := path + [node.name];
      if nextEdge {
        node := t[node.name].onTrue;
      } else {
        node := t[node.name].onFalse;
      }
      StepReset();
    }

    /** The visit of a handler: what it sets on the context, and the result it chooses the edge by. */
    method Visit(v: Visit)
      modifies this
      ensures Value() == Visited(old(Value()), v)
      ensures v.Plain? ==> nextEdge == v.result && !isAsync
      ensures v.Rpc? && old(asyncState) == Finish ==> !nextEdge
    {
      match v
      case Plain(r) =>
        SetAsync(false);
        nextEdge := r;
      case Rpc(built, slots, group, response) =>
        var r, _ := BaseRun(this, built, slots, group, response);
        nextEdge := r;
    }

    method Step(t: Table, v: Visit)
      requires node.Handler? && node.name in t
      modifies this
      ensures Value() == Stepped(old(Value()), t, v)
    {
      Visit(v);
      if !isAsync || asyncState == Finish {
        NextStep(t);
      }
    }

    /**
     The stepping loop of one thread, with the answers of the handlers it visits. It takes an edge after every
     handler that answers at once, and leaves at the test behind the first one that has launched calls.
     */
    method RunInner(t: Table, vs: seq<Visit>) returns (n: nat)
      requires Value() == Fresh(node) && Closed(t) && (node == Done || (node.Handler? && node.name in t))
      modifies this
      ensures n <= |vs| && forall i | 0 <= i < n :: Begin(vs[i]).Immediate?
      ensures path == Walk(t, old(node), Edges(vs[..n])) && node == Position(t, old(node), Edges(vs[..n]))
      ensures if isAsync then n < |vs| && Begin(vs[n]).Launch? && node != Done && asyncState == Before && counter == 0
              else node == Done || n == |vs|
      ensures (forall v | v in vs :: Begin(v).Immediate?) ==>
                path == Walk(t, old(node), Edges(vs)) && node == Position(t, old(node), Edges(vs))
    {
      ghost var entry := node;
      var stop := false;
      n := 0;
      while !stop
        invariant n <= |vs| && forall i | 0 <= i < n :: Begin(vs[i]).Immediate?
        invariant path == Walk(t, entry, Edges(vs[..n])) && node == Position(t, entry, Edges(vs[..n]))
        invariant if isAsync then n < |vs| && Begin(vs[n]).Launch? && node != Done && asyncState == Before
                  else Value() == WithReset(Value())
        invariant isAsync ==> counter == if stop then 0 else 1
        invariant stop && !isAsync ==> node == Done || n == |vs|
        decreases |vs| - n, !stop, !isAsync
      {
        var async := IsAsync();
        var done := IsDone();
        if async || done || n == |vs| {
          stop := true;
        } else {
          NextOnWalk(t, entry, vs, n);
          TwoVisits(Value(), t, vs[n]);
          Step(t, vs[n]);
          if !isAsync {
            n := n + 1;
          }
        }
      }
      if !isAsync {
        StopsAt(t, entry, vs, n);
      } else {
        assert vs[n] in vs;
      }
    }
  }

  // ----- RPC handlers -----

  /** The call for one request to one client. */
  datatype RpcCall = RpcCall(param: nat, client: nat)

  function RowOf(param: nat, clients: nat): seq<RpcCall> {
    seq(clients, j requires 0 <= j => RpcCall(param, j))
  }

  /** Every request to every client. */
  function AllCalls(params: nat, clients: nat): seq<RpcCall> {
    if params == 0 then [] else AllCalls(params - 1, clients) + RowOf(params - 1, clients)
  }

  /** That is each pair once, and so requests times clients. */
  lemma {:induction false} CallsAreAllPairs(params: nat, clients: nat)
    ensures |AllCalls(params, clients)| == params * clients
    ensures forall i: nat, j: nat ::
              multiset(AllCalls(params, clients))[RpcCall(i, j)] == if i < params && j < clients then 1 else 0
    decreases params
  {
    if params > 0 {
      CallsAreAllPairs(params - 1, clients);
      RowIsEach(params - 1, clients);
      assert params * clients == (params - 1) * clients + clients;
    }
  }

  lemma {:induction false} RowIsEach(param: nat, clients: nat)
    ensures forall i: nat, j: nat ::
              multiset(RowOf(param, clients))[RpcCall(i, j)] == if i == param && j < clients then 1 else 0
    decreases clients
  {
    if clients > 0 {
      RowIsEach(param, clients - 1);
      assert RowOf(param, clients) == RowOf(param, clients - 1) + [RpcCall(param, clients - 1)];
    }
  }

  /** Sends every request to every client, unless there are no clients or a request lacks response slots. */
  method Invoke(ctx: Context, slots: seq<nat>, group: Group) returns (ok: bool, made: seq<RpcCall>)
    modifies ctx
    ensures ok <==> group.Clients? && forall i | 0 <= i < |slots| :: slots[i] == group.size
    ensures ctx.Value() == WithAsync(old(ctx.Value()), ok)
    ensures made == if ok then AllCalls(|slots|, group.size) else []
  {
    made := [];
    if group.NoClients? {
      ctx.SetAsync(false);
      return false, [];
    }
    for i := 0 to |slots|
      invariant forall j | 0 <= j < i :: slots[j] == group.size
      invariant ctx.Value() == old(ctx.Value())
    {
      if slots[i] != group.size {
        ctx.SetAsync(false);
        return false, [];
      }
    }
    ctx.SetAsync(true);
    for i := 0 to |slots|
      invariant made == AllCalls(i, group.size)
    {
      for j := 0 to group.size
        invariant made == AllCalls(i, group.size) + RowOf(i, j)
      {
        made := made + [RpcCall(i, j)];
      }
    }
    ok := true;
  }

  /** One visit of an RPC handler: asking, then processing the responses, and nothing after that. */
  method BaseRun(ctx: Context, built: bool, slots: seq<nat>, group: Group, response: bool)
      returns (r: bool, made: seq<RpcCall>)
    modifies ctx
    ensures var can := group.Clients? && forall i | 0 <= i < |slots| :: slots[i] == group.size;
            old(ctx.asyncState) == Before ==>
              && (r <==> built && (slots == [] || can))
              && ctx.Value() == WithAsync(old(ctx.Value()), built && slots != [] && can)
              && made == if built && slots != [] && can then AllCalls(|slots|, group.size) else []
    ensures old(ctx.asyncState) == After ==>
              r == response && made == [] && ctx.Value() == old(ctx.Value()).(asyncState := Finish)
    ensures old(ctx.asyncState) == Finish ==> !r && made == [] && ctx.Value() == old(ctx.Value())
  {
    r, made := false, [];
    if ctx.asyncState == Before {
      if !built {
        ctx.SetAsync(false);
        return;
      }
      if slots == [] {
        ctx.SetAsync(false);
        return true, [];
      }
      r, made := Invoke(ctx, slots, group);
    } else if ctx.asyncState == After {
      ctx.asyncState := Finish;
      r := response;
    }
  }

  /** The walk along the answers of one more visit. */
  lemma NextOnWalk(t: Table, entry: Stop, vs: seq<Visit>, n: nat)
    requires n < |vs| && Closed(t) && (entry == Done || (entry.Handler? && entry.name in t))
    ensures var p := Position(t, entry, Edges(vs[..n]));
            && (p == Done || (p.Handler? && p.name in t))
            && (p != Done ==>
                  && Walk(t, entry, Edges(vs[..n + 1])) == Walk(t, entry, Edges(vs[..n])) + [p.name]
                  && Position(t, entry, Edges(vs[..n + 1])) == Follow(t[p.name], Edge(vs[n])))
  {
    var es := Edges(vs[..n]);
    PositionStays(t, entry, es);
    WalkOn(t, entry, es, Edge(vs[n]));
    assert Edges(vs[..n + 1]) == es + [Edge(vs[n])];
  }

  lemma StopsAt(t: Table, entry: Stop, vs: seq<Visit>, n: nat)
    requires n <= |vs| && (n == |vs| || Position(t, entry, Edges(vs[..n])) == Done)
    ensures Walk(t, entry, Edges(vs)) == Walk(t, entry, Edges(vs[..n]))
    ensures Position(t, entry, Edges(vs)) == Position(t, entry, Edges(vs[..n]))
  {
    if n == |vs| {
      assert vs[..n] == vs;
    } else {
      assert Edges(vs) == Edges(vs[..n]) + Edges(vs[n..]);
      WalkOver(t, entry, Edges(vs[..n]), Edges(vs[n..]));
    }
  }

  function Edges(vs: seq<Visit>): seq<bool> {
    seq(|vs|, i requires 0 <= i < |vs| => Edge(vs[i]))
  }
}
