/** Building execution graphs from compiled workflow graphs. */
module ExecutionGraphMgr {
  import WF = WorkflowGraph
  import opened WorkflowGraphCheck
  import opened ExecutionGraphs

  function Names(g: seq<WF.Node>): set<string> {
    set i | 0 <= i < |g| :: g[i].name
  }

  /** What the graph check guarantees of a graph with an entry. */
  ghost predicate Checked(g: seq<WF.Node>) {
    EdgesInside(g) && forall i | 0 <= i < |g| :: Complete(g[i])
  }

  /** A target seen by handler name. */
  function NameOf(g: seq<WF.Node>, t: WF.Target): Stop {
    if t.End? then Done else if WF.Inside(g, t) then Handler(g[t.id].name) else Nowhere
  }

  function HopOf(g: seq<WF.Node>, i: nat): Hop
    requires i < |g|
  {
    Hop(NameOf(g, g[i].onTrue), NameOf(g, g[i].onFalse))
  }

  // ----- Construction -----

  ghost predicate Matches(g: seq<WF.Node>, t: WF.Target, n: Next, nodes: Nodes) {
    && PointsInto(n, nodes)
    && StopOf(n) == NameOf(g, t)
  }

  /** For every handler name, the node of g the search meets first; met holds what it has met before. */
  ghost function Met(g: seq<WF.Node>, t: WF.Target, met: map<string, nat>): (r: map<string, nat>)
    requires Checked(g) && (t.End? || WF.Inside(g, t)) && met.Keys <= Names(g)
    ensures met.Keys <= r.Keys <= Names(g) && forall x | x in met :: r[x] == met[x]
    decreases Names(g) - met.Keys, 0
  {
    if t.End? || g[t.id].name in met then met
    else
      assert g[t.id].name in Names(g) - met.Keys;
      MetBehind(g, t.id, met[g[t.id].name := t.id])
  }

  /** The same for both edges of node i. */
  ghost function MetBehind(g: seq<WF.Node>, i: nat, met: map<string, nat>): (r: map<string, nat>)
    requires Checked(g) && i < |g| && met.Keys <= Names(g)
    ensures met.Keys <= r.Keys <= Names(g) && forall x | x in met :: r[x] == met[x]
    decreases Names(g) - met.Keys, 1
  {
    assert WF.Succ(g[i], true) == g[i].onTrue && WF.Succ(g[i], false) == g[i].onFalse;
    Met(g, g[i].onFalse, Met(g, g[i].onTrue, met))
  }

  /** The handlers that are new behind t are registered. */
  ghost predicate Registered(g: seq<WF.Node>, t: WF.Target, met: map<string, nat>, handlers: set<string>)
    requires Checked(g) && (t.End? || WF.Inside(g, t)) && met.Keys <= Names(g)
  {
    Met(g, t, met).Keys - met.Keys <= handlers
  }

  ghost predicate RegisteredBehind(g: seq<WF.Node>, i: nat, met: map<string, nat>, handlers: set<string>)
    requires Checked(g) && i < |g| && met.Keys <= Names(g)
  {
    MetBehind(g, i, met).Keys - met.Keys <= handlers
  }

  /** What is new behind t: its own name and what is met behind its edges. */
  lemma MetHere(g: seq<WF.Node>, t: WF.Target, met: map<string, nat>, x: string, handlers: set<string>)
    requires Checked(g) && WF.Inside(g, t) && met.Keys <= Names(g) && x == g[t.id].name && x !in met && x in Names(g)
    ensures Met(g, t, met) == MetBehind(g, t.id, met[x := t.id])
    ensures Registered(g, t, met, handlers) <==> x in handlers && RegisteredBehind(g, t.id, met[x := t.id], handlers)
  {
    var behind := MetBehind(g, t.id, met[x := t.id]);
    assert behind.Keys - met.Keys == {x} + (behind.Keys - met[x := t.id].Keys);
  }

  /** The node filed under x is linked like node i of g, which has this name. */
  ghost predicate Built(g: seq<WF.Node>, nodes: Nodes, x: string, i: nat)
    requires x in nodes
    reads nodes[x]
  {
    && i < |g| && g[i].name == x
    && Matches(g, g[i].onTrue, nodes[x].trueNext, nodes) && Matches(g, g[i].onFalse, nodes[x].falseNext, nodes)
  }

  ghost predicate Filed(g: seq<WF.Node>, nodes: Nodes) {
    forall x | x in nodes :: nodes[x].name == x && x in Names(g)
  }

  /** The nodes not filed under `before` are built, each like the node met for its name. */
  ghost predicate AllBuilt(g: seq<WF.Node>, nodes: Nodes, before: set<string>, met: map<string, nat>)
    reads nodes.Values
  {
    nodes.Keys == met.Keys && forall x | x in nodes && x !in before :: Built(g, nodes, x, met[x])
  }

  /** Two successive extensions, the second built on top of the first. */
  lemma AllBuiltTwice(g: seq<WF.Node>, second: Nodes, third: Nodes, first: set<string>, met2: map<string, nat>,
                      met3: map<string, nat>)
    requires AllBuilt(g, second, first, met2) && AllBuilt(g, third, second.Keys, met3) && Extends(second, third)
    requires forall x | x in met2 :: x in met3 && met3[x] == met2[x]
    ensures AllBuilt(g, third, first, met3)
  {
    forall x | x in third && x !in first ensures Built(g, third, x, met3[x]) {
      if x in second {
        assert Built(g, second, x, met2[x]);
      }
    }
  }

  ghost predicate Extends(nodes: Nodes, more: Nodes) {
    forall x | x in nodes :: x in more && more[x] == nodes[x]
  }

  lemma ExtendsTwice(a: Nodes, x: string, node: ExecutionNode, b: Nodes)
    requires x !in a && Extends(a[x := node], b)
    ensures Extends(a, b) && x in b && b[x] == node
  {
  }

  /**
   The node for t, created together with everything behind it unless a node of that name exists, so
   that the first node met under a name decides its edges. Unset stands for failure: a handler that is
   needed is not registered.
   */
  method BuildNode(g: seq<WF.Node>, t: WF.Target, handlers: set<string>, exe: ExecutionGraph,
                   ghost met: map<string, nat>) returns (r: Next)
    requires Checked(g) && (t.End? || WF.Inside(g, t)) && Filed(g, exe.nodes) && met.Keys == exe.nodes.Keys
    modifies exe`nodes
    ensures Filed(g, exe.nodes) && Extends(old(exe.nodes), exe.nodes)
    ensures met.Keys <= Names(g) && (r.Unset? <==> !Registered(g, t, met, handlers))
    ensures !r.Unset? ==> Matches(g, t, r, exe.nodes)
    ensures forall x | x in exe.nodes && x !in old(exe.nodes) :: fresh(exe.nodes[x])
    ensures !r.Unset? ==> AllBuilt(g, exe.nodes, old(exe.nodes).Keys, Met(g, t, met))
    decreases Names(g) - exe.nodes.Keys, 0
  {
    assert met.Keys <= Names(g);
    if t == WF.End {
      return End;
    }
    var x := g[t.id].name;
    if x in exe.nodes {
      return To(exe.nodes[x]);
    }
    r := BuildNew(g, t.id, handlers, exe, met);
  }

  /** The node for a name that has none. */
  method BuildNew(g: seq<WF.Node>, i: nat, handlers: set<string>, exe: ExecutionGraph, ghost met: map<string, nat>)
      returns (r: Next)
    requires Checked(g) && i < |g| && g[i].name !in exe.nodes && Filed(g, exe.nodes) && met.Keys == exe.nodes.Keys
    modifies exe`nodes
    ensures Filed(g, exe.nodes) && Extends(old(exe.nodes), exe.nodes)
    ensures met.Keys <= Names(g) && (r.Unset? <==> !Registered(g, WF.At(i), met, handlers))
    ensures !r.Unset? ==> Matches(g, WF.At(i), r, exe.nodes)
    ensures forall x | x in exe.nodes && x !in old(exe.nodes) :: fresh(exe.nodes[x])
    ensures !r.Unset? ==> AllBuilt(g, exe.nodes, old(exe.nodes).Keys, Met(g, WF.At(i), met))
    decreases Names(g) - exe.nodes.Keys, 0, 0
  {
    var x := g[i].name;
    assert x in Names(g);
    MetHere(g, WF.At(i), met, x, handlers);
    if x !in handlers {
      return Unset;
    }
    var node := new ExecutionNode(x);
    exe.nodes := exe.nodes[x := node];
    assert x in Names(g) - old(exe.nodes).Keys && x !in Names(g) - exe.nodes.Keys;
    var ok, trueNext, falseNext := BuildNexts(g, i, handlers, exe, met[x := i]);
    ExtendsTwice(old(exe.nodes), x, node, exe.nodes);
    if !ok {
      return Unset;
    }
    LinkNew(g, i, exe, node, trueNext, falseNext, old(exe.nodes).Keys, MetBehind(g, i, met[x := i]));
    r := To(node);
  }

  /** Sets the edges of the new node for node i of g. */
  method LinkNew(g: seq<WF.Node>, i: nat, exe: ExecutionGraph, node: ExecutionNode, trueNext: Next, falseNext: Next,
                 ghost before: set<string>, ghost met: map<string, nat>)
    requires i < |g| && g[i].name == node.name && Filed(g, exe.nodes) && node.name in exe.nodes
             && exe.nodes[node.name] == node
    requires node.name in met && met[node.name] == i && AllBuilt(g, exe.nodes, before + {node.name}, met)
    requires Matches(g, g[i].onTrue, trueNext, exe.nodes) && Matches(g, g[i].onFalse, falseNext, exe.nodes)
    modifies node
    ensures AllBuilt(g, exe.nodes, before, met)
  {
    node.trueNext := trueNext;
    node.falseNext := falseNext;
    forall y | y in exe.nodes && y !in before ensures Built(g, exe.nodes, y, met[y]) {
      assert y != node.name ==> exe.nodes[y] != node;
    }
  }

  /** The nodes behind both edges of node i. */
  method BuildNexts(g: seq<WF.Node>, i: nat, handlers: set<string>, exe: ExecutionGraph, ghost met: map<string, nat>)
      returns (ok: bool, trueNext: Next, falseNext: Next)
    requires Checked(g) && i < |g| && Filed(g, exe.nodes) && met.Keys == exe.nodes.Keys
    modifies exe`nodes
    ensures Filed(g, exe.nodes) && Extends(old(exe.nodes), exe.nodes)
    ensures met.Keys <= Names(g) && (ok <==> RegisteredBehind(g, i, met, handlers))
    ensures ok ==> Matches(g, g[i].onTrue, trueNext, exe.nodes) && Matches(g, g[i].onFalse, falseNext, exe.nodes)
    ensures forall x | x in exe.nodes && x !in old(exe.nodes) :: fresh(exe.nodes[x])
    ensures ok ==> AllBuilt(g, exe.nodes, old(exe.nodes).Keys, MetBehind(g, i, met))
    decreases Names(g) - exe.nodes.Keys, 1
  {
    assert WF.Succ(g[i], true) == g[i].onTrue && WF.Succ(g[i], false) == g[i].onFalse;
    assert met.Keys <= Names(g);
    ok, falseNext := false, Unset;
    trueNext := BuildNode(g, g[i].onTrue, handlers, exe, met);
    ghost var met2 := Met(g, g[i].onTrue, met);
    ghost var met3 := Met(g, g[i].onFalse, met2);
    RegisteredBoth(g, i, met, handlers);
    if trueNext.Unset? {
      return;
    }
    ghost var second := exe.nodes;
    falseNext := BuildNode(g, g[i].onFalse, handlers, exe, met2);
    if falseNext.Unset? {
      return;
    }
    AllBuiltTwice(g, second, exe.nodes, old(exe.nodes).Keys, met2, met3);
    ok := true;
  }

  lemma RegisteredBoth(g: seq<WF.Node>, i: nat, met: map<string, nat>, handlers: set<string>)
    requires Checked(g) && i < |g| && met.Keys <= Names(g) && WF.Succ(g[i], true) == g[i].onTrue
             && WF.Succ(g[i], false) == g[i].onFalse
    ensures RegisteredBehind(g, i, met, handlers)
            <==>
              && Registered(g, g[i].onTrue, met, handlers)
              && Registered(g, g[i].onFalse, Met(g, g[i].onTrue, met), handlers)
  {
    var a, b, c := met.Keys, Met(g, g[i].onTrue, met).Keys, MetBehind(g, i, met).Keys;
    assert c - a == (b - a) + (c - b);
  }

  /** Every hop of t is the hop of some node of g with that name, and leads to t again. */
  ghost predicate Represents(t: Table, g: seq<WF.Node>) {
    forall x | x in t ::
      && (exists i :: 0 <= i < |g| && g[i].name == x && t[x] == HopOf(g, i))
      && (t[x].onTrue.Handler? ==> t[x].onTrue.name in t)
      && (t[x].onFalse.Handler? ==> t[x].onFalse.name in t)
  }

  /** For every name met from the entry, the hop of the node met first. */
  ghost function FirstTable(g: seq<WF.Node>, entry: WF.Target): Table
    requires Checked(g) && (entry.End? || WF.Inside(g, entry))
  {
    var met := Met(g, entry, map[]);
    map x | x in met && met[x] < |g| :: HopOf(g, met[x])
  }

  lemma AllRegistered(g: seq<WF.Node>, entry: WF.Target, handlers: set<string>)
    requires Checked(g) && WF.Inside(g, entry)
    ensures FirstTable(g, entry).Keys <= handlers <==> Registered(g, entry, map[], handlers)
  {
    MetBounded(g, entry, map[]);
    assert FirstTable(g, entry).Keys == Met(g, entry, map[]).Keys - {};
  }

  method BuildGraph(name: string, g: seq<WF.Node>, entry: WF.Target, handlers: set<string>)
      returns (exe: ExecutionGraph?)
    requires Checked(g) && WF.Inside(g, entry)
    ensures exe == null <==> !(FirstTable(g, entry).Keys <= handlers)
    ensures exe != null ==>
              && fresh(exe) && exe.Valid() && exe.name == name && StopOf(exe.entry) == NameOf(g, entry)
              && exe.Contents() == FirstTable(g, entry) && Represents(exe.Contents(), g)
  {
    var graph := new ExecutionGraph(name);
    ghost var met := Met(g, entry, map[]);
    AllRegistered(g, entry, handlers);
    var r := BuildNode(g, entry, handlers, graph, map[]);
    if r.Unset? {
      return null;
    }
    graph.entry := r;
    BuiltIsValid(g, graph, met);
    BuiltRepresents(g, graph, met);
    exe := graph;
  }

  lemma {:induction false} MetBounded(g: seq<WF.Node>, t: WF.Target, met: map<string, nat>)
    requires Checked(g) && (t.End? || WF.Inside(g, t)) && met.Keys <= Names(g) && forall x | x in met :: met[x] < |g|
    ensures forall x | x in Met(g, t, met) :: Met(g, t, met)[x] < |g|
    decreases Names(g) - met.Keys
  {
    if !t.End? && g[t.id].name !in met {
      var i, first := t.id, met[g[t.id].name := t.id];
      assert g[i].name in Names(g) - met.Keys;
      assert WF.Succ(g[i], true) == g[i].onTrue && WF.Succ(g[i], false) == g[i].onFalse;
      MetBounded(g, g[i].onTrue, first);
      MetBounded(g, g[i].onFalse, Met(g, g[i].onTrue, first));
      assert Met(g, t, met) == MetBehind(g, i, first) == Met(g, g[i].onFalse, Met(g, g[i].onTrue, first));
    }
  }

  lemma BuiltIsValid(g: seq<WF.Node>, exe: ExecutionGraph, met: map<string, nat>)
    requires Filed(g, exe.nodes) && AllBuilt(g, exe.nodes, {}, met) && exe.entry.To? && PointsInto(exe.entry, exe.nodes)
    ensures exe.Valid() && exe.Contents() == map x | x in met && met[x] < |g| :: HopOf(g, met[x])
  {
    forall x | x in exe.nodes ensures met[x] < |g| && exe.Contents()[x] == HopOf(g, met[x]) {
      assert Built(g, exe.nodes, x, met[x]);
    }
    forall x | x in exe.nodes
      ensures PointsInto(exe.nodes[x].trueNext, exe.nodes) && PointsInto(exe.nodes[x].falseNext, exe.nodes)
    {
      assert Built(g, exe.nodes, x, met[x]);
    }
  }

  lemma BuiltRepresents(g: seq<WF.Node>, exe: ExecutionGraph, met: map<string, nat>)
    requires AllBuilt(g, exe.nodes, {}, met)
    ensures Represents(exe.Contents(), g)
  {
    var t := exe.Contents();
    forall x | x in t
      ensures (exists i :: 0 <= i < |g| && g[i].name == x && t[x] == HopOf(g, i))
      ensures (t[x].onTrue.Handler? ==> t[x].onTrue.name in t) && (t[x].onFalse.Handler? ==> t[x].onFalse.name in t)
    {
      assert Built(g, exe.nodes, x, met[x]);
      assert t[x] == HopOf(g, met[x]);
    }
  }

  // ----- When does the execution graph behave like the workflow graph? -----

  ghost predicate SameTraces(g: seq<WF.Node>, entry: WF.Target, t: Table) {
    forall rs :: Walk(t, NameOf(g, entry), rs) == WF.Walk(g, entry, rs)
  }

  /** Nodes that share a handler name lead to the same handlers. */
  ghost predicate NamesDecide(g: seq<WF.Node>) {
    forall i, j | 0 <= i < |g| && 0 <= j < |g| && g[i].name == g[j].name :: HopOf(g, i) == HopOf(g, j)
  }

  ghost predicate DistinctNames(g: seq<WF.Node>) {
    forall i, j | 0 <= i < j < |g| :: g[i].name != g[j].name
  }

  lemma {:induction false} WalksAgree(g: seq<WF.Node>, t: Table, u: WF.Target, rs: seq<bool>)
    requires Checked(g) && NamesDecide(g) && Represents(t, g)
    requires u.End? || (WF.Inside(g, u) && g[u.id].name in t)
    ensures Walk(t, NameOf(g, u), rs) == WF.Walk(g, u, rs)
    decreases |rs|
  {
    if rs != [] && u.At? {
      var x := g[u.id].name;
      var i :| 0 <= i < |g| && g[i].name == x && t[x] == HopOf(g, i);
      assert t[x] == HopOf(g, u.id);
      var v := WF.Succ(g[u.id], rs[0]);
      assert NameOf(g, v) == Follow(t[x], rs[0]);
      WalksAgree(g, t, v, rs[1..]);
    }
  }

  /** After rs, both walks stand at nodes of the same name if they agree on all traces. */
  lemma {:induction false} PositionsAgree(g: seq<WF.Node>, t: Table, u: WF.Target, s: Stop, rs: seq<bool>, i: nat,
                                          d: bool)
    requires EdgesInside(g) && i < |g| && (u.End? || u.Null? || WF.Inside(g, u)) && WF.Pos(g, u, rs) == WF.At(i)
    requires forall ss :: Walk(t, s, ss) == WF.Walk(g, u, ss)
    ensures g[i].name in t
    ensures forall ss :: Walk(t, Follow(t[g[i].name], d), ss) == WF.Walk(g, WF.Succ(g[i], d), ss)
    decreases |rs|
  {
    var e := if rs == [] then d else rs[0];
    assert Walk(t, s, [e]) == WF.Walk(g, u, [e]);
    var x, v := g[u.id].name, WF.Succ(g[u.id], e);
    assert WF.Walk(g, u, [e])[0] == x;
    assert s == Handler(x) && x in t;
    forall ss ensures Walk(t, Follow(t[x], e), ss) == WF.Walk(g, v, ss) {
      var more := [e] + ss;
      assert more[1..] == ss;
      assert Walk(t, s, more) == [x] + Walk(t, Follow(t[x], e), ss);
      assert WF.Walk(g, u, more) == [x] + WF.Walk(g, v, ss);
      assert ([x] + Walk(t, Follow(t[x], e), ss))[1..] == Walk(t, Follow(t[x], e), ss);
      assert ([x] + WF.Walk(g, v, ss))[1..] == WF.Walk(g, v, ss);
    }
    if rs != [] {
      PositionsAgree(g, t, v, Follow(t[x], e), rs[1..], i, d);
    }
  }

  lemma StopsAgree(g: seq<WF.Node>, t: Table, u: WF.Target, s: Stop)
    requires Represents(t, g) && (u.End? || WF.Inside(g, u))
    requires s == Done || (s.Handler? && s.name in t)
    requires forall ss :: Walk(t, s, ss) == WF.Walk(g, u, ss)
    ensures s == NameOf(g, u)
  {
    assert Walk(t, s, [true]) == WF.Walk(g, u, [true]);
    if u.At? {
      assert WF.Walk(g, u, [true])[0] == g[u.id].name;
    }
  }

  /**
   For every accepted graph, the execution graph runs the same handlers as the workflow graph for all
   handler results if and only if nodes that share a name lead to the same handlers.
   */
  lemma BuildIsFaithful(g: seq<WF.Node>, entry: WF.Target, t: Table)
    requires EdgesInside(g) && WF.Inside(g, entry) && Sound(g, entry) && Represents(t, g) && g[entry.id].name in t
    ensures SameTraces(g, entry, t) <==> NamesDecide(g)
  {
    if NamesDecide(g) {
      forall rs ensures Walk(t, NameOf(g, entry), rs) == WF.Walk(g, entry, rs) {
        WalksAgree(g, t, entry, rs);
      }
    }
    if SameTraces(g, entry, t) {
      forall i | 0 <= i < |g| ensures g[i].name in t && t[g[i].name] == HopOf(g, i) {
        HopsAgree(g, entry, t, i);
      }
    }
  }

  /** With distinct handler names the execution graph always runs the same handlers. */
  lemma DistinctNamesSuffice(g: seq<WF.Node>, entry: WF.Target, t: Table)
    requires EdgesInside(g) && WF.Inside(g, entry) && Sound(g, entry) && Represents(t, g) && g[entry.id].name in t
    requires DistinctNames(g)
    ensures SameTraces(g, entry, t)
  {
    BuildIsFaithful(g, entry, t);
  }

  lemma HopsAgree(g: seq<WF.Node>, entry: WF.Target, t: Table, i: nat)
    requires EdgesInside(g) && WF.Inside(g, entry) && Sound(g, entry) && Represents(t, g)
    requires SameTraces(g, entry, t) && i < |g|
    ensures g[i].name in t && t[g[i].name] == HopOf(g, i)
  {
    assert WF.Reaches(g, entry, i) && Complete(g[i]);
    var rs :| WF.Pos(g, entry, rs) == WF.At(i);
    PositionsAgree(g, t, entry, NameOf(g, entry), rs, i, true);
    PositionsAgree(g, t, entry, NameOf(g, entry), rs, i, false);
    var hop := t[g[i].name];
    var j :| 0 <= j < |g| && g[j].name == g[i].name && hop == HopOf(g, j);
    assert Complete(g[j]) && WF.Succ(g[j], true) == g[j].onTrue && WF.Succ(g[j], false) == g[j].onFalse;
    assert WF.Succ(g[i], true) == g[i].onTrue && WF.Succ(g[i], false) == g[i].onFalse;
    StopsAgree(g, t, g[i].onTrue, hop.onTrue);
    StopsAgree(g, t, g[i].onFalse, hop.onFalse);
  }

  /** A handler used twice can derail the execution graph: what is built for `A A` never reaches the end. */
  lemma RepeatedHandlerLoops(n: nat)
    ensures var g := [WF.Node("A", WF.At(1), WF.At(1)), WF.Node("A", WF.End, WF.End)];
            && Checked(g) && WF.Inside(g, WF.At(0)) && !NamesDecide(g)
            && |Walk(FirstTable(g, WF.At(0)), Handler("A"), seq(n, _ => true))| == n
            && |WF.Walk(g, WF.At(0), seq(n, _ => true))| <= 2
  {
    var g := [WF.Node("A", WF.At(1), WF.At(1)), WF.Node("A", WF.End, WF.End)];
    TwiceMet(g);
    assert HopOf(g, 0) == Hop(Handler("A"), Handler("A")) && HopOf(g, 1) == Hop(Done, Done);
    LoopForever(FirstTable(g, WF.At(0)), n);
    if n > 1 {
      var rs := seq(n, _ => true);
      assert WF.Walk(g, WF.At(0), rs) == ["A"] + WF.Walk(g, WF.At(1), rs[1..]);
      assert WF.Walk(g, WF.At(1), rs[1..]) == ["A"] + WF.Walk(g, WF.End, rs[1..][1..]);
    }
  }

  lemma TwiceMet(g: seq<WF.Node>)
    requires g == [WF.Node("A", WF.At(1), WF.At(1)), WF.Node("A", WF.End, WF.End)]
    ensures Checked(g) && WF.Inside(g, WF.At(0)) && FirstTable(g, WF.At(0)) == map["A" := HopOf(g, 0)]
  {
    assert Checked(g);
    var first: map<string, nat> := map["A" := 0];
    assert g[0].name in Names(g);
    assert Met(g, WF.At(1), first) == first;
    assert MetBehind(g, 0, first) == first;
    assert Met(g, WF.At(0), map[]) == first;
  }

  /** The search goes along true edges first: of two nodes of one name, the one behind the true edge decides. */
  lemma TrueSideFirst(g: seq<WF.Node>, x: WF.Target, y: WF.Target)
    requires g == [WF.Node("A", WF.At(1), WF.At(2)), WF.Node("B", WF.End, WF.End), WF.Node("B", x, y)]
    requires Checked(g)
    ensures FirstTable(g, WF.At(0)) == map["A" := Hop(Handler("B"), Handler("B")), "B" := Hop(Done, Done)]
  {
    var first: map<string, nat> := map["A" := 0];
    var second: map<string, nat> := map["A" := 0, "B" := 1];
    assert g[0].name in Names(g) && g[1].name in Names(g);
    assert MetBehind(g, 1, second) == second;
    assert Met(g, WF.At(1), first) == second;
    assert Met(g, WF.At(2), second) == second;
    assert MetBehind(g, 0, first) == second;
    assert Met(g, WF.At(0), map[]) == second;
  }

  lemma {:induction false} LoopForever(t: Table, n: nat)
    requires "A" in t && t["A"] == Hop(Handler("A"), Handler("A"))
    ensures |Walk(t, Handler("A"), seq(n, _ => true))| == n
  {
    if n > 0 {
      LoopForever(t, n - 1);
      assert seq(n, _ => true)[1..] == seq(n - 1, _ => true);
    }
  }
}
