/** Execution graphs: handler nodes linked by pointers and found by handler name. */
module ExecutionGraphs {
  datatype Next = Unset | End | To(node: ExecutionNode)

  class ExecutionNode {
    const name: string
    var trueNext: Next
    var falseNext: Next

    constructor (name: string)
      ensures this.name == name && trueNext == Unset && falseNext == Unset
    {
      this.name, trueNext, falseNext := name, Unset, Unset;
    }
  }

  // ----- What an execution graph does, by handler name -----

  datatype Stop = Nowhere | Done | Handler(name: string)
  datatype Hop = Hop(onTrue: Stop, onFalse: Stop)

  type Table = map<string, Hop>

  function Follow(h: Hop, direct: bool): Stop {
    if direct then h.onTrue else h.onFalse
  }

  /** The handlers that run, in order, from s when they return rs. */
  function Walk(t: Table, s: Stop, rs: seq<bool>): seq<string>
    decreases |rs|
  {
    if rs == [] || !s.Handler? || s.name !in t then []
    else [s.name] + Walk(t, Follow(t[s.name], rs[0]), rs[1..])
  }

  /** Where the walk from s stands after the handlers returned rs. */
  function Position(t: Table, s: Stop, rs: seq<bool>): Stop
    decreases |rs|
  {
    if rs == [] || !s.Handler? || s.name !in t then s
    else Position(t, Follow(t[s.name], rs[0]), rs[1..])
  }

  /** A true result at a handler takes its true edge, a false one the other. */
  lemma ResultChoosesHop(t: Table, name: string, rs: seq<bool>)
    requires name in t
    ensures Walk(t, Handler(name), [true] + rs) == [name] + Walk(t, t[name].onTrue, rs)
    ensures Walk(t, Handler(name), [false] + rs) == [name] + Walk(t, t[name].onFalse, rs)
  {
    assert ([true] + rs)[1..] == rs && ([false] + rs)[1..] == rs;
  }

  /** One more result at a handler runs that handler and takes one of its edges. */
  lemma {:induction false} WalkOn(t: Table, s: Stop, rs: seq<bool>, r: bool)
    ensures var p := Position(t, s, rs);
            if p.Handler? && p.name in t
            then Walk(t, s, rs + [r]) == Walk(t, s, rs) + [p.name] && Position(t, s, rs + [r]) == Follow(t[p.name], r)
            else Walk(t, s, rs + [r]) == Walk(t, s, rs) && Position(t, s, rs + [r]) == p
    decreases |rs|
  {
    if rs == [] {
      assert rs + [r] == [r];
    } else if s.Handler? && s.name in t {
      assert (rs + [r])[1..] == rs[1..] + [r];
      WalkOn(t, Follow(t[s.name], rs[0]), rs[1..], r);
    }
  }

  /** Once the walk is done, further results change nothing. */
  lemma {:induction false} WalkOver(t: Table, s: Stop, rs: seq<bool>, ss: seq<bool>)
    requires Position(t, s, rs) == Done
    ensures Walk(t, s, rs + ss) == Walk(t, s, rs) && Position(t, s, rs + ss) == Done
    decreases |rs|
  {
    if rs != [] && s.Handler? && s.name in t {
      assert (rs + ss)[1..] == rs[1..] + ss;
      WalkOver(t, Follow(t[s.name], rs[0]), rs[1..], ss);
    }
  }

  /** Every hop of t leads to the end or to a handler of t. */
  ghost predicate Closed(t: Table) {
    forall x, d | x in t :: Follow(t[x], d) == Done || (Follow(t[x], d).Handler? && Follow(t[x], d).name in t)
  }

  lemma {:induction false} PositionStays(t: Table, s: Stop, rs: seq<bool>)
    requires Closed(t) && (s == Done || (s.Handler? && s.name in t))
    ensures var p := Position(t, s, rs); p == Done || (p.Handler? && p.name in t)
    decreases |rs|
  {
    if rs != [] && s.Handler? {
      PositionStays(t, Follow(t[s.name], rs[0]), rs[1..]);
    }
  }

  function StopOf(n: Next): Stop {
    match n
    case Unset => Nowhere
    case End => Done
    case To(node) => Handler(node.name)
  }

  type Nodes = map<string, ExecutionNode>

  ghost predicate PointsInto(n: Next, nodes: Nodes) {
    n.End? || (n.To? && n.node.name in nodes && nodes[n.node.name] == n.node)
  }

  class ExecutionGraph {
    const name: string
    var version: nat
    var entry: Next
    var nodes: Nodes

    constructor (name: string)
      ensures this.name == name && nodes == map[] && entry == Unset && version == 0
    {
      this.name, nodes, entry, version := name, map[], Unset, 0;
    }

    constructor Of(name: string, version: nat, entry: Next, nodes: Nodes)
      ensures this.name == name && this.version == version && this.entry == entry && this.nodes == nodes
    {
      this.name, this.version, this.entry, this.nodes := name, version, entry, nodes;
    }

    /** Nodes are filed under their own names and every pointer stays in the graph. */
    ghost predicate Valid()
      reads this, nodes.Values
    {
      && (forall x | x in nodes ::
            nodes[x].name == x && PointsInto(nodes[x].trueNext, nodes) && PointsInto(nodes[x].falseNext, nodes))
      && entry.To? && PointsInto(entry, nodes)
    }

    ghost function Contents(): Table
      reads this, nodes.Values
    {
      map x | x in nodes :: Hop(StopOf(nodes[x].trueNext), StopOf(nodes[x].falseNext))
    }

    /** A copy with its own nodes; fails exactly if some handler is not registered. */
    method Clone(handlers: set<string>) returns (copy: ExecutionGraph?)
      requires Valid()
      ensures copy == null <==> !(nodes.Keys <= handlers)
      ensures copy != null ==>
                && fresh(copy) && copy.Valid() && copy.Contents() == Contents()
                && StopOf(copy.entry) == StopOf(entry) && copy.name == name && copy.version == version
                && forall x | x in copy.nodes :: fresh(copy.nodes[x])
    {
      var ok, other := CloneNodes(handlers);
      if !ok {
        return null;
      }
      LinkNodes(other);
      copy := new ExecutionGraph.Of(name, version, To(other[entry.node.name]), other);
      CopyIsValid(copy);
    }

    lemma CopyIsValid(copy: ExecutionGraph)
      requires Valid() && copy.nodes.Keys == nodes.Keys && copy.entry.To? && PointsInto(copy.entry, copy.nodes)
      requires forall x | x in nodes :: copy.nodes[x].name == x && Copied(copy.nodes, x)
      ensures copy.Valid() && copy.Contents() == Contents()
    {
      assert forall x | x in copy.nodes :: Copied(copy.nodes, x);
    }

    /** First pass: one new, unlinked node for every node. */
    method CloneNodes(handlers: set<string>) returns (ok: bool, other: Nodes)
      ensures ok <==> nodes.Keys <= handlers
      ensures ok ==> other.Keys == nodes.Keys
      ensures forall x | x in other :: fresh(other[x]) && other[x].name == x
    {
      other := map[];
      var todo := nodes.Keys;
      while todo != {}
        invariant todo <= nodes.Keys && other.Keys == nodes.Keys - todo && other.Keys <= handlers
        invariant forall x | x in other :: fresh(other[x]) && other[x].name == x
        decreases todo
      {
        var x :| x in todo;
        if x !in handlers {
          return false, other;
        }
        var node := new ExecutionNode(x);
        other := other[x := node];
        todo := todo - {x};
      }
      ok := true;
    }

    /** Second pass: links the new nodes to each other. */
    method LinkNodes(other: Nodes)
      requires Valid() && other.Keys == nodes.Keys
      requires forall x | x in other :: other[x].name == x && other[x] !in nodes.Values
      modifies other.Values
      ensures forall x | x in nodes :: Copied(other, x)
    {
      var todo := nodes.Keys;
      while todo != {}
        invariant todo <= nodes.Keys
        invariant forall x | x in nodes && x !in todo :: Copied(other, x)
        decreases todo
      {
        var x :| x in todo;
        var node := other[x];
        node.trueNext := Relocate(nodes[x].trueNext, other);
        node.falseNext := Relocate(nodes[x].falseNext, other);
        todo := todo - {x};
      }
    }

    ghost predicate Copied(other: Nodes, x: string)
      reads this, nodes.Values, other.Values
    {
      && x in nodes && x in other
      && PointsInto(other[x].trueNext, other) && StopOf(other[x].trueNext) == StopOf(nodes[x].trueNext)
      && PointsInto(other[x].falseNext, other) && StopOf(other[x].falseNext) == StopOf(nodes[x].falseNext)
    }
  }

  function Relocate(n: Next, nodes: Nodes): Next
    requires n.To? ==> n.node.name in nodes
  {
    if n.To? then To(nodes[n.node.name]) else n
  }
}
