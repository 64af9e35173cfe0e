/** The graph object and its validity check. */
module WorkflowGraphCheck {
  import opened Collections
  import opened WorkflowGraph

  predicate Complete(n: Node) {
    !n.onTrue.Null? && !n.onFalse.Null?
  }

  /** Every edge is unset, at the end node, or at a node of g. */
  ghost predicate EdgesInside(g: seq<Node>) {
    forall i, d | 0 <= i < |g| && Succ(g[i], d).At? :: Succ(g[i], d).id < |g|
  }

  /** Every node has both edges and can be reached from the entry. */
  ghost predicate Sound(g: seq<Node>, entry: Target) {
    forall i | 0 <= i < |g| :: Complete(g[i]) && Reaches(g, entry, i)
  }

  function Ids(n: nat): (r: set<nat>)
    ensures |r| == n && forall i: nat :: i in r <==> i < n
  {
    if n == 0 then {} else Ids(n - 1) + {n - 1}
  }

  /** Equally large sets, one inside the other, are the same. */
  lemma SubsetSameSize(a: set<nat>, b: set<nat>)
    requires a <= b && |a| == |b|
    ensures a == b
  {
    if a != b {
      assert !(b <= a);
      var x :| x in b && x !in a;
      assert a <= b - {x};
      SubsetSize(a, b - {x});
    }
  }

  lemma ReachesFrom(g: seq<Node>, n: nat, d: bool, m: nat)
    requires n < |g| && Reaches(g, Succ(g[n], d), m)
    ensures Reaches(g, At(n), m)
  {
    var rs :| Pos(g, Succ(g[n], d), rs) == At(m);
    var ss := [d] + rs;
    assert ss[1..] == rs;
    assert Pos(g, At(n), ss) == At(m);
  }

  /** Node m is in the graph, within reach of t, and lacks an edge. */
  ghost predicate Broken(g: seq<Node>, t: Target, m: nat) {
    m < |g| && !Complete(g[m]) && Reaches(g, t, m)
  }

  /** The nodes of s have both edges, and these lead into `now`. */
  ghost predicate Explored(g: seq<Node>, s: set<nat>, now: set<nat>) {
    forall m | m in s :: m < |g| && Complete(g[m]) && LeadsInto(g[m].onTrue, now) && LeadsInto(g[m].onFalse, now)
  }

  predicate LeadsInto(t: Target, now: set<nat>) {
    t.At? ==> t.id in now
  }

  /** The nodes within reach of t. */
  ghost function Within(g: seq<Node>, t: Target): set<nat> {
    set m | m in Ids(|g|) && Reaches(g, t, m)
  }

  /** No edge of a node of `own` leads to another node. */
  ghost predicate KeepsTo(g: seq<Node>, own: set<nat>) {
    forall n, d | n in own && n < |g| && Succ(g[n], d).At? :: Succ(g[n], d).id in own
  }

  /** `nodes` are the nodes the edges can lead to; a compiled graph owns all of them. */
  class Graph {
    const name: string
    var nodes: seq<Node>
    var entry: Target

    constructor (name: string)
      ensures this.name == name && nodes == [] && entry == Null
    {
      this.name, nodes, entry := name, [], Null;
    }

    /** Depth-first search that adds what it meets to the checked nodes. */
    method CheckNode(n: nat, checked: set<nat>) returns (ok: bool, now: set<nat>)
      requires EdgesInside(nodes) && n < |nodes| && checked <= Ids(|nodes|)
      ensures checked <= now <= Ids(|nodes|)
      ensures forall m | m in now - checked :: Reaches(nodes, At(n), m)
      ensures ok ==> n in now && Complete(nodes[n])
      ensures ok ==> Explored(nodes, now - checked, now)
      ensures !ok ==> exists m: nat :: Broken(nodes, At(n), m)
      decreases Ids(|nodes|) - checked, 0
    {
      assert Pos(nodes, At(n), []) == At(n);
      assert Reaches(nodes, At(n), n);
      if nodes[n].onTrue == Null || nodes[n].onFalse == Null {
        assert Broken(nodes, At(n), n);
        return false, checked;
      }
      if n in checked {
        return true, checked;
      }
      now := checked + {n};
      ok, now := CheckEdge(n, true, now);
      if !ok { return; }
      ghost var half := now;
      ok, now := CheckEdge(n, false, now);
      if !ok { return; }
      assert Explored(nodes, half - checked - {n}, half) && Explored(nodes, now - half, now);
    }

    /** Continues the search behind one edge of n. */
    method CheckEdge(n: nat, d: bool, checked: set<nat>) returns (ok: bool, now: set<nat>)
      requires EdgesInside(nodes) && n < |nodes| && Complete(nodes[n]) && checked <= Ids(|nodes|)
      ensures checked <= now <= Ids(|nodes|)
      ensures forall m | m in now - checked :: Reaches(nodes, At(n), m)
      ensures ok ==> LeadsInto(Succ(nodes[n], d), now)
      ensures ok ==> Explored(nodes, now - checked, now)
      ensures !ok ==> exists m: nat :: Broken(nodes, At(n), m)
      decreases Ids(|nodes|) - checked, 1
    {
      ok, now := true, checked;
      var t := Succ(nodes[n], d);
      if t != End {
        ok, now := CheckNode(t.id, checked);
        FoundVia(nodes, n, d, now - checked);
      }
    }

    method CheckEntry(own: set<nat>) returns (ok: bool)
      ensures ok == (entry.At? && entry.id in own)
    {
      var todo := own;
      while todo != {}
        invariant todo <= own
        invariant entry.At? && entry.id in own ==> entry.id in todo
      {
        var n :| n in todo;
        if At(n) == entry {
          return true;
        }
        todo := todo - {n};
      }
      return false;
    }

    /**
     The check of a graph that owns the nodes `own`: the entry is one of them, there are as many of them as nodes
     within reach of the entry, and these have both edges.
     */
    method CheckValid(own: set<nat>) returns (ok: bool)
      requires EdgesInside(nodes) && own <= Ids(|nodes|) && (entry == Null || Inside(nodes, entry))
      ensures ok == if entry == Null then own == {} else
                && entry.id in own && |Within(nodes, entry)| == |own|
                && forall m | m in Within(nodes, entry) :: Complete(nodes[m])
    {
      if entry == Null {
        return own == {};
      }
      var checked;
      ok, checked := CheckNode(entry.id, {});
      if !ok {
        ghost var m: nat :| Broken(nodes, At(entry.id), m);
        assert m in Within(nodes, entry);
        return false;
      }
      SearchIsComplete(nodes, entry, checked);
      if |checked| != |own| {
        return false;
      }
      ok := CheckEntry(own);
    }
  }

  /** A search that met no broken node met exactly the nodes within reach. */
  lemma SearchIsComplete(g: seq<Node>, entry: Target, checked: set<nat>)
    requires Inside(g, entry) && entry.id in checked && checked <= Ids(|g|) && Explored(g, checked - {}, checked)
    requires forall m | m in checked - {} :: Reaches(g, At(entry.id), m)
    ensures checked == Within(g, entry) && forall m | m in checked :: Complete(g[m])
  {
    assert checked - {} == checked;
    ReachedAreChecked(g, entry, checked);
  }

  /** The check of a graph that owns all nodes decides whether the graph is sound. */
  lemma AllOwned(g: seq<Node>, entry: Target)
    requires Inside(g, entry)
    ensures |Within(g, entry)| == |g| && (forall m | m in Within(g, entry) :: Complete(g[m])) <==> Sound(g, entry)
  {
    var r := Within(g, entry);
    if |r| == |g| && forall m | m in r :: Complete(g[m]) {
      SubsetSameSize(r, Ids(|g|));
      forall i: nat | i < |g| ensures Complete(g[i]) && Reaches(g, entry, i) {
        assert i in Ids(|g|);
      }
    }
    if Sound(g, entry) {
      assert r == Ids(|g|);
    }
  }

  /**
   The check compares sizes, not sets. Of a graph that passes, the nodes within reach of the entry are its own ones
   exactly if its edges keep to them.
   */
  lemma SizeTestIsExact(g: seq<Node>, entry: Target, own: set<nat>)
    requires EdgesInside(g) && Inside(g, entry) && own <= Ids(|g|) && entry.id in own && |Within(g, entry)| == |own|
    ensures Within(g, entry) == own <==> KeepsTo(g, own)
  {
    var r := Within(g, entry);
    if KeepsTo(g, own) {
      forall m | m in r ensures m in own {
        var rs :| Pos(g, entry, rs) == At(m);
        ClosedKeepsWalk(g, (iset i | i in own), entry, rs);
      }
      SubsetSameSize(r, own);
    }
    if r == own {
      forall n, d | n in own && n < |g| && Succ(g[n], d).At? ensures Succ(g[n], d).id in own {
        ReachesStep(g, entry, n, d);
      }
    }
  }

  /** A graph with an edge to a node of another graph and a node of its own that nothing leads to passes. */
  lemma ForeignNodePasses()
    ensures var g := [Node("A", At(1), At(1)), Node("B", End, End), Node("C", End, End)];
            && EdgesInside(g) && Within(g, At(0)) == {0, 1} && |{0, 1}| == |{0, 2}|
            && (forall m | m in Within(g, At(0)) :: Complete(g[m])) && !Reaches(g, At(0), 2)
  {
    var g := [Node("A", At(1), At(1)), Node("B", End, End), Node("C", End, End)];
    assert Pos(g, At(0), []) == At(0);
    assert Reaches(g, At(0), 0);
    ReachesStep(g, At(0), 0, true);
    if Reaches(g, At(0), 2) {
      var rs :| Pos(g, At(0), rs) == At(2);
      ClosedKeepsWalk(g, iset{0, 1}, At(0), rs);
    }
    assert Ids(3) == {0, 1, 2};
  }

  /** What can be reached from a successor of n can be reached from n. */
  lemma FoundVia(g: seq<Node>, n: nat, d: bool, found: set<nat>)
    requires n < |g| && Succ(g[n], d).At?
    requires forall m | m in found :: Reaches(g, At(Succ(g[n], d).id), m)
    ensures forall m | m in found :: Reaches(g, At(n), m)
    ensures (exists m: nat :: Broken(g, At(Succ(g[n], d).id), m)) ==> exists m: nat :: Broken(g, At(n), m)
  {
    forall m | m in found ensures Reaches(g, At(n), m) { ReachesFrom(g, n, d, m); }
    if m: nat :| Broken(g, At(Succ(g[n], d).id), m) {
      ReachesFrom(g, n, d, m);
      assert Broken(g, At(n), m);
    }
  }

  lemma ReachedAreChecked(g: seq<Node>, entry: Target, checked: set<nat>)
    requires entry.At? && entry.id in checked
    requires Explored(g, checked, checked)
    ensures forall m | 0 <= m < |g| && Reaches(g, entry, m) :: m in checked
  {
    forall m | 0 <= m < |g| && Reaches(g, entry, m) ensures m in checked {
      var rs :| Pos(g, entry, rs) == At(m);
      var s := iset i | i in checked;
      ClosedKeepsWalk(g, s, entry, rs);
    }
  }
}
