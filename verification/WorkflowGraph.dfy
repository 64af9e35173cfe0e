/** Compiled workflow graphs: nodes with a true edge and a false edge, and how they are walked. */
module WorkflowGraph {

  /** What an edge points to: nothing yet, the shared end node, or a node of the graph. */
  datatype Target = Null | End | At(id: nat)

  datatype Node = Node(name: string, onTrue: Target, onFalse: Target)

  function Succ(n: Node, direct: bool): Target {
    if direct then n.onTrue else n.onFalse
  }

  predicate Inside(g: seq<Node>, t: Target) {
    t.At? && t.id < |g|
  }

  /** Where the walk from t stands after the handlers returned rs. */
  function Pos(g: seq<Node>, t: Target, rs: seq<bool>): Target
    decreases |rs|
  {
    if rs == [] || !Inside(g, t) then t
    else Pos(g, Succ(g[t.id], rs[0]), rs[1..])
  }

  /** The handlers that run, in order, when the walk from t gets the results rs. */
  function Walk(g: seq<Node>, t: Target, rs: seq<bool>): seq<string>
    decreases |rs|
  {
    if rs == [] || !Inside(g, t) then []
    else [g[t.id].name] + Walk(g, Succ(g[t.id], rs[0]), rs[1..])
  }

  /** Some sequence of handler results leads from t to node n. */
  ghost predicate Reaches(g: seq<Node>, t: Target, n: nat) {
    exists rs :: Pos(g, t, rs) == At(n)
  }

  lemma {:induction false} PosAppend(g: seq<Node>, t: Target, rs: seq<bool>, ss: seq<bool>)
    ensures Pos(g, t, rs + ss) == Pos(g, Pos(g, t, rs), ss)
    decreases |rs|
  {
    if rs == [] || !Inside(g, t) {
      assert rs == [] ==> rs + ss == ss;
    } else {
      assert (rs + ss)[1..] == rs[1..] + ss;
      PosAppend(g, Succ(g[t.id], rs[0]), rs[1..], ss);
    }
  }

  lemma ReachesStep(g: seq<Node>, t: Target, n: nat, d: bool)
    requires Reaches(g, t, n) && n < |g| && Succ(g[n], d).At?
    ensures Reaches(g, t, Succ(g[n], d).id)
  {
    var rs :| Pos(g, t, rs) == At(n);
    PosAppend(g, t, rs, [d]);
    assert Pos(g, t, rs + [d]) == Succ(g[n], d);
  }

  /** A set of nodes no edge leaves. */
  ghost predicate Closed(g: seq<Node>, s: iset<nat>) {
    forall n, d | n in s && n < |g| && Succ(g[n], d).At? :: Succ(g[n], d).id in s
  }

  lemma {:induction false} ClosedKeepsWalk(g: seq<Node>, s: iset<nat>, t: Target, rs: seq<bool>)
    requires Closed(g, s) && (t.At? ==> t.id in s)
    ensures Pos(g, t, rs).At? ==> Pos(g, t, rs).id in s
    decreases |rs|
  {
    if rs != [] && Inside(g, t) {
      ClosedKeepsWalk(g, s, Succ(g[t.id], rs[0]), rs[1..]);
    }
  }

  // ----- Back-patching, seen on values -----

  /** An edge still to be filled in: the `direct` edge of node `id`. */
  datatype Edge = Edge(direct: bool, id: nat)

  /** The nodes numbered from lo on, with every edge named in es pointed at t. */
  function Patch(nodes: seq<Node>, lo: nat, es: seq<Edge>, t: Target): (r: seq<Node>)
    ensures |r| == |nodes|
  {
    seq(|nodes|, i requires 0 <= i < |nodes| => PatchNode(nodes[i], lo + i, es, t))
  }

  function PatchNode(n: Node, id: nat, es: seq<Edge>, t: Target): Node {
    Node(n.name,
         if Edge(true, id) in es then t else n.onTrue,
         if Edge(false, id) in es then t else n.onFalse)
  }

  ghost predicate InRange(es: seq<Edge>, lo: nat, hi: nat) {
    forall e | e in es :: lo <= e.id < hi
  }

  lemma PatchConcat(a: seq<Node>, b: seq<Node>, lo: nat, es: seq<Edge>, t: Target)
    ensures Patch(a + b, lo, es, t) == Patch(a, lo, es, t) + Patch(b, lo + |a|, es, t)
  {
  }

  lemma PatchNothing(a: seq<Node>, lo: nat, es: seq<Edge>, t: Target)
    requires forall e | e in es :: !(lo <= e.id < lo + |a|)
    ensures Patch(a, lo, es, t) == a
  {
  }

  lemma PatchIrrelevant(a: seq<Node>, lo: nat, es: seq<Edge>, fs: seq<Edge>, t: Target)
    requires forall e | e in fs :: !(lo <= e.id < lo + |a|)
    ensures Patch(a, lo, es + fs, t) == Patch(a, lo, es, t) == Patch(a, lo, fs + es, t)
  {
  }

  lemma Assoc<T>(a: seq<T>, b: seq<T>, c: seq<T>)
    ensures a + b + c == a + (b + c)
  {
  }

  lemma PatchLow(pre: seq<Node>, frag: seq<Node>, es: seq<Edge>, t: Target)
    requires InRange(es, 0, |pre|)
    ensures Patch(pre + frag, 0, es, t) == Patch(pre, 0, es, t) + frag
  {
  }

  lemma PatchHigh(pre: seq<Node>, frag: seq<Node>, es: seq<Edge>, t: Target)
    requires forall e | e in es :: |pre| <= e.id
    ensures Patch(pre + frag, 0, es, t) == pre + Patch(frag, |pre|, es, t)
  {
  }
}
