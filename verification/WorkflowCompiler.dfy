/** The compiler: labels collect unfinished edges and attach them to nodes that are created later. */
module WorkflowCompiler {
  import opened WorkflowSyntax
  import opened WorkflowGraph
  import opened WorkflowLayout
  import opened WorkflowGraphCheck

  class Label {
    var srcs: seq<Edge>

    constructor ()
      ensures srcs == []
    {
      srcs := [];
    }

    method AddEdge(e: Edge)
      modifies this
      ensures srcs == old(srcs) + [e]
    {
      srcs := srcs + [e];
    }

    method Attach(g: Graph, t: Target)
      requires InRange(srcs, 0, |g.nodes|)
      modifies this, g`nodes
      ensures g.nodes == Patch(old(g.nodes), 0, old(srcs), t) && srcs == []
      ensures old(srcs) == [] ==> g.nodes == old(g.nodes)
    {
      var nodes := g.nodes;
      for i := 0 to |srcs|
        invariant nodes == Patch(g.nodes, 0, srcs[..i], t)
      {
        var e := srcs[i];
        assert e in srcs;
        assert srcs[..i + 1] == srcs[..i] + [e];
        var n := nodes[e.id];
        nodes := nodes[e.id := if e.direct then n.(onTrue := t) else n.(onFalse := t)];
      }
      assert srcs[..|srcs|] == srcs;
      g.nodes := nodes;
      srcs := [];
    }

    method Append(l: Label)
      requires l != this
      modifies this, l
      ensures srcs == old(srcs) + old(l.srcs) && l.srcs == []
    {
      srcs := srcs + l.srcs;
      l.srcs := [];
    }
  }

  /** Creates the node of the handler in e; the label that gets its true edge depends on the negations. */
  method CompileExp(e: Exp, g: Graph, prev: Label, next: Label) returns (entry: Target)
    modifies g`nodes, prev, next
    ensures entry == At(|old(g.nodes)|) && g.nodes == old(g.nodes) + [Node(Handler(e), Null, Null)]
    ensures prev != next ==>
              && prev.srcs == old(prev.srcs) + [CondEdge(e, entry.id, true)]
              && next.srcs == old(next.srcs) + [CondEdge(e, entry.id, false)]
    ensures prev == next ==> next.srcs == old(next.srcs) + [Edge(true, entry.id), Edge(false, entry.id)]
    ensures prev != next && e.Name? ==>
              && g.nodes[entry.id].name == e.name
              && prev.srcs == old(prev.srcs) + [Edge(true, entry.id)]
                 && next.srcs == old(next.srcs) + [Edge(false, entry.id)]
    decreases e
  {
    match e
    case Not(x) =>
      entry := CompileExp(x, g, next, prev);
    case Name(n) =>
      entry := At(|g.nodes|);
      prev.AddEdge(Edge(true, entry.id));
      next.AddEdge(Edge(false, entry.id));
      g.nodes := g.nodes + [Node(n, Null, Null)];
  }

  /**
   What every compile step does to the graph and the two labels: the edges waiting in prev point at
   the new fragment, the fragment is appended, and its own pending edges wait in next.
   */
  twostate predicate Extended(g: Graph, prev: Label, next: Label, t: Target, frag: seq<Node>, exits: seq<Edge>)
    reads g, prev, next
  {
    && g.nodes == Patch(old(g.nodes), 0, old(prev.srcs), t) + frag
    && prev.srcs == []
    && next.srcs == old(next.srcs) + exits
  }

  method CompileCallStmt(e: Exp, g: Graph, prev: Label, next: Label) returns (entry: Target)
    requires prev != next && InRange(prev.srcs, 0, |g.nodes|)
    modifies g`nodes, prev, next
    ensures entry == At(|old(g.nodes)|)
    ensures Extended(g, prev, next, entry, [Node(Handler(e), Null, Null)],
                     [Edge(true, entry.id), Edge(false, entry.id)])
  {
    entry := CompileExp(e, g, next, next);
    PatchLow(old(g.nodes), [Node(Handler(e), Null, Null)], prev.srcs, entry);
    prev.Attach(g, entry);
  }

  method CompileStmt(s: Stmt, g: Graph, prev: Label, next: Label, current: Target)
      returns (ok: bool, entry: Target)
    requires prev != next && InRange(prev.srcs, 0, |g.nodes|)
    modifies g`nodes, prev, next
    ensures ok == SupportedStmt(s)
    ensures ok ==> entry == if s.Return? then current else StmtEntry(s, |old(g.nodes)|)
    ensures ok ==> Extended(g, prev, next, StmtTarget(s, |old(g.nodes)|),
                            EmitStmt(s, |old(g.nodes)|, Null), StmtExits(s, |old(g.nodes)|))
    decreases s, 1
  {
    ok, entry := true, current;
    match s
    case Call(e) => entry := CompileCallStmt(e, g, prev, next);
    case Return => prev.Attach(g, End);
    case If(_, _, _) => ok, entry := CompileIf(s, g, prev, next);
    case While(_, _) => ok, entry := CompileWhile(s, g, prev, next);
    case DoWhile(_, _) => ok, entry := CompileDoWhile(s, g, prev, next);
  }

  method CompileIf(s: Stmt, g: Graph, prev: Label, next: Label) returns (ok: bool, entry: Target)
    requires s.If? && prev != next && InRange(prev.srcs, 0, |g.nodes|)
    modifies g`nodes, prev, next
    ensures ok == SupportedStmt(s)
    ensures ok ==> entry == At(|old(g.nodes)|)
    ensures ok ==> Extended(g, prev, next, entry, EmitStmt(s, |old(g.nodes)|, Null), StmtExits(s, |old(g.nodes)|))
    decreases s, 0
  {
    ghost var pre, lo := g.nodes, |g.nodes|;
    ok, entry := CompileBranches(s, g, next);
    if !ok { return; }
    PatchLow(pre, EmitStmt(s, lo, Null), prev.srcs, entry);
    prev.Attach(g, entry);
  }

  /** The condition and both branches, before anything is attached to the condition itself. */
  method CompileBranches(s: Stmt, g: Graph, next: Label) returns (ok: bool, entry: Target)
    requires s.If?
    modifies g`nodes, next
    ensures ok == SupportedStmt(s)
    ensures ok ==> entry == At(|old(g.nodes)|)
    ensures ok ==> g.nodes == old(g.nodes) + EmitStmt(s, |old(g.nodes)|, Null)
    ensures ok ==> next.srcs == old(next.srcs) + StmtExits(s, |old(g.nodes)|)
    decreases s, 0, 0
  {
    ghost var pre, lo := g.nodes, |g.nodes|;
    var condEnd;
    ok, entry, condEnd := CompileThen(s, g, next);
    if !ok { return; }
    var elseEntry;
    ok, elseEntry := CompileElse(s.els, g, condEnd, next);
    if !ok { return; }
    assert g.nodes == pre + EmitStmt(s, lo, Null) by {
      IfNodes(pre, s, EmitBlock(s.thenBlock, lo + 1, Null), elseEntry);
    }
    assert next.srcs == old(next.srcs) + StmtExits(s, lo) by {
      IfExits(old(next.srcs), s, lo);
    }
  }

  /** The condition and the branch taken when it holds; the other edge waits in condEnd. */
  method CompileThen(s: Stmt, g: Graph, next: Label) returns (ok: bool, entry: Target, condEnd: Label)
    requires s.If?
    modifies g`nodes, next
    ensures ok == SupportedBlock(s.thenBlock) && fresh(condEnd)
    ensures ok ==> entry == At(|old(g.nodes)|) && condEnd.srcs == [CondEdge(s.cond, |old(g.nodes)|, false)]
    ensures var lo := |old(g.nodes)|;
            ok ==>
              g.nodes == old(g.nodes) + [CondNode(s.cond, BlockEntry(s.thenBlock, lo + 1), Null)]
                         + EmitBlock(s.thenBlock, lo + 1, Null)
    ensures ok ==> next.srcs == old(next.srcs) + BlockExits(s.thenBlock, |old(g.nodes)| + 1)
    decreases s, 0, 0, 0
  {
    ghost var pre := g.nodes;
    var thenStart := new Label();
    condEnd := new Label();
    entry := CompileExp(s.cond, g, thenStart, condEnd);
    var thenEntry;
    ok, thenEntry := CompileBlock(s.thenBlock, g, thenStart, next);
    if ok {
      PatchNew(pre, s.cond, thenEntry);
      thenStart.Attach(g, thenEntry);
    }
  }

  method CompileElse(els: Else, g: Graph, condEnd: Label, next: Label) returns (ok: bool, entry: Target)
    requires condEnd != next && InRange(condEnd.srcs, 0, |g.nodes|)
    modifies g`nodes, condEnd, next
    ensures ok == (els.NoElse? || (els.ElseBlock? && SupportedBlock(els.block)))
    ensures els.NoElse? ==> g.nodes == old(g.nodes) && next.srcs == old(next.srcs) + old(condEnd.srcs)
    ensures ok && els.ElseBlock? ==>
              && entry == BlockEntry(els.block, |old(g.nodes)|)
              && Extended(g, condEnd, next, entry,
                          EmitBlock(els.block, |old(g.nodes)|, Null), BlockExits(els.block, |old(g.nodes)|))
    decreases els
  {
    ok, entry := true, Null;
    match els {
      case NoElse => next.Append(condEnd);
      case ElseBlock(eb) => ok, entry := CompileBlock(eb, g, condEnd, next);
      case ElseIf(_) => ok := false;
    }
  }

  lemma IfNodes(pre: seq<Node>, s: Stmt, body: seq<Node>, elseEntry: Target)
    requires s.If? && SupportedStmt(s) && body == EmitBlock(s.thenBlock, |pre| + 1, Null)
    ensures var head := pre + [CondNode(s.cond, BlockEntry(s.thenBlock, |pre| + 1), Null)] + body;
            && (s.els.NoElse? ==> head == pre + EmitStmt(s, |pre|, Null))
            && (s.els.ElseBlock? && elseEntry == BlockEntry(s.els.block, |head|) ==>
                  Patch(head, 0, [CondEdge(s.cond, |pre|, false)], elseEntry) + EmitBlock(s.els.block, |head|, Null)
                  == pre + EmitStmt(s, |pre|, Null))
  {
    var entry := BlockEntry(s.thenBlock, |pre| + 1);
    if s.els.NoElse? {
      Assoc(pre, [CondNode(s.cond, entry, Null)], body);
    } else {
      PatchIfHead(pre, s.cond, entry, body, elseEntry, EmitBlock(s.els.block, |pre| + 1 + |body|, Null));
    }
  }

  lemma IfExits(es: seq<Edge>, s: Stmt, lo: nat)
    requires s.If? && SupportedStmt(s)
    ensures s.els.NoElse? ==>
              es + BlockExits(s.thenBlock, lo + 1) + [CondEdge(s.cond, lo, false)] == es + StmtExits(s, lo)
    ensures s.els.ElseBlock? ==>
              es + BlockExits(s.thenBlock, lo + 1) + BlockExits(s.els.block, lo + 1 + BlockSize(s.thenBlock))
              == es + StmtExits(s, lo)
  {
  }

  lemma PatchIfHead(pre: seq<Node>, c: Exp, x: Target, body: seq<Node>, y: Target, tail: seq<Node>)
    ensures Patch(pre + [CondNode(c, x, Null)] + body, 0, [CondEdge(c, |pre|, false)], y) + tail
            == pre + ([CondNode(c, x, y)] + body + tail)
  {
  }

  method CompileWhile(s: Stmt, g: Graph, prev: Label, next: Label) returns (ok: bool, entry: Target)
    requires s.While? && prev != next && InRange(prev.srcs, 0, |g.nodes|)
    modifies g`nodes, prev, next
    ensures ok == SupportedStmt(s)
    ensures ok ==> entry == At(|old(g.nodes)|)
    ensures ok ==> Extended(g, prev, next, entry, EmitStmt(s, |old(g.nodes)|, Null), StmtExits(s, |old(g.nodes)|))
    decreases s, 0
  {
    ghost var pre, lo := g.nodes, |g.nodes|;
    ok, entry := CompileLoop(s, g, next);
    if !ok { return; }
    PatchLow(pre, EmitStmt(s, lo, Null), prev.srcs, entry);
    prev.Attach(g, entry);
  }

  /** The condition and the body of a while loop, before anything is attached to the condition itself. */
  method CompileLoop(s: Stmt, g: Graph, next: Label) returns (ok: bool, entry: Target)
    requires s.While?
    modifies g`nodes, next
    ensures ok == SupportedStmt(s)
    ensures ok ==> entry == At(|old(g.nodes)|)
    ensures ok ==> g.nodes == old(g.nodes) + EmitStmt(s, |old(g.nodes)|, Null)
    ensures ok ==> next.srcs == old(next.srcs) + StmtExits(s, |old(g.nodes)|)
    decreases s, 0, 0
  {
    ghost var pre := g.nodes;
    var bodyEnd;
    ok, entry, bodyEnd := CompileLoopBody(s, g, next);
    if !ok { return; }
    WhileNodes(pre, s);
    bodyEnd.Attach(g, entry);
  }

  /** The condition of a while loop and its body, whose pending edges wait in bodyEnd. */
  method CompileLoopBody(s: Stmt, g: Graph, next: Label) returns (ok: bool, entry: Target, bodyEnd: Label)
    requires s.While?
    modifies g`nodes, next
    ensures ok == SupportedBlock(s.body) && fresh(bodyEnd)
    ensures ok ==> entry == At(|old(g.nodes)|) && bodyEnd.srcs == BlockExits(s.body, |old(g.nodes)| + 1)
    ensures ok ==> next.srcs == old(next.srcs) + [CondEdge(s.cond, |old(g.nodes)|, false)]
    ensures var lo := |old(g.nodes)|;
            ok ==> g.nodes == Patch(old(g.nodes) + [Node(Handler(s.cond), Null, Null)], 0, [CondEdge(s.cond, lo, true)],
                                    BlockEntry(s.body, lo + 1)) + EmitBlock(s.body, lo + 1, Null)
    decreases s, 0, 0, 0
  {
    var bodyStart := new Label();
    entry := CompileExp(s.cond, g, bodyStart, next);

    bodyEnd := new Label();
    var bodyEntry;
    ok, bodyEntry := CompileBlock(s.body, g, bodyStart, bodyEnd);
    if ok {
      bodyStart.Attach(g, bodyEntry);
    }
  }

  lemma WhileNodes(pre: seq<Node>, s: Stmt)
    requires s.While? && SupportedStmt(s)
    ensures var lo, body := |pre|, s.body;
            Patch(Patch(pre + [Node(Handler(s.cond), Null, Null)], 0, [CondEdge(s.cond, lo, true)],
                        BlockEntry(body, lo + 1))
                  + EmitBlock(body, lo + 1, Null), 0, BlockExits(body, lo + 1), At(lo))
            == pre + EmitStmt(s, lo, Null)
  {
    PatchBlock(s.body, |pre| + 1, At(|pre|));
    PatchLoopStart(pre, s.cond, BlockEntry(s.body, |pre| + 1), EmitBlock(s.body, |pre| + 1, Null),
                   BlockExits(s.body, |pre| + 1));
  }

  lemma PatchLoopStart(pre: seq<Node>, c: Exp, entry: Target, body: seq<Node>, es: seq<Edge>)
    requires forall e | e in es :: |pre| < e.id
    ensures var lo := |pre|;
            Patch(Patch(pre + [Node(Handler(c), Null, Null)], 0, [CondEdge(c, lo, true)], entry) + body, 0, es, At(lo))
            == pre + ([CondNode(c, entry, Null)] + Patch(body, lo + 1, es, At(lo)))
  {
  }

  method CompileDoWhile(s: Stmt, g: Graph, prev: Label, next: Label) returns (ok: bool, entry: Target)
    requires s.DoWhile? && prev != next && InRange(prev.srcs, 0, |g.nodes|)
    modifies g`nodes, prev, next
    ensures ok == SupportedStmt(s)
    ensures ok ==> entry == BlockEntry(s.body, |old(g.nodes)|)
    ensures ok ==> Extended(g, prev, next, entry, EmitStmt(s, |old(g.nodes)|, Null), StmtExits(s, |old(g.nodes)|))
    decreases s, 0
  {
    ghost var lo := |g.nodes|;
    ghost var mid := lo + BlockSize(s.body);
    var bodyEnd := new Label();
    ok, entry := CompileBlock(s.body, g, prev, bodyEnd);
    if !ok { return; }
    ghost var pre := Patch(old(g.nodes), 0, old(prev.srcs), entry);

    CompileLoopEnd(s.cond, g, pre, entry, bodyEnd, next, EmitBlock(s.body, lo, Null));
    PatchBlock(s.body, lo, At(mid));
    prev.Attach(g, entry);
  }

  /** The condition behind a do-while body: it loops back to the entry or leaves through next. */
  method CompileLoopEnd(c: Exp, g: Graph, ghost pre: seq<Node>, entry: Target, bodyEnd: Label, next: Label,
                        ghost body: seq<Node>)
    requires g.nodes == pre + body && InRange(bodyEnd.srcs, |pre|, |pre| + |body|) && bodyEnd != next
    modifies g`nodes, bodyEnd, next
    ensures var mid := |pre| + |body|;
            && g.nodes == pre + (Patch(body, |pre|, old(bodyEnd.srcs), At(mid)) + [CondNode(c, entry, Null)])
            && next.srcs == old(next.srcs) + [CondEdge(c, mid, false)]
  {
    var holds := new Label();
    var fails := new Label();
    var condEntry := CompileExp(c, g, holds, fails);
    PatchLoopEnd(pre, c, entry, body, bodyEnd.srcs);
    holds.Attach(g, entry);
    bodyEnd.Attach(g, condEntry);
    next.Append(fails);
  }

  lemma PatchLoopEnd(pre: seq<Node>, c: Exp, entry: Target, body: seq<Node>, es: seq<Edge>)
    requires InRange(es, |pre|, |pre| + |body|)
    ensures var mid := |pre| + |body|;
            Patch(Patch(pre + body + [Node(Handler(c), Null, Null)], 0, [CondEdge(c, mid, true)], entry), 0, es,
                  At(mid))
            == pre + (Patch(body, |pre|, es, At(mid)) + [CondNode(c, entry, Null)])
  {
  }

  method CompileBlock(b: Block, g: Graph, prev: Label, next: Label) returns (ok: bool, entry: Target)
    requires prev != next && InRange(prev.srcs, 0, |g.nodes|)
    modifies g`nodes, prev, next
    ensures ok == SupportedBlock(b)
    ensures ok ==> entry == BlockEntry(b, |old(g.nodes)|)
    ensures ok ==> Extended(g, prev, next, entry, EmitBlock(b, |old(g.nodes)|, Null), BlockExits(b, |old(g.nodes)|))
    decreases b
  {
    ghost var pre := g.nodes;
    var last;
    ok, entry, last := CompileStmts(b, g);
    if !ok { return; }
    PatchLow(pre, EmitBlock(b, |pre|, Null), prev.srcs, entry);
    prev.Attach(g, entry);
    next.Append(last);
  }

  /** The statements of a block up to the first `return`, each attached to the one before it. */
  method CompileStmts(b: Block, g: Graph) returns (ok: bool, entry: Target, last: Label)
    modifies g`nodes
    ensures ok == SupportedBlock(b) && fresh(last)
    ensures ok ==> entry == BlockEntry(b, |old(g.nodes)|)
    ensures ok ==>
              g.nodes == old(g.nodes) + EmitBlock(b, |old(g.nodes)|, Null) && last.srcs == BlockExits(b, |old(g.nodes)|)
    decreases b, 0
  {
    ghost var pre, lo := g.nodes, |g.nodes|;
    last := new Label();
    var stmtNext := new Label();
    var current := Null;
    entry := Null;
    ok := true;
    var i := 0;
    ghost var done := b[..0];
    while i < |b|
      invariant 0 <= i <= |b| && done == b[..i]
      invariant fresh(last) && fresh(stmtNext) && last != stmtNext
      invariant NoReturn(done) && SupportedBlock(done)
      invariant g.nodes == pre + EmitBlock(done, lo, Null)
      invariant last.srcs == BlockExits(done, lo) && stmtNext.srcs == []
      invariant if i == 0 then current == Null else entry == BlockEntry(b, lo)
      invariant i == 0 ==> entry == Null
    {
      var s := b[i];
      assert b[..i + 1] == done + [s];
      ok, current := CompileNext(s, g, last, stmtNext, current, pre, done);
      if !ok {
        SupportedPrefix(b, i + 1);
        return;
      }
      if i == 0 {
        entry := current;
      }
      last, stmtNext := stmtNext, last;
      done := done + [s];
      i := i + 1;
      if s.Return? {
        BlockCut(b, i, lo, Null);
        break;
      }
    }
    assert b[..|b|] == b;
  }

  /** One more statement behind those done so far, whose pending edges wait in last. */
  method CompileNext(s: Stmt, g: Graph, last: Label, next: Label, current: Target, ghost pre: seq<Node>,
                     ghost done: Block)
      returns (ok: bool, entry: Target)
    requires last != next && NoReturn(done) && SupportedBlock(done) && next.srcs == []
    requires g.nodes == pre + EmitBlock(done, |pre|, Null) && last.srcs == BlockExits(done, |pre|)
    modifies g`nodes, last, next
    ensures ok == SupportedStmt(s) == SupportedBlock(done + [s])
    ensures ok ==> entry == if s.Return? then current else StmtEntry(s, |old(g.nodes)|)
    ensures ok ==> g.nodes == pre + EmitBlock(done + [s], |pre|, Null)
    ensures ok ==> last.srcs == [] && next.srcs == BlockExits(done + [s], |pre|)
    decreases s, 2
  {
    SupportedSnoc(done, s);
    ExtendBlock(pre, done, s, |pre|);
    ok, entry := CompileStmt(s, g, last, next, current);
  }

  lemma ExtendBlock(pre: seq<Node>, done: Block, s: Stmt, lo: nat)
    requires lo == |pre| && NoReturn(done) && SupportedBlock(done)
    ensures var at := lo + BlockSize(done);
            && Patch(pre + EmitBlock(done, lo, Null), 0, BlockExits(done, lo), StmtTarget(s, at))
               + EmitStmt(s, at, Null)
               == pre + EmitBlock(done + [s], lo, Null)
            && StmtExits(s, at) == BlockExits(done + [s], lo)
  {
    var at := lo + BlockSize(done);
    PatchHigh(pre, EmitBlock(done, lo, Null), BlockExits(done, lo), StmtTarget(s, at));
    PatchBlock(done, lo, StmtTarget(s, at));
    EmitSnoc(done, s, lo, Null, at, StmtTarget(s, at), EmitStmt(s, at, Null));
    ExitsSnoc(done, s, lo);
    Assoc(pre, EmitBlock(done, lo, StmtTarget(s, at)), EmitStmt(s, at, Null));
  }

  lemma {:induction false} SupportedPrefix(b: Block, k: nat)
    requires k <= |b| && !SupportedBlock(b[..k])
    ensures !SupportedBlock(b)
    decreases k
  {
    assert b[..k][1..] == b[1..][..k - 1];
    if SupportedStmt(b[0]) {
      SupportedPrefix(b[1..], k - 1);
    }
  }
}
