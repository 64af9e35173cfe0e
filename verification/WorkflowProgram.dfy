/** Compiling whole workflow files: what is accepted, and what accepted workflows do. */
module WorkflowProgram {
  import opened WorkflowSyntax
  import opened WorkflowGraph
  import opened WorkflowLayout
  import opened WorkflowGraphCheck
  import opened WorkflowCorrectness
  import opened WorkflowAcceptance
  import opened WorkflowCompiler

  datatype Workflow = Workflow(name: string, block: Block)

  /** Decided on the program text: no `else if`, and either no handlers at all or an acceptable block. */
  predicate Accepted(b: Block) {
    SupportedBlock(b) && (BlockSize(b) == 0 || Acceptable(b))
  }

  /**
   Whatever the handlers return, walking the graph from its entry runs the handlers of the program,
   and reaches the end node exactly when the program is over.
   */
  ghost predicate Runs(nodes: seq<Node>, entry: Target, b: Block) {
    forall rs ::
      && Walk(nodes, entry, rs) == Trace(b, rs)
      && (entry != Null ==> (Pos(nodes, entry, rs) == End <==> !RunBlock(b, rs).Suspended?))
  }

  ghost predicate GraphOf(g: Graph, w: Workflow)
    reads g
  {
    && g.name == w.name
    && g.nodes == EmitBlock(w.block, 0, End)
    && g.entry == BlockEntry(w.block, 0)
    && Runs(g.nodes, g.entry, w.block)
  }

  lemma AcceptedRuns(b: Block)
    requires Accepted(b)
    ensures Runs(EmitBlock(b, 0, End), BlockEntry(b, 0), b)
  {
    var g, entry := EmitBlock(b, 0, End), BlockEntry(b, 0);
    forall rs
      ensures Walk(g, entry, rs) == Trace(b, rs)
      ensures entry != Null ==> (Pos(g, entry, rs) == End <==> !RunBlock(b, rs).Suspended?)
    {
      if Startable(b) {
        StmtSizePositive(b[0]);
        CompiledRunsProgram(b, rs);
      } else if b != [] {
        assert RunStmt(b[0], rs) == Returned([]) && StmtEntry(b[0], 0) == Null;
      }
    }
  }

  method CompileWorkflow(w: Workflow, graphs: map<string, Graph>) returns (ok: bool, graphs': map<string, Graph>)
    ensures ok == (w.name !in graphs && Accepted(w.block))
    ensures !ok ==> graphs' == graphs
    ensures ok ==> w.name in graphs' && graphs' == graphs[w.name := graphs'[w.name]]
    ensures ok ==> fresh(graphs'[w.name]) && GraphOf(graphs'[w.name], w)
  {
    graphs' := graphs;
    if w.name in graphs {
      return false, graphs;
    }
    var g := new Graph(w.name);
    var prev := new Label();
    var next := new Label();
    var entry;
    ok, entry := CompileBlock(w.block, g, prev, next);
    if !ok {
      return;
    }
    assert g.nodes == EmitBlock(w.block, 0, Null) && next.srcs == BlockExits(w.block, 0);
    next.Attach(g, End);
    PatchBlock(w.block, 0, End);
    g.entry := entry;
    BlockEntryRange(w.block, 0);
    BlockEdgesInside(w.block);
    ok := g.CheckValid(Ids(|g.nodes|));
    if BlockSize(w.block) > 0 {
      AcceptanceIsExact(w.block);
      if entry != Null {
        AllOwned(g.nodes, entry);
      }
    }
    if ok {
      AcceptedRuns(w.block);
      graphs' := graphs[w.name := g];
    }
  }

  predicate DistinctNames(ws: seq<Workflow>) {
    forall i, j | 0 <= i < j < |ws| :: ws[i].name != ws[j].name
  }

  predicate AllAccepted(ws: seq<Workflow>) {
    forall w | w in ws :: Accepted(w.block)
  }

  function Names(ws: seq<Workflow>): set<string> {
    set w | w in ws :: w.name
  }

  /** graphs is given with the graphs of ws added, none of which had a name that was taken. */
  ghost predicate Added(given: map<string, Graph>, graphs: map<string, Graph>, ws: seq<Workflow>)
    reads graphs.Values
  {
    && graphs.Keys == given.Keys + Names(ws) && Names(ws) !! given.Keys
    && (forall n | n in given :: graphs[n] == given[n])
    && forall w | w in ws :: GraphOf(graphs[w.name], w)
  }

  lemma AddOne(given: map<string, Graph>, before: map<string, Graph>, after: map<string, Graph>, ws: seq<Workflow>,
               w: Workflow)
    requires Added(given, before, ws) && w.name !in before
    requires w.name in after && after == before[w.name := after[w.name]] && GraphOf(after[w.name], w)
    ensures Added(given, after, ws + [w])
  {
    NamesSnoc(ws, w);
    forall v | v in ws + [w] ensures GraphOf(after[v.name], v) {
      if v in ws {
        assert v.name in before && GraphOf(before[v.name], v);
      }
    }
  }

  lemma NamesSnoc(ws: seq<Workflow>, w: Workflow)
    ensures Names(ws + [w]) == Names(ws) + {w.name}
  {
  }

  /** Every workflow of the list can be added to what is given. */
  predicate AllAddable(ws: seq<Workflow>, given: set<string>) {
    DistinctNames(ws) && AllAccepted(ws) && Names(ws) !! given
  }

  lemma AddableSnoc(ws: seq<Workflow>, w: Workflow, given: set<string>)
    ensures AllAddable(ws + [w], given) <==> AllAddable(ws, given) && Accepted(w.block) && w.name !in given + Names(ws)
  {
    NamesSnoc(ws, w);
    var all := ws + [w];
    assert all[|ws|] == w;
    if DistinctNames(all) {
      forall i, j | 0 <= i < j < |ws| ensures ws[i].name != ws[j].name {
        assert all[i] == ws[i] && all[j] == ws[j];
      }
      forall v | v in ws ensures v.name != w.name {
        var i :| 0 <= i < |ws| && ws[i] == v;
        assert all[i] == v;
      }
    }
    assert AllAccepted(all) <==> AllAccepted(ws) && Accepted(w.block);
  }

  lemma {:induction false} AddablePrefix(ws: seq<Workflow>, k: nat, given: set<string>)
    requires k <= |ws| && AllAddable(ws, given)
    ensures AllAddable(ws[..k], given)
  {
  }

  /**
   Adds the workflows of a file to the graphs there are. It stops at the first that is not acceptable
   or whose name is taken; the ones before it stay, and every added graph runs its workflow.
   */
  method CompileInner(ws: seq<Workflow>, given: map<string, Graph>)
      returns (ok: bool, graphs: map<string, Graph>, ghost done: nat)
    ensures ok <==> AllAddable(ws, given.Keys)
    ensures done <= |ws| && Added(given, graphs, ws[..done]) && (ok <==> done == |ws|)
    ensures !ok ==> ws[done].name in graphs || !Accepted(ws[done].block)
  {
    graphs, done := given, 0;
    assert ws[..0] == [];
    for i := 0 to |ws|
      invariant done == i && AllAddable(ws[..i], given.Keys) && Added(given, graphs, ws[..i])
    {
      ghost var before := graphs;
      assert ws[..i + 1] == ws[..i] + [ws[i]];
      AddableSnoc(ws[..i], ws[i], given.Keys);
      ok, graphs := CompileWorkflow(ws[i], graphs);
      if !ok {
        if AllAddable(ws, given.Keys) {
          AddablePrefix(ws, i + 1, given.Keys);
        }
        return;
      }
      AddOne(given, before, graphs, ws[..i], ws[i]);
      done := done + 1;
    }
    assert ws[..|ws|] == ws;
    ok := true;
  }
}
