/** From program text to running threads: the whole chain in one statement. */
module Orchestration {
  import opened WorkflowSyntax
  import opened WorkflowLayout
  import opened WorkflowCorrectness
  import opened WorkflowAcceptance
  import opened WorkflowProgram
  import opened ExecutionGraphs
  import opened ExecutionGraphMgr
  import opened Contexts
  import opened AsyncRun

  lemma RepresentedIsClosed(g: seq<WF.Node>, t: Table)
    requires Checked(g) && Represents(t, g)
    ensures Closed(t)
  {
    forall x, d | x in t ensures Follow(t[x], d) == Done || (Follow(t[x], d).Handler? && Follow(t[x], d).name in t) {
      var i :| 0 <= i < |g| && g[i].name == x && t[x] == HopOf(g, i);
      assert WorkflowGraphCheck.Complete(g[i]);
      var e := WF.Succ(g[i], d);
      assert Follow(t[x], d) == NameOf(g, e);
    }
  }

  /**
   Take an accepted workflow whose equally named handler occurrences agree, and any table an execution
   graph built from it or cloned from that may have. Then every interleaving of threads and RPC
   completions walks through the handlers of the structured program, each visit's answer deciding its
   branch, and the walk is over exactly when the program is.
   */
  lemma WorkflowRunsAsWritten(b: Block, w: World, run: seq<Action>)
    requires Accepted(b) && BlockSize(b) > 0
    requires var g := EmitBlock(b, 0, WF.End);
             NamesDecide(g) && Represents(w.table, g) && w.entry == NameOf(g, BlockEntry(b, 0))
    requires w.entry.Handler? && w.entry.name in w.table
    requires forall k :: Begin(w.visits(k)).Launch? ==> Begin(w.visits(k)).calls > 0
    ensures var c := StateAfter(w, run).ctx;
            && c.path == Trace(b, Answers(w, |c.path|))
            && (c.node == Done <==> !RunBlock(b, Answers(w, |c.path|)).Suspended?)
  {
    var g, entry := EmitBlock(b, 0, WF.End), BlockEntry(b, 0);
    AcceptanceIsExact(b);
    BlockEdgesInside(b);
    RepresentedIsClosed(g, w.table);
    AsyncIsTransparent(w, run);
    var rs := Answers(w, |StateAfter(w, run).ctx.path|);
    WalksAgree(g, w.table, entry, rs);
    PositionsMatch(g, w.table, entry, rs);
    CompiledRunsProgram(b, rs);
  }

  lemma {:induction false} PositionsMatch(g: seq<WF.Node>, t: Table, u: WF.Target, rs: seq<bool>)
    requires Checked(g) && NamesDecide(g) && Represents(t, g)
    requires u.End? || (WF.Inside(g, u) && g[u.id].name in t)
    ensures Position(t, NameOf(g, u), rs) == Done <==> WF.Pos(g, u, rs) == WF.End
    decreases |rs|
  {
    if rs != [] && u.At? {
      var x := g[u.id].name;
      var i :| 0 <= i < |g| && g[i].name == x && t[x] == HopOf(g, i);
      assert t[x] == HopOf(g, u.id);
      var v := WF.Succ(g[u.id], rs[0]);
      assert NameOf(g, v) == Follow(t[x], rs[0]);
      PositionsMatch(g, t, v, rs[1..]);
    }
  }

  lemma CalledTwiceEmits()
    ensures var b := [Call(Name("A")), Call(Name("A"))];
            Accepted(b) && EmitBlock(b, 0, WF.End) == [WF.Node("A", WF.At(1), WF.At(1)), WF.Node("A", WF.End, WF.End)]
  {
    var b := [Call(Name("A")), Call(Name("A"))];
    assert b[1..] == [Call(Name("A"))] && b[1..][1..] == [];
    assert EmitBlock(b[1..], 1, WF.End) == [WF.Node("A", WF.End, WF.End)];
  }

  /**
   A workflow that calls one handler twice is accepted and over after two visits, but as built it goes on for ever.
   */
  lemma CalledTwiceNeverEnds(n: nat)
    ensures var b := [Call(Name("A")), Call(Name("A"))];
            var g := EmitBlock(b, 0, WF.End);
            && Accepted(b) && |Trace(b, seq(n, _ => true))| <= 2
            && Checked(g) && WF.Inside(g, WF.At(0))
            && |Walk(FirstTable(g, WF.At(0)), Handler("A"), seq(n, _ => true))| == n
  {
    var b := [Call(Name("A")), Call(Name("A"))];
    CalledTwiceEmits();
    RepeatedHandlerLoops(n);
    CompiledRunsProgram(b, seq(n, _ => true));
  }
}
