/**
 The graph a block compiles to, described directly: node numbers are handed out in program order and
 every edge is written with its final target. Back-patching is proved to produce exactly this.
 */
module WorkflowLayout {
  import opened WorkflowSyntax
  import opened WorkflowGraph

  /** Compilation stops at the first `return` of a block and gives up on `else if`. */
  predicate SupportedStmt(s: Stmt) {
    match s
    case Call(_) => true
    case Return => true
    case If(_, th, els) =>
      && SupportedBlock(th)
      && (match els
          case NoElse => true
          case ElseBlock(eb) => SupportedBlock(eb)
          case ElseIf(_) => false)
    case While(_, body) => SupportedBlock(body)
    case DoWhile(body, _) => SupportedBlock(body)
  }

  predicate SupportedBlock(b: Block) {
    b == [] || b[0].Return? || (SupportedStmt(b[0]) && SupportedBlock(b[1..]))
  }

  function StmtSize(s: Stmt): nat {
    match s
    case Call(_) => 1
    case Return => 0
    case If(_, th, els) => 1 + BlockSize(th) + (if els.ElseBlock? then BlockSize(els.block) else 0)
    case While(_, body) => 1 + BlockSize(body)
    case DoWhile(body, _) => BlockSize(body) + 1
  }

  function BlockSize(b: Block): nat {
    if b == [] || b[0].Return? then 0 else StmtSize(b[0]) + BlockSize(b[1..])
  }

  /** The first node of a statement numbered from lo on. */
  function StmtEntry(s: Stmt, lo: nat): Target {
    match s
    case Return => Null
    case DoWhile(body, _) => BlockEntry(body, lo)
    case _ => At(lo)
  }

  function BlockEntry(b: Block, lo: nat): Target {
    if b == [] then Null else StmtEntry(b[0], lo)
  }

  /** What the pending edges in front of s are pointed at. */
  function StmtTarget(s: Stmt, lo: nat): Target {
    if s.Return? then End else StmtEntry(s, lo)
  }

  /** Where control goes that is about to run b and then t. */
  function BlockTarget(b: Block, lo: nat, t: Target): Target {
    if b == [] then t else StmtTarget(b[0], lo)
  }

  function CondNode(e: Exp, holds: Target, fails: Target): Node {
    if Negated(e) then Node(Handler(e), fails, holds) else Node(Handler(e), holds, fails)
  }

  function EmitStmt(s: Stmt, lo: nat, t: Target): (r: seq<Node>)
    ensures |r| == StmtSize(s)
  {
    match s
    case Call(e) => [Node(Handler(e), t, t)]
    case Return => []
    case If(c, th, els) =>
      var mid := lo + 1 + BlockSize(th);
      (match els
       case NoElse => [CondNode(c, BlockEntry(th, lo + 1), t)] + EmitBlock(th, lo + 1, t)
       case ElseBlock(eb) =>
         [CondNode(c, BlockEntry(th, lo + 1), BlockEntry(eb, mid))] + EmitBlock(th, lo + 1, t) + EmitBlock(eb, mid, t)
       case ElseIf(_) => [CondNode(c, BlockEntry(th, lo + 1), Null)] + EmitBlock(th, lo + 1, t))
    case While(c, body) => [CondNode(c, BlockEntry(body, lo + 1), t)] + EmitBlock(body, lo + 1, At(lo))
    case DoWhile(body, c) =>
      EmitBlock(body, lo, At(lo + BlockSize(body))) + [CondNode(c, BlockEntry(body, lo), t)]
  }

  function EmitBlock(b: Block, lo: nat, t: Target): (r: seq<Node>)
    ensures |r| == BlockSize(b)
  {
    if b == [] || b[0].Return? then []
    else
      var mid := lo + StmtSize(b[0]);
      EmitStmt(b[0], lo, BlockTarget(b[1..], mid, t)) + EmitBlock(b[1..], mid, t)
  }

  // ----- Pending edges -----

  /** The edge of a condition that is taken when the condition has the value v. */
  function CondEdge(e: Exp, id: nat, v: bool): Edge {
    Edge(v != Negated(e), id)
  }

  /** The edges of a statement that wait for whatever comes after it, in the order they are recorded. */
  function StmtExits(s: Stmt, lo: nat): (r: seq<Edge>)
    ensures InRange(r, lo, lo + StmtSize(s))
  {
    match s
    case Call(e) => [Edge(true, lo), Edge(false, lo)]
    case Return => []
    case If(c, th, els) =>
      BlockExits(th, lo + 1) +
      (match els
       case NoElse => [CondEdge(c, lo, false)]
       case ElseBlock(eb) => BlockExits(eb, lo + 1 + BlockSize(th))
       case ElseIf(_) => [])
    case While(c, _) => [CondEdge(c, lo, false)]
    case DoWhile(body, c) => [CondEdge(c, lo + BlockSize(body), false)]
  }

  function BlockExits(b: Block, lo: nat): (r: seq<Edge>)
    ensures InRange(r, lo, lo + BlockSize(b))
  {
    if b == [] || b[0].Return? then []
    else if |b| == 1 then StmtExits(b[0], lo)
    else BlockExits(b[1..], lo + StmtSize(b[0]))
  }

  /** Patching the edge of a condition that is taken when it fails. */
  lemma PatchCond(c: Exp, id: nat, x: Target, es: seq<Edge>, t: Target)
    requires CondEdge(c, id, false) in es && CondEdge(c, id, true) !in es
    ensures Patch([CondNode(c, x, Null)], id, es, t) == [CondNode(c, x, t)]
  {
  }

  /** Patching the edge of a new condition that is taken when it holds. */
  lemma PatchNew(pre: seq<Node>, c: Exp, x: Target)
    ensures Patch(pre + [Node(Handler(c), Null, Null)], 0, [CondEdge(c, |pre|, true)], x)
            == pre + [CondNode(c, x, Null)]
  {
  }

  /** Patching three consecutive pieces, of which the last two have pending edges. */
  lemma PatchThree(a: seq<Node>, b: seq<Node>, c: seq<Node>, lo: nat, es: seq<Edge>, fs: seq<Edge>, t: Target)
    requires InRange(es, lo + |a|, lo + |a| + |b|) && InRange(fs, lo + |a| + |b|, lo + |a| + |b| + |c|)
    ensures Patch(a + b + c, lo, es + fs, t)
            == a + Patch(b, lo + |a|, es, t) + Patch(c, lo + |a| + |b|, fs, t)
  {
  }

  ghost predicate Patches(frag: seq<Node>, lo: nat, es: seq<Edge>, t: Target, result: seq<Node>) {
    Patch(frag, lo, es, t) == result
  }

  lemma PatchIf(c: Exp, th: Block, lo: nat, t: Target)
    requires Patches(EmitBlock(th, lo + 1, Null), lo + 1, BlockExits(th, lo + 1), t, EmitBlock(th, lo + 1, t))
    ensures var s := If(c, th, NoElse); Patches(EmitStmt(s, lo, Null), lo, StmtExits(s, lo), t, EmitStmt(s, lo, t))
  {
    var es := StmtExits(If(c, th, NoElse), lo);
    var head, body := [CondNode(c, BlockEntry(th, lo + 1), Null)], EmitBlock(th, lo + 1, Null);
    PatchConcat(head, body, lo, es, t);
    PatchIrrelevant(body, lo + 1, BlockExits(th, lo + 1), [CondEdge(c, lo, false)], t);
    PatchCond(c, lo, BlockEntry(th, lo + 1), es, t);
  }

  lemma PatchIfElse(c: Exp, th: Block, eb: Block, lo: nat, mid: nat, t: Target)
    requires mid == lo + 1 + BlockSize(th)
    requires Patches(EmitBlock(th, lo + 1, Null), lo + 1, BlockExits(th, lo + 1), t, EmitBlock(th, lo + 1, t))
    requires Patches(EmitBlock(eb, mid, Null), mid, BlockExits(eb, mid), t, EmitBlock(eb, mid, t))
    ensures var s := If(c, th, ElseBlock(eb));
            Patches(EmitStmt(s, lo, Null), lo, StmtExits(s, lo), t, EmitStmt(s, lo, t))
  {
    var head := [CondNode(c, BlockEntry(th, lo + 1), BlockEntry(eb, mid))];
    PatchThree(head, EmitBlock(th, lo + 1, Null), EmitBlock(eb, mid, Null),
               lo, BlockExits(th, lo + 1), BlockExits(eb, mid), t);
  }

  lemma PatchWhile(c: Exp, body: Block, lo: nat, t: Target)
    ensures var s := While(c, body); Patches(EmitStmt(s, lo, Null), lo, StmtExits(s, lo), t, EmitStmt(s, lo, t))
  {
  }

  lemma PatchDoWhile(body: Block, c: Exp, lo: nat, t: Target)
    ensures var s := DoWhile(body, c); Patches(EmitStmt(s, lo, Null), lo, StmtExits(s, lo), t, EmitStmt(s, lo, t))
  {
  }

  /** Attaching the pending edges of s to t gives the graph in which they point at t. */
  lemma {:induction false} PatchStmt(s: Stmt, lo: nat, t: Target)
    requires SupportedStmt(s)
    ensures Patches(EmitStmt(s, lo, Null), lo, StmtExits(s, lo), t, EmitStmt(s, lo, t))
    decreases s
  {
    match s
    case Call(_) =>
    case Return =>
    case If(c, th, els) =>
      PatchBlock(th, lo + 1, t);
      if els.NoElse? {
        PatchIf(c, th, lo, t);
      } else {
        var mid := lo + 1 + BlockSize(th);
        PatchBlock(els.block, mid, t);
        PatchIfElse(c, th, els.block, lo, mid, t);
      }
    case While(c, body) => PatchWhile(c, body, lo, t);
    case DoWhile(body, c) => PatchDoWhile(body, c, lo, t);
  }

  lemma {:induction false} PatchBlock(b: Block, lo: nat, t: Target)
    requires SupportedBlock(b)
    ensures Patches(EmitBlock(b, lo, Null), lo, BlockExits(b, lo), t, EmitBlock(b, lo, t))
    decreases b
  {
    if b != [] && !b[0].Return? {
      var mid := lo + StmtSize(b[0]);
      var x := BlockTarget(b[1..], mid, Null);
      PatchConcat(EmitStmt(b[0], lo, x), EmitBlock(b[1..], mid, Null), lo, BlockExits(b, lo), t);
      if |b| == 1 {
        PatchStmt(b[0], lo, t);
      } else {
        PatchBlock(b[1..], mid, t);
        PatchNothing(EmitStmt(b[0], lo, x), lo, BlockExits(b, lo), t);
      }
    }
  }

  // ----- Extending a block by one statement -----

  ghost predicate NoReturn(b: Block) {
    forall s | s in b :: !s.Return?
  }

  lemma {:induction false} ExitsSnoc(b: Block, s: Stmt, lo: nat)
    requires NoReturn(b)
    ensures BlockExits(b + [s], lo) == StmtExits(s, lo + BlockSize(b))
    decreases b
  {
    if b != [] {
      assert b[0] in b;
      assert (b + [s])[1..] == b[1..] + [s];
      ExitsSnoc(b[1..], s, lo + StmtSize(b[0]));
    }
  }

  lemma EmitCons(b: Block, lo: nat, t: Target)
    requires b != [] && !b[0].Return?
    ensures var mid := lo + StmtSize(b[0]);
            EmitBlock(b, lo, t) == EmitStmt(b[0], lo, BlockTarget(b[1..], mid, t)) + EmitBlock(b[1..], mid, t)
  {
  }

  lemma EmitOne(s: Stmt, lo: nat, t: Target, x: Target)
    ensures EmitBlock([] + [s], lo, t) == EmitBlock([], lo, x) + EmitStmt(s, lo, t)
  {
    assert [] + [s] == [s];
    assert EmitBlock([s], lo, t) == EmitStmt(s, lo, t);
  }

  lemma SizeCons(b: Block)
    requires b != [] && !b[0].Return?
    ensures BlockSize(b) == StmtSize(b[0]) + BlockSize(b[1..])
  {
  }

  lemma TargetSnoc(b: Block, s: Stmt, lo: nat, t: Target, x: Target)
    requires b == [] ==> x == StmtTarget(s, lo)
    ensures BlockTarget(b + [s], lo, t) == BlockTarget(b, lo, x)
  {
  }

  lemma EmitConsSnoc(b: Block, s: Stmt, lo: nat, t: Target, mid: nat, x: Target)
    requires b != [] && !b[0].Return? && mid == lo + StmtSize(b[0]) && (b[1..] == [] ==> x == StmtTarget(s, mid))
    ensures EmitBlock(b + [s], lo, t)
            == EmitStmt(b[0], lo, BlockTarget(b[1..], mid, x)) + EmitBlock(b[1..] + [s], mid, t)
  {
    var c := b + [s];
    assert c[0] == b[0] && c[1..] == b[1..] + [s];
    EmitCons(c, lo, t);
    TargetSnoc(b[1..], s, mid, t, x);
  }

  lemma EmitSnocStep(b: Block, s: Stmt, lo: nat, t: Target, mid: nat, x: Target, last: seq<Node>)
    requires b != [] && !b[0].Return? && mid == lo + StmtSize(b[0]) && (b[1..] == [] ==> x == StmtTarget(s, mid))
    requires EmitBlock(b[1..] + [s], mid, t) == EmitBlock(b[1..], mid, x) + last
    ensures EmitBlock(b + [s], lo, t) == EmitBlock(b, lo, x) + last
  {
    EmitConsSnoc(b, s, lo, t, mid, x);
    EmitCons(b, lo, x);
    Assoc(EmitStmt(b[0], lo, BlockTarget(b[1..], mid, x)), EmitBlock(b[1..], mid, x), last);
  }

  lemma {:induction false} EmitSnoc(b: Block, s: Stmt, lo: nat, t: Target, at: nat, x: Target, last: seq<Node>)
    requires NoReturn(b) && at == lo + BlockSize(b) && x == StmtTarget(s, at) && last == EmitStmt(s, at, t)
    ensures EmitBlock(b + [s], lo, t) == EmitBlock(b, lo, x) + last
    decreases b
  {
    if b == [] {
      EmitOne(s, lo, t, x);
    } else {
      assert b[0] in b;
      SizeCons(b);
      var mid := lo + StmtSize(b[0]);
      EmitSnoc(b[1..], s, mid, t, at, x, last);
      EmitSnocStep(b, s, lo, t, mid, x, last);
    }
  }

  lemma {:induction false} CutEmit(b: Block, k: nat, lo: nat, t: Target)
    requires 0 < k <= |b| && b[k - 1].Return?
    ensures EmitBlock(b[..k], lo, t) == EmitBlock(b, lo, t)
    decreases b
  {
    if !b[0].Return? {
      var c, mid := b[..k], lo + StmtSize(b[0]);
      assert c[0] == b[0] && c[1..] == b[1..][..k - 1];
      CutEmit(b[1..], k - 1, mid, t);
      EmitCons(b, lo, t);
      EmitCons(c, lo, t);
      assert BlockTarget(c[1..], mid, t) == BlockTarget(b[1..], mid, t);
    }
  }

  /** Nothing behind a `return` is compiled. */
  lemma {:induction false} BlockCut(b: Block, k: nat, lo: nat, t: Target)
    requires 0 < k <= |b| && b[k - 1].Return?
    ensures BlockSize(b[..k]) == BlockSize(b)
    ensures EmitBlock(b[..k], lo, t) == EmitBlock(b, lo, t)
    ensures BlockExits(b[..k], lo) == BlockExits(b, lo) == []
    ensures SupportedBlock(b[..k]) == SupportedBlock(b)
    decreases b
  {
    if !b[0].Return? {
      assert b[..k][1..] == b[1..][..k - 1];
      BlockCut(b[1..], k - 1, lo + StmtSize(b[0]), t);
    }
    CutEmit(b, k, lo, t);
  }

  lemma {:induction false} SupportedSnoc(b: Block, s: Stmt)
    requires NoReturn(b)
    ensures SupportedBlock(b + [s]) == (SupportedBlock(b) && SupportedStmt(s))
    decreases b
  {
    if b == [] {
      assert (b + [s])[1..] == [];
    } else {
      assert b[0] in b;
      assert (b + [s])[1..] == b[1..] + [s];
      SupportedSnoc(b[1..], s);
    }
  }
}
