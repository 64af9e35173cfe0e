/**
 Which workflows pass the graph check, decided on the program text alone: every compiled block is
 startable and every compiled handler occurrence is reached by falling through.
 */
module WorkflowAcceptance {
  import opened WorkflowSyntax
  import opened WorkflowGraph
  import opened WorkflowLayout
  import opened WorkflowGraphCheck
  import opened WorkflowCorrectness

  /** Control can leave s at its end. */
  predicate StmtFalls(s: Stmt) {
    match s
    case Call(_) => true
    case Return => false
    case If(_, th, els) => BlockFalls(th) || !els.ElseBlock? || BlockFalls(els.block)
    case While(_, _) => true
    case DoWhile(body, _) => BlockFalls(body)
  }

  predicate BlockFalls(b: Block) {
    b == [] || (StmtFalls(b[0]) && BlockFalls(b[1..]))
  }

  /** Once s is reached, so is every handler occurrence compiled for it. */
  predicate StmtReached(s: Stmt) {
    match s
    case Call(_) => true
    case Return => true
    case If(_, th, els) => BlockReached(th) && (els.ElseBlock? ==> BlockReached(els.block))
    case While(_, body) => BlockReached(body)
    case DoWhile(body, _) => BlockReached(body) && BlockFalls(body)
  }

  predicate BlockReached(b: Block) {
    Startable(b) ==>
      && StmtReached(b[0])
      && (Startable(b[1..]) ==> StmtFalls(b[0]) && BlockReached(b[1..]))
  }

  predicate Acceptable(b: Block) {
    Startable(b) && BlocksOk(b) && BlockReached(b)
  }

  // ----- Where the edges of a fragment lead -----

  /** An edge of a fragment on [lo, hi) with continuation t, which it only uses if it may fall. */
  ghost predicate Stays(e: Target, lo: nat, hi: nat, t: Target, falls: bool) {
    e.Null? || e.End? || (e.At? && lo <= e.id < hi) || (falls && e == t)
  }

  ghost predicate NodesStay(nodes: seq<Node>, lo: nat, hi: nat, t: Target, falls: bool) {
    forall i, d | 0 <= i < |nodes| :: Stays(Succ(nodes[i], d), lo, hi, t, falls)
  }

  /** Two pieces of a fragment: the first may run into the second or leave for t, like the second. */
  lemma StayConcat(a: seq<Node>, b: seq<Node>, lo: nat, hi: nat, t: Target, falls: bool)
    requires NodesStay(a, lo, hi, t, falls) && NodesStay(b, lo, hi, t, falls)
    ensures NodesStay(a + b, lo, hi, t, falls)
  {
  }

  lemma StayWiden(a: seq<Node>, lo: nat, hi: nat, x: Target, f: bool, lo2: nat, hi2: nat, t: Target, falls: bool)
    requires NodesStay(a, lo, hi, x, f) && lo2 <= lo <= hi <= hi2
    requires f ==> Stays(x, lo2, hi2, t, falls)
    ensures NodesStay(a, lo2, hi2, t, falls)
  {
  }

  lemma StayCond(c: Exp, holds: Target, fails: Target, lo: nat, hi: nat, t: Target, falls: bool)
    requires Stays(holds, lo, hi, t, falls) && Stays(fails, lo, hi, t, falls)
    ensures NodesStay([CondNode(c, holds, fails)], lo, hi, t, falls)
  {
  }

  lemma {:induction false} StmtSizePositive(s: Stmt)
    requires !s.Return?
    ensures StmtSize(s) > 0
  {
  }

  /** An entry is missing or is the first node. */
  lemma {:induction false} StmtEntryRange(s: Stmt, lo: nat)
    ensures StmtEntry(s, lo) == Null || StmtEntry(s, lo) == At(lo)
    decreases s
  {
    if s.DoWhile? && s.body != [] {
      StmtEntryRange(s.body[0], lo);
    }
  }

  lemma BlockEntryRange(b: Block, lo: nat)
    ensures BlockEntry(b, lo) == Null || (BlockEntry(b, lo) == At(lo) && BlockSize(b) > 0)
  {
    if b != [] {
      StmtEntryRange(b[0], lo);
    }
  }

  lemma {:induction false} StmtStays(s: Stmt, lo: nat, t: Target)
    requires SupportedStmt(s)
    ensures NodesStay(EmitStmt(s, lo, t), lo, lo + StmtSize(s), t, StmtReached(s) ==> StmtFalls(s))
    decreases s
  {
    var hi, falls := lo + StmtSize(s), StmtReached(s) ==> StmtFalls(s);
    match s
    case Call(_) =>
    case Return =>
    case If(_, _, _) => IfStays(s, lo, t);
    case While(c, body) =>
      BlockEntryRange(body, lo + 1);
      BlockStays(body, lo + 1, At(lo));
      StayWiden(EmitBlock(body, lo + 1, At(lo)), lo + 1, hi, At(lo), BlockReached(body) ==> BlockFalls(body), lo, hi, t,
                falls);
      StayCond(c, BlockEntry(body, lo + 1), t, lo, hi, t, falls);
      StayConcat([CondNode(c, BlockEntry(body, lo + 1), t)], EmitBlock(body, lo + 1, At(lo)), lo, hi, t, falls);
    case DoWhile(body, c) =>
      var mid := lo + BlockSize(body);
      BlockEntryRange(body, lo);
      BlockStays(body, lo, At(mid));
      StayWiden(EmitBlock(body, lo, At(mid)), lo, mid, At(mid), BlockReached(body) ==> BlockFalls(body), lo, hi, t,
                falls);
      StayCond(c, BlockEntry(body, lo), t, lo, hi, t, falls);
      StayConcat(EmitBlock(body, lo, At(mid)), [CondNode(c, BlockEntry(body, lo), t)], lo, hi, t, falls);
  }

  lemma {:induction false} IfStays(s: Stmt, lo: nat, t: Target)
    requires s.If? && SupportedStmt(s)
    ensures NodesStay(EmitStmt(s, lo, t), lo, lo + StmtSize(s), t, StmtReached(s) ==> StmtFalls(s))
    decreases s, 0
  {
    var hi, falls := lo + StmtSize(s), StmtReached(s) ==> StmtFalls(s);
    var th, els := s.thenBlock, s.els;
    var mid := lo + 1 + BlockSize(th);
    BlockStays(th, lo + 1, t);
    StayWiden(EmitBlock(th, lo + 1, t), lo + 1, mid, t, BlockReached(th) ==> BlockFalls(th), lo, hi, t, falls);
    if els.ElseBlock? {
      BlockStays(els.block, mid, t);
      StayWiden(EmitBlock(els.block, mid, t), mid, hi, t, BlockReached(els.block) ==> BlockFalls(els.block), lo, hi, t,
                falls);
      IfElseStays(s, lo, t, mid, hi, falls);
    } else {
      IfThenStays(s, lo, t, hi, falls);
    }
  }

  lemma IfThenStays(s: Stmt, lo: nat, t: Target, hi: nat, falls: bool)
    requires s.If? && s.els.NoElse? && falls && hi == lo + 1 + BlockSize(s.thenBlock)
    requires NodesStay(EmitBlock(s.thenBlock, lo + 1, t), lo, hi, t, falls)
    ensures NodesStay(EmitStmt(s, lo, t), lo, hi, t, falls)
  {
    var entry := BlockEntry(s.thenBlock, lo + 1);
    BlockEntryRange(s.thenBlock, lo + 1);
    StayCond(s.cond, entry, t, lo, hi, t, falls);
    StayConcat([CondNode(s.cond, entry, t)], EmitBlock(s.thenBlock, lo + 1, t), lo, hi, t, falls);
    IfEmits(s, lo, t);
  }

  lemma IfElseStays(s: Stmt, lo: nat, t: Target, mid: nat, hi: nat, falls: bool)
    requires s.If? && s.els.ElseBlock? && mid == lo + 1 + BlockSize(s.thenBlock) && hi == mid + BlockSize(s.els.block)
    requires NodesStay(EmitBlock(s.thenBlock, lo + 1, t), lo, hi, t, falls)
    requires NodesStay(EmitBlock(s.els.block, mid, t), lo, hi, t, falls)
    ensures NodesStay(EmitStmt(s, lo, t), lo, hi, t, falls)
  {
    var entry, other := BlockEntry(s.thenBlock, lo + 1), BlockEntry(s.els.block, mid);
    var head := [CondNode(s.cond, entry, other)];
    BlockEntryRange(s.thenBlock, lo + 1);
    BlockEntryRange(s.els.block, mid);
    StayCond(s.cond, entry, other, lo, hi, t, falls);
    StayConcat(head, EmitBlock(s.thenBlock, lo + 1, t), lo, hi, t, falls);
    StayConcat(head + EmitBlock(s.thenBlock, lo + 1, t), EmitBlock(s.els.block, mid, t), lo, hi, t, falls);
    IfElseEmits(s, lo, t, mid);
  }

  lemma {:induction false} BlockStays(b: Block, lo: nat, t: Target)
    requires SupportedBlock(b)
    ensures NodesStay(EmitBlock(b, lo, t), lo, lo + BlockSize(b), t, BlockReached(b) ==> BlockFalls(b))
    decreases b
  {
    if Startable(b) {
      var mid, hi, falls := lo + StmtSize(b[0]), lo + BlockSize(b), BlockReached(b) ==> BlockFalls(b);
      var x := BlockTarget(b[1..], mid, t);
      BlockEntryRange(b[1..], mid);
      if b[1..] == [] {
        assert !Startable(b[1..]) && BlockFalls(b[1..]);
        assert falls == (StmtReached(b[0]) ==> StmtFalls(b[0]));
      } else {
        assert x.End? || x == BlockEntry(b[1..], mid);
      }
      StmtStays(b[0], lo, x);
      StayWiden(EmitStmt(b[0], lo, x), lo, mid, x, StmtReached(b[0]) ==> StmtFalls(b[0]), lo, hi, t, falls);
      BlockStays(b[1..], mid, t);
      StayWiden(EmitBlock(b[1..], mid, t), mid, hi, t,
                Startable(b[1..]) && (BlockReached(b[1..]) ==> BlockFalls(b[1..])), lo, hi, t, falls);
      StayConcat(EmitStmt(b[0], lo, x), EmitBlock(b[1..], mid, t), lo, hi, t, falls);
    }
  }

  // ----- Acceptable programs compile to sound graphs -----

  ghost predicate AllComplete(nodes: seq<Node>) {
    forall i | 0 <= i < |nodes| :: Complete(nodes[i])
  }

  lemma CompleteConcat(a: seq<Node>, b: seq<Node>)
    ensures AllComplete(a + b) <==> AllComplete(a) && AllComplete(b)
  {
    var c := a + b;
    if AllComplete(c) {
      forall i | 0 <= i < |a| ensures Complete(a[i]) { assert c[i] == a[i]; }
      forall i | 0 <= i < |b| ensures Complete(b[i]) { assert c[|a| + i] == b[i]; }
    }
  }

  lemma CompleteCond(c: Exp, holds: Target, fails: Target)
    ensures AllComplete([CondNode(c, holds, fails)]) <==> holds != Null && fails != Null
  {
    assert AllComplete([CondNode(c, holds, fails)]) <==> Complete([CondNode(c, holds, fails)][0]);
  }

  /** Exactly the programs whose compiled blocks are startable compile to nodes with both edges. */
  lemma {:induction false} StmtComplete(s: Stmt, lo: nat, t: Target)
    requires SupportedStmt(s) && t != Null
    ensures AllComplete(EmitStmt(s, lo, t)) <==> StmtBlocksOk(s)
    decreases s
  {
    match s
    case Call(_) =>
    case Return =>
    case If(_, _, _) => IfComplete(s, lo, t);
    case While(c, body) =>
      EntryComplete(body, lo + 1, At(lo));
      CompleteCond(c, BlockEntry(body, lo + 1), t);
      CompleteConcat([CondNode(c, BlockEntry(body, lo + 1), t)], EmitBlock(body, lo + 1, At(lo)));
    case DoWhile(body, c) =>
      var mid := lo + BlockSize(body);
      EntryComplete(body, lo, At(mid));
      CompleteCond(c, BlockEntry(body, lo), t);
      CompleteConcat(EmitBlock(body, lo, At(mid)), [CondNode(c, BlockEntry(body, lo), t)]);
  }

  lemma {:induction false} IfComplete(s: Stmt, lo: nat, t: Target)
    requires s.If? && SupportedStmt(s) && t != Null
    ensures AllComplete(EmitStmt(s, lo, t)) <==> StmtBlocksOk(s)
    decreases s, 0
  {
    var c, th, els := s.cond, s.thenBlock, s.els;
    var mid := lo + 1 + BlockSize(th);
    var head := [CondNode(c, BlockEntry(th, lo + 1), if els.NoElse? then t else BlockEntry(els.block, mid))];
    EntryComplete(th, lo + 1, t);
    CompleteCond(c, BlockEntry(th, lo + 1), if els.NoElse? then t else BlockEntry(els.block, mid));
    CompleteConcat(head, EmitBlock(th, lo + 1, t));
    if els.ElseBlock? {
      EntryComplete(els.block, mid, t);
      CompleteConcat(head + EmitBlock(th, lo + 1, t), EmitBlock(els.block, mid, t));
    }
  }

  lemma {:induction false} EntryComplete(b: Block, lo: nat, t: Target)
    requires SupportedBlock(b) && t != Null
    ensures AllComplete(EmitBlock(b, lo, t)) && BlockEntry(b, lo) != Null <==> Startable(b) && BlocksOk(b)
    decreases b, 1
  {
    BlockComplete(b, lo, t);
    if Startable(b) && BlocksOk(b) {
      StmtEntryFirst(b[0], lo);
    }
  }

  lemma {:induction false} BlockComplete(b: Block, lo: nat, t: Target)
    requires SupportedBlock(b) && t != Null
    ensures AllComplete(EmitBlock(b, lo, t)) <==> BlocksOk(b)
    decreases b, 0
  {
    if Startable(b) {
      var mid := lo + StmtSize(b[0]);
      var x := BlockTarget(b[1..], mid, t);
      CompleteConcat(EmitStmt(b[0], lo, x), EmitBlock(b[1..], mid, t));
      BlockComplete(b[1..], mid, t);
      if x != Null {
        StmtComplete(b[0], lo, x);
      } else if BlocksOk(b[1..]) {
        StmtEntryFirst(b[1], mid);
        assert false;
      }
    }
  }

  ghost predicate Covered(g: seq<Node>, root: Target, lo: nat, hi: nat) {
    forall i | lo <= i < hi :: Reaches(g, root, i)
  }

  ghost predicate ReachedTarget(g: seq<Node>, root: Target, t: Target) {
    t.At? ==> Reaches(g, root, t.id)
  }

  lemma CondReaches(g: seq<Node>, root: Target, id: nat, c: Exp, holds: Target, fails: Target)
    requires Holds(g, id, [CondNode(c, holds, fails)]) && Reaches(g, root, id)
    ensures ReachedTarget(g, root, holds) && ReachedTarget(g, root, fails)
  {
    assert g[id] == g[id..id + 1][0];
    if holds.At? { ReachesStep(g, root, id, !Negated(c)); }
    if fails.At? { ReachesStep(g, root, id, Negated(c)); }
  }

  lemma {:induction false} CoverStmt(g: seq<Node>, root: Target, s: Stmt, lo: nat, t: Target)
    requires SupportedStmt(s) && StmtBlocksOk(s) && StmtReached(s) && Holds(g, lo, EmitStmt(s, lo, t))
    requires !s.Return? && Reaches(g, root, lo)
    ensures Covered(g, root, lo, lo + StmtSize(s))
    ensures StmtFalls(s) ==> ReachedTarget(g, root, t)
    decreases s
  {
    match s
    case Call(_) =>
      assert g[lo] == g[lo..lo + 1][0];
      if t.At? { ReachesStep(g, root, lo, true); }
    case If(_, _, _) => CoverIf(g, root, s, lo, t);
    case While(_, _) => CoverWhile(g, root, s, lo, t);
    case DoWhile(_, _) => CoverDoWhile(g, root, s, lo, t);
  }

  lemma {:induction false} CoverWhile(g: seq<Node>, root: Target, s: Stmt, lo: nat, t: Target)
    requires s.While? && SupportedStmt(s) && StmtBlocksOk(s) && StmtReached(s) && Holds(g, lo, EmitStmt(s, lo, t))
    requires Reaches(g, root, lo)
    ensures Covered(g, root, lo, lo + StmtSize(s)) && ReachedTarget(g, root, t)
    decreases s, 0
  {
    var c, body := s.cond, s.body;
    StmtEntryFirst(body[0], lo + 1);
    HoldsConcat(g, lo, [CondNode(c, BlockEntry(body, lo + 1), t)], EmitBlock(body, lo + 1, At(lo)));
    CondReaches(g, root, lo, c, BlockEntry(body, lo + 1), t);
    CoverBlock(g, root, body, lo + 1, At(lo));
  }

  lemma {:induction false} CoverDoWhile(g: seq<Node>, root: Target, s: Stmt, lo: nat, t: Target)
    requires s.DoWhile? && SupportedStmt(s) && StmtBlocksOk(s) && StmtReached(s) && Holds(g, lo, EmitStmt(s, lo, t))
    requires Reaches(g, root, lo)
    ensures Covered(g, root, lo, lo + StmtSize(s)) && ReachedTarget(g, root, t)
    decreases s, 0
  {
    var c, body := s.cond, s.body;
    var mid := lo + BlockSize(body);
    StmtEntryFirst(body[0], lo);
    HoldsConcat(g, lo, EmitBlock(body, lo, At(mid)), [CondNode(c, BlockEntry(body, lo), t)]);
    CoverBlock(g, root, body, lo, At(mid));
    CondReaches(g, root, mid, c, BlockEntry(body, lo), t);
  }

  lemma {:induction false} CoverIf(g: seq<Node>, root: Target, s: Stmt, lo: nat, t: Target)
    requires s.If? && SupportedStmt(s) && StmtBlocksOk(s) && StmtReached(s) && Holds(g, lo, EmitStmt(s, lo, t))
    requires Reaches(g, root, lo)
    ensures Covered(g, root, lo, lo + StmtSize(s))
    ensures StmtFalls(s) ==> ReachedTarget(g, root, t)
    decreases s, 0
  {
    var th := s.thenBlock;
    var mid := lo + 1 + BlockSize(th);
    StmtEntryFirst(th[0], lo + 1);
    IfPieces(g, s, lo, t, mid);
    CondReaches(g, root, lo, s.cond, BlockEntry(th, lo + 1), IfFails(s, mid, t));
    CoverBlock(g, root, th, lo + 1, t);
    if s.els.ElseBlock? {
      StmtEntryFirst(s.els.block[0], mid);
      CoverBlock(g, root, s.els.block, mid, t);
    }
  }

  lemma {:induction false} CoverBlock(g: seq<Node>, root: Target, b: Block, lo: nat, t: Target)
    requires SupportedBlock(b) && BlocksOk(b) && BlockReached(b) && Holds(g, lo, EmitBlock(b, lo, t))
    requires ReachedTarget(g, root, BlockTarget(b, lo, t))
    ensures Covered(g, root, lo, lo + BlockSize(b))
    ensures BlockFalls(b) ==> ReachedTarget(g, root, t)
    decreases b
  {
    if Startable(b) {
      var mid := lo + StmtSize(b[0]);
      var x := BlockTarget(b[1..], mid, t);
      HoldsConcat(g, lo, EmitStmt(b[0], lo, x), EmitBlock(b[1..], mid, t));
      StmtEntryFirst(b[0], lo);
      CoverStmt(g, root, b[0], lo, x);
      if StmtFalls(b[0]) {
        CoverBlock(g, root, b[1..], mid, t);
      }
    } else if b != [] {
      assert !StmtFalls(b[0]);
    }
  }

  // ----- Sound graphs come from acceptable programs -----

  /** Edges from outside [lo, hi) enter it at lo only. */
  ghost predicate EntersAtStart(g: seq<Node>, lo: nat, hi: nat) {
    forall n, d | 0 <= n < |g| && !(lo <= n < hi) && Succ(g[n], d).At? :: !(lo < Succ(g[n], d).id < hi)
  }

  ghost predicate Beyond(t: Target, lo: nat, hi: nat) {
    t.At? ==> t.id <= lo || hi <= t.id
  }

  ghost predicate AllReached(g: seq<Node>) {
    forall n: nat | n < |g| :: Reaches(g, At(0), n)
  }

  /** A part of the graph behind the first node that no edge from elsewhere enters is never reached. */
  lemma DeadPart(g: seq<Node>, lo: nat, hi: nat)
    requires AllReached(g) && 0 < lo < hi <= |g|
    ensures exists n, d :: 0 <= n < |g| && !(lo <= n < hi) && Succ(g[n], d).At? && lo <= Succ(g[n], d).id < hi
  {
    assert Reaches(g, At(0), lo);
    var rs :| Pos(g, At(0), rs) == At(lo);
    EnterPart(g, lo, hi, At(0), rs);
  }

  lemma {:induction false} EnterPart(g: seq<Node>, lo: nat, hi: nat, t: Target, rs: seq<bool>)
    requires hi <= |g| && t.At? && !(lo <= t.id < hi)
    requires Pos(g, t, rs).At? && lo <= Pos(g, t, rs).id < hi
    ensures exists n, d :: 0 <= n < |g| && !(lo <= n < hi) && Succ(g[n], d).At? && lo <= Succ(g[n], d).id < hi
    decreases |rs|
  {
    var u := Succ(g[t.id], rs[0]);
    if !(u.At? && lo <= u.id < hi) {
      EnterPart(g, lo, hi, u, rs[1..]);
    }
  }

  /** Edges of the nodes in [lo, hi) do not enter [lo2, hi2) behind its start. */
  ghost predicate Avoids(g: seq<Node>, lo: nat, hi: nat, lo2: nat, hi2: nat)
  {
    forall n, d | lo <= n < hi && n < |g| && Succ(g[n], d).At? :: !(lo2 < Succ(g[n], d).id < hi2)
  }

  lemma FragmentAvoids(g: seq<Node>, lo: nat, frag: seq<Node>, t: Target, lo2: nat, hi2: nat)
    requires Holds(g, lo, frag) && NodesStay(frag, lo, lo + |frag|, t, true)
    requires hi2 <= lo || lo + |frag| <= lo2
    requires Beyond(t, lo2, hi2)
    ensures Avoids(g, lo, lo + |frag|, lo2, hi2)
  {
  }

  lemma BlockAvoids(g: seq<Node>, b: Block, lo: nat, t: Target, lo2: nat, hi2: nat)
    requires SupportedBlock(b) && Holds(g, lo, EmitBlock(b, lo, t))
    requires hi2 <= lo || lo + BlockSize(b) <= lo2
    requires Beyond(t, lo2, hi2)
    ensures Avoids(g, lo, lo + BlockSize(b), lo2, hi2)
  {
    var hi := lo + BlockSize(b);
    BlockStays(b, lo, t);
    StayWiden(EmitBlock(b, lo, t), lo, hi, t, BlockReached(b) ==> BlockFalls(b), lo, hi, t, true);
    FragmentAvoids(g, lo, EmitBlock(b, lo, t), t, lo2, hi2);
  }

  /** A piece of a fragment is entered at its start if the fragment is and the other pieces respect it. */
  lemma EntersPiece(g: seq<Node>, lo: nat, hi: nat, lo2: nat, hi2: nat)
    requires lo <= lo2 <= hi2 <= hi && EntersAtStart(g, lo, hi)
    requires Avoids(g, lo, lo2, lo2, hi2) && Avoids(g, hi2, hi, lo2, hi2)
    ensures EntersAtStart(g, lo2, hi2)
  {
  }

  lemma {:induction false} StmtIsReached(g: seq<Node>, s: Stmt, lo: nat, t: Target)
    requires AllReached(g) && SupportedStmt(s) && StmtBlocksOk(s) && Holds(g, lo, EmitStmt(s, lo, t))
    requires EntersAtStart(g, lo, lo + StmtSize(s)) && Beyond(t, lo, lo + StmtSize(s))
    ensures StmtReached(s)
    decreases s
  {
    match s
    case Call(_) =>
    case Return =>
    case If(_, _, _) => IfIsReached(g, s, lo, t);
    case While(c, body) =>
      var hi := lo + StmtSize(s);
      var head := [CondNode(c, BlockEntry(body, lo + 1), t)];
      HoldsConcat(g, lo, head, EmitBlock(body, lo + 1, At(lo)));
      StmtEntryFirst(body[0], lo + 1);
      CondAvoids(g, lo, c, BlockEntry(body, lo + 1), t, lo + 1, hi);
      EntersPiece(g, lo, hi, lo + 1, hi);
      BlockIsReached(g, body, lo + 1, At(lo));
    case DoWhile(_, _) => DoWhileIsReached(g, s, lo, t);
  }

  lemma CondAvoids(g: seq<Node>, id: nat, c: Exp, holds: Target, fails: Target, lo2: nat, hi2: nat)
    requires Holds(g, id, [CondNode(c, holds, fails)]) && Beyond(holds, lo2, hi2) && Beyond(fails, lo2, hi2)
    ensures Avoids(g, id, id + 1, lo2, hi2)
  {
  }

  /** The branches of an `if`: where they lie, and that each is entered at its start only. */
  lemma IfBranches(g: seq<Node>, s: Stmt, lo: nat, t: Target, mid: nat, hi: nat)
    requires s.If? && SupportedStmt(s) && StmtBlocksOk(s) && Holds(g, lo, EmitStmt(s, lo, t))
    requires mid == lo + 1 + BlockSize(s.thenBlock) && hi == lo + StmtSize(s)
    requires EntersAtStart(g, lo, hi) && Beyond(t, lo, hi)
    ensures Holds(g, lo + 1, EmitBlock(s.thenBlock, lo + 1, t)) && EntersAtStart(g, lo + 1, mid)
    ensures s.els.ElseBlock? ==> Holds(g, mid, EmitBlock(s.els.block, mid, t)) && EntersAtStart(g, mid, hi)
  {
    var c, th, fails := s.cond, s.thenBlock, IfFails(s, mid, t);
    StmtEntryFirst(th[0], lo + 1);
    IfPieces(g, s, lo, t, mid);
    if s.els.ElseBlock? {
      StmtEntryFirst(s.els.block[0], mid);
      BlockAvoids(g, s.els.block, mid, t, lo + 1, mid);
      BlockAvoids(g, th, lo + 1, t, mid, hi);
      CondAvoids(g, lo, c, BlockEntry(th, lo + 1), fails, mid, hi);
      EntersPiece(g, lo, hi, mid, hi);
    }
    CondAvoids(g, lo, c, BlockEntry(th, lo + 1), fails, lo + 1, mid);
    EntersPiece(g, lo, hi, lo + 1, mid);
  }

  lemma {:induction false} IfIsReached(g: seq<Node>, s: Stmt, lo: nat, t: Target)
    requires s.If? && AllReached(g) && SupportedStmt(s) && StmtBlocksOk(s) && Holds(g, lo, EmitStmt(s, lo, t))
    requires EntersAtStart(g, lo, lo + StmtSize(s)) && Beyond(t, lo, lo + StmtSize(s))
    ensures StmtReached(s)
    decreases s, 0
  {
    var mid := lo + 1 + BlockSize(s.thenBlock);
    IfBranches(g, s, lo, t, mid, lo + StmtSize(s));
    BlockIsReached(g, s.thenBlock, lo + 1, t);
    if s.els.ElseBlock? {
      BlockIsReached(g, s.els.block, mid, t);
    }
  }

  lemma {:induction false} DoWhileIsReached(g: seq<Node>, s: Stmt, lo: nat, t: Target)
    requires s.DoWhile? && AllReached(g) && SupportedStmt(s) && StmtBlocksOk(s) && Holds(g, lo, EmitStmt(s, lo, t))
    requires EntersAtStart(g, lo, lo + StmtSize(s)) && Beyond(t, lo, lo + StmtSize(s))
    ensures StmtReached(s)
    decreases s, 0
  {
    var body, c, mid := s.body, s.cond, lo + BlockSize(s.body);
    var frag := EmitBlock(body, lo, At(mid));
    HoldsConcat(g, lo, frag, [CondNode(c, BlockEntry(body, lo), t)]);
    StmtEntryFirst(body[0], lo);
    CondAvoids(g, mid, c, BlockEntry(body, lo), t, lo, mid);
    EntersPiece(g, lo, mid + 1, lo, mid);
    BlockIsReached(g, body, lo, At(mid));
    BlockStays(body, lo, At(mid));
    MustFall(g, lo, frag, At(mid), BlockFalls(body), mid + 1);
  }

  lemma HoldsStay(g: seq<Node>, lo: nat, frag: seq<Node>, t: Target, falls: bool, n: nat, d: bool)
    requires Holds(g, lo, frag) && NodesStay(frag, lo, lo + |frag|, t, falls) && lo <= n < lo + |frag|
    ensures Stays(Succ(g[n], d), lo, lo + |frag|, t, falls)
  {
    assert g[n] == g[lo..lo + |frag|][n - lo] == frag[n - lo];
  }

  /** Nodes right behind a fragment are reached only if the fragment may fall through. */
  lemma MustFall(g: seq<Node>, lo: nat, frag: seq<Node>, x: Target, falls: bool, hi: nat)
    requires AllReached(g) && Holds(g, lo, frag) && NodesStay(frag, lo, lo + |frag|, x, falls)
    requires lo + |frag| < hi <= |g| && EntersAtStart(g, lo, hi) && frag != []
    ensures falls
  {
    var mid := lo + |frag|;
    DeadPart(g, mid, hi);
    var n, d :| 0 <= n < |g| && !(mid <= n < hi) && Succ(g[n], d).At? && mid <= Succ(g[n], d).id < hi;
    if lo <= n < mid {
      HoldsStay(g, lo, frag, x, falls, n, d);
    }
  }

  /** What comes behind the first statement of a block is entered from that statement, and at its start. */
  lemma TailIsEntered(g: seq<Node>, s: Stmt, lo: nat, x: Target, mid: nat, hi: nat)
    requires AllReached(g) && SupportedStmt(s) && StmtReached(s) && !s.Return? && Holds(g, lo, EmitStmt(s, lo, x))
    requires mid == lo + StmtSize(s) && mid < hi <= |g| && EntersAtStart(g, lo, hi) && Beyond(x, mid, hi)
    ensures StmtFalls(s) && EntersAtStart(g, mid, hi)
  {
    var head := EmitStmt(s, lo, x);
    StmtStays(s, lo, x);
    StmtSizePositive(s);
    MustFall(g, lo, head, x, StmtFalls(s), hi);
    StayWiden(head, lo, mid, x, StmtFalls(s), lo, mid, x, true);
    FragmentAvoids(g, lo, head, x, mid, hi);
    EntersPiece(g, lo, hi, mid, hi);
  }

  lemma {:induction false} BlockIsReached(g: seq<Node>, b: Block, lo: nat, t: Target)
    requires AllReached(g) && SupportedBlock(b) && BlocksOk(b) && Holds(g, lo, EmitBlock(b, lo, t))
    requires EntersAtStart(g, lo, lo + BlockSize(b)) && Beyond(t, lo, lo + BlockSize(b))
    ensures BlockReached(b)
    decreases b
  {
    if Startable(b) {
      var mid, hi := lo + StmtSize(b[0]), lo + BlockSize(b);
      var x := BlockTarget(b[1..], mid, t);
      HoldsConcat(g, lo, EmitStmt(b[0], lo, x), EmitBlock(b[1..], mid, t));
      BlockAvoids(g, b[1..], mid, t, lo, mid);
      EntersPiece(g, lo, hi, lo, mid);
      BlockEntryRange(b[1..], mid);
      StmtIsReached(g, b[0], lo, x);
      if Startable(b[1..]) {
        StmtSizePositive(b[1]);
        TailIsEntered(g, b[0], lo, x, mid, hi);
        BlockIsReached(g, b[1..], mid, t);
      }
    }
  }

  // ----- The check is exact -----

  lemma BlockEdgesInside(b: Block)
    requires SupportedBlock(b)
    ensures EdgesInside(EmitBlock(b, 0, End))
  {
    BlockStays(b, 0, End);
    var g := EmitBlock(b, 0, End);
    forall i, d | 0 <= i < |g| && Succ(g[i], d).At? ensures Succ(g[i], d).id < |g| {
      assert Stays(Succ(g[i], d), 0, |g|, End, BlockReached(b) ==> BlockFalls(b));
    }
  }

  lemma AcceptableIsSound(b: Block, g: seq<Node>)
    requires SupportedBlock(b) && Acceptable(b) && g == EmitBlock(b, 0, End)
    ensures BlockEntry(b, 0) == At(0) && Sound(g, At(0))
  {
    assert g[0..|g|] == g;
    StmtEntryFirst(b[0], 0);
    BlockComplete(b, 0, End);
    assert Pos(g, At(0), []) == At(0);
    CoverBlock(g, At(0), b, 0, End);
  }

  lemma SoundIsAcceptable(b: Block, g: seq<Node>)
    requires SupportedBlock(b) && BlockSize(b) > 0 && g == EmitBlock(b, 0, End) && Sound(g, At(0))
    ensures Acceptable(b)
  {
    assert g[0..|g|] == g;
    BlockComplete(b, 0, End);
    BlockEdgesInside(b);
    BlockIsReached(g, b, 0, End);
  }

  /** A workflow that creates nodes compiles to a sound graph exactly if it is acceptable. */
  lemma AcceptanceIsExact(b: Block)
    requires SupportedBlock(b) && BlockSize(b) > 0
    ensures BlockEntry(b, 0) != Null && Sound(EmitBlock(b, 0, End), BlockEntry(b, 0)) <==> Acceptable(b)
  {
    var g := EmitBlock(b, 0, End);
    BlockEntryRange(b, 0);
    if Acceptable(b) {
      AcceptableIsSound(b, g);
    }
    if BlockEntry(b, 0) != Null && Sound(g, BlockEntry(b, 0)) {
      SoundIsAcceptable(b, g);
    }
  }
}
