/** Walking the compiled graph runs the handlers of the structured program, in the same order. */
module WorkflowCorrectness {
  import opened WorkflowSyntax
  import opened WorkflowGraph
  import opened WorkflowLayout

  // ----- Which blocks compile to a usable entry -----

  /** A block the compiler can find an entry for: it is non-empty and does not start with `return`. */
  predicate Startable(b: Block) {
    b != [] && !b[0].Return?
  }

  /** Every compiled block inside s is startable. */
  predicate StmtBlocksOk(s: Stmt) {
    match s
    case Call(_) => true
    case Return => true
    case If(_, th, els) =>
      && Startable(th) && BlocksOk(th)
      && (els.ElseBlock? ==> Startable(els.block) && BlocksOk(els.block))
    case While(_, body) => Startable(body) && BlocksOk(body)
    case DoWhile(body, _) => Startable(body) && BlocksOk(body)
  }

  /** Every compiled block inside b, b itself not counted, is startable. */
  predicate BlocksOk(b: Block) {
    b == [] || b[0].Return? || (StmtBlocksOk(b[0]) && BlocksOk(b[1..]))
  }

  /** The entry of a startable block is its first node. */
  lemma {:induction false} StmtEntryFirst(s: Stmt, lo: nat)
    requires StmtBlocksOk(s) && !s.Return?
    ensures StmtEntry(s, lo) == At(lo) && StmtSize(s) > 0
    decreases s
  {
    if s.DoWhile? {
      StmtEntryFirst(s.body[0], lo);
    }
  }

  // ----- Semantics of a fragment -----

  /** The nodes of g from lo on are frag. */
  ghost predicate Holds(g: seq<Node>, lo: nat, frag: seq<Node>) {
    lo + |frag| <= |g| && g[lo..lo + |frag|] == frag
  }

  lemma HoldsConcat(g: seq<Node>, lo: nat, a: seq<Node>, b: seq<Node>)
    requires Holds(g, lo, a + b)
    ensures Holds(g, lo, a) && Holds(g, lo + |a|, b)
  {
    assert g[lo..lo + |a|] == g[lo..lo + |a + b|][..|a|] == a;
    assert g[lo + |a|..lo + |a| + |b|] == g[lo..lo + |a + b|][|a|..] == b;
  }

  /** What walking a fragment must yield if its program has outcome o and control then goes to t. */
  function Continue(g: seq<Node>, o: Outcome, t: Target): seq<string> {
    match o
    case Suspended(tr) => tr
    case Returned(tr) => tr
    case Fell(tr, rest) => tr + Walk(g, t, rest)
  }

  /** Where the walk stands by then: inside the graph while suspended, at the end after a `return`. */
  ghost predicate Lands(g: seq<Node>, o: Outcome, t: Target, p: Target) {
    match o
    case Suspended(_) => Inside(g, p)
    case Returned(_) => p == End
    case Fell(_, rest) => p == Pos(g, t, rest)
  }

  ghost predicate Follows(g: seq<Node>, start: Target, rs: seq<bool>, o: Outcome, t: Target) {
    Walk(g, start, rs) == Continue(g, o, t) && Lands(g, o, t, Pos(g, start, rs))
  }

  lemma ContinuePrepend(g: seq<Node>, tr: seq<string>, o: Outcome, t: Target)
    ensures Continue(g, Prepend(tr, o), t) == tr + Continue(g, o, t)
    ensures forall p :: Lands(g, Prepend(tr, o), t, p) == Lands(g, o, t, p)
  {
  }

  /** One step through a condition node. */
  lemma WalkCond(g: seq<Node>, id: nat, c: Exp, holds: Target, fails: Target, rs: seq<bool>)
    requires Holds(g, id, [CondNode(c, holds, fails)]) && rs != []
    ensures Walk(g, At(id), rs) == [Handler(c)] + Walk(g, if rs[0] != Negated(c) then holds else fails, rs[1..])
    ensures Pos(g, At(id), rs) == Pos(g, if rs[0] != Negated(c) then holds else fails, rs[1..])
  {
  }

  lemma {:induction false} WalkStmt(g: seq<Node>, s: Stmt, lo: nat, t: Target, rs: seq<bool>)
    requires SupportedStmt(s) && StmtBlocksOk(s) && Holds(g, lo, EmitStmt(s, lo, t))
    ensures Follows(g, StmtTarget(s, lo), rs, RunStmt(s, rs), t)
    decreases |rs|, s
  {
    match s
    case Return =>
    case Call(e) =>
      assert g[lo] == g[lo..lo + 1][0];
    case If(_, _, _) => WalkIf(g, s, lo, t, rs);
    case While(_, _) => WalkWhile(g, s, lo, t, rs);
    case DoWhile(_, _) => WalkDoWhile(g, s, lo, t, rs);
  }

  /** Going through a condition and then along one of its branches. */
  lemma FollowsCond(g: seq<Node>, id: nat, c: Exp, holds: Target, fails: Target, rs: seq<bool>, o: Outcome, t: Target)
    requires Holds(g, id, [CondNode(c, holds, fails)]) && rs != []
    requires Follows(g, if rs[0] != Negated(c) then holds else fails, rs[1..], o, t)
    ensures Follows(g, At(id), rs, Prepend([Handler(c)], o), t)
  {
    WalkCond(g, id, c, holds, fails, rs);
    ContinuePrepend(g, [Handler(c)], o, t);
  }

  /** Where the other edge of the condition of an `if` goes; mid is where its other block starts. */
  function IfFails(s: Stmt, mid: nat, t: Target): Target
    requires s.If?
  {
    if s.els.ElseBlock? then BlockEntry(s.els.block, mid) else t
  }

  lemma HoldsThree(g: seq<Node>, lo: nat, a: seq<Node>, b: seq<Node>, c: seq<Node>)
    requires Holds(g, lo, a + b + c)
    ensures Holds(g, lo, a) && Holds(g, lo + |a|, b) && Holds(g, lo + |a| + |b|, c)
  {
    HoldsConcat(g, lo, a + b, c);
    HoldsConcat(g, lo, a, b);
  }

  lemma IfElseEmits(s: Stmt, lo: nat, t: Target, mid: nat)
    requires s.If? && s.els.ElseBlock? && mid == lo + 1 + BlockSize(s.thenBlock)
    ensures EmitStmt(s, lo, t)
            == [CondNode(s.cond, BlockEntry(s.thenBlock, lo + 1), BlockEntry(s.els.block, mid))]
               + EmitBlock(s.thenBlock, lo + 1, t) + EmitBlock(s.els.block, mid, t)
  {
  }

  lemma IfEmits(s: Stmt, lo: nat, t: Target)
    requires s.If? && s.els.NoElse?
    ensures EmitStmt(s, lo, t)
            == [CondNode(s.cond, BlockEntry(s.thenBlock, lo + 1), t)] + EmitBlock(s.thenBlock, lo + 1, t)
  {
  }

  /** The pieces of an `if`: its condition, its block and its other block. */
  lemma IfPieces(g: seq<Node>, s: Stmt, lo: nat, t: Target, mid: nat)
    requires s.If? && !s.els.ElseIf? && Holds(g, lo, EmitStmt(s, lo, t)) && mid == lo + 1 + BlockSize(s.thenBlock)
    ensures Holds(g, lo, [CondNode(s.cond, BlockEntry(s.thenBlock, lo + 1), IfFails(s, mid, t))])
    ensures Holds(g, lo + 1, EmitBlock(s.thenBlock, lo + 1, t))
    ensures s.els.ElseBlock? ==> Holds(g, mid, EmitBlock(s.els.block, mid, t))
  {
    var head := [CondNode(s.cond, BlockEntry(s.thenBlock, lo + 1), IfFails(s, mid, t))];
    var body := EmitBlock(s.thenBlock, lo + 1, t);
    if s.els.ElseBlock? {
      IfElseEmits(s, lo, t, mid);
      HoldsThree(g, lo, head, body, EmitBlock(s.els.block, mid, t));
    } else {
      IfEmits(s, lo, t);
      HoldsConcat(g, lo, head, body);
    }
  }

  lemma {:induction false} WalkIf(g: seq<Node>, s: Stmt, lo: nat, t: Target, rs: seq<bool>)
    requires s.If? && SupportedStmt(s) && StmtBlocksOk(s) && Holds(g, lo, EmitStmt(s, lo, t))
    ensures Follows(g, At(lo), rs, RunStmt(s, rs), t)
    decreases |rs|, s, 0
  {
    if rs != [] {
      var c, th := s.cond, s.thenBlock;
      var mid := lo + 1 + BlockSize(th);
      IfPieces(g, s, lo, t, mid);
      var o := Fell([], rs[1..]);
      if rs[0] != Negated(c) {
        WalkBlock(g, th, lo + 1, t, rs[1..]);
        o := RunBlock(th, rs[1..]);
      } else if s.els.ElseBlock? {
        WalkBlock(g, s.els.block, mid, t, rs[1..]);
        o := RunBlock(s.els.block, rs[1..]);
      }
      FollowsCond(g, lo, c, BlockEntry(th, lo + 1), IfFails(s, mid, t), rs, o, t);
    }
  }

  /** The outcome of a program followed by another one, if control gets there. */
  function Then(o: Outcome, next: Outcome): Outcome {
    if o.Fell? then Prepend(o.trace, next) else o
  }

  lemma PrependTwice(a: seq<string>, b: seq<string>, o: Outcome)
    ensures Prepend(a, Prepend(b, o)) == Prepend(a + b, o)
  {
    assert a + (b + o.trace) == (a + b) + o.trace;
  }

  /** Going through a fragment to mid and on from there. */
  lemma FollowsThen(g: seq<Node>, start: Target, rs: seq<bool>, o: Outcome, mid: Target, next: Outcome, t: Target)
    requires Follows(g, start, rs, o, mid) && (o.Fell? ==> Follows(g, mid, o.rest, next, t))
    ensures Follows(g, start, rs, Then(o, next), t)
  {
    if o.Fell? {
      ContinuePrepend(g, o.trace, next, t);
    }
  }

  /** A round of a `while` loop whose condition holds. */
  lemma WhileRound(s: Stmt, rs: seq<bool>, o: Outcome, next: Outcome)
    requires s.While? && rs != [] && rs[0] != Negated(s.cond) && o == RunBlock(s.body, rs[1..])
    requires o.Fell? ==> next == RunStmt(s, o.rest)
    ensures RunStmt(s, rs) == Prepend([Handler(s.cond)], Then(o, next))
  {
    if o.Fell? {
      PrependTwice([Handler(s.cond)], o.trace, next);
    }
  }

  lemma {:induction false} WalkWhile(g: seq<Node>, s: Stmt, lo: nat, t: Target, rs: seq<bool>)
    requires s.While? && SupportedStmt(s) && StmtBlocksOk(s) && Holds(g, lo, EmitStmt(s, lo, t))
    ensures Follows(g, At(lo), rs, RunStmt(s, rs), t)
    decreases |rs|, s, 0
  {
    if rs != [] {
      var c, body := s.cond, s.body;
      HoldsConcat(g, lo, [CondNode(c, BlockEntry(body, lo + 1), t)], EmitBlock(body, lo + 1, At(lo)));
      var out := Fell([], rs[1..]);
      if rs[0] != Negated(c) {
        WalkBlock(g, body, lo + 1, At(lo), rs[1..]);
        var o := RunBlock(body, rs[1..]);
        var next := o;
        if o.Fell? {
          WalkWhile(g, s, lo, t, o.rest);
          next := RunStmt(s, o.rest);
        }
        FollowsThen(g, BlockEntry(body, lo + 1), rs[1..], o, At(lo), next, t);
        WhileRound(s, rs, o, next);
        out := Then(o, next);
      }
      FollowsCond(g, lo, c, BlockEntry(body, lo + 1), t, rs, out, t);
    }
  }

  /** The test at the end of a `do` loop, and the round behind it if the condition holds. */
  lemma DoWhileTest(s: Stmt, rs: seq<bool>, o: Outcome, test: Outcome, next: Outcome)
    requires s.DoWhile? && o == RunBlock(s.body, rs) && (o.Fell? ==> test == TestOf(s, o.rest, next))
    requires o.Fell? && o.rest != [] && o.rest[0] != Negated(s.cond) ==> next == RunStmt(s, o.rest[1..])
    ensures RunStmt(s, rs) == Then(o, test)
  {
    if o.Fell? && o.rest != [] && o.rest[0] != Negated(s.cond) {
      PrependTwice(o.trace, [Handler(s.cond)], next);
    }
  }

  /** The outcome of the test of a `do` loop, with that of the next round. */
  function TestOf(s: Stmt, rs: seq<bool>, next: Outcome): Outcome
    requires s.DoWhile?
  {
    if rs == [] then Suspended([])
    else Prepend([Handler(s.cond)], if rs[0] == Negated(s.cond) then Fell([], rs[1..]) else next)
  }

  lemma {:induction false} WalkDoWhile(g: seq<Node>, s: Stmt, lo: nat, t: Target, rs: seq<bool>)
    requires s.DoWhile? && SupportedStmt(s) && StmtBlocksOk(s) && Holds(g, lo, EmitStmt(s, lo, t))
    ensures Follows(g, BlockEntry(s.body, lo), rs, RunStmt(s, rs), t)
    decreases |rs|, s, 0
  {
    var body, c := s.body, s.cond;
    var mid := lo + BlockSize(body);
    HoldsConcat(g, lo, EmitBlock(body, lo, At(mid)), [CondNode(c, BlockEntry(body, lo), t)]);
    WalkBlock(g, body, lo, At(mid), rs);
    var o := RunBlock(body, rs);
    var next := o;
    if o.Fell? && o.rest != [] {
      if o.rest[0] != Negated(c) {
        WalkDoWhile(g, s, lo, t, o.rest[1..]);
        next := RunStmt(s, o.rest[1..]);
      } else {
        next := Fell([], o.rest[1..]);
      }
      FollowsCond(g, mid, c, BlockEntry(body, lo), t, o.rest, next, t);
    }
    var test := if o.Fell? then TestOf(s, o.rest, next) else o;
    FollowsThen(g, BlockEntry(body, lo), rs, o, At(mid), test, t);
    DoWhileTest(s, rs, o, test, next);
  }

  lemma {:induction false} WalkBlock(g: seq<Node>, b: Block, lo: nat, t: Target, rs: seq<bool>)
    requires SupportedBlock(b) && BlocksOk(b) && Holds(g, lo, EmitBlock(b, lo, t))
    ensures Follows(g, BlockTarget(b, lo, t), rs, RunBlock(b, rs), t)
    decreases |rs|, b
  {
    if b != [] && !b[0].Return? {
      var mid := lo + StmtSize(b[0]);
      var x := BlockTarget(b[1..], mid, t);
      HoldsConcat(g, lo, EmitStmt(b[0], lo, x), EmitBlock(b[1..], mid, t));
      WalkStmt(g, b[0], lo, x, rs);
      var o := RunStmt(b[0], rs);
      var next := o;
      if o.Fell? {
        WalkBlock(g, b[1..], mid, t, o.rest);
        next := RunBlock(b[1..], o.rest);
      }
      FollowsThen(g, BlockTarget(b, lo, t), rs, o, x, next, t);
    }
  }

  /**
   The graph of a whole workflow runs the workflow: the same handlers in the same order for every
   sequence of results, and the walk has reached the end node exactly when the program is over.
   */
  lemma CompiledRunsProgram(b: Block, rs: seq<bool>)
    requires SupportedBlock(b) && Startable(b) && BlocksOk(b)
    ensures Walk(EmitBlock(b, 0, End), BlockEntry(b, 0), rs) == Trace(b, rs)
    ensures Pos(EmitBlock(b, 0, End), BlockEntry(b, 0), rs) == End <==> !RunBlock(b, rs).Suspended?
  {
    WalkBlock(EmitBlock(b, 0, End), b, 0, End, rs);
  }
}
