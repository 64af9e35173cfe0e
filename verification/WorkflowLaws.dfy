/** What the statements of the language mean, law by law. */
module WorkflowLaws {
  import opened WorkflowSyntax
  import opened WorkflowGraph
  import opened WorkflowLayout
  import opened WorkflowCorrectness

  // ----- Calls and conditions -----

  /** A call runs the handler it names, under any number of negations, and goes on whatever the result is. */
  lemma CallRuns(n: string, c: Exp, r: bool, rs: seq<bool>)
    ensures RunStmt(Call(Name(n)), [r] + rs) == Fell([n], rs) && RunStmt(Call(Name(n)), []) == Suspended([])
    ensures RunStmt(Call(Not(c)), rs) == RunStmt(Call(c), rs)
  {
    assert ([r] + rs)[1..] == rs;
  }

  /** A true result of the condition runs the block, a false one the other block. */
  lemma ConditionDecides(n: string, th: Block, el: Block, rs: seq<bool>)
    ensures RunStmt(If(Name(n), th, ElseBlock(el)), [true] + rs) == Prepend([n], RunBlock(th, rs))
    ensures RunStmt(If(Name(n), th, ElseBlock(el)), [false] + rs) == Prepend([n], RunBlock(el, rs))
    ensures RunStmt(If(Name(n), th, ElseBlock(el)), []) == Suspended([])
  {
    assert ([true] + rs)[1..] == rs && ([false] + rs)[1..] == rs;
  }

  /** A negation exchanges the branches. */
  lemma NotExchanges(c: Exp, th: Block, el: Block, rs: seq<bool>)
    ensures RunStmt(If(Not(c), th, ElseBlock(el)), rs) == RunStmt(If(c, el, ElseBlock(th)), rs)
  {
  }

  /** A missing branch is an empty one, and `else if` is a block of one statement. */
  lemma OtherBranches(c: Exp, th: Block, s: Stmt, rs: seq<bool>)
    ensures RunStmt(If(c, th, NoElse), rs) == RunStmt(If(c, th, ElseBlock([])), rs)
    ensures RunStmt(If(c, th, ElseIf(s)), rs) == RunStmt(If(c, th, ElseBlock([s])), rs)
  {
    forall us: seq<bool> ensures RunBlock([s], us) == RunStmt(s, us) {
      RunOne(s, us);
    }
  }

  // ----- Sequences -----

  lemma PrependNothing(o: Outcome)
    ensures Prepend([], o) == o
  {
    assert [] + o.trace == o.trace;
  }

  lemma RunOne(s: Stmt, rs: seq<bool>)
    ensures RunBlock([s], rs) == RunStmt(s, rs)
  {
    var o := RunStmt(s, rs);
    assert [s][1..] == [];
    if o.Fell? {
      assert RunBlock([s][1..], o.rest) == Fell([], o.rest);
      assert o.trace + [] == o.trace;
    }
  }

  /** Statements run one after another; nothing runs behind a `return`. */
  lemma SequenceRuns(s: Stmt, b: Block, rs: seq<bool>)
    ensures RunBlock([], rs) == Fell([], rs) && RunBlock([Return] + b, rs) == Returned([])
    ensures var o := RunStmt(s, rs);
            RunBlock([s] + b, rs) == if o.Fell? then Prepend(o.trace, RunBlock(b, o.rest)) else o
  {
    assert ([s] + b)[0] == s && ([s] + b)[1..] == b;
    assert ([Return] + b)[0] == Return;
  }

  lemma {:induction false} RunAppend(a: Block, b: Block, rs: seq<bool>)
    ensures var o := RunBlock(a, rs);
            RunBlock(a + b, rs) == if o.Fell? then Prepend(o.trace, RunBlock(b, o.rest)) else o
    decreases |a|
  {
    if a == [] {
      assert a + b == b;
      PrependNothing(RunBlock(b, rs));
    } else {
      assert (a + b)[0] == a[0] && (a + b)[1..] == a[1..] + b;
      var o := RunStmt(a[0], rs);
      if o.Fell? {
        RunAppend(a[1..], b, o.rest);
        var p := RunBlock(a[1..], o.rest);
        if p.Fell? {
          PrependTwice(o.trace, p.trace, RunBlock(b, p.rest));
        }
      }
    }
  }

  // ----- Loops -----

  /** A loop is its body and the loop again, under its condition. */
  lemma WhileUnrolls(c: Exp, body: Block, rs: seq<bool>)
    ensures RunStmt(While(c, body), rs) == RunStmt(If(c, body + [While(c, body)], NoElse), rs)
  {
    var s := While(c, body);
    if rs != [] && rs[0] != Negated(c) {
      RunAppend(body, [s], rs[1..]);
      var o := RunBlock(body, rs[1..]);
      if o.Fell? {
        RunOne(s, o.rest);
        PrependTwice([Handler(c)], o.trace, RunStmt(s, o.rest));
      }
    }
  }

  /** A `do` loop is its body and then the loop with the test in front. */
  lemma {:induction false} DoWhileUnrolls(c: Exp, body: Block, rs: seq<bool>)
    ensures RunStmt(DoWhile(body, c), rs) == RunBlock(body + [While(c, body)], rs)
    decreases |rs|
  {
    var s, w := DoWhile(body, c), While(c, body);
    RunAppend(body, [w], rs);
    var o := RunBlock(body, rs);
    if o.Fell? {
      RunOne(w, o.rest);
      WhileUnrolls(c, body, o.rest);
      if o.rest != [] && o.rest[0] != Negated(c) {
        DoWhileUnrolls(c, body, o.rest[1..]);
        PrependTwice(o.trace, [Handler(c)], RunStmt(s, o.rest[1..]));
      }
    }
  }

  // ----- The compiled graph -----

  /** A true result of a plain condition leads to the first node of its block, a false one to that of the other. */
  lemma CompiledCondition(n: string, th: Block, el: Block, lo: nat, t: Target)
    ensures EmitStmt(If(Name(n), th, ElseBlock(el)), lo, t)[0]
            == Node(n, BlockEntry(th, lo + 1), BlockEntry(el, lo + 1 + BlockSize(th)))
    ensures EmitStmt(If(Name(n), th, NoElse), lo, t)[0] == Node(n, BlockEntry(th, lo + 1), t)
    ensures EmitStmt(While(Name(n), th), lo, t)[0] == Node(n, BlockEntry(th, lo + 1), t)
    ensures EmitStmt(DoWhile(th, Name(n)), lo, t)[BlockSize(th)] == Node(n, BlockEntry(th, lo), t)
    ensures Startable(th) && BlocksOk(th) ==> BlockEntry(th, lo) == At(lo)
  {
    if Startable(th) && BlocksOk(th) {
      StmtEntryFirst(th[0], lo);
    }
  }

  /** Under a negation it is the other way round. */
  lemma CompiledNegation(c: Exp, holds: Target, fails: Target)
    ensures CondNode(Not(c), holds, fails) == CondNode(c, fails, holds)
  {
  }

  /** The walk takes the true edge for a true result. */
  lemma ResultChoosesEdge(g: seq<Node>, i: nat, rs: seq<bool>)
    requires i < |g|
    ensures Walk(g, At(i), [true] + rs) == [g[i].name] + Walk(g, g[i].onTrue, rs)
    ensures Walk(g, At(i), [false] + rs) == [g[i].name] + Walk(g, g[i].onFalse, rs)
  {
    assert ([true] + rs)[1..] == rs && ([false] + rs)[1..] == rs;
  }
}
