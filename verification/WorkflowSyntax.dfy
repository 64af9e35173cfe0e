/** The workflow language: its abstract syntax and what a structured program does. */
module WorkflowSyntax {

  /** An expression is a handler name under any number of negations. */
  datatype Exp = Name(name: string) | Not(operand: Exp)

  /** The grammar lets `else` be followed by a block or directly by another `if`. */
  datatype Else = NoElse | ElseBlock(block: seq<Stmt>) | ElseIf(stmt: Stmt)

  datatype Stmt =
    | Call(exp: Exp)
    | If(cond: Exp, thenBlock: seq<Stmt>, els: Else)
    | While(cond: Exp, body: seq<Stmt>)
    | DoWhile(body: seq<Stmt>, cond: Exp)
    | Return

  type Block = seq<Stmt>

  function Handler(e: Exp): string {
    match e
    case Name(n) => n
    case Not(x) => Handler(x)
  }

  /** True if the number of negations is odd. */
  predicate Negated(e: Exp) {
    match e
    case Name(_) => false
    case Not(x) => !Negated(x)
  }

  // ----- Reference semantics -----
  //
  // The outside world is a sequence of handler results: the k-th handler that runs returns rs[k].
  // A finite sequence cuts a diverging run off at a finite prefix.

  datatype Outcome =
    | Suspended(trace: seq<string>)                   // ran out of results
    | Fell(trace: seq<string>, rest: seq<bool>)       // fell off the end
    | Returned(trace: seq<string>)                    // executed a `return`

  function Prepend(t: seq<string>, o: Outcome): Outcome {
    match o
    case Suspended(u) => Suspended(t + u)
    case Fell(u, rest) => Fell(t + u, rest)
    case Returned(u) => Returned(t + u)
  }

  ghost predicate Consumes(o: Outcome, rs: seq<bool>) {
    o.Fell? ==> |o.rest| <= |rs|
  }

  function RunStmt(s: Stmt, rs: seq<bool>): (o: Outcome)
    ensures Consumes(o, rs)
    decreases |rs|, s
  {
    match s
    case Call(e) =>
      if rs == [] then Suspended([]) else Fell([Handler(e)], rs[1..])
    case Return => Returned([])
    case If(c, th, els) =>
      if rs == [] then Suspended([])
      else if rs[0] != Negated(c) then Prepend([Handler(c)], RunBlock(th, rs[1..]))
      else (match els
            case NoElse => Fell([Handler(c)], rs[1..])
            case ElseBlock(eb) => Prepend([Handler(c)], RunBlock(eb, rs[1..]))
            case ElseIf(es) => Prepend([Handler(c)], RunStmt(es, rs[1..])))
    case While(c, body) =>
      if rs == [] then Suspended([])
      else if rs[0] == Negated(c) then Fell([Handler(c)], rs[1..])
      else (match RunBlock(body, rs[1..])
            case Fell(t, rest) => Prepend([Handler(c)] + t, RunStmt(s, rest))
            case Suspended(t) => Suspended([Handler(c)] + t)
            case Returned(t) => Returned([Handler(c)] + t))
    case DoWhile(body, c) =>
      (match RunBlock(body, rs)
       case Suspended(t) => Suspended(t)
       case Returned(t) => Returned(t)
       case Fell(t, rest) =>
         if rest == [] then Suspended(t)
         else if rest[0] == Negated(c) then Fell(t + [Handler(c)], rest[1..])
         else Prepend(t + [Handler(c)], RunStmt(s, rest[1..])))
  }

  function RunBlock(b: Block, rs: seq<bool>): (o: Outcome)
    ensures Consumes(o, rs)
    decreases |rs|, b
  {
    if b == [] then Fell([], rs)
    else
      match RunStmt(b[0], rs)
      case Fell(t, rest) => Prepend(t, RunBlock(b[1..], rest))
      case Suspended(t) => Suspended(t)
      case Returned(t) => Returned(t)
  }

  /** The handlers a structured program runs, in order, when their results are rs. */
  function Trace(b: Block, rs: seq<bool>): seq<string> {
    RunBlock(b, rs).trace
  }
}
