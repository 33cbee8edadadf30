/** Syntax trees of the TINY language and their meaning.
    Expressions never carry siblings; a statement list is a chain of sibling links that ends in `End`
    (the null pointer of the tree). */
module TinyTree {

  datatype Op = PLUS | MINUS | TIMES | OVER | LT | EQ

  datatype Exp =
    | ConstK(val: int)
    | IdK(name: string)
    | OpK(op: Op, left: Exp, right: Exp)

  datatype Stmt =
    | IfK(test: Exp, thenPart: Stmts, elsePart: Stmts)
    | RepeatK(body: Stmts, until: Exp)
    | AssignK(target: string, rhs: Exp)
    | ReadK(target: string)
    | WriteK(exp: Exp)

  datatype Stmts = End | Then(first: Stmt, sibling: Stmts)

  // ----- what a tree needs from the machine -----

  function Max(a: int, b: int): int {
    if a < b then b else a
  }

  /** The variables an expression mentions. */
  function ExpVars(e: Exp): set<string> {
    match e
    case ConstK(_) => {}
    case IdK(x) => {x}
    case OpK(_, l, r) => ExpVars(l) + ExpVars(r)
  }

  function StmtVars(s: Stmt): set<string> {
    match s
    case IfK(e, p, q) => ExpVars(e) + StmtsVars(p) + StmtsVars(q)
    case RepeatK(p, e) => StmtsVars(p) + ExpVars(e)
    case AssignK(x, e) => {x} + ExpVars(e)
    case ReadK(x) => {x}
    case WriteK(e) => ExpVars(e)
  }

  function StmtsVars(t: Stmts): set<string> {
    match t
    case End => {}
    case Then(s, rest) => StmtVars(s) + StmtsVars(rest)
  }

  /** How many left operands are pending at once while an expression is evaluated. */
  function ExpTemps(e: Exp): nat {
    match e
    case OpK(_, l, r) => Max(ExpTemps(l), 1 + ExpTemps(r))
    case _ => 0
  }

  function StmtTemps(s: Stmt): nat {
    match s
    case IfK(e, p, q) => Max(ExpTemps(e), Max(StmtsTemps(p), StmtsTemps(q)))
    case RepeatK(p, e) => Max(StmtsTemps(p), ExpTemps(e))
    case AssignK(_, e) => ExpTemps(e)
    case ReadK(_) => 0
    case WriteK(e) => ExpTemps(e)
  }

  function StmtsTemps(t: Stmts): nat {
    match t
    case End => 0
    case Then(s, rest) => Max(StmtTemps(s), StmtsTemps(rest))
  }
}

/** Big-step meaning of TINY programs over mathematical integers. */
module TinySemantics {
  import opened TinyTree

  type Store = map<string, int>

  datatype State = State(store: Store, input: seq<int>, output: seq<int>)

  /** How a run ends: normally, at a division by zero, waiting for an input number that never comes,
      or not within the given number of loop repetitions. */
  datatype Outcome =
    | Done(s: State)
    | ZeroDivide(s: State)
    | Blocked(s: State)
    | OutOfFuel

  datatype Value = Val(v: int) | Undefined

  function Lookup(s: Store, x: string): int {
    if x in s then s[x] else 0
  }

  /** Integer division of C: the quotient is truncated toward zero. */
  function CDiv(a: int, b: int): int
    requires b != 0
  {
    if a >= 0 then a / b else -((-a) / b)
  }

  /** `q` is the quotient of `a` and `b` without its fraction: it is not larger than the exact quotient, and less than one off. */
  predicate Truncates(a: int, b: int, q: int) {
    Abs(b * q) <= Abs(a) && Abs(a - b * q) < Abs(b)
  }

  function Abs(a: int): int {
    if a < 0 then -a else a
  }

  lemma CDivTruncates(a: int, b: int)
    requires b != 0
    ensures Truncates(a, b, CDiv(a, b))
  {
    hide Truncates;
    QuotientTruncates(Abs(a), b);
    if a < 0 { MinusTruncates(-a, b, -a / b); }
  }

  lemma MinusTruncates(a: int, b: int, q: int)
    requires Truncates(a, b, q)
    ensures Truncates(-a, b, -q)
  {
    Negated(b, q);
  }

  lemma QuotientTruncates(n: nat, b: int)
    requires b != 0
    ensures Truncates(n, b, n / b)
  {
    var q, r := n / b, n % b;
    Larger(b, q);
    QuotientBounds(n, Abs(b), b * q, r);
  }

  lemma QuotientBounds(n: nat, b: nat, p: int, r: int)
    requires n == p + r && 0 <= r < b && (p == 0 || Abs(p) >= b)
    ensures Abs(p) <= n && Abs(n - p) < b
  {
  }

  lemma Negated(b: int, q: int)
    ensures b * -q == -(b * q)
  {
  }

  /** There is only one such quotient. */
  lemma TruncatedOnce(a: int, b: int, p: int, q: int)
    requires b != 0 && Truncates(a, b, p) && Truncates(a, b, q)
    ensures p == q
  {
    Larger(b, p - q);
    Distributes(b, p, q);
    Close(a, Abs(b), b * p, b * q);
  }

  lemma Distributes(b: int, p: int, q: int)
    ensures b * (p - q) == b * p - b * q
  {
  }

  lemma Close(a: int, b: int, x: int, y: int)
    requires Abs(x) <= Abs(a) && Abs(y) <= Abs(a) && Abs(a - x) < b && Abs(a - y) < b
    ensures Abs(x - y) < b
  {
  }

  lemma Larger(b: int, d: int)
    ensures d != 0 ==> Abs(b * d) >= Abs(b)
  {
    if d > 0 {
      Positive(b, d);
    } else if d < 0 {
      Positive(b, -d);
      Negated(b, d);
    }
  }

  lemma {:induction false} Positive(b: int, d: int)
    requires d > 0
    ensures if b >= 0 then b * d >= b else b * d <= b
    decreases d
  {
    if d > 1 {
      Positive(b, d - 1);
      assert b * d == b * (d - 1) + b;
    }
  }

  function Apply(op: Op, a: int, b: int): Value {
    match op
    case PLUS => Val(a + b)
    case MINUS => Val(a - b)
    case TIMES => Val(a * b)
    case OVER => if b == 0 then Undefined else Val(CDiv(a, b))
    case LT => Val(if a < b then 1 else 0)
    case EQ => Val(if a == b then 1 else 0)
  }

  function Eval(e: Exp, s: Store): Value {
    match e
    case ConstK(n) => Val(n)
    case IdK(x) => Val(Lookup(s, x))
    case OpK(op, l, r) =>
      var a := Eval(l, s);
      if a.Undefined? then Undefined else
      var b := Eval(r, s);
      if b.Undefined? then Undefined else Apply(op, a.v, b.v)
  }

  /** `fuel` bounds how often each loop body may be repeated after its first run. */
  function ExecStmt(s: Stmt, st: State, fuel: nat): Outcome
    decreases fuel, s
  {
    match s
    case IfK(e, p, q) =>
      var c := Eval(e, st.store);
      if c.Undefined? then ZeroDivide(st)
      else if c.v != 0 then Exec(p, st, fuel)
      else Exec(q, st, fuel)
    case RepeatK(p, e) =>
      var o := Exec(p, st, fuel);
      if !o.Done? then o else
      var c := Eval(e, o.s.store);
      if c.Undefined? then ZeroDivide(o.s)
      else if c.v != 0 then o
      else if fuel == 0 then OutOfFuel
      else ExecStmt(s, o.s, fuel - 1)
    case AssignK(x, e) =>
      var v := Eval(e, st.store);
      if v.Undefined? then ZeroDivide(st) else Done(st.(store := st.store[x := v.v]))
    case ReadK(x) =>
      if st.input == [] then Blocked(st)
      else Done(st.(store := st.store[x := st.input[0]], input := st.input[1..]))
    case WriteK(e) =>
      var v := Eval(e, st.store);
      if v.Undefined? then ZeroDivide(st) else Done(st.(output := st.output + [v.v]))
  }

  function Exec(t: Stmts, st: State, fuel: nat): Outcome
    decreases fuel, t
  {
    match t
    case End => Done(st)
    case Then(s, rest) =>
      var o := ExecStmt(s, st, fuel);
      if o.Done? then Exec(rest, o.s, fuel) else o
  }
}
