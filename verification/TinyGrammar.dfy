/** The concrete syntax of TINY, and recursive descent over it as functions on token lists. */
module TinyGrammar {
  import opened Common
  import opened TinyTree

  /** The tokens of the scanner; the end of the file is the end of the list. */
  datatype Token =
    | IfT | ThenT | ElseT | EndT | RepeatT | UntilT | ReadT | WriteT
    | AssignT | EqT | LtT | PlusT | MinusT | TimesT | OverT | LParenT | RParenT | SemiT
    | IdT(name: string) | NumT(val: nat) | OtherT

  // ----- concrete syntax trees -----

  datatype CFactor = FNum(n: nat) | FId(x: string) | FParen(e: CExp)
  datatype CTerm = TFactor(f: CFactor) | TOp(t: CTerm, op: Op, f: CFactor)
  datatype CSimple = STerm(t: CTerm) | SOp(s: CSimple, op: Op, t: CTerm)
  datatype CExp = ESimple(s: CSimple) | ERel(a: CSimple, op: Op, b: CSimple)

  datatype CStmt =
    | CIf(test: CExp, thenPart: CSeq, elsePart: Option<CSeq>)
    | CRepeat(body: CSeq, until: CExp)
    | CAssign(x: string, e: CExp)
    | CRead(x: string)
    | CWrite(e: CExp)
  datatype CSeq = COne(s: CStmt) | CMore(s: CStmt, rest: CSeq)

  /** The operators stand at their levels. */
  predicate GoodF(f: CFactor) {
    f.FParen? ==> GoodE(f.e)
  }
  predicate GoodT(t: CTerm) {
    match t
    case TFactor(f) => GoodF(f)
    case TOp(t1, op, f) => (op.TIMES? || op.OVER?) && GoodT(t1) && GoodF(f)
  }
  predicate GoodS(s: CSimple) {
    match s
    case STerm(t) => GoodT(t)
    case SOp(s1, op, t) => (op.PLUS? || op.MINUS?) && GoodS(s1) && GoodT(t)
  }
  predicate GoodE(e: CExp) {
    match e
    case ESimple(s) => GoodS(s)
    case ERel(a, op, b) => (op.LT? || op.EQ?) && GoodS(a) && GoodS(b)
  }
  predicate GoodStmt(s: CStmt) {
    match s
    case CIf(e, p, q) => GoodE(e) && GoodSeq(p) && (q.Some? ==> GoodSeq(q.value))
    case CRepeat(p, e) => GoodSeq(p) && GoodE(e)
    case CAssign(_, e) => GoodE(e)
    case CRead(_) => true
    case CWrite(e) => GoodE(e)
  }
  predicate GoodSeq(q: CSeq) {
    GoodStmt(q.s) && (q.CMore? ==> GoodSeq(q.rest))
  }

  function OpToken(op: Op): Token {
    match op
    case PLUS => PlusT
    case MINUS => MinusT
    case TIMES => TimesT
    case OVER => OverT
    case LT => LtT
    case EQ => EqT
  }

  // ----- the tokens of a concrete tree, and the syntax tree it stands for -----

  function TokF(f: CFactor): seq<Token> {
    match f
    case FNum(n) => [NumT(n)]
    case FId(x) => [IdT(x)]
    case FParen(e) => [LParenT] + TokE(e) + [RParenT]
  }
  function TokT(t: CTerm): seq<Token> {
    match t
    case TFactor(f) => TokF(f)
    case TOp(t1, op, f) => TokT(t1) + [OpToken(op)] + TokF(f)
  }
  function TokS(s: CSimple): seq<Token> {
    match s
    case STerm(t) => TokT(t)
    case SOp(s1, op, t) => TokS(s1) + [OpToken(op)] + TokT(t)
  }
  function TokE(e: CExp): seq<Token> {
    match e
    case ESimple(s) => TokS(s)
    case ERel(a, op, b) => TokS(a) + [OpToken(op)] + TokS(b)
  }
  function TokStmt(s: CStmt): seq<Token> {
    match s
    case CIf(e, p, q) =>
      [IfT] + TokE(e) + [ThenT] + TokSeq(p) + (if q.Some? then [ElseT] + TokSeq(q.value) else []) + [EndT]
    case CRepeat(p, e) => [RepeatT] + TokSeq(p) + [UntilT] + TokE(e)
    case CAssign(x, e) => [IdT(x), AssignT] + TokE(e)
    case CRead(x) => [ReadT, IdT(x)]
    case CWrite(e) => [WriteT] + TokE(e)
  }
  function TokSeq(q: CSeq): seq<Token> {
    TokStmt(q.s) + if q.CMore? then [SemiT] + TokSeq(q.rest) else []
  }

  function AbsF(f: CFactor): Exp {
    match f
    case FNum(n) => ConstK(n)
    case FId(x) => IdK(x)
    case FParen(e) => AbsE(e)
  }
  function AbsT(t: CTerm): Exp {
    match t
    case TFactor(f) => AbsF(f)
    case TOp(t1, op, f) => OpK(op, AbsT(t1), AbsF(f))
  }
  function AbsS(s: CSimple): Exp {
    match s
    case STerm(t) => AbsT(t)
    case SOp(s1, op, t) => OpK(op, AbsS(s1), AbsT(t))
  }
  function AbsE(e: CExp): Exp {
    match e
    case ESimple(s) => AbsS(s)
    case ERel(a, op, b) => OpK(op, AbsS(a), AbsS(b))
  }
  function AbsStmt(s: CStmt): Stmt {
    match s
    case CIf(e, p, q) => IfK(AbsE(e), AbsSeq(p), if q.Some? then AbsSeq(q.value) else End)
    case CRepeat(p, e) => RepeatK(AbsSeq(p), AbsE(e))
    case CAssign(x, e) => AssignK(x, AbsE(e))
    case CRead(x) => ReadK(x)
    case CWrite(e) => WriteK(AbsE(e))
  }
  function AbsSeq(q: CSeq): Stmts {
    Then(AbsStmt(q.s), if q.CMore? then AbsSeq(q.rest) else End)
  }

  // ----- recursive descent -----

  /** The tree, `None` where the parser leaves a hole; the tokens not read; and whether no syntax error was reported. */
  datatype Parsed<T> = Parsed(tree: Option<T>, rest: seq<Token>, ok: bool)

  predicate At(ts: seq<Token>, t: Token) {
    ts != [] && ts[0] == t
  }

  /** The tokens after the next one. */
  function Tail(ts: seq<Token>): seq<Token> {
    if ts == [] then [] else ts[1..]
  }

  /** Reads the token `t`, or reports an error and reads nothing. */
  function Expect<T>(r: Parsed<T>, t: Token): Parsed<T> {
    if At(r.rest, t) then r.(rest := Tail(r.rest)) else r.(ok := false)
  }

  function MakeOp(op: Op, l: Option<Exp>, r: Option<Exp>): Option<Exp> {
    if l.Some? && r.Some? then Some(OpK(op, l.value, r.value)) else None
  }

  predicate AtAdd(ts: seq<Token>) {
    At(ts, PlusT) || At(ts, MinusT)
  }

  predicate AtMul(ts: seq<Token>) {
    At(ts, TimesT) || At(ts, OverT)
  }

  predicate AtRel(ts: seq<Token>) {
    At(ts, LtT) || At(ts, EqT)
  }

  function OpAt(ts: seq<Token>): Op
    requires AtAdd(ts) || AtMul(ts) || AtRel(ts)
  {
    match ts[0]
    case PlusT => PLUS
    case MinusT => MINUS
    case TimesT => TIMES
    case OverT => OVER
    case LtT => LT
    case _ => EQ
  }

  function ParseExp(ts: seq<Token>): (r: Parsed<Exp>)
    ensures |r.rest| <= |ts| && (r.ok ==> r.tree.Some?)
    decreases |ts|, 6
  {
    var a := ParseSimple(ts);
    if AtRel(a.rest) then
      var b := ParseSimple(Tail(a.rest));
      Parsed(MakeOp(OpAt(a.rest), a.tree, b.tree), b.rest, a.ok && b.ok)
    else a
  }

  function ParseSimple(ts: seq<Token>): (r: Parsed<Exp>)
    ensures |r.rest| <= |ts| && (r.ok ==> r.tree.Some?)
    decreases |ts|, 5
  {
    SimpleLoop(ParseTerm(ts))
  }

  function SimpleLoop(t: Parsed<Exp>): (r: Parsed<Exp>)
    requires t.ok ==> t.tree.Some?
    ensures |r.rest| <= |t.rest| && (r.ok ==> r.tree.Some? && t.ok)
    decreases |t.rest|, 4
  {
    if AtAdd(t.rest) then
      var u := ParseTerm(Tail(t.rest));
      SimpleLoop(Parsed(MakeOp(OpAt(t.rest), t.tree, u.tree), u.rest, t.ok && u.ok))
    else t
  }

  function ParseTerm(ts: seq<Token>): (r: Parsed<Exp>)
    ensures |r.rest| <= |ts| && (r.ok ==> r.tree.Some?)
    decreases |ts|, 3
  {
    TermLoop(ParseFactor(ts))
  }

  function TermLoop(t: Parsed<Exp>): (r: Parsed<Exp>)
    requires t.ok ==> t.tree.Some?
    ensures |r.rest| <= |t.rest| && (r.ok ==> r.tree.Some? && t.ok)
    decreases |t.rest|, 2
  {
    if AtMul(t.rest) then
      var u := ParseFactor(Tail(t.rest));
      TermLoop(Parsed(MakeOp(OpAt(t.rest), t.tree, u.tree), u.rest, t.ok && u.ok))
    else t
  }

  function ParseFactor(ts: seq<Token>): (r: Parsed<Exp>)
    ensures |r.rest| <= |ts| && (r.ok ==> r.tree.Some?)
    decreases |ts|, 1
  {
    if ts == [] then Parsed(None, ts, false)
    else match ts[0]
      case NumT(n) => Parsed(Some(ConstK(n)), Tail(ts), true)
      case IdT(x) => Parsed(Some(IdK(x)), Tail(ts), true)
      case LParenT => Expect(ParseExp(Tail(ts)), RParenT)
      case _ => Parsed(None, Tail(ts), false)
  }

  function ParseStmt(ts: seq<Token>): (r: Parsed<Stmt>)
    ensures |r.rest| <= |ts| && (ts != [] ==> |r.rest| < |ts|) && (r.ok ==> r.tree.Some?)
    decreases |ts|, 1
  {
    if ts == [] then Parsed(None, ts, false)
    else match ts[0]
      case IfT =>
        var e := Expect(ParseExp(Tail(ts)), ThenT);
        var p := ParseSeq(e.rest);
        var q := if At(p.rest, ElseT) then ParseSeq(Tail(p.rest)) else Parsed(Some(End), p.rest, true);
        Expect(Parsed(if e.tree.Some? && p.tree.Some? && q.tree.Some? then Some(IfK(e.tree.value, p.tree.value, q.tree.value))
                      else None, q.rest, e.ok && p.ok && q.ok), EndT)
      case RepeatT =>
        var p := Expect(ParseSeq(Tail(ts)), UntilT);
        var e := ParseExp(p.rest);
        Parsed(if p.tree.Some? && e.tree.Some? then Some(RepeatK(p.tree.value, e.tree.value)) else None, e.rest, p.ok && e.ok)
      case IdT(x) =>
        var a := Expect(Parsed(Some(x), Tail(ts), true), AssignT);
        var e := ParseExp(a.rest);
        Parsed(if e.tree.Some? then Some(AssignK(x, e.tree.value)) else None, e.rest, a.ok && e.ok)
      case ReadT =>
        var u := Tail(ts);
        if u != [] && u[0].IdT? then Parsed(Some(ReadK(u[0].name)), Tail(u), true) else Parsed(None, u, false)
      case WriteT =>
        var e := ParseExp(Tail(ts));
        Parsed(if e.tree.Some? then Some(WriteK(e.tree.value)) else None, e.rest, e.ok)
      case _ => Parsed(None, Tail(ts), false)
  }

  predicate AtStop(ts: seq<Token>) {
    ts == [] || ts[0].EndT? || ts[0].ElseT? || ts[0].UntilT?
  }

  function ParseSeq(ts: seq<Token>): (r: Parsed<Stmts>)
    ensures |r.rest| <= |ts| && (r.ok ==> r.tree.Some?)
    decreases |ts|, 3
  {
    var s := ParseStmt(ts);
    Prepend(s, SeqLoop(s.rest))
  }

  /** The statements after the first one. */
  function SeqLoop(ts: seq<Token>): (r: Parsed<Stmts>)
    ensures |r.rest| <= |ts| && (r.ok ==> r.tree.Some?)
    decreases |ts|, 2
  {
    if AtStop(ts) then Parsed(Some(End), ts, true)
    else
      var m := Expect(Parsed(Some(()), ts, true), SemiT);
      var s := ParseStmt(m.rest);
      var r := Prepend(s, SeqLoop(s.rest));
      Parsed(r.tree, r.rest, m.ok && r.ok)
  }

  function Prepend(s: Parsed<Stmt>, q: Parsed<Stmts>): Parsed<Stmts> {
    Parsed(if s.tree.Some? && q.tree.Some? then Some(Then(s.tree.value, q.tree.value)) else None, q.rest, s.ok && q.ok)
  }

  /** The whole program: all tokens must be read without an error. */
  function Parse(ts: seq<Token>): Option<Stmts> {
    var r := ParseSeq(ts);
    if r.ok && r.rest == [] then r.tree else None
  }
}
