/** The recursive-descent parser of TINY: it accepts exactly the grammar, builds the tree of the derivation,
    and undoes a printer that writes as few parentheses as the grammar allows. */
module TinyParse {
  import opened Common
  import opened TinyTree
  import opened TinyGrammar

  // ----- every derivation is found -----

  lemma {:induction false} FactorFound(f: CFactor, rest: seq<Token>)
    requires GoodF(f)
    ensures ParseFactor(TokF(f) + rest) == Parsed(Some(AbsF(f)), rest, true)
    decreases f, 0
  {
    hide ParseExp;
    match f
    case FNum(n) => assert Tail([NumT(n)] + rest) == rest;
    case FId(x) => assert Tail([IdT(x)] + rest) == rest;
    case FParen(e) =>
      ExpFound(e, [RParenT] + rest);
      assert Tail(TokF(f) + rest) == TokE(e) + ([RParenT] + rest);
      assert Tail([RParenT] + rest) == rest;
  }

  /** After the factors of a term the loop stands where it would after reading them one by one. */
  lemma {:induction false} TermFound(t: CTerm, rest: seq<Token>)
    requires GoodT(t)
    ensures ParseTerm(TokT(t) + rest) == TermLoop(Parsed(Some(AbsT(t)), rest, true))
    decreases t, 1
  {
    hide ParseFactor;
    match t
    case TFactor(f) => FactorFound(f, rest);
    case TOp(t1, op, f) =>
      var more := [OpToken(op)] + (TokF(f) + rest);
      TermFound(t1, more);
      assert TokT(t) + rest == TokT(t1) + more;
      assert Tail(more) == TokF(f) + rest;
      FactorFound(f, rest);
  }

  lemma {:induction false} SimpleFound(s: CSimple, rest: seq<Token>)
    requires GoodS(s) && !AtMul(rest)
    ensures ParseSimple(TokS(s) + rest) == SimpleLoop(Parsed(Some(AbsS(s)), rest, true))
    decreases s, 2
  {
    hide ParseTerm;
    match s
    case STerm(t) => TermFound(t, rest);
    case SOp(s1, op, t) =>
      var more := [OpToken(op)] + (TokT(t) + rest);
      SimpleFound(s1, more);
      assert TokS(s) + rest == TokS(s1) + more;
      assert Tail(more) == TokT(t) + rest;
      TermFound(t, rest);
  }

  lemma {:induction false} ExpFound(e: CExp, rest: seq<Token>)
    requires GoodE(e) && !AtMul(rest) && !AtAdd(rest) && !AtRel(rest)
    ensures ParseExp(TokE(e) + rest) == Parsed(Some(AbsE(e)), rest, true)
    decreases e, 3
  {
    hide ParseSimple;
    match e
    case ESimple(s) => SimpleFound(s, rest);
    case ERel(a, op, b) =>
      var more := [OpToken(op)] + (TokS(b) + rest);
      SimpleFound(a, more);
      assert TokE(e) + rest == TokS(a) + more;
      assert Tail(more) == TokS(b) + rest;
      SimpleFound(b, rest);
  }

  /** What may follow a statement. */
  predicate Follow(ts: seq<Token>) {
    AtStop(ts) || At(ts, SemiT)
  }

  lemma {:induction false} StmtFound(s: CStmt, rest: seq<Token>)
    requires GoodStmt(s) && Follow(rest)
    ensures ParseStmt(TokStmt(s) + rest) == Parsed(Some(AbsStmt(s)), rest, true)
    decreases s, 1
  {
    hide ParseExp, ParseSeq, TokE, TokSeq, AbsE, AbsSeq, GoodE, GoodSeq;
    match s
    case CIf(e, p, q) => IfFound(e, p, q, rest);
    case CRepeat(p, e) => RepeatFound(p, e, rest);
    case CAssign(x, e) => AssignFound(x, e, rest);
    case CRead(x) =>
      assert Tail(TokStmt(s) + rest) == [IdT(x)] + rest;
      assert Tail([IdT(x)] + rest) == rest;
    case CWrite(e) => WriteFound(e, rest);
  }

  lemma {:induction false} WriteFound(e: CExp, rest: seq<Token>)
    requires GoodE(e) && Follow(rest)
    ensures ParseStmt(TokStmt(CWrite(e)) + rest) == Parsed(Some(WriteK(AbsE(e))), rest, true)
  {
    hide ParseExp, ParseSeq, TokE, TokSeq, AbsE, AbsSeq, GoodE, GoodSeq;
    assert Tail(TokStmt(CWrite(e)) + rest) == TokE(e) + rest;
    ExpFound(e, rest);
  }

  lemma {:induction false} AssignFound(x: string, e: CExp, rest: seq<Token>)
    requires GoodE(e) && Follow(rest)
    ensures ParseStmt(TokStmt(CAssign(x, e)) + rest) == Parsed(Some(AssignK(x, AbsE(e))), rest, true)
  {
    hide ParseExp, ParseSeq, TokE, TokSeq, AbsE, AbsSeq, GoodE, GoodSeq;
    var more := [AssignT] + (TokE(e) + rest);
    assert Tail(TokStmt(CAssign(x, e)) + rest) == more;
    assert Tail(more) == TokE(e) + rest;
    ExpFound(e, rest);
  }

  lemma {:induction false} RepeatFound(p: CSeq, e: CExp, rest: seq<Token>)
    requires GoodSeq(p) && GoodE(e) && Follow(rest)
    ensures ParseStmt(TokStmt(CRepeat(p, e)) + rest) == Parsed(Some(RepeatK(AbsSeq(p), AbsE(e))), rest, true)
    decreases CRepeat(p, e), 0
  {
    hide ParseExp, ParseSeq, TokE, TokSeq, AbsE, AbsSeq, GoodE, GoodSeq;
    var u := [UntilT] + (TokE(e) + rest);
    SeqFound(p, u);
    assert Tail(TokStmt(CRepeat(p, e)) + rest) == TokSeq(p) + u;
    assert Tail(u) == TokE(e) + rest;
    ExpFound(e, rest);
  }

  /** How an if is read. */
  lemma IfRead(ts: seq<Token>)
    ensures var e := Expect(ParseExp(ts), ThenT);
            var p := ParseSeq(e.rest);
            var q := if At(p.rest, ElseT) then ParseSeq(Tail(p.rest)) else Parsed(Some(End), p.rest, true);
            ParseStmt([IfT] + ts)
              == Expect(Parsed(if e.tree.Some? && p.tree.Some? && q.tree.Some? then Some(IfK(e.tree.value, p.tree.value, q.tree.value))
                               else None, q.rest, e.ok && p.ok && q.ok), EndT)
  {
    hide ParseExp, ParseSeq;
    assert Tail([IfT] + ts) == ts;
  }

  lemma TokenFirst(t: Token, ts: seq<Token>)
    ensures Tail([t] + ts) == ts && forall u :: At([t] + ts, u) <==> u == t
  {
  }

  lemma {:induction false} IfFound(e: CExp, p: CSeq, q: Option<CSeq>, rest: seq<Token>)
    requires GoodStmt(CIf(e, p, q)) && Follow(rest)
    ensures ParseStmt(TokStmt(CIf(e, p, q)) + rest) == Parsed(Some(AbsStmt(CIf(e, p, q))), rest, true)
    decreases CIf(e, p, q), 0
  {
    hide ParseStmt, ParseExp, ParseSeq, TokE, TokSeq, AbsE, AbsSeq, GoodE, GoodSeq, Tail, At;
    var s := CIf(e, p, q);
    var stop := [EndT] + rest;
    var more := if q.Some? then [ElseT] + TokSeq(q.value) else [];
    var body := [ThenT] + (TokSeq(p) + (more + stop));
    IfTokens(TokE(e), TokSeq(p), more, rest);
    IfRead(TokE(e) + body);
    TokenFirst(ThenT, TokSeq(p) + (more + stop));
    ExpFound(e, body);
    TokenFirst(EndT, rest);
    if q.Some? {
      assert more + stop == [ElseT] + (TokSeq(q.value) + stop);
      TokenFirst(ElseT, TokSeq(q.value) + stop);
      SeqFound(q.value, stop);
    } else {
      assert more + stop == stop;
    }
    SeqFound(p, more + stop);
  }

  lemma {:induction false} SeqFound(q: CSeq, rest: seq<Token>)
    requires GoodSeq(q) && AtStop(rest)
    ensures ParseSeq(TokSeq(q) + rest) == Parsed(Some(AbsSeq(q)), rest, true)
    decreases q, 2
  {
    hide ParseStmt;
    if q.CMore? {
      var more := [SemiT] + (TokSeq(q.rest) + rest);
      assert TokSeq(q) + rest == TokStmt(q.s) + more;
      StmtFound(q.s, more);
      assert Tail(more) == TokSeq(q.rest) + rest;
      SeqFound(q.rest, rest);
    } else {
      assert TokSeq(q) + rest == TokStmt(q.s) + rest;
      StmtFound(q.s, rest);
    }
  }

  // ----- every tree comes from a derivation -----

  /** Reading `d` from `ts` left `r`. */
  ghost predicate ReadsF(ts: seq<Token>, d: CFactor, r: Parsed<Exp>) {
    GoodF(d) && ts == TokF(d) + r.rest && r.tree == Some(AbsF(d))
  }
  ghost predicate ReadsT(ts: seq<Token>, d: CTerm, r: Parsed<Exp>) {
    GoodT(d) && ts == TokT(d) + r.rest && r.tree == Some(AbsT(d))
  }
  ghost predicate ReadsS(ts: seq<Token>, d: CSimple, r: Parsed<Exp>) {
    GoodS(d) && ts == TokS(d) + r.rest && r.tree == Some(AbsS(d))
  }
  ghost predicate ReadsE(ts: seq<Token>, d: CExp, r: Parsed<Exp>) {
    GoodE(d) && ts == TokE(d) + r.rest && r.tree == Some(AbsE(d))
  }
  ghost predicate ReadsStmt(ts: seq<Token>, d: CStmt, r: Parsed<Stmt>) {
    GoodStmt(d) && ts == TokStmt(d) + r.rest && r.tree == Some(AbsStmt(d))
  }
  ghost predicate ReadsSeq(ts: seq<Token>, d: CSeq, r: Parsed<Stmts>) {
    GoodSeq(d) && ts == TokSeq(d) + r.rest && r.tree == Some(AbsSeq(d))
  }

  lemma Split(ts: seq<Token>, t: Token)
    requires At(ts, t)
    ensures ts == [t] + Tail(ts)
  {
  }

  lemma {:induction false} FactorSound(ts: seq<Token>) returns (d: CFactor)
    requires ParseFactor(ts).ok
    ensures ReadsF(ts, d, ParseFactor(ts))
    decreases |ts|, 1
  {
    hide ParseExp;
    Split(ts, ts[0]);
    match ts[0]
    case NumT(n) => d := FNum(n);
    case IdT(x) => d := FId(x);
    case LParenT =>
      var e := ExpSound(Tail(ts));
      Split(ParseExp(Tail(ts)).rest, RParenT);
      d := FParen(e);
  }

  lemma {:induction false} TermSound(ts: seq<Token>) returns (d: CTerm)
    requires ParseTerm(ts).ok
    ensures ReadsT(ts, d, ParseTerm(ts))
    decreases |ts|, 3
  {
    var f := FactorSound(ts);
    d := TermLoopSound(ts, ParseFactor(ts), TFactor(f));
  }

  lemma {:induction false} TermLoopSound(ts: seq<Token>, t: Parsed<Exp>, c: CTerm) returns (d: CTerm)
    requires t.ok && ReadsT(ts, c, t) && TermLoop(t).ok
    ensures ReadsT(ts, d, TermLoop(t))
    decreases |t.rest|, 2
  {
    hide ParseFactor;
    if AtMul(t.rest) {
      var op, after := OpAt(t.rest), Tail(t.rest);
      Split(t.rest, OpToken(op));
      var f := FactorSound(after);
      var u := ParseFactor(after);
      var c1 := TOp(c, op, f);
      assert ts == TokT(c1) + u.rest;
      d := TermLoopSound(ts, Parsed(MakeOp(op, t.tree, u.tree), u.rest, true), c1);
    } else {
      d := c;
    }
  }

  lemma {:induction false} SimpleSound(ts: seq<Token>) returns (d: CSimple)
    requires ParseSimple(ts).ok
    ensures ReadsS(ts, d, ParseSimple(ts))
    decreases |ts|, 5
  {
    var t := TermSound(ts);
    d := SimpleLoopSound(ts, ParseTerm(ts), STerm(t));
  }

  lemma {:induction false} SimpleLoopSound(ts: seq<Token>, t: Parsed<Exp>, c: CSimple) returns (d: CSimple)
    requires t.ok && ReadsS(ts, c, t) && SimpleLoop(t).ok
    ensures ReadsS(ts, d, SimpleLoop(t))
    decreases |t.rest|, 4
  {
    hide ParseTerm, TokT, AbsT, GoodT;
    if AtAdd(t.rest) {
      var op, after := OpAt(t.rest), Tail(t.rest);
      Split(t.rest, OpToken(op));
      var f := TermSound(after);
      var u := ParseTerm(after);
      var c1 := SOp(c, op, f);
      assert ts == TokS(c1) + u.rest;
      d := SimpleLoopSound(ts, Parsed(MakeOp(op, t.tree, u.tree), u.rest, true), c1);
    } else {
      d := c;
    }
  }

  lemma {:induction false} ExpSound(ts: seq<Token>) returns (d: CExp)
    requires ParseExp(ts).ok
    ensures ReadsE(ts, d, ParseExp(ts))
    decreases |ts|, 6
  {
    var a := ParseSimple(ts);
    var ca := SimpleSound(ts);
    if AtRel(a.rest) {
      var op, after := OpAt(a.rest), Tail(a.rest);
      Split(a.rest, OpToken(op));
      var cb := SimpleSound(after);
      d := ERel(ca, op, cb);
      assert ts == TokE(d) + ParseSimple(after).rest;
    } else {
      d := ESimple(ca);
    }
  }

  lemma {:induction false} StmtSound(ts: seq<Token>) returns (d: CStmt)
    requires ParseStmt(ts).ok
    ensures ReadsStmt(ts, d, ParseStmt(ts))
    decreases |ts|, 1
  {
    hide ParseExp, ParseSeq, TokE, TokSeq, AbsE, AbsSeq, GoodE, GoodSeq;
    var u := Tail(ts);
    match ts[0]
    case IfT => d := IfSound(ts);
    case RepeatT => d := RepeatSound(ts);
    case IdT(x) => d := AssignSound(ts, x);
    case ReadT =>
      Split(ts, ReadT);
      Split(u, u[0]);
      d := CRead(u[0].name);
    case WriteT =>
      Split(ts, WriteT);
      var e := ExpSound(u);
      d := CWrite(e);
  }

  lemma {:induction false} AssignSound(ts: seq<Token>, x: string) returns (d: CStmt)
    requires At(ts, IdT(x)) && ParseStmt(ts).ok
    ensures ReadsStmt(ts, d, ParseStmt(ts))
  {
    hide ParseExp, ParseSeq, TokE, TokSeq, AbsE, AbsSeq, GoodE, GoodSeq;
    var u := Tail(ts);
    Split(ts, IdT(x));
    Split(u, AssignT);
    var e := ExpSound(Tail(u));
    d := CAssign(x, e);
    assert ts == TokStmt(d) + ParseExp(Tail(u)).rest;
  }

  lemma {:induction false} RepeatSound(ts: seq<Token>) returns (d: CStmt)
    requires At(ts, RepeatT) && ParseStmt(ts).ok
    ensures ReadsStmt(ts, d, ParseStmt(ts))
    decreases |ts|, 0
  {
    hide ParseExp, ParseSeq, TokE, TokSeq, AbsE, AbsSeq, GoodE, GoodSeq;
    var u := Tail(ts);
    Split(ts, RepeatT);
    var p := SeqSound(u);
    var mid := ParseSeq(u).rest;
    Split(mid, UntilT);
    var e := ExpSound(Tail(mid));
    d := CRepeat(p, e);
    assert ts == TokStmt(d) + ParseExp(Tail(mid)).rest;
  }

  lemma IfTokens(e: seq<Token>, p: seq<Token>, q: seq<Token>, z: seq<Token>)
    ensures [IfT] + (e + ([ThenT] + (p + (q + ([EndT] + z))))) == ([IfT] + e + [ThenT] + p + q + [EndT]) + z
  {
  }

  lemma {:induction false} IfSound(ts: seq<Token>) returns (d: CStmt)
    requires At(ts, IfT) && ParseStmt(ts).ok
    ensures ReadsStmt(ts, d, ParseStmt(ts))
    decreases |ts|, 0
  {
    hide ParseExp, ParseSeq, TokE, TokSeq, AbsE, AbsSeq, GoodE, GoodSeq;
    Split(ts, IfT);
    var u := Tail(ts);
    var e := ExpSound(u);
    var a := ParseExp(u).rest;
    Split(a, ThenT);
    var p := SeqSound(Tail(a));
    var b := ParseSeq(Tail(a)).rest;
    if At(b, ElseT) {
      Split(b, ElseT);
      var q := SeqSound(Tail(b));
      var c := ParseSeq(Tail(b)).rest;
      Split(c, EndT);
      d := CIf(e, p, Some(q));
      IfTokens(TokE(e), TokSeq(p), [ElseT] + TokSeq(q), Tail(c));
      assert b == ([ElseT] + TokSeq(q)) + c;
    } else {
      Split(b, EndT);
      d := CIf(e, p, None);
      IfTokens(TokE(e), TokSeq(p), [], Tail(b));
      assert b == [] + b;
    }
  }

  lemma {:induction false} SeqSound(ts: seq<Token>) returns (d: CSeq)
    requires ParseSeq(ts).ok
    ensures ReadsSeq(ts, d, ParseSeq(ts))
    decreases |ts|, 3
  {
    hide ParseStmt;
    var s := StmtSound(ts);
    var u := ParseStmt(ts).rest;
    if AtStop(u) {
      d := COne(s);
    } else {
      Split(u, SemiT);
      var q := SeqSound(Tail(u));
      d := CMore(s, q);
      assert ts == TokSeq(d) + ParseSeq(Tail(u)).rest;
    }
  }

  // ----- the parser and the grammar -----

  /** `c` derives the token list `ts` and stands for the tree `t`. */
  ghost predicate Derives(c: CSeq, ts: seq<Token>, t: Stmts) {
    GoodSeq(c) && TokSeq(c) == ts && AbsSeq(c) == t
  }

  /** A token list is accepted, with the tree `t`, exactly when the grammar derives it with that tree. */
  lemma {:induction false} ParseIff(ts: seq<Token>, t: Stmts)
    ensures Parse(ts) == Some(t) <==> exists c :: Derives(c, ts, t)
  {
    hide ParseSeq;
    if Parse(ts) == Some(t) {
      var c := SeqSound(ts);
      assert ts == TokSeq(c) + [] == TokSeq(c);
      assert Derives(c, ts, t);
    }
    forall c | Derives(c, ts, t) ensures Parse(ts) == Some(t) {
      SeqFound(c, []);
      assert TokSeq(c) + [] == ts;
    }
  }

  /** `c` derives the token list `ts`. */
  ghost predicate Spells(c: CSeq, ts: seq<Token>) {
    GoodSeq(c) && TokSeq(c) == ts
  }

  /** A token list is accepted exactly if the grammar derives it. */
  lemma ParsedIff(ts: seq<Token>)
    ensures Parse(ts).Some? <==> exists c :: Spells(c, ts)
  {
    if Parse(ts).Some? {
      ParseIff(ts, Parse(ts).value);
      var c :| Derives(c, ts, Parse(ts).value);
      assert Spells(c, ts);
    } else if c :| Spells(c, ts) {
      assert Derives(c, ts, AbsSeq(c));
      ParseIff(ts, AbsSeq(c));
    }
  }

  /** The grammar is unambiguous: no token list stands for two trees. */
  lemma {:induction false} Unambiguous(c: CSeq, d: CSeq)
    requires GoodSeq(c) && GoodSeq(d) && TokSeq(c) == TokSeq(d)
    ensures AbsSeq(c) == AbsSeq(d)
  {
    assert Derives(c, TokSeq(c), AbsSeq(c)) && Derives(d, TokSeq(c), AbsSeq(d));
    ParseIff(TokSeq(c), AbsSeq(c));
    ParseIff(TokSeq(c), AbsSeq(d));
  }

  // ----- printing with the fewest parentheses -----

  /** The trees that have a text: literals are not negative, and no statement list inside a statement is empty
      except a missing else part. */
  predicate WritableExp(e: Exp) {
    match e
    case ConstK(n) => n >= 0
    case IdK(_) => true
    case OpK(_, l, r) => WritableExp(l) && WritableExp(r)
  }
  predicate WritableStmt(s: Stmt) {
    match s
    case IfK(e, p, q) => WritableExp(e) && p.Then? && WritableStmts(p) && WritableStmts(q)
    case RepeatK(p, e) => p.Then? && WritableStmts(p) && WritableExp(e)
    case AssignK(_, e) => WritableExp(e)
    case ReadK(_) => true
    case WriteK(e) => WritableExp(e)
  }
  predicate WritableStmts(t: Stmts) {
    t.Then? ==> WritableStmt(t.first) && WritableStmts(t.sibling)
  }

  /** How tightly the outermost operator binds: 1 comparison, 2 addition, 3 multiplication, 4 a factor. */
  function Level(e: Exp): nat {
    match e
    case OpK(op, _, _) => if op.LT? || op.EQ? then 1 else if op.PLUS? || op.MINUS? then 2 else 3
    case _ => 4
  }

  /** Parentheses go only around an operand that binds less tightly than its place demands. */
  function ToF(e: Exp): CFactor
    requires WritableExp(e)
    decreases e, if Level(e) == 4 then 0 else 4
  {
    match e
    case ConstK(n) => FNum(n)
    case IdK(x) => FId(x)
    case OpK(_, _, _) => FParen(ToE(e))
  }
  function ToT(e: Exp): CTerm
    requires WritableExp(e)
    decreases e, if Level(e) == 3 then 0 else 5
  {
    if Level(e) == 3 then TOp(ToT(e.left), e.op, ToF(e.right)) else TFactor(ToF(e))
  }
  function ToS(e: Exp): CSimple
    requires WritableExp(e)
    decreases e, if Level(e) == 2 then 0 else if Level(e) == 3 then 1 else 6
  {
    if Level(e) == 2 then SOp(ToS(e.left), e.op, ToT(e.right)) else STerm(ToT(e))
  }
  function ToE(e: Exp): CExp
    requires WritableExp(e)
    decreases e, if Level(e) <= 3 then 3 else 7
  {
    if Level(e) == 1 then ERel(ToS(e.left), e.op, ToS(e.right)) else ESimple(ToS(e))
  }

  function ToStmt(s: Stmt): CStmt
    requires WritableStmt(s)
  {
    match s
    case IfK(e, p, q) => CIf(ToE(e), ToSeq(p), if q.Then? then Some(ToSeq(q)) else None)
    case RepeatK(p, e) => CRepeat(ToSeq(p), ToE(e))
    case AssignK(x, e) => CAssign(x, ToE(e))
    case ReadK(x) => CRead(x)
    case WriteK(e) => CWrite(ToE(e))
  }
  function ToSeq(t: Stmts): CSeq
    requires t.Then? && WritableStmts(t)
  {
    if t.sibling.Then? then CMore(ToStmt(t.first), ToSeq(t.sibling)) else COne(ToStmt(t.first))
  }

  /** The text of a program. */
  function Write(t: Stmts): seq<Token>
    requires t.Then? && WritableStmts(t)
  {
    TokSeq(ToSeq(t))
  }

  lemma {:induction false} ExpWritten(e: Exp)
    requires WritableExp(e)
    ensures GoodF(ToF(e)) && AbsF(ToF(e)) == e
    ensures GoodT(ToT(e)) && AbsT(ToT(e)) == e
    ensures GoodS(ToS(e)) && AbsS(ToS(e)) == e
    ensures GoodE(ToE(e)) && AbsE(ToE(e)) == e
  {
    if e.OpK? {
      ExpWritten(e.left);
      ExpWritten(e.right);
      if Level(e) == 3 { assert GoodT(ToT(e)) && AbsT(ToT(e)) == e; }
      if Level(e) >= 2 { assert GoodS(ToS(e)) && AbsS(ToS(e)) == e; }
      assert GoodE(ToE(e)) && AbsE(ToE(e)) == e;
    }
    assert GoodF(ToF(e)) && AbsF(ToF(e)) == e;
    assert GoodT(ToT(e)) && AbsT(ToT(e)) == e;
    assert GoodS(ToS(e)) && AbsS(ToS(e)) == e;
  }

  lemma {:induction false} StmtWritten(s: Stmt)
    requires WritableStmt(s)
    ensures GoodStmt(ToStmt(s)) && AbsStmt(ToStmt(s)) == s
  {
    match s
    case IfK(e, p, q) =>
      ExpWritten(e);
      StmtsWritten(p);
      if q.Then? { StmtsWritten(q); }
    case RepeatK(p, e) =>
      StmtsWritten(p);
      ExpWritten(e);
    case AssignK(_, e) => ExpWritten(e);
    case ReadK(_) =>
    case WriteK(e) => ExpWritten(e);
  }

  lemma {:induction false} StmtsWritten(t: Stmts)
    requires t.Then? && WritableStmts(t)
    ensures GoodSeq(ToSeq(t)) && AbsSeq(ToSeq(t)) == t
  {
    StmtWritten(t.first);
    if t.sibling.Then? { StmtsWritten(t.sibling); }
  }

  /** Parsing the text of a tree gives back the tree. */
  lemma {:induction false} RoundTrip(t: Stmts)
    requires t.Then? && WritableStmts(t)
    ensures Parse(Write(t)) == Some(t)
  {
    hide Parse, ToSeq;
    StmtsWritten(t);
    assert Derives(ToSeq(t), Write(t), t);
    ParseIff(Write(t), t);
  }

  // No derivation of the same tree has fewer tokens than the printed one.

  lemma {:induction false} FactorShortest(f: CFactor)
    requires GoodF(f) && WritableExp(AbsF(f))
    ensures |TokF(ToF(AbsF(f)))| <= |TokF(f)|
    ensures Level(AbsF(f)) < 4 ==> f.FParen? && |TokE(ToE(AbsF(f)))| < |TokF(f)|
    decreases f, 0
  {
    if f.FParen? { ExpShortest(f.e); }
  }
  lemma {:induction false} TermShortest(t: CTerm)
    requires GoodT(t) && WritableExp(AbsT(t))
    ensures |TokT(ToT(AbsT(t)))| <= |TokT(t)|
    ensures Level(AbsT(t)) < 3 ==> |TokE(ToE(AbsT(t)))| < |TokT(t)|
    decreases t, 1
  {
    FactorShortest(t.f);
    if t.TOp? { TermShortest(t.t); }
  }
  lemma {:induction false} SimpleShortest(s: CSimple)
    requires GoodS(s) && WritableExp(AbsS(s))
    ensures |TokS(ToS(AbsS(s)))| <= |TokS(s)|
    ensures Level(AbsS(s)) < 2 ==> |TokE(ToE(AbsS(s)))| < |TokS(s)|
    decreases s, 2
  {
    TermShortest(s.t);
    if s.SOp? { SimpleShortest(s.s); }
  }
  lemma {:induction false} ExpShortest(e: CExp)
    requires GoodE(e) && WritableExp(AbsE(e))
    ensures |TokE(ToE(AbsE(e)))| <= |TokE(e)|
    decreases e, 3
  {
    if e.ESimple? {
      SimpleShortest(e.s);
    } else {
      SimpleShortest(e.a);
      SimpleShortest(e.b);
    }
  }
  lemma {:induction false} StmtShortest(s: CStmt)
    requires GoodStmt(s) && WritableStmt(AbsStmt(s))
    ensures |TokStmt(ToStmt(AbsStmt(s)))| <= |TokStmt(s)|
    decreases s, 0
  {
    match s
    case CIf(e, p, q) =>
      ExpShortest(e);
      SeqShortest(p);
      if q.Some? { SeqShortest(q.value); }
    case CRepeat(p, e) =>
      SeqShortest(p);
      ExpShortest(e);
    case CAssign(_, e) => ExpShortest(e);
    case CRead(_) =>
    case CWrite(e) => ExpShortest(e);
  }
  lemma {:induction false} SeqShortest(q: CSeq)
    requires GoodSeq(q) && WritableStmts(AbsSeq(q))
    ensures |TokSeq(ToSeq(AbsSeq(q)))| <= |TokSeq(q)|
    decreases q, 1
  {
    StmtShortest(q.s);
    if q.CMore? { SeqShortest(q.rest); }
  }

  /** The printed text is a shortest one that parses to the tree. */
  lemma {:induction false} WriteIsShortest(t: Stmts, ts: seq<Token>)
    requires t.Then? && WritableStmts(t) && Parse(ts) == Some(t)
    ensures |Write(t)| <= |ts|
  {
    hide Parse, ToSeq;
    ParseIff(ts, t);
    var c :| Derives(c, ts, t);
    SeqShortest(c);
  }

  lemma {:induction false} FactorTree(f: CFactor)
    requires GoodF(f)
    ensures WritableExp(AbsF(f))
    decreases f, 0
  {
    if f.FParen? { ExpTree(f.e); }
  }
  lemma {:induction false} TermTree(t: CTerm)
    requires GoodT(t)
    ensures WritableExp(AbsT(t))
    decreases t, 1
  {
    FactorTree(t.f);
    if t.TOp? { TermTree(t.t); }
  }
  lemma {:induction false} SimpleTree(s: CSimple)
    requires GoodS(s)
    ensures WritableExp(AbsS(s))
    decreases s, 2
  {
    TermTree(s.t);
    if s.SOp? { SimpleTree(s.s); }
  }
  lemma {:induction false} ExpTree(e: CExp)
    requires GoodE(e)
    ensures WritableExp(AbsE(e))
    decreases e, 3
  {
    if e.ESimple? {
      SimpleTree(e.s);
    } else {
      SimpleTree(e.a);
      SimpleTree(e.b);
    }
  }
  lemma {:induction false} StmtTree(s: CStmt)
    requires GoodStmt(s)
    ensures WritableStmt(AbsStmt(s))
    decreases s, 0
  {
    match s
    case CIf(e, p, q) =>
      ExpTree(e);
      SeqTree(p);
      if q.Some? { SeqTree(q.value); }
    case CRepeat(p, e) =>
      SeqTree(p);
      ExpTree(e);
    case CAssign(_, e) => ExpTree(e);
    case CRead(_) =>
    case CWrite(e) => ExpTree(e);
  }
  lemma {:induction false} SeqTree(q: CSeq)
    requires GoodSeq(q)
    ensures AbsSeq(q).Then? && WritableStmts(AbsSeq(q))
    decreases q, 1
  {
    StmtTree(q.s);
    if q.CMore? { SeqTree(q.rest); }
  }

  /** The parser can return exactly the trees that have a text. */
  lemma {:induction false} TreesOfTexts(t: Stmts)
    ensures (exists ts :: Parse(ts) == Some(t)) <==> t.Then? && WritableStmts(t)
  {
    hide Parse;
    forall ts | Parse(ts) == Some(t) ensures t.Then? && WritableStmts(t) {
      ParseIff(ts, t);
      var c :| Derives(c, ts, t);
      SeqTree(c);
    }
    if t.Then? && WritableStmts(t) { RoundTrip(t); }
  }

  // ----- the parser itself -----

  /** The statements `done`, each the sibling of the one before it, and then `end`. */
  function Link(done: seq<Stmt>, end: Stmts): Stmts {
    if done == [] then end else Then(done[0], Link(done[1..], end))
  }

  lemma {:induction false} LinkLast(done: seq<Stmt>, s: Stmt, end: Stmts)
    ensures Link(done + [s], end) == Link(done, Then(s, end))
  {
    if done != [] {
      LinkLast(done[1..], s, end);
      assert (done + [s])[1..] == done[1..] + [s];
    }
  }

  /** The token list is read from the front; `error` is the flag every syntax error sets. A tree is `None` where the
      program leaves a hole in it. */
  class Parser {
    var rest: seq<Token>
    var error: bool

    constructor (ts: seq<Token>)
      ensures rest == ts && !error
    {
      rest, error := ts, false;
    }

    /** What a call promises: the tree, the tokens left and the error flag are those of `r`. */
    twostate predicate Did<T>(new r: Parsed<T>, new tree: Option<T>)
      reads this
    {
      tree == r.tree && rest == r.rest && error == (old(error) || !r.ok)
    }

    method SyntaxError()
      modifies `error
      ensures error
    {
      error := true;
    }

    method GetToken()
      modifies `rest
      ensures rest == Tail(old(rest))
    {
      if rest != [] { rest := rest[1..]; }
    }

    method Match(expected: Token)
      modifies this
      ensures if At(old(rest), expected) then rest == old(rest)[1..] && error == old(error)
              else rest == old(rest) && error
    {
      if rest != [] && rest[0] == expected {
        GetToken();
      } else {
        SyntaxError();
      }
    }

    /** A statement list: the statements are linked through their siblings in the order they are read. */
    method StmtSequence() returns (t: Option<Stmts>)
      modifies this
      ensures Did(ParseSeq(old(rest)), t)
      decreases |rest|, 3
    {
      hide ParseStmt;
      var s := Statement();
      var hole, done := s.None?, if s.Some? then [s.value] else [];
      ghost var whole := ParseSeq(old(rest));
      ghost var good := ParseStmt(old(rest)).ok;
      while rest != [] && !rest[0].EndT? && !rest[0].ElseT? && !rest[0].UntilT?
        invariant |rest| <= |old(rest)| && (old(rest) != [] ==> |rest| < |old(rest)|)
        invariant whole.rest == SeqLoop(rest).rest && whole.ok == (good && SeqLoop(rest).ok)
        invariant error == (old(error) || !good)
        invariant whole.tree == if hole || SeqLoop(rest).tree.None? then None
                                else Some(Link(done, SeqLoop(rest).tree.value))
        decreases |rest|
      {
        ghost var before := rest;
        Match(SemiT);
        good := good && At(before, SemiT) && ParseStmt(rest).ok;
        s := Statement();
        if s.None? {
          hole := true;
        } else if !hole {
          if SeqLoop(rest).tree.Some? { LinkLast(done, s.value, SeqLoop(rest).tree.value); }
          done := done + [s.value];
        }
      }
      t := if hole then None else Some(Link(done, End));
    }

    method Statement() returns (t: Option<Stmt>)
      modifies this
      ensures Did(ParseStmt(old(rest)), t)
      decreases |rest|, 1
    {
      hide ParseExp, ParseSeq;
      if rest == [] {
        SyntaxError();
        GetToken();
        return None;
      }
      match rest[0]
      case IfT => t := IfStmt();
      case RepeatT => t := RepeatStmt();
      case IdT(x) => t := AssignStmt();
      case ReadT => t := ReadStmt();
      case WriteT => t := WriteStmt();
      case _ =>
        SyntaxError();
        GetToken();
        t := None;
    }

    method IfStmt() returns (t: Option<Stmt>)
      requires At(rest, IfT)
      modifies this
      ensures Did(ParseStmt(old(rest)), t)
      decreases |rest|, 0
    {
      hide ParseExp, ParseSeq;
      Match(IfT);
      var test := Exp();
      Match(ThenT);
      var p := StmtSequence();
      var q := Some(End);
      if rest != [] && rest[0] == ElseT {
        Match(ElseT);
        q := StmtSequence();
      }
      Match(EndT);
      t := if test.Some? && p.Some? && q.Some? then Some(IfK(test.value, p.value, q.value)) else None;
    }

    method RepeatStmt() returns (t: Option<Stmt>)
      requires At(rest, RepeatT)
      modifies this
      ensures Did(ParseStmt(old(rest)), t)
      decreases |rest|, 0
    {
      hide ParseExp, ParseSeq;
      Match(RepeatT);
      var p := StmtSequence();
      Match(UntilT);
      var e := Exp();
      t := if p.Some? && e.Some? then Some(RepeatK(p.value, e.value)) else None;
    }

    method AssignStmt() returns (t: Option<Stmt>)
      requires rest != [] && rest[0].IdT?
      modifies this
      ensures Did(ParseStmt(old(rest)), t)
      decreases |rest|, 0
    {
      hide ParseExp, ParseSeq;
      var x := rest[0].name;
      Match(rest[0]);
      Match(AssignT);
      var e := Exp();
      t := if e.Some? then Some(AssignK(x, e.value)) else None;
    }

    method ReadStmt() returns (t: Option<Stmt>)
      requires At(rest, ReadT)
      modifies this
      ensures Did(ParseStmt(old(rest)), t)
    {
      hide ParseExp, ParseSeq;
      Match(ReadT);
      if rest != [] && rest[0].IdT? {
        t := Some(ReadK(rest[0].name));
        Match(rest[0]);
      } else {
        t := None;
        SyntaxError();
      }
    }

    method WriteStmt() returns (t: Option<Stmt>)
      requires At(rest, WriteT)
      modifies this
      ensures Did(ParseStmt(old(rest)), t)
      decreases |rest|, 0
    {
      hide ParseExp, ParseSeq;
      Match(WriteT);
      var e := Exp();
      t := if e.Some? then Some(WriteK(e.value)) else None;
    }

    method Exp() returns (t: Option<Exp>)
      modifies this
      ensures Did(ParseExp(old(rest)), t)
      decreases |rest|, 6
    {
      hide ParseSimple;
      t := SimpleExp();
      if AtRel(rest) {
        var op := OpAt(rest);
        Match(rest[0]);
        var u := SimpleExp();
        t := MakeOp(op, t, u);
      }
    }

    method SimpleExp() returns (t: Option<Exp>)
      modifies this
      ensures Did(ParseSimple(old(rest)), t)
      decreases |rest|, 5
    {
      hide ParseTerm;
      t := Term();
      ghost var good := ParseTerm(old(rest)).ok;
      while AtAdd(rest)
        invariant |rest| <= |old(rest)| && (good ==> t.Some?)
        invariant error == (old(error) || !good)
        invariant ParseSimple(old(rest)) == SimpleLoop(Parsed(t, rest, good))
        decreases |rest|
      {
        var op := OpAt(rest);
        Match(rest[0]);
        good := good && ParseTerm(rest).ok;
        var u := Term();
        t := MakeOp(op, t, u);
      }
    }

    method Term() returns (t: Option<Exp>)
      modifies this
      ensures Did(ParseTerm(old(rest)), t)
      decreases |rest|, 3
    {
      hide ParseFactor;
      t := Factor();
      ghost var good := ParseFactor(old(rest)).ok;
      while AtMul(rest)
        invariant |rest| <= |old(rest)| && (good ==> t.Some?)
        invariant error == (old(error) || !good)
        invariant ParseTerm(old(rest)) == TermLoop(Parsed(t, rest, good))
        decreases |rest|
      {
        var op := OpAt(rest);
        Match(rest[0]);
        good := good && ParseFactor(rest).ok;
        var u := Factor();
        t := MakeOp(op, t, u);
      }
    }

    method Factor() returns (t: Option<Exp>)
      modifies this
      ensures Did(ParseFactor(old(rest)), t)
      decreases |rest|, 1
    {
      hide ParseExp;
      if rest == [] {
        SyntaxError();
        GetToken();
        return None;
      }
      match rest[0]
      case NumT(n) =>
        t := Some(ConstK(n));
        Match(rest[0]);
      case IdT(x) =>
        t := Some(IdK(x));
        Match(rest[0]);
      case LParenT =>
        Match(LParenT);
        t := Exp();
        Match(RParenT);
      case _ =>
        SyntaxError();
        GetToken();
        t := None;
    }

    /** The whole program: the error flag stays down exactly when the grammar derives the tokens, and then the tree is
        the one they stand for. */
    method ParseProgram() returns (t: Option<Stmts>)
      requires !error
      modifies this
      ensures !error <==> Parse(old(rest)).Some?
      ensures !error ==> t == Parse(old(rest))
      ensures !error <==> exists c :: Spells(c, old(rest))
    {
      hide ParseSeq;
      ghost var ts := rest;
      t := StmtSequence();
      if rest != [] { SyntaxError(); }
      ParsedIff(ts);
    }
  }
}
