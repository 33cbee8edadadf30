/** The compiled program behaves as the tree says. */
module TinyCorrect {
  import opened TinyTree
  import opened TinySemantics
  import opened TinyMachine
  import opened TinyCodeGen

  /** `code` lies in instruction memory from location `at` on. */
  ghost predicate CodeAt(m: TM, at: int, code: seq<Instr>) {
    0 <= at && at + |code| <= IADDR_SIZE && m.iMem[at..at + |code|] == code
  }

  lemma CodeAtSplit(m: TM, at: int, a: seq<Instr>, b: seq<Instr>)
    requires CodeAt(m, at, a + b)
    ensures CodeAt(m, at, a) && CodeAt(m, at + |a|, b)
  {
    var whole := m.iMem[at..at + |a + b|];
    assert m.iMem[at..at + |a|] == whole[..|a|] == a;
    assert m.iMem[at + |a|..at + |a| + |b|] == whole[|a|..] == b;
  }

  lemma CodeAtIndex(m: TM, at: int, code: seq<Instr>, k: nat)
    requires CodeAt(m, at, code) && k < |code|
    ensures 0 <= at + k < IADDR_SIZE && m.iMem[at + k] == code[k]
  {
    assert m.iMem[at..at + |code|][k] == m.iMem[at + k];
  }

  /** One step of a machine whose program counter stands at instruction `i`. */
  lemma StepAt(m: TM, i: Instr)
    requires CodeAt(m, m.reg[PC], [i])
    ensures Step(m) == Execute(SetReg(m, PC, m.reg[PC] + 1), i)
    ensures Step(m).0.srOKAY? ==> Steps(m, 1, Step(m).1)
  {
    hide Execute;
    CodeAtIndex(m, m.reg[PC], [i], 0);
    if Step(m).0.srOKAY? {
      assert Steps(Step(m).1, 0, Step(m).1);
    }
  }

  lemma StepsNone(m: TM)
    ensures Steps(m, 0, m)
  {
  }

  lemma StepsThen(m0: TM, n: nat, m1: TM, m2: TM)
    requires Steps(m0, n, m1) && Step(m1) == (srOKAY, m2)
    ensures Steps(m0, n + 1, m2)
  {
    assert Steps(m2, 0, m2);
    assert Steps(m1, 1, m2);
    StepsTransitive(m0, n, m1, 1, m2);
  }

  // ----- expressions -----

  /** Everything but AC, AC1, the program counter and the data words in (lo, hi] is as before. */
  ghost predicate Frame(m: TM, m': TM, lo: int, hi: int) {
    && m'.iMem == m.iMem && m'.input == m.input && m'.output == m.output
    && (forall k :: AC1 < k < PC ==> m'.reg[k] == m.reg[k])
    && (forall a :: 0 <= a < DADDR_SIZE && (a <= lo || hi < a) ==> m'.dMem[a] == m.dMem[a])
  }

  /** The machine after `v` went to register `r` and the program counter to `a`. */
  function Then1(m: TM, r: int, v: int, a: int): TM
    requires IsReg(r)
  {
    m.(reg := m.reg[r := v][PC := a])
  }

  lemma StepSub(m: TM) returns (m': TM)
    requires 0 <= m.reg[PC] < IADDR_SIZE && m.iMem[m.reg[PC]] == RO(SUB, AC, AC1, AC)
    ensures Step(m) == (srOKAY, m') && m' == Then1(m, AC, m.reg[AC1] - m.reg[AC], m.reg[PC] + 1)
  {
    m' := Step(m).1;
    assert m'.reg == m.reg[AC := m.reg[AC1] - m.reg[AC]][PC := m.reg[PC] + 1];
  }

  lemma StepJump(m: TM, jump: Opcode, d: int) returns (m': TM)
    requires jump == JLT || jump == JEQ
    requires 0 <= m.reg[PC] < IADDR_SIZE && m.iMem[m.reg[PC]] == RM(jump, AC, d, PC)
    ensures Step(m) == (srOKAY, m')
    ensures var taken := if jump == JLT then m.reg[AC] < 0 else m.reg[AC] == 0;
            m' == SetReg(m, PC, m.reg[PC] + 1 + if taken then d else 0)
  {
    m' := Step(m).1;
    assert m.reg[PC := m.reg[PC] + 1][PC := m.reg[PC] + 1 + d] == m.reg[PC := m.reg[PC] + 1 + d];
  }

  lemma StepLda(m: TM, d: int) returns (m': TM)
    requires 0 <= m.reg[PC] < IADDR_SIZE && m.iMem[m.reg[PC]] == RM(LDA, PC, d, PC)
    ensures Step(m) == (srOKAY, m') && m' == SetReg(m, PC, m.reg[PC] + 1 + d)
  {
    m' := Step(m).1;
    assert m.reg[PC := m.reg[PC] + 1][PC := m.reg[PC] + 1 + d] == m.reg[PC := m.reg[PC] + 1 + d];
  }

  lemma StepLdc(m: TM, v: int, s: int) returns (m': TM)
    requires IsReg(s) && 0 <= m.reg[PC] < IADDR_SIZE && m.iMem[m.reg[PC]] == RM(LDC, AC, v, s)
    ensures Step(m) == (srOKAY, m') && m' == Then1(m, AC, v, m.reg[PC] + 1)
  {
    m' := Step(m).1;
    assert m'.reg == m.reg[AC := v][PC := m.reg[PC] + 1];
  }

  lemma StepLd(m: TM, r: int, d: int, s: int) returns (m': TM)
    requires IsReg(r) && IsReg(s) && r != PC && s != PC && 0 <= d + m.reg[s] < DADDR_SIZE
    requires 0 <= m.reg[PC] < IADDR_SIZE && m.iMem[m.reg[PC]] == RM(LD, r, d, s)
    ensures Step(m) == (srOKAY, m') && m' == Then1(m, r, m.dMem[d + m.reg[s]], m.reg[PC] + 1)
  {
    m' := Step(m).1;
    assert m'.reg == m.reg[r := m.dMem[d + m.reg[s]]][PC := m.reg[PC] + 1];
  }

  lemma StepSt(m: TM, d: int, s: int) returns (m': TM)
    requires IsReg(s) && s != PC && 0 <= d + m.reg[s] < DADDR_SIZE
    requires 0 <= m.reg[PC] < IADDR_SIZE && m.iMem[m.reg[PC]] == RM(ST, AC, d, s)
    ensures Step(m) == (srOKAY, m')
    ensures m' == SetReg(m, PC, m.reg[PC] + 1).(dMem := m.dMem[d + m.reg[s] := m.reg[AC]])
  {
    m' := Step(m).1;
  }

  lemma StepHalt(m: TM)
    requires 0 <= m.reg[PC] < IADDR_SIZE && m.iMem[m.reg[PC]] == RO(HALT, 0, 0, 0)
    ensures Step(m).0 == srHALT
  {
  }

  lemma ComparisonCorrect(jump: Opcode, m: TM) returns (n: nat, m': TM)
    requires jump == JLT || jump == JEQ
    requires CodeAt(m, m.reg[PC], Comparison(jump))
    ensures Steps(m, n, m')
    ensures var d := m.reg[AC1] - m.reg[AC];
            m' == Then1(m, AC, if (if jump == JLT then d < 0 else d == 0) then 1 else 0, m.reg[PC] + 5)
  {
    hide Step, Execute, Steps, CodeAt;
    var at := m.reg[PC];
    var c := Comparison(jump);
    CodeAtIndex(m, at, c, 0);
    CodeAtIndex(m, at, c, 1);
    CodeAtIndex(m, at, c, 2);
    CodeAtIndex(m, at, c, 3);
    CodeAtIndex(m, at, c, 4);
    var d := m.reg[AC1] - m.reg[AC];
    StepsNone(m);
    var m1 := StepSub(m);
    StepsThen(m, 0, m, m1);
    var m2 := StepJump(m1, jump, 2);
    StepsThen(m, 1, m1, m2);
    if if jump == JLT then d < 0 else d == 0 {
      m' := StepLdc(m2, 1, AC);
      StepsThen(m, 2, m2, m');
      n := 3;
      assert m'.reg == m.reg[AC := 1][PC := at + 5];
    } else {
      var m3 := StepLdc(m2, 0, AC);
      StepsThen(m, 2, m2, m3);
      m' := StepLda(m3, 1);
      StepsThen(m, 3, m3, m');
      n := 4;
      assert m'.reg == m.reg[AC := 0][PC := at + 5];
    }
  }

  lemma OpCorrect(op: Op, m: TM) returns (n: nat, m': TM)
    requires CodeAt(m, m.reg[PC], OpCode(op))
    ensures Steps(m, n, m')
    ensures match Apply(op, m.reg[AC1], m.reg[AC])
            case Val(v) => m' == Then1(m, AC, v, m.reg[PC] + |OpCode(op)|)
            case Undefined => m' == m && Step(m').0.srZERODIVIDE?
  {
    if op.LT? {
      n, m' := ComparisonCorrect(JLT, m);
    } else if op.EQ? {
      n, m' := ComparisonCorrect(JEQ, m);
    } else {
      StepAt(m, OpCode(op)[0]);
      if Apply(op, m.reg[AC1], m.reg[AC]).Undefined? {
        n, m' := 0, m;
      } else {
        n, m' := 1, Step(m).1;
        assert m'.reg == m.reg[AC := Apply(op, m.reg[AC1], m.reg[AC]).v][PC := m.reg[PC] + 1];
      }
    }
  }

  lemma CodeAtSame(m: TM, m': TM, at: int, code: seq<Instr>)
    requires CodeAt(m, at, code) && m'.iMem == m.iMem
    ensures CodeAt(m', at, code)
  {
  }

  /** The variables of `e` are in memory below the words its temporaries may use. */
  ghost predicate Ready(e: Exp, tmp: int, loc: string -> int, store: Store, m: TM) {
    var top := m.reg[MP] + tmp;
    && m.reg[GP] == 0
    && ExpTemps(e) - 1 <= top < DADDR_SIZE
    && forall x :: x in ExpVars(e) ==> 0 <= loc(x) <= top - ExpTemps(e) && m.dMem[loc(x)] == Lookup(store, x)
  }

  lemma ReadyLeft(e: Exp, tmp: int, loc: string -> int, store: Store, m: TM)
    requires e.OpK? && Ready(e, tmp, loc, store, m)
    ensures Ready(e.left, tmp, loc, store, m)
    ensures Frame(m, m, m.reg[MP] + tmp - ExpTemps(e), m.reg[MP] + tmp)
  {
  }

  /** From `m` to `m'` the value of `e` has been computed into AC and its code passed, or the division by zero that
      leaves it without a value is the next step. */
  ghost predicate Computes(m: TM, n: nat, m': TM, e: Exp, tmp: int, loc: string -> int, store: Store) {
    && Steps(m, n, m') && m'.iMem == m.iMem
    && Frame(m, m', m.reg[MP] + tmp - ExpTemps(e), m.reg[MP] + tmp)
    && match Eval(e, store)
       case Val(v) => m'.reg[AC] == v && m'.reg[PC] == m.reg[PC] + |ExpCode(e, tmp, loc)|
       case Undefined => Step(m').0.srZERODIVIDE?
  }

  lemma ComputedAt(m: TM, n: nat, m': TM, e: Exp, tmp: int, loc: string -> int, store: Store)
    requires Computes(m, n, m', e, tmp, loc, store)
    ensures m'.iMem == m.iMem && (Eval(e, store).Val? ==> m'.reg[PC] == m.reg[PC] + |ExpCode(e, tmp, loc)|)
  {
  }

  lemma OperandsPlaced(m: TM, at: int, cl: seq<Instr>, push: Instr, cr: seq<Instr>, pull: Instr, co: seq<Instr>)
    requires CodeAt(m, at, cl + [push] + cr + [pull] + co)
    ensures CodeAt(m, at, cl) && CodeAt(m, at + |cl| + 1, cr) && CodeAt(m, at + |cl| + 1 + |cr| + 1, co)
    ensures 0 <= at + |cl| < IADDR_SIZE && m.iMem[at + |cl|] == push
    ensures 0 <= at + |cl| + 1 + |cr| < IADDR_SIZE && m.iMem[at + |cl| + 1 + |cr|] == pull
  {
    hide CodeAt;
    CodeAtSplit(m, at, cl + [push] + cr + [pull], co);
    CodeAtSplit(m, at, cl + [push] + cr, [pull]);
    CodeAtSplit(m, at, cl + [push], cr);
    CodeAtSplit(m, at, cl, [push]);
    CodeAtIndex(m, at + |cl|, [push], 0);
    CodeAtIndex(m, at + |cl| + 1 + |cr|, [pull], 0);
  }

  /** The left operand has been computed: pushing it leaves everything ready for the right one. */
  lemma Pushed(m: TM, n: nat, m1: TM, e: Exp, tmp: int, loc: string -> int, store: Store) returns (m2: TM)
    requires e.OpK? && Ready(e, tmp, loc, store, m)
    requires Computes(m, n, m1, e.left, tmp, loc, store) && Eval(e.left, store).Val?
    requires 0 <= m1.reg[PC] < IADDR_SIZE && m1.iMem[m1.reg[PC]] == RM(ST, AC, tmp, MP)
    ensures Steps(m, n + 1, m2) && m2.reg[PC] == m1.reg[PC] + 1 && m2.reg[MP] == m.reg[MP]
    ensures Ready(e.right, tmp - 1, loc, store, m2)
    ensures m2.iMem == m1.iMem == m.iMem
    ensures Frame(m, m2, m.reg[MP] + tmp - ExpTemps(e), m.reg[MP] + tmp)
    ensures m2.dMem[m.reg[MP] + tmp] == Eval(e.left, store).v
  {
    hide Step, Execute, Steps, ExpCode;
    m2 := StepSt(m1, tmp, MP);
    StepsThen(m, n, m1, m2);
  }

  /** The right operand has been computed: the left one is still where it was pushed. */
  lemma Pulled(m: TM, n2: nat, m2: TM, n3: nat, m3: TM, e: Exp, tmp: int, loc: string -> int, store: Store)
    returns (m4: TM)
    requires e.OpK? && Ready(e, tmp, loc, store, m) && Steps(m, n2, m2) && m2.reg[MP] == m.reg[MP]
    requires Frame(m, m2, m.reg[MP] + tmp - ExpTemps(e), m.reg[MP] + tmp)
    requires Computes(m2, n3, m3, e.right, tmp - 1, loc, store) && Eval(e.right, store).Val?
    requires 0 <= m3.reg[PC] < IADDR_SIZE && m3.iMem[m3.reg[PC]] == RM(LD, AC1, tmp, MP)
    ensures Steps(m, n2 + n3 + 1, m4) && m4.reg[PC] == m3.reg[PC] + 1
    ensures m4.iMem == m.iMem
    ensures m4.reg[AC1] == m2.dMem[m.reg[MP] + tmp] && m4.reg[AC] == Eval(e.right, store).v
    ensures Frame(m, m4, m.reg[MP] + tmp - ExpTemps(e), m.reg[MP] + tmp)
  {
    hide Step, Execute, Steps, ExpCode;
    m4 := StepLd(m3, AC1, tmp, MP);
    StepsTransitive(m, n2, m2, n3, m3);
    StepsThen(m, n2 + n3, m3, m4);
  }

  /** Both operands are in their registers: the operator's code finishes the expression. */
  lemma Combined(m: TM, n4: nat, m4: TM, n5: nat, m5: TM, e: Exp, a: int, b: int, tmp: int, loc: string -> int,
                 store: Store)
    requires e.OpK? && Eval(e.left, store) == Val(a) && Eval(e.right, store) == Val(b)
    requires Steps(m, n4, m4) && Frame(m, m4, m.reg[MP] + tmp - ExpTemps(e), m.reg[MP] + tmp)
    requires m4.reg[PC] == m.reg[PC] + |ExpCode(e, tmp, loc)| - |OpCode(e.op)|
    requires Steps(m4, n5, m5)
    requires match Apply(e.op, a, b)
             case Val(v) => m5 == Then1(m4, AC, v, m4.reg[PC] + |OpCode(e.op)|)
             case Undefined => m5 == m4 && Step(m5).0.srZERODIVIDE?
    ensures Computes(m, n4 + n5, m5, e, tmp, loc, store)
  {
    hide Step, Execute, Steps, ExpCode, OpCode, Apply;
    StepsTransitive(m, n4, m4, n5, m5);
  }

  /** A division by zero in an operand is one in the whole expression. */
  lemma OperandUndefined(m: TM, n2: nat, m2: TM, n3: nat, m3: TM, e: Exp, sub: Exp, tmp: int, subTmp: int,
                         loc: string -> int, store: Store)
    requires e.OpK? && Ready(e, tmp, loc, store, m) && Steps(m, n2, m2) && m2.reg[MP] == m.reg[MP]
    requires Frame(m, m2, m.reg[MP] + tmp - ExpTemps(e), m.reg[MP] + tmp)
    requires (sub == e.left && subTmp == tmp) || (sub == e.right && subTmp == tmp - 1)
    requires Computes(m2, n3, m3, sub, subTmp, loc, store) && Eval(sub, store).Undefined? && Eval(e, store).Undefined?
    ensures Computes(m, n2 + n3, m3, e, tmp, loc, store)
  {
    hide Step, Execute, Steps, ExpCode, Eval;
    StepsTransitive(m, n2, m2, n3, m3);
  }

  /** Running an expression leaves its value in AC, or stops at a division by zero exactly if it has none. It changes
      only AC, AC1 and the words of its temporaries. */
  lemma {:induction false} ExpCorrect(e: Exp, tmp: int, loc: string -> int, store: Store, m: TM) returns (n: nat, m': TM)
    requires Ready(e, tmp, loc, store, m)
    requires CodeAt(m, m.reg[PC], ExpCode(e, tmp, loc))
    ensures Computes(m, n, m', e, tmp, loc, store)
    decreases e, 1
  {
    hide Step, Execute, Steps, CodeAt;
    StepsNone(m);
    match e
    case ConstK(v) =>
      CodeAtIndex(m, m.reg[PC], ExpCode(e, tmp, loc), 0);
      m' := StepLdc(m, v, 0);
      StepsThen(m, 0, m, m');
      n := 1;
    case IdK(x) =>
      CodeAtIndex(m, m.reg[PC], ExpCode(e, tmp, loc), 0);
      m' := StepLd(m, AC, loc(x), GP);
      StepsThen(m, 0, m, m');
      n := 1;
    case OpK(op, l, r) =>
      n, m' := OpKCorrect(e, op, l, r, tmp, loc, store, m);
  }

  lemma {:induction false} OpKCorrect(e: Exp, op: Op, l: Exp, r: Exp, tmp: int, loc: string -> int, store: Store, m: TM)
    returns (n: nat, m': TM)
    requires e == OpK(op, l, r) && Ready(e, tmp, loc, store, m)
    requires CodeAt(m, m.reg[PC], ExpCode(e, tmp, loc))
    ensures Computes(m, n, m', e, tmp, loc, store)
    decreases e, 0
  {
    hide Step, Execute, Steps, CodeAt, Frame, Ready, OpCode, Apply, Then1, Computes;
    ReadyLeft(e, tmp, loc, store, m);
    var cl, cr := ExpCode(l, tmp, loc), ExpCode(r, tmp - 1, loc);
    var at := m.reg[PC];
    OperandsPlaced(m, at, cl, RM(ST, AC, tmp, MP), cr, RM(LD, AC1, tmp, MP), OpCode(op));
    var n1, m1 := ExpCorrect(l, tmp, loc, store, m);
    ComputedAt(m, n1, m1, l, tmp, loc, store);
    if Eval(l, store).Undefined? {
      StepsNone(m);
      OperandUndefined(m, 0, m, n1, m1, e, l, tmp, tmp, loc, store);
      return n1, m1;
    }
    var m2 := Pushed(m, n1, m1, e, tmp, loc, store);
    CodeAtSame(m, m2, at + |cl| + 1, cr);
    var n3, m3 := ExpCorrect(r, tmp - 1, loc, store, m2);
    ComputedAt(m2, n3, m3, r, tmp - 1, loc, store);
    if Eval(r, store).Undefined? {
      OperandUndefined(m, n1 + 1, m2, n3, m3, e, r, tmp, tmp - 1, loc, store);
      return n1 + 1 + n3, m3;
    }
    var m4 := Pulled(m, n1 + 1, m2, n3, m3, e, tmp, loc, store);
    CodeAtSame(m, m4, at + |cl| + 1 + |cr| + 1, OpCode(op));
    var n5, m5 := OpCorrect(op, m4);
    Combined(m, n1 + 1 + n3 + 1, m4, n5, m5, e, Eval(l, store).v, Eval(r, store).v, tmp, loc, store);
    n, m' := n1 + 1 + n3 + 1 + n5, m5;
  }

  // ----- statements -----

  /** Distinct variables have distinct words, all of them below the `temps` words at the top of memory. */
  ghost predicate Room(vars: set<string>, temps: nat, loc: string -> int) {
    && temps <= DADDR_SIZE
    && (forall x :: x in vars ==> 0 <= loc(x) <= DADDR_SIZE - 1 - temps)
    && (forall x, y :: x in vars && y in vars && loc(x) == loc(y) ==> x == y)
  }

  /** The machine holds the program state: each variable in its word, the same input left, the same output made. */
  ghost predicate Holds(m: TM, st: State, vars: set<string>, loc: string -> int) {
    && m.reg[GP] == 0 && m.reg[MP] == DADDR_SIZE - 1
    && m.input == st.input && m.output == st.output
    && forall x :: x in vars ==> 0 <= loc(x) < DADDR_SIZE && m.dMem[loc(x)] == Lookup(st.store, x)
  }

  /** How the machine stops for each way a program can end. */
  function StopOf(o: Outcome): StepResult
    requires !o.OutOfFuel?
  {
    match o
    case Done(_) => srHALT
    case ZeroDivide(_) => srZERODIVIDE
    case Blocked(_) => srWAIT
  }

  /** From `m` the machine has run a piece of code of length `len` as far as outcome `o` says. */
  ghost predicate Follows(m: TM, n: nat, m': TM, o: Outcome, len: nat, fuel: nat, vars: set<string>, loc: string -> int) {
    && Steps(m, n, m') && m'.iMem == m.iMem
    && match o
       case Done(st) => Holds(m', st, vars, loc) && m'.reg[PC] == m.reg[PC] + len
       case OutOfFuel => n > fuel
       case _ => Holds(m', o.s, vars, loc) && Step(m').0 == StopOf(o)
  }

  lemma RunExp(e: Exp, loc: string -> int, m: TM, st: State, vars: set<string>, temps: nat) returns (n: nat, m': TM)
    requires ExpVars(e) <= vars && ExpTemps(e) <= temps && Room(vars, temps, loc)
    requires Holds(m, st, vars, loc) && CodeAt(m, m.reg[PC], ExpCode(e, 0, loc))
    ensures Steps(m, n, m') && m'.iMem == m.iMem && Holds(m', st, vars, loc)
    ensures match Eval(e, st.store)
            case Val(v) => m'.reg[AC] == v && m'.reg[PC] == m.reg[PC] + |ExpCode(e, 0, loc)|
            case Undefined => Step(m').0.srZERODIVIDE?
  {
    hide Step, Execute, Steps, CodeAt, ExpCode, Eval;
    n, m' := ExpCorrect(e, 0, loc, st.store, m);
  }

  /** Storing AC into a variable's word changes that variable and no other. */
  lemma RunStore(x: string, v: int, loc: string -> int, m0: TM, k: nat, m: TM, st: State, vars: set<string>, temps: nat)
    returns (m': TM)
    requires x in vars && Room(vars, temps, loc) && Holds(m, st, vars, loc) && Steps(m0, k, m) && m.reg[AC] == v
    requires 0 <= m.reg[PC] < IADDR_SIZE && m.iMem[m.reg[PC]] == RM(ST, AC, loc(x), GP)
    ensures Steps(m0, k + 1, m') && m'.iMem == m.iMem && m'.reg[PC] == m.reg[PC] + 1
    ensures Holds(m', st.(store := st.store[x := v]), vars, loc)
  {
    hide Step, Execute, Steps;
    m' := StepSt(m, loc(x), GP);
    StepsThen(m0, k, m, m');
  }

  lemma {:induction false} StmtCorrect(s: Stmt, loc: string -> int, vars: set<string>, temps: nat, m: TM, st: State,
                                       fuel: nat)
    returns (n: nat, m': TM)
    requires StmtVars(s) <= vars && StmtTemps(s) <= temps && Room(vars, temps, loc)
    requires Holds(m, st, vars, loc) && CodeAt(m, m.reg[PC], StmtCode(s, 0, loc))
    ensures Follows(m, n, m', ExecStmt(s, st, fuel), |StmtCode(s, 0, loc)|, fuel, vars, loc)
    decreases fuel, s, 1
  {
    hide Step, Execute, Steps, CodeAt, ExpCode, Eval, Holds, Room;
    match s
    case IfK(e, p, q) =>
      n, m' := IfCorrect(s, e, p, q, loc, vars, temps, m, st, fuel);
    case RepeatK(p, e) =>
      n, m' := RepeatCorrect(s, p, e, loc, vars, temps, m, st, fuel);
    case AssignK(x, e) =>
      n, m' := AssignCorrect(x, e, loc, vars, temps, m, st, fuel);
    case ReadK(x) =>
      n, m' := ReadCorrect(x, loc, vars, temps, m, st, fuel);
    case WriteK(e) =>
      n, m' := WriteCorrect(e, loc, vars, temps, m, st, fuel);
  }

  lemma AssignCorrect(x: string, e: Exp, loc: string -> int, vars: set<string>, temps: nat, m: TM, st: State, fuel: nat)
    returns (n: nat, m': TM)
    requires StmtVars(AssignK(x, e)) <= vars && ExpTemps(e) <= temps && Room(vars, temps, loc)
    requires Holds(m, st, vars, loc) && CodeAt(m, m.reg[PC], StmtCode(AssignK(x, e), 0, loc))
    ensures Follows(m, n, m', ExecStmt(AssignK(x, e), st, fuel), |StmtCode(AssignK(x, e), 0, loc)|, fuel, vars, loc)
  {
    hide Step, Execute, Steps, CodeAt, ExpCode, Eval, Holds, Room;
    var c := ExpCode(e, 0, loc);
    CodeAtSplit(m, m.reg[PC], c, [RM(ST, AC, loc(x), GP)]);
    CodeAtIndex(m, m.reg[PC] + |c|, [RM(ST, AC, loc(x), GP)], 0);
    n, m' := RunExp(e, loc, m, st, vars, temps);
    if Eval(e, st.store).Val? {
      m' := RunStore(x, Eval(e, st.store).v, loc, m, n, m', st, vars, temps);
      n := n + 1;
    }
  }

  lemma ReadCorrect(x: string, loc: string -> int, vars: set<string>, temps: nat, m: TM, st: State, fuel: nat)
    returns (n: nat, m': TM)
    requires x in vars && Room(vars, temps, loc)
    requires Holds(m, st, vars, loc) && CodeAt(m, m.reg[PC], StmtCode(ReadK(x), 0, loc))
    ensures Follows(m, n, m', ExecStmt(ReadK(x), st, fuel), |StmtCode(ReadK(x), 0, loc)|, fuel, vars, loc)
  {
    hide Steps, CodeAt, Room;
    CodeAtIndex(m, m.reg[PC], StmtCode(ReadK(x), 0, loc), 0);
    CodeAtIndex(m, m.reg[PC], StmtCode(ReadK(x), 0, loc), 1);
    StepsNone(m);
    if st.input == [] {
      n, m' := 0, m;
    } else {
      var m1 := Step(m).1;
      StepsThen(m, 0, m, m1);
      m' := RunStore(x, st.input[0], loc, m, 1, m1, st.(input := st.input[1..]), vars, temps);
      n := 2;
    }
  }

  lemma WriteCorrect(e: Exp, loc: string -> int, vars: set<string>, temps: nat, m: TM, st: State, fuel: nat)
    returns (n: nat, m': TM)
    requires ExpVars(e) <= vars && ExpTemps(e) <= temps && Room(vars, temps, loc)
    requires Holds(m, st, vars, loc) && CodeAt(m, m.reg[PC], StmtCode(WriteK(e), 0, loc))
    ensures Follows(m, n, m', ExecStmt(WriteK(e), st, fuel), |StmtCode(WriteK(e), 0, loc)|, fuel, vars, loc)
  {
    hide Steps, CodeAt, ExpCode, Eval, Room;
    var c := ExpCode(e, 0, loc);
    CodeAtSplit(m, m.reg[PC], c, [RO(OUT, AC, 0, 0)]);
    CodeAtIndex(m, m.reg[PC] + |c|, [RO(OUT, AC, 0, 0)], 0);
    n, m' := RunExp(e, loc, m, st, vars, temps);
    if Eval(e, st.store).Val? {
      var m1 := m';
      m' := Step(m1).1;
      StepsThen(m, n, m1, m');
      n := n + 1;
    }
  }

  /** A conditional jump or a jump back changes nothing but the program counter. */
  lemma HoldsMoved(m: TM, a: int, st: State, vars: set<string>, loc: string -> int)
    requires Holds(m, st, vars, loc)
    ensures Holds(SetReg(m, PC, a), st, vars, loc)
  {
  }

  /** The code of an if: test, jump over the then part, then part, jump over the else part, else part. */
  lemma IfPlaced(m: TM, at: int, ct: seq<Instr>, j1: Instr, cp: seq<Instr>, j2: Instr, cq: seq<Instr>)
    requires CodeAt(m, at, ct + [j1] + cp + [j2] + cq)
    ensures CodeAt(m, at, ct) && CodeAt(m, at + |ct| + 1, cp) && CodeAt(m, at + |ct| + 1 + |cp| + 1, cq)
    ensures 0 <= at + |ct| < IADDR_SIZE && m.iMem[at + |ct|] == j1
    ensures 0 <= at + |ct| + 1 + |cp| < IADDR_SIZE && m.iMem[at + |ct| + 1 + |cp|] == j2
  {
    OperandsPlaced(m, at, ct, j1, cp, j2, cq);
  }

  /** What follows from a later state follows from an earlier one. */
  lemma Chained(m: TM, n1: nat, m1: TM, n2: nat, m2: TM, o: Outcome, len: nat, whole: nat, fuel: nat, vars: set<string>,
                loc: string -> int)
    requires Steps(m, n1, m1) && m1.iMem == m.iMem && Follows(m1, n2, m2, o, len, fuel, vars, loc)
    requires m1.reg[PC] + len == m.reg[PC] + whole
    ensures Follows(m, n1 + n2, m2, o, whole, fuel, vars, loc)
  {
    hide Step, Steps, Holds;
    StepsTransitive(m, n1, m1, n2, m2);
  }

  /** After the then part the else part is jumped over, if the then part ends. */
  lemma JumpedOver(m: TM, n: nat, m1: TM, o: Outcome, len: nat, d: nat, fuel: nat, vars: set<string>, loc: string -> int)
    returns (n': nat, m': TM)
    requires Follows(m, n, m1, o, len, fuel, vars, loc)
    requires 0 <= m.reg[PC] + len < IADDR_SIZE && m.iMem[m.reg[PC] + len] == RM(LDA, PC, d, PC)
    ensures Follows(m, n', m', o, len + 1 + d, fuel, vars, loc)
  {
    hide Step, Steps, Holds;
    n', m' := n, m1;
    if o.Done? {
      m' := StepLda(m1, d);
      StepsThen(m, n, m1, m');
      HoldsMoved(m1, m'.reg[PC], o.s, vars, loc);
      n' := n + 1;
    }
  }

  lemma DividesByZero(m: TM, n: nat, m': TM, st: State, len: nat, fuel: nat, vars: set<string>, loc: string -> int)
    requires Steps(m, n, m') && m'.iMem == m.iMem && Holds(m', st, vars, loc) && Step(m').0.srZERODIVIDE?
    ensures Follows(m, n, m', ZeroDivide(st), len, fuel, vars, loc)
  {
    hide Step, Steps, Holds;
  }

  lemma IfMeans(s: Stmt, e: Exp, p: Stmts, q: Stmts, loc: string -> int, st: State, fuel: nat)
    requires s == IfK(e, p, q)
    ensures ExecStmt(s, st, fuel) == if Eval(e, st.store).Undefined? then ZeroDivide(st)
                                     else if Eval(e, st.store).v != 0 then Exec(p, st, fuel) else Exec(q, st, fuel)
    ensures var cp, cq := StmtsCode(p, 0, loc), StmtsCode(q, 0, loc);
            StmtCode(s, 0, loc) == ExpCode(e, 0, loc) + [RM(JEQ, AC, |cp| + 1, PC)] + cp + [RM(LDA, PC, |cq|, PC)] + cq
  {
    hide Eval, Exec, ExpCode, StmtsCode, StmtCode;
    IfCode(s, e, p, q, loc);
  }

  lemma IfCode(s: Stmt, e: Exp, p: Stmts, q: Stmts, loc: string -> int)
    requires s == IfK(e, p, q)
    ensures var cp, cq := StmtsCode(p, 0, loc), StmtsCode(q, 0, loc);
            StmtCode(s, 0, loc) == ExpCode(e, 0, loc) + [RM(JEQ, AC, |cp| + 1, PC)] + cp + [RM(LDA, PC, |cq|, PC)] + cq
  {
    hide ExpCode, StmtsCode;
  }

  lemma IfUses(s: Stmt, e: Exp, p: Stmts, q: Stmts, vars: set<string>, temps: nat)
    requires s == IfK(e, p, q) && StmtVars(s) <= vars && StmtTemps(s) <= temps
    ensures ExpVars(e) <= vars && StmtsVars(p) <= vars && StmtsVars(q) <= vars
    ensures ExpTemps(e) <= temps && StmtsTemps(p) <= temps && StmtsTemps(q) <= temps
  {
  }

  lemma {:induction false} IfCorrect(s: Stmt, e: Exp, p: Stmts, q: Stmts, loc: string -> int, vars: set<string>,
                                     temps: nat, m: TM, st: State, fuel: nat)
    returns (n: nat, m': TM)
    requires s == IfK(e, p, q)
    requires StmtVars(s) <= vars && StmtTemps(s) <= temps && Room(vars, temps, loc)
    requires Holds(m, st, vars, loc) && CodeAt(m, m.reg[PC], StmtCode(s, 0, loc))
    ensures Follows(m, n, m', ExecStmt(s, st, fuel), |StmtCode(s, 0, loc)|, fuel, vars, loc)
    decreases fuel, s, 0
  {
    hide Step, Execute, Steps, CodeAt, ExpCode, Eval, Holds, Room, StmtsCode, Exec, StmtVars, StmtTemps;
    hide StmtCode, ExecStmt, Follows;
    IfUses(s, e, p, q, vars, temps);
    IfMeans(s, e, p, q, loc, st, fuel);
    var at, o := m.reg[PC], ExecStmt(s, st, fuel);
    var ct, cp, cq := ExpCode(e, 0, loc), StmtsCode(p, 0, loc), StmtsCode(q, 0, loc);
    IfPlaced(m, at, ct, RM(JEQ, AC, |cp| + 1, PC), cp, RM(LDA, PC, |cq|, PC), cq);
    n, m' := RunExp(e, loc, m, st, vars, temps);
    if Eval(e, st.store).Undefined? {
      DividesByZero(m, n, m', st, |StmtCode(s, 0, loc)|, fuel, vars, loc);
      return;
    }
    var m2 := StepJump(m', JEQ, |cp| + 1);
    StepsThen(m, n, m', m2);
    HoldsMoved(m', m2.reg[PC], st, vars, loc);
    if Eval(e, st.store).v != 0 {
      CodeAtSame(m, m2, at + |ct| + 1, cp);
      var n3, m3 := StmtsCorrect(p, loc, vars, temps, m2, st, fuel);
      var n4, m4 := JumpedOver(m2, n3, m3, o, |cp|, |cq|, fuel, vars, loc);
      Chained(m, n + 1, m2, n4, m4, o, |cp| + 1 + |cq|, |StmtCode(s, 0, loc)|, fuel, vars, loc);
      n, m' := n + 1 + n4, m4;
    } else {
      CodeAtSame(m, m2, at + |ct| + 1 + |cp| + 1, cq);
      var n3, m3 := StmtsCorrect(q, loc, vars, temps, m2, st, fuel);
      Chained(m, n + 1, m2, n3, m3, o, |cq|, |StmtCode(s, 0, loc)|, fuel, vars, loc);
      n, m' := n + 1 + n3, m3;
    }
  }

  lemma {:induction false} RepeatCorrect(s: Stmt, p: Stmts, e: Exp, loc: string -> int, vars: set<string>, temps: nat,
                                         m: TM, st: State, fuel: nat)
    returns (n: nat, m': TM)
    requires s == RepeatK(p, e)
    requires StmtVars(s) <= vars && StmtTemps(s) <= temps && Room(vars, temps, loc)
    requires Holds(m, st, vars, loc) && CodeAt(m, m.reg[PC], StmtCode(s, 0, loc))
    ensures Follows(m, n, m', ExecStmt(s, st, fuel), |StmtCode(s, 0, loc)|, fuel, vars, loc)
    decreases fuel, s, 0
  {
    hide Step, Execute, Steps, CodeAt, ExpCode, Eval, Holds, Room, StmtsCode, Exec;
    var at := m.reg[PC];
    var cp, ct := StmtsCode(p, 0, loc), ExpCode(e, 0, loc);
    CodeAtSplit(m, at, cp + ct, [RM(JEQ, AC, -(|cp + ct| + 1), PC)]);
    CodeAtIndex(m, at + |cp + ct|, [RM(JEQ, AC, -(|cp + ct| + 1), PC)], 0);
    CodeAtSplit(m, at, cp, ct);
    n, m' := StmtsCorrect(p, loc, vars, temps, m, st, fuel);
    var o := Exec(p, st, fuel);
    if o.Done? {
      var m1 := m';
      CodeAtSame(m, m1, at + |cp|, ct);
      var n2, m2 := RunExp(e, loc, m1, o.s, vars, temps);
      StepsTransitive(m, n, m1, n2, m2);
      n, m' := n + n2, m2;
      if Eval(e, o.s.store).Val? {
        var m3 := StepJump(m2, JEQ, -(|cp + ct| + 1));
        StepsThen(m, n, m2, m3);
        HoldsMoved(m2, m3.reg[PC], o.s, vars, loc);
        n, m' := n + 1, m3;
        if Eval(e, o.s.store).v == 0 && fuel > 0 {
          CodeAtSame(m, m3, at, StmtCode(s, 0, loc));
          var n4, m4 := StmtCorrect(s, loc, vars, temps, m3, o.s, fuel - 1);
          StepsTransitive(m, n, m3, n4, m4);
          n, m' := n + n4, m4;
        }
      }
    }
  }

  /** Compiled statements do on the machine what the program does. */
  lemma {:induction false} StmtsCorrect(t: Stmts, loc: string -> int, vars: set<string>, temps: nat, m: TM, st: State,
                                        fuel: nat)
    returns (n: nat, m': TM)
    requires StmtsVars(t) <= vars && StmtsTemps(t) <= temps && Room(vars, temps, loc)
    requires Holds(m, st, vars, loc) && CodeAt(m, m.reg[PC], StmtsCode(t, 0, loc))
    ensures Follows(m, n, m', Exec(t, st, fuel), |StmtsCode(t, 0, loc)|, fuel, vars, loc)
    decreases fuel, t, 1
  {
    hide Step, Execute, Steps, CodeAt, ExpCode, Eval, Holds, Room, StmtCode, ExecStmt;
    match t
    case End =>
      StepsNone(m);
      n, m' := 0, m;
    case Then(s, rest) =>
      CodeAtSplit(m, m.reg[PC], StmtCode(s, 0, loc), StmtsCode(rest, 0, loc));
      n, m' := StmtCorrect(s, loc, vars, temps, m, st, fuel);
      var o := ExecStmt(s, st, fuel);
      if o.Done? {
        var m1 := m';
        CodeAtSame(m, m1, m1.reg[PC], StmtsCode(rest, 0, loc));
        var n2, m2 := StmtsCorrect(rest, loc, vars, temps, m1, o.s, fuel);
        StepsTransitive(m, n, m1, n2, m2);
        n, m' := n + n2, m2;
      }
  }

  // ----- whole programs -----

  /** The program's code and data fit the machine. */
  ghost predicate Fits(t: Stmts, loc: string -> int) {
    |ProgramCode(t, loc)| <= IADDR_SIZE && Room(StmtsVars(t), StmtsTemps(t), loc)
  }

  /** The machine loaded with the program's code file. */
  function Boot(t: Stmts, loc: string -> int, input: seq<int>): TM {
    Reset(ProgramLines(t, loc), input)
  }

  function Run(t: Stmts, input: seq<int>, fuel: nat): Outcome {
    Exec(t, State(map[], input, []), fuel)
  }

  lemma BootCode(t: Stmts, loc: string -> int, input: seq<int>)
    requires Fits(t, loc)
    ensures CodeAt(Boot(t, loc, input), 0, ProgramCode(t, loc))
  {
    ProgramImage(t, loc);
    var c, mem := ProgramCode(t, loc), Boot(t, loc, input).iMem;
    forall i | 0 <= i < |c|
      ensures mem[i] == c[i]
    {
      assert i in Block(0, c);
    }
  }

  /** The prelude sets MP to the highest address and clears word 0, which held it. */
  lemma RunPrelude(m: TM, input: seq<int>) returns (m': TM)
    requires CodeAt(m, 0, Prelude()) && m == Reset([], input).(iMem := m.iMem)
    ensures Steps(m, 2, m') && m'.iMem == m.iMem && m'.reg[PC] == 2 && m'.reg[GP] == 0
    ensures m'.reg[MP] == DADDR_SIZE - 1 && m'.input == input && m'.output == []
    ensures forall a :: 0 <= a < DADDR_SIZE ==> m'.dMem[a] == 0
  {
    hide Step, Execute, Steps, CodeAt;
    CodeAtIndex(m, 0, Prelude(), 0);
    CodeAtIndex(m, 0, Prelude(), 1);
    StepsNone(m);
    var m1 := StepLd(m, MP, 0, AC);
    StepsThen(m, 0, m, m1);
    m' := StepSt(m1, 0, AC);
    StepsThen(m, 1, m1, m');
  }

  /** The compiler is correct: started on the loaded code, the machine makes the same output as the program, leaves each
      variable's value in its word, and stops as the program ends: at HALT if it ends normally, at a division by zero or
      waiting for input if it does. As long as the program only repeats its loops the machine keeps running. */
  lemma CompilerCorrect(t: Stmts, loc: string -> int, input: seq<int>, fuel: nat) returns (n: nat, m: TM)
    requires Fits(t, loc)
    ensures Steps(Boot(t, loc, input), n, m)
    ensures var o := Run(t, input, fuel);
            if o.OutOfFuel? then n > fuel
            else Step(m).0 == StopOf(o) && Holds(m, o.s, StmtsVars(t), loc)
  {
    hide Step, Execute, Steps, CodeAt, Room, StmtsCode, Exec, ExpCode;
    var boot := Boot(t, loc, input);
    BootCode(t, loc, input);
    var body := StmtsCode(t, 0, loc);
    CodeAtSplit(boot, 0, Prelude() + body, [RO(HALT, 0, 0, 0)]);
    CodeAtSplit(boot, 0, Prelude(), body);
    var m1 := RunPrelude(boot, input);
    StartHolds(m1, t, loc, input);
    CodeAtSame(boot, m1, 2, body);
    var st := State(map[], input, []);
    var n2, m2 := StmtsCorrect(t, loc, StmtsVars(t), StmtsTemps(t), m1, st, fuel);
    StepsTransitive(boot, 2, m1, n2, m2);
    CodeAtIndex(boot, 2 + |body|, [RO(HALT, 0, 0, 0)], 0);
    n, m := 2 + n2, m2;
    if Run(t, input, fuel).Done? {
      StepHalt(m);
    }
  }

  lemma StartHolds(m: TM, t: Stmts, loc: string -> int, input: seq<int>)
    requires m.reg[GP] == 0 && m.reg[MP] == DADDR_SIZE - 1 && m.input == input && m.output == []
    requires Room(StmtsVars(t), StmtsTemps(t), loc)
    requires forall a :: 0 <= a < DADDR_SIZE ==> m.dMem[a] == 0
    ensures Holds(m, State(map[], input, []), StmtsVars(t), loc)
  {
  }

  /** The machine stops with result `r` and output `output` at the latest. */
  ghost predicate Stops(m: TM, r: StepResult, output: seq<int>) {
    exists n, m' :: Steps(m, n, m') && Step(m').0 == r && m'.output == output
  }

  /** The program ends in the way that `r` stands for, with output `output`. */
  ghost predicate Ends(t: Stmts, input: seq<int>, r: StepResult, output: seq<int>) {
    exists fuel :: var o := Run(t, input, fuel); !o.OutOfFuel? && StopOf(o) == r && o.s.output == output
  }

  /** The machine stops exactly if the program ends, in the same way and with the same output. So it runs forever exactly
      if the program does, and it never meets a memory fault. */
  lemma StopsIffEnds(t: Stmts, loc: string -> int, input: seq<int>, r: StepResult, output: seq<int>)
    requires Fits(t, loc) && r != srOKAY
    ensures Stops(Boot(t, loc, input), r, output) <==> Ends(t, input, r, output)
  {
    var boot := Boot(t, loc, input);
    if Stops(boot, r, output) {
      var n, m :| Steps(boot, n, m) && Step(m).0 == r && m.output == output;
      var n', m' := CompilerCorrect(t, loc, input, n);
      StoppedOnce(boot, n, m, n', m');
    }
    if Ends(t, input, r, output) {
      var fuel :| var o := Run(t, input, fuel); !o.OutOfFuel? && StopOf(o) == r && o.s.output == output;
      var n, m := CompilerCorrect(t, loc, input, fuel);
    }
  }

  /** Of two runs from one state, one that stops is at least as long as the other, and if both stop they are the
      same. */
  lemma StoppedOnce(m0: TM, n: nat, m: TM, n': nat, m': TM)
    requires Steps(m0, n, m) && Steps(m0, n', m') && Step(m).0 != srOKAY
    ensures n' <= n
    ensures Step(m').0 != srOKAY ==> n == n' && m == m'
  {
    if n <= n' {
      StepsSplit(m0, n, m, n', m');
    }
    if n' <= n {
      StepsSplit(m0, n', m', n, m);
    }
  }

  /** Compiles a program and loads its code file: the simulator is then in the state the correctness theorem
      starts from. */
  method CompileAndLoad(t: Stmts, loc: string -> int, input: seq<int>) returns (tm: Simulator)
    requires |ProgramCode(t, loc)| <= IADDR_SIZE
    ensures fresh(tm) && tm.Valid() && tm.State() == Boot(t, loc, input)
  {
    var gen := new Generator(loc);
    gen.CodeGen(t);
    ProgramImage(t, loc);
    tm := new Simulator(input);
    var res := tm.ReadInstructions(gen.code);
  }
}
