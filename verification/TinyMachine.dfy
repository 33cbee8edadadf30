/** The TM machine: eight registers, 1024 data words, 1024 instruction words. */
module TinyMachine {
  import opened TinySemantics

  const IADDR_SIZE := 1024
  const DADDR_SIZE := 1024
  const NO_REGS := 8
  const PC_REG := 7

  datatype Opcode =
    | HALT | IN | OUT | ADD | SUB | MUL | DIV      // register only
    | LD | ST                                      // register and memory
    | LDA | LDC | JLT | JLE | JGT | JGE | JEQ | JNE // register and address

  datatype Instruction = Instruction(iop: Opcode, iarg1: int, iarg2: int, iarg3: int)

  predicate IsReg(r: int) {
    0 <= r < NO_REGS
  }

  predicate RegisterOnly(op: Opcode) {
    op.HALT? || op.IN? || op.OUT? || op.ADD? || op.SUB? || op.MUL? || op.DIV?
  }

  /** What the loader checks of every line: the register fields name registers. */
  predicate Legal(i: Instruction) {
    IsReg(i.iarg1) && IsReg(i.iarg3) && (RegisterOnly(i.iop) ==> IsReg(i.iarg2))
  }

  type Instr = i: Instruction | Legal(i) witness Instruction(HALT, 0, 0, 0)

  const NOTHING: Instr := Instruction(HALT, 0, 0, 0)

  /** `srWAIT`: an IN instruction has no number to read.
      `srFAULT`: the address equals the array size; the range tests let it through and the array access is outside
      the array. */
  datatype StepResult = srOKAY | srHALT | srIMEM_ERR | srDMEM_ERR | srZERODIVIDE | srWAIT | srFAULT

  datatype Machine = Machine(reg: seq<int>, dMem: seq<int>, iMem: seq<Instr>, input: seq<int>, output: seq<int>)

  predicate Sized(m: Machine) {
    |m.reg| == NO_REGS && |m.dMem| == DADDR_SIZE && |m.iMem| == IADDR_SIZE
  }

  type TM = m: Machine | Sized(m)
    witness Machine(seq(NO_REGS, _ => 0), seq(DADDR_SIZE, _ => 0), seq(IADDR_SIZE, _ => NOTHING), [], [])

  function SetReg(m: TM, r: int, v: int): TM
    requires IsReg(r)
  {
    m.(reg := m.reg[r := v])
  }

  function JumpIf(m: TM, taken: bool, a: int): (StepResult, TM) {
    (srOKAY, if taken then SetReg(m, PC_REG, a) else m)
  }

  /** One instruction. */
  function Step(m0: TM): (StepResult, TM) {
    var pc := m0.reg[PC_REG];
    if pc < 0 || pc > IADDR_SIZE then (srIMEM_ERR, m0)
    else if pc == IADDR_SIZE then (srFAULT, m0)
    else Execute(SetReg(m0, PC_REG, pc + 1), m0.iMem[pc])
  }

  /** The effect of `i` once the program counter has moved on. */
  function Execute(m: TM, i: Instr): (StepResult, TM) {
    var r := i.iarg1;
    var s := if RegisterOnly(i.iop) then i.iarg2 else i.iarg3;
    var t := i.iarg3;
    var a := i.iarg2 + m.reg[i.iarg3];
    match i.iop
    case HALT => (srHALT, m)
    case IN =>
      if m.input == [] then (srWAIT, m)
      else (srOKAY, SetReg(m.(input := m.input[1..]), r, m.input[0]))
    case OUT => (srOKAY, m.(output := m.output + [m.reg[r]]))
    case ADD => (srOKAY, SetReg(m, r, m.reg[s] + m.reg[t]))
    case SUB => (srOKAY, SetReg(m, r, m.reg[s] - m.reg[t]))
    case MUL => (srOKAY, SetReg(m, r, m.reg[s] * m.reg[t]))
    case DIV =>
      if m.reg[t] == 0 then (srZERODIVIDE, m)
      else (srOKAY, SetReg(m, r, CDiv(m.reg[s], m.reg[t])))
    case LD =>
      if a < 0 || a > DADDR_SIZE then (srDMEM_ERR, m)
      else if a == DADDR_SIZE then (srFAULT, m)
      else (srOKAY, SetReg(m, r, m.dMem[a]))
    case ST =>
      if a < 0 || a > DADDR_SIZE then (srDMEM_ERR, m)
      else if a == DADDR_SIZE then (srFAULT, m)
      else (srOKAY, m.(dMem := m.dMem[a := m.reg[r]]))
    case LDA => (srOKAY, SetReg(m, r, a))
    case LDC => (srOKAY, SetReg(m, r, i.iarg2))
    case JLT => JumpIf(m, m.reg[r] < 0, a)
    case JLE => JumpIf(m, m.reg[r] <= 0, a)
    case JGT => JumpIf(m, m.reg[r] > 0, a)
    case JGE => JumpIf(m, m.reg[r] >= 0, a)
    case JEQ => JumpIf(m, m.reg[r] == 0, a)
    case JNE => JumpIf(m, m.reg[r] != 0, a)
  }

  /** Which jumps are taken, by the sign of the register tested. */
  lemma JumpsBySign(m: TM, op: Opcode, r: int, d: int, s: int)
    requires IsReg(r) && IsReg(s) && op in {JLT, JLE, JGT, JGE, JEQ, JNE}
    ensures var taken := if m.reg[r] < 0 then {JLT, JLE, JNE} else if m.reg[r] == 0 then {JLE, JGE, JEQ} else {JGT, JGE, JNE};
            Execute(m, Instruction(op, r, d, s)) == (srOKAY, if op in taken then SetReg(m, 7, d + m.reg[s]) else m)
  {
  }

  /** Dividing gives the truncated quotient, and is refused exactly for the divisor zero. */
  lemma DivideTruncates(m: TM, r: int, s: int, t: int)
    requires IsReg(r) && IsReg(s) && IsReg(t)
    ensures var (res, m') := Execute(m, Instruction(DIV, r, s, t));
            if m.reg[t] == 0 then res.srZERODIVIDE? && m' == m
            else res.srOKAY? && Truncates(m.reg[s], m.reg[t], m'.reg[r]) && m' == SetReg(m, r, m'.reg[r])
  {
    if m.reg[t] != 0 { CDivTruncates(m.reg[s], m.reg[t]); }
  }

  /** What a load and a store do to an address: 1024 passes the range test and is outside the memory. */
  lemma AddressRange(m: TM, op: Opcode, r: int, d: int, s: int)
    requires IsReg(r) && IsReg(s) && (op.LD? || op.ST?)
    ensures var (res, m') := Execute(m, Instruction(op, r, d, s)); var a := d + m.reg[s];
            && (res.srOKAY? <==> 0 <= a < 1024) && (res.srFAULT? <==> a == 1024) && (res.srDMEM_ERR? <==> a < 0 || a > 1024)
            && (res.srOKAY? ==> if op.LD? then m' == SetReg(m, r, m.dMem[a]) else m'.dMem[a] == m.reg[r])
            && (!res.srOKAY? ==> m' == m)
  {
  }

  /** `m` gets to `m'` in exactly `n` steps, none of which stops the machine. */
  ghost predicate Steps(m: TM, n: nat, m': TM)
    decreases n
  {
    if n == 0 then m' == m
    else Step(m).0 == srOKAY && Steps(Step(m).1, n - 1, m')
  }

  lemma {:induction false} StepsTransitive(m0: TM, j: nat, m1: TM, k: nat, m2: TM)
    requires Steps(m0, j, m1) && Steps(m1, k, m2)
    ensures Steps(m0, j + k, m2)
    decreases j
  {
    if j > 0 {
      StepsTransitive(Step(m0).1, j - 1, m1, k, m2);
    }
  }

  /** The machine is deterministic: of two runs from one state, the shorter is the start of the longer. */
  lemma {:induction false} StepsSplit(m0: TM, j: nat, m1: TM, k: nat, m2: TM)
    requires j <= k && Steps(m0, j, m1) && Steps(m0, k, m2)
    ensures Steps(m1, k - j, m2)
    decreases j
  {
    if j > 0 {
      StepsSplit(Step(m0).1, j - 1, m1, k - 1, m2);
    }
  }

  // ----- a loaded machine -----

  /** One line of a code file: the location and the instruction to put there. */
  datatype Line = Line(loc: int, instr: Instr)

  /** Instruction memory as the code file describes it: for each location the last line wins. */
  function Image(code: seq<Line>): map<int, Instr> {
    if code == [] then map[] else
    Image(code[..|code| - 1])[code[|code| - 1].loc := code[|code| - 1].instr]
  }

  /** The machine just after loading a code file. */
  function Reset(code: seq<Line>, input: seq<int>): TM {
    Machine(seq(NO_REGS, _ => 0), seq(DADDR_SIZE, i => if i == 0 then DADDR_SIZE - 1 else 0),
            Loaded(code), input, [])
  }

  function Loaded(code: seq<Line>): (mem: seq<Instr>)
    ensures |mem| == IADDR_SIZE
  {
    var image := Image(code);
    seq(IADDR_SIZE, i requires 0 <= i < IADDR_SIZE => if i in image then image[i] else NOTHING)
  }

  /** `i` is what the last line for the location says, or HALT without a line for it. */
  ghost predicate LastLine(code: seq<Line>, loc: int, i: Instr) {
    || (i == NOTHING && forall k :: 0 <= k < |code| ==> code[k].loc != loc)
    || exists k :: 0 <= k < |code| && code[k] == Line(loc, i) && forall j :: k < j < |code| ==> code[j].loc != loc
  }

  lemma LoadedLast(code: seq<Line>)
    ensures forall loc :: 0 <= loc < IADDR_SIZE ==> LastLine(code, loc, Loaded(code)[loc])
  {
    forall loc | 0 <= loc < IADDR_SIZE ensures LastLine(code, loc, Loaded(code)[loc]) {
      ImageLast(code, loc);
    }
  }

  lemma {:induction false} ImageLast(code: seq<Line>, loc: int)
    ensures LastLine(code, loc, if loc in Image(code) then Image(code)[loc] else NOTHING)
  {
    if code != [] {
      var n := |code| - 1;
      ImageLast(code[..n], loc);
      if code[n].loc == loc {
        assert code[n] == Line(loc, code[n].instr);
      } else if k :| 0 <= k < n && code[..n][k].loc == loc && forall j :: k < j < n ==> code[..n][j].loc != loc {
        assert code[k] == code[..n][k];
      }
    }
  }

  datatype LoadResult = LoadOk | TooLarge | OutsideMemory

  /** The simulator's state, changed in place. */
  class Simulator {
    const reg: array<int>
    const dMem: array<int>
    const iMem: array<Instr>
    var input: seq<int>
    var output: seq<int>

    ghost predicate Valid()
      reads this
    {
      reg.Length == NO_REGS && dMem.Length == DADDR_SIZE && iMem.Length == IADDR_SIZE && reg != dMem
    }

    ghost function State(): TM
      reads this, reg, dMem, iMem
      requires Valid()
    {
      Machine(reg[..], dMem[..], iMem[..], input, output)
    }

    constructor (input: seq<int>)
      ensures Valid() && fresh(reg) && fresh(dMem) && fresh(iMem)
      ensures this.input == input && output == []
    {
      reg := new int[NO_REGS];
      dMem := new int[DADDR_SIZE];
      iMem := new Instr[IADDR_SIZE](_ => NOTHING);
      this.input := input;
      output := [];
    }

    /** Clears the machine and loads a code file. A location that is too large is reported; one that passes the
        test and still lies outside the array is not part of C's defined behaviour. */
    method ReadInstructions(code: seq<Line>) returns (res: LoadResult)
      requires Valid()
      modifies reg, dMem, iMem
      ensures Valid() && input == old(input) && output == old(output)
      ensures res.LoadOk? <==> forall k :: 0 <= k < |code| ==> 0 <= code[k].loc < IADDR_SIZE
      ensures res.LoadOk? && output == [] ==> State() == Reset(code, input)
      ensures res.LoadOk? ==> (forall i :: 0 <= i < 8 ==> reg[i] == 0) && dMem[0] == 1023 && (forall i :: 1 <= i < 1024 ==> dMem[i] == 0)
      ensures res.LoadOk? ==> forall loc :: 0 <= loc < 1024 ==> LastLine(code, loc, iMem[loc])
    {
      for regNo := 0 to NO_REGS
        invariant forall i :: 0 <= i < regNo ==> reg[i] == 0
      {
        reg[regNo] := 0;
      }
      dMem[0] := DADDR_SIZE - 1;
      for loc := 1 to DADDR_SIZE
        invariant dMem[0] == DADDR_SIZE - 1
        invariant forall i :: 1 <= i < loc ==> dMem[i] == 0
        invariant forall i :: 0 <= i < NO_REGS ==> reg[i] == 0
      {
        dMem[loc] := 0;
      }
      for loc := 0 to IADDR_SIZE
        invariant forall i :: 0 <= i < loc ==> iMem[i] == NOTHING
        invariant dMem[0] == DADDR_SIZE - 1
        invariant forall i :: 1 <= i < DADDR_SIZE ==> dMem[i] == 0
        invariant forall i :: 0 <= i < NO_REGS ==> reg[i] == 0
      {
        iMem[loc] := NOTHING;
      }
      assert iMem[..] == Loaded([]);
      assert reg[..] == Reset([], input).reg && dMem[..] == Reset([], input).dMem;
      for n := 0 to |code|
        invariant forall k :: 0 <= k < n ==> 0 <= code[k].loc < IADDR_SIZE
        invariant iMem[..] == Loaded(code[..n])
        invariant reg[..] == Reset([], input).reg && dMem[..] == Reset([], input).dMem
      {
        var loc := code[n].loc;
        if loc > IADDR_SIZE {
          return TooLarge;
        }
        if loc < 0 || loc == IADDR_SIZE {
          return OutsideMemory;
        }
        iMem[loc] := code[n].instr;
        assert code[..n + 1][..n] == code[..n];
        assert iMem[..] == Loaded(code[..n + 1]);
      }
      assert code[..|code|] == code;
      LoadedLast(code);
      res := LoadOk;
    }

    /** One instruction, executed in place. */
    method StepTM() returns (res: StepResult)
      requires Valid()
      modifies this, reg, dMem
      ensures Valid()
      ensures (res, State()) == Step(old(State()))
    {
      var pc := reg[PC_REG];
      if pc < 0 || pc > IADDR_SIZE {
        return srIMEM_ERR;
      }
      if pc == IADDR_SIZE {
        return srFAULT;
      }
      reg[PC_REG] := pc + 1;
      var i := iMem[pc];
      ghost var m := State();
      assert m == SetReg(old(State()), PC_REG, pc + 1);
      res := Perform(i);
    }

    method Perform(i: Instr) returns (res: StepResult)
      requires Valid()
      modifies this, reg, dMem
      ensures Valid()
      ensures (res, State()) == Execute(old(State()), i)
    {
      var r := i.iarg1;
      var s := if RegisterOnly(i.iop) then i.iarg2 else i.iarg3;
      var t := i.iarg3;
      var a := i.iarg2 + reg[i.iarg3];
      if i.iop == LD || i.iop == ST {
        if a < 0 || a > DADDR_SIZE {
          return srDMEM_ERR;
        }
        if a == DADDR_SIZE {
          return srFAULT;
        }
      }
      res := srOKAY;
      match i.iop {
        case HALT => res := srHALT;
        case IN =>
          if input == [] {
            return srWAIT;
          }
          reg[r], input := input[0], input[1..];
        case OUT => output := output + [reg[r]];
        case ADD => reg[r] := reg[s] + reg[t];
        case SUB => reg[r] := reg[s] - reg[t];
        case MUL => reg[r] := reg[s] * reg[t];
        case DIV =>
          if reg[t] == 0 {
            return srZERODIVIDE;
          }
          reg[r] := CDiv(reg[s], reg[t]);
        case LD => reg[r] := dMem[a];
        case ST => dMem[a] := reg[r];
        case LDA => reg[r] := a;
        case LDC => reg[r] := i.iarg2;
        case JLT => if reg[r] < 0 { reg[PC_REG] := a; }
        case JLE => if reg[r] <= 0 { reg[PC_REG] := a; }
        case JGT => if reg[r] > 0 { reg[PC_REG] := a; }
        case JGE => if reg[r] >= 0 { reg[PC_REG] := a; }
        case JEQ => if reg[r] == 0 { reg[PC_REG] := a; }
        case JNE => if reg[r] != 0 { reg[PC_REG] := a; }
      }
    }
  }
}
