/** The code generator: what it emits, as a function of the tree, and the generator itself, which writes a code file
    line by line and goes back to fill in jumps. */
module TinyCodeGen {
  import opened TinyTree
  import opened TinyMachine

  const PC := 7  // program counter
  const MP := 6  // top of memory, where the temporaries start
  const GP := 5  // bottom of memory, where the variables are
  const AC := 0
  const AC1 := 1

  function RO(op: Opcode, r: int, s: int, t: int): Instr
    requires IsReg(r) && IsReg(s) && IsReg(t)
  {
    Instruction(op, r, s, t)
  }

  function RM(op: Opcode, r: int, d: int, s: int): Instr
    requires IsReg(r) && IsReg(s) && !RegisterOnly(op)
  {
    Instruction(op, r, d, s)
  }

  // ----- the code of a tree -----

  /** The code that combines AC1 (left) and AC (right). Comparisons leave 1 or 0. */
  function OpCode(op: Op): seq<Instr> {
    match op
    case PLUS => [RO(ADD, AC, AC1, AC)]
    case MINUS => [RO(SUB, AC, AC1, AC)]
    case TIMES => [RO(MUL, AC, AC1, AC)]
    case OVER => [RO(DIV, AC, AC1, AC)]
    case LT => Comparison(JLT)
    case EQ => Comparison(JEQ)
  }

  function Comparison(jump: Opcode): seq<Instr>
    requires !RegisterOnly(jump)
  {
    [RO(SUB, AC, AC1, AC), RM(jump, AC, 2, PC), RM(LDC, AC, 0, AC), RM(LDA, PC, 1, PC), RM(LDC, AC, 1, AC)]
  }

  /** `tmp` is the offset from the top of memory at which the next pending operand is kept. The code is the same wherever
      it is placed: all its jumps are relative. */
  function ExpCode(e: Exp, tmp: int, loc: string -> int): seq<Instr> {
    match e
    case ConstK(n) => [RM(LDC, AC, n, 0)]
    case IdK(x) => [RM(LD, AC, loc(x), GP)]
    case OpK(op, l, r) =>
      ExpCode(l, tmp, loc) + [RM(ST, AC, tmp, MP)] + ExpCode(r, tmp - 1, loc) + [RM(LD, AC1, tmp, MP)] + OpCode(op)
  }

  function StmtCode(s: Stmt, tmp: int, loc: string -> int): seq<Instr> {
    match s
    case IfK(e, p, q) =>
      var thenCode, elseCode := StmtsCode(p, tmp, loc), StmtsCode(q, tmp, loc);
      ExpCode(e, tmp, loc) + [RM(JEQ, AC, |thenCode| + 1, PC)] + thenCode + [RM(LDA, PC, |elseCode|, PC)] + elseCode
    case RepeatK(p, e) =>
      var body := StmtsCode(p, tmp, loc) + ExpCode(e, tmp, loc);
      body + [RM(JEQ, AC, -(|body| + 1), PC)]
    case AssignK(x, e) => ExpCode(e, tmp, loc) + [RM(ST, AC, loc(x), GP)]
    case ReadK(x) => [RO(IN, AC, 0, 0), RM(ST, AC, loc(x), GP)]
    case WriteK(e) => ExpCode(e, tmp, loc) + [RO(OUT, AC, 0, 0)]
  }

  function StmtsCode(t: Stmts, tmp: int, loc: string -> int): seq<Instr> {
    match t
    case End => []
    case Then(s, rest) => StmtCode(s, tmp, loc) + StmtsCode(rest, tmp, loc)
  }

  function Prelude(): seq<Instr> {
    [RM(LD, MP, 0, AC), RM(ST, AC, 0, AC)]
  }

  function ProgramCode(t: Stmts, loc: string -> int): seq<Instr> {
    Prelude() + StmtsCode(t, 0, loc) + [RO(HALT, 0, 0, 0)]
  }

  // ----- the code file of a tree: the same instructions as lines, in the order they are written -----

  /** Lines for consecutive locations. */
  function Place(at: int, code: seq<Instr>): (lines: seq<Line>)
    ensures |lines| == |code|
  {
    seq(|code|, i requires 0 <= i < |code| => Line(at + i, code[i]))
  }

  function ExpLines(e: Exp, at: int, tmp: int, loc: string -> int): seq<Line> {
    match e
    case ConstK(n) => Place(at, ExpCode(e, tmp, loc))
    case IdK(x) => Place(at, ExpCode(e, tmp, loc))
    case OpK(op, l, r) =>
      var left := ExpLines(l, at, tmp, loc);
      var push := at + |left|;
      var right := ExpLines(r, push + 1, tmp - 1, loc);
      left + [Line(push, RM(ST, AC, tmp, MP))] + right + Place(push + 1 + |right|, [RM(LD, AC1, tmp, MP)] + OpCode(op))
  }

  /** The jump around the then part is written after the then part, and the jump around the else part last. */
  function IfLines(test: seq<Line>, thenLines: seq<Line>, elseLines: seq<Line>, at: int): seq<Line> {
    var hole1 := at + |test|;
    var hole2 := hole1 + 1 + |thenLines|;
    test + thenLines + [Line(hole1, RM(JEQ, AC, |thenLines| + 1, PC))]
    + elseLines + [Line(hole2, RM(LDA, PC, |elseLines|, PC))]
  }

  function StmtLines(s: Stmt, at: int, tmp: int, loc: string -> int): seq<Line> {
    match s
    case IfK(e, p, q) =>
      var test := ExpLines(e, at, tmp, loc);
      var thenLines := StmtsLines(p, at + |test| + 1, tmp, loc);
      var elseLines := StmtsLines(q, at + |test| + |thenLines| + 2, tmp, loc);
      IfLines(test, thenLines, elseLines, at)
    case RepeatK(p, e) =>
      var body := StmtsLines(p, at, tmp, loc);
      var test := ExpLines(e, at + |body|, tmp, loc);
      body + test + [Line(at + |body| + |test|, RM(JEQ, AC, -(|body| + |test| + 1), PC))]
    case AssignK(x, e) =>
      var value := ExpLines(e, at, tmp, loc);
      value + [Line(at + |value|, RM(ST, AC, loc(x), GP))]
    case ReadK(x) => Place(at, [RO(IN, AC, 0, 0), RM(ST, AC, loc(x), GP)])
    case WriteK(e) =>
      var value := ExpLines(e, at, tmp, loc);
      value + [Line(at + |value|, RO(OUT, AC, 0, 0))]
  }

  function StmtsLines(t: Stmts, at: int, tmp: int, loc: string -> int): seq<Line> {
    match t
    case End => []
    case Then(s, rest) =>
      var lines := StmtLines(s, at, tmp, loc);
      lines + StmtsLines(rest, at + |lines|, tmp, loc)
  }

  function ProgramLines(t: Stmts, loc: string -> int): seq<Line> {
    var body := StmtsLines(t, 2, 0, loc);
    Place(0, Prelude()) + body + [Line(2 + |body|, RO(HALT, 0, 0, 0))]
  }

  // ----- the code file puts the code in place -----

  /** The image of a block of code placed at location `at`. */
  function Block(at: int, code: seq<Instr>): map<int, Instr> {
    map i {:trigger code[i - at]} | at <= i < at + |code| :: code[i - at]
  }

  lemma {:induction false} ImageConcat(a: seq<Line>, b: seq<Line>)
    ensures Image(a + b) == Image(a) + Image(b)
  {
    if b == [] {
      assert a + b == a;
    } else {
      var front := b[..|b| - 1];
      assert (a + b)[..|a + b| - 1] == a + front;
      ImageConcat(a, front);
    }
  }

  lemma BlockConcat(at: int, a: seq<Instr>, b: seq<Instr>)
    ensures Block(at, a + b) == Block(at, a) + Block(at + |a|, b)
  {
    var whole, parts := Block(at, a + b), Block(at, a) + Block(at + |a|, b);
    assert whole.Keys == parts.Keys;
    forall i | i in whole
      ensures whole[i] == parts[i]
    {
      assert whole[i] == (a + b)[i - at];
    }
  }

  lemma ImageLine(l: Line)
    ensures Image([l]) == Block(l.loc, [l.instr])
  {
    assert Image([l]) == Image([])[l.loc := l.instr];
  }

  lemma {:induction false} ImagePlace(at: int, code: seq<Instr>)
    ensures Image(Place(at, code)) == Block(at, code)
  {
    if code != [] {
      var front, last := code[..|code| - 1], code[|code| - 1];
      assert Place(at, code) == Place(at, front) + [Line(at + |front|, last)];
      ImagePlace(at, front);
      ImageConcat(Place(at, front), [Line(at + |front|, last)]);
      ImageLine(Line(at + |front|, last));
      BlockConcat(at, front, [last]);
      assert code == front + [last];
    }
  }

  lemma BlocksCommute<K, V>(a: map<K, V>, b: map<K, V>, c: map<K, V>)
    requires b.Keys !! c.Keys
    ensures a + b + c == a + c + b
  {
  }

  /** Filling in one location that the two blocks around it leave free. */
  lemma ImageBackpatch(at: int, a: seq<Line>, b: seq<Line>, l: Line, ca: seq<Instr>, cb: seq<Instr>)
    requires Image(a) == Block(at, ca) && Image(b) == Block(at + |ca| + 1, cb) && l.loc == at + |ca|
    ensures Image(a + b + [l]) == Block(at, ca + [l.instr] + cb)
  {
    ImageConcat(a + b, [l]);
    ImageConcat(a, b);
    ImageLine(l);
    BlockConcat(at, ca + [l.instr], cb);
    BlockConcat(at, ca, [l.instr]);
    BlocksCommute(Block(at, ca), Block(at + |ca| + 1, cb), Block(l.loc, [l.instr]));
  }

  lemma ImageThen(at: int, a: seq<Line>, b: seq<Line>, ca: seq<Instr>, cb: seq<Instr>)
    requires Image(a) == Block(at, ca) && Image(b) == Block(at + |ca|, cb)
    ensures Image(a + b) == Block(at, ca + cb)
  {
    ImageConcat(a, b);
    BlockConcat(at, ca, cb);
  }

  lemma ImageThenLine(at: int, a: seq<Line>, l: Line, ca: seq<Instr>)
    requires Image(a) == Block(at, ca) && l.loc == at + |ca|
    ensures Image(a + [l]) == Block(at, ca + [l.instr])
  {
    ImageLine(l);
    ImageThen(at, a, [l], ca, [l.instr]);
  }

  lemma OpKImage(at: int, left: seq<Line>, push: Line, right: seq<Line>, cl: seq<Instr>, cr: seq<Instr>, ct: seq<Instr>)
    requires |left| == |cl| && |right| == |cr| && push.loc == at + |left|
    requires Image(left) == Block(at, cl) && Image(right) == Block(push.loc + 1, cr)
    ensures Image(left + [push] + right + Place(push.loc + 1 + |right|, ct)) == Block(at, cl + [push.instr] + cr + ct)
  {
    hide Image, Block;
    ImageThenLine(at, left, push, cl);
    ImageThen(at, left + [push], right, cl + [push.instr], cr);
    ImagePlace(push.loc + 1 + |right|, ct);
    ImageThen(at, left + [push] + right, Place(push.loc + 1 + |right|, ct), cl + [push.instr] + cr, ct);
  }

  lemma {:induction false} ExpImage(e: Exp, at: int, tmp: int, loc: string -> int)
    ensures |ExpLines(e, at, tmp, loc)| == |ExpCode(e, tmp, loc)|
    ensures Image(ExpLines(e, at, tmp, loc)) == Block(at, ExpCode(e, tmp, loc))
    decreases e, 1
  {
    hide Image, Block, OpCode;
    match e
    case ConstK(_) => ImagePlace(at, ExpCode(e, tmp, loc));
    case IdK(_) => ImagePlace(at, ExpCode(e, tmp, loc));
    case OpK(op, l, r) => ExpImageOp(e, op, l, r, at, tmp, loc);
  }

  lemma OpLinesAre(e: Exp, op: Op, l: Exp, r: Exp, at: int, tmp: int, loc: string -> int)
    requires e == OpK(op, l, r)
    ensures var left, push := ExpLines(l, at, tmp, loc), at + |ExpLines(l, at, tmp, loc)|;
            var right := ExpLines(r, push + 1, tmp - 1, loc);
            ExpLines(e, at, tmp, loc)
              == left + [Line(push, RM(ST, AC, tmp, MP))] + right + Place(push + 1 + |right|, [RM(LD, AC1, tmp, MP)] + OpCode(op))
    ensures ExpCode(e, tmp, loc)
              == ExpCode(l, tmp, loc) + [RM(ST, AC, tmp, MP)] + ExpCode(r, tmp - 1, loc) + ([RM(LD, AC1, tmp, MP)] + OpCode(op))
  {
    hide OpCode, Place;
    AppendTwo(ExpCode(l, tmp, loc) + [RM(ST, AC, tmp, MP)] + ExpCode(r, tmp - 1, loc), RM(LD, AC1, tmp, MP), OpCode(op));
  }

  lemma {:induction false} ExpImageOp(e: Exp, op: Op, l: Exp, r: Exp, at: int, tmp: int, loc: string -> int)
    requires e == OpK(op, l, r)
    ensures |ExpLines(e, at, tmp, loc)| == |ExpCode(e, tmp, loc)|
    ensures Image(ExpLines(e, at, tmp, loc)) == Block(at, ExpCode(e, tmp, loc))
    decreases e, 0
  {
    hide Image, Block, OpCode, ExpLines, ExpCode, Place;
    OpLinesAre(e, op, l, r, at, tmp, loc);
    ExpImage(l, at, tmp, loc);
    var left, cl := ExpLines(l, at, tmp, loc), ExpCode(l, tmp, loc);
    var push := Line(at + |left|, RM(ST, AC, tmp, MP));
    ExpImage(r, push.loc + 1, tmp - 1, loc);
    var right, cr := ExpLines(r, push.loc + 1, tmp - 1, loc), ExpCode(r, tmp - 1, loc);
    var ct := [RM(LD, AC1, tmp, MP)] + OpCode(op);
    OpKImage(at, left, push, right, cl, cr, ct);
  }

  lemma AppendTwo<T>(a: seq<T>, x: T, b: seq<T>)
    ensures a + ([x] + b) == a + [x] + b
  {
  }

  lemma IfImage(test: seq<Line>, thenLines: seq<Line>, elseLines: seq<Line>, at: int,
                ct: seq<Instr>, cp: seq<Instr>, cq: seq<Instr>)
    requires |test| == |ct| && |thenLines| == |cp| && |elseLines| == |cq|
    requires Image(test) == Block(at, ct) && Image(thenLines) == Block(at + |ct| + 1, cp)
    requires Image(elseLines) == Block(at + |ct| + |cp| + 2, cq)
    ensures Image(IfLines(test, thenLines, elseLines, at))
         == Block(at, ct + [RM(JEQ, AC, |cp| + 1, PC)] + cp + [RM(LDA, PC, |cq|, PC)] + cq)
  {
    hide Image, Block;
    BackpatchTwice(at, test, thenLines, elseLines, ct, cp, cq, Line(at + |ct|, RM(JEQ, AC, |cp| + 1, PC)),
                   Line(at + |ct| + 1 + |cp|, RM(LDA, PC, |cq|, PC)));
  }

  lemma BackpatchTwice(at: int, a: seq<Line>, b: seq<Line>, c: seq<Line>, ca: seq<Instr>, cb: seq<Instr>, cc: seq<Instr>,
                       l: Line, m: Line)
    requires Image(a) == Block(at, ca) && Image(b) == Block(l.loc + 1, cb) && Image(c) == Block(m.loc + 1, cc)
    requires l.loc == at + |ca| && m.loc == l.loc + 1 + |cb|
    ensures Image(a + b + [l] + c + [m]) == Block(at, ca + [l.instr] + cb + [m.instr] + cc)
  {
    hide Image, Block;
    ImageBackpatch(at, a, b, l, ca, cb);
    ImageBackpatch(at, a + b + [l], c, m, ca + [l.instr] + cb, cc);
  }

  lemma {:induction false} StmtImage(s: Stmt, at: int, tmp: int, loc: string -> int)
    ensures |StmtLines(s, at, tmp, loc)| == |StmtCode(s, tmp, loc)|
    ensures Image(StmtLines(s, at, tmp, loc)) == Block(at, StmtCode(s, tmp, loc))
    decreases s
  {
    hide Image, Block, ExpLines, ExpCode;
    match s
    case IfK(e, p, q) =>
      ExpImage(e, at, tmp, loc);
      var test, ct := ExpLines(e, at, tmp, loc), ExpCode(e, tmp, loc);
      StmtsImage(p, at + |test| + 1, tmp, loc);
      var thenLines, cp := StmtsLines(p, at + |test| + 1, tmp, loc), StmtsCode(p, tmp, loc);
      StmtsImage(q, at + |test| + |thenLines| + 2, tmp, loc);
      var elseLines, cq := StmtsLines(q, at + |test| + |thenLines| + 2, tmp, loc), StmtsCode(q, tmp, loc);
      IfImage(test, thenLines, elseLines, at, ct, cp, cq);
    case RepeatK(p, e) =>
      StmtsImage(p, at, tmp, loc);
      var body := StmtsLines(p, at, tmp, loc);
      ExpImage(e, at + |body|, tmp, loc);
      var test := ExpLines(e, at + |body|, tmp, loc);
      ImageThen(at, body, test, StmtsCode(p, tmp, loc), ExpCode(e, tmp, loc));
      var jump := Line(at + |body| + |test|, RM(JEQ, AC, -(|body| + |test| + 1), PC));
      ImageThenLine(at, body + test, jump, StmtsCode(p, tmp, loc) + ExpCode(e, tmp, loc));
    case AssignK(x, e) =>
      ExpImage(e, at, tmp, loc);
      var value := ExpLines(e, at, tmp, loc);
      ImageThenLine(at, value, Line(at + |value|, RM(ST, AC, loc(x), GP)), ExpCode(e, tmp, loc));
    case ReadK(x) =>
      ImagePlace(at, StmtCode(s, tmp, loc));
    case WriteK(e) =>
      ExpImage(e, at, tmp, loc);
      var value := ExpLines(e, at, tmp, loc);
      ImageThenLine(at, value, Line(at + |value|, RO(OUT, AC, 0, 0)), ExpCode(e, tmp, loc));
  }

  lemma {:induction false} StmtsImage(t: Stmts, at: int, tmp: int, loc: string -> int)
    ensures |StmtsLines(t, at, tmp, loc)| == |StmtsCode(t, tmp, loc)|
    ensures Image(StmtsLines(t, at, tmp, loc)) == Block(at, StmtsCode(t, tmp, loc))
    decreases t
  {
    hide Image, Block, StmtCode, StmtLines;
    match t
    case End =>
      ImagePlace(at, []);
      assert Place(at, []) == [];
    case Then(s, rest) =>
      StmtImage(s, at, tmp, loc);
      var lines := StmtLines(s, at, tmp, loc);
      StmtsImage(rest, at + |lines|, tmp, loc);
      ImageThen(at, lines, StmtsLines(rest, at + |lines|, tmp, loc), StmtCode(s, tmp, loc), StmtsCode(rest, tmp, loc));
  }

  /** A code file with as many lines as locations writes no location twice. */
  lemma {:induction false} NoLocationTwice(code: seq<Line>)
    ensures |Image(code)| <= |code|
    ensures |Image(code)| == |code| ==> forall i, j :: 0 <= i < j < |code| ==> code[i].loc != code[j].loc
    ensures forall i :: 0 <= i < |code| ==> code[i].loc in Image(code)
  {
    if code != [] {
      var front, last := code[..|code| - 1], code[|code| - 1];
      NoLocationTwice(front);
      assert Image(code).Keys == Image(front).Keys + {last.loc};
      assert |Image(code)| == |Image(code).Keys| && |Image(front)| == |Image(front).Keys|;
      assert code == front + [last];
    }
  }

  lemma {:induction false} BlockSize(at: int, code: seq<Instr>)
    ensures |Block(at, code)| == |code|
  {
    if code != [] {
      var front, last := code[..|code| - 1], code[|code| - 1];
      BlockSize(at, front);
      assert code == front + [last];
      BlockGrown(at, front, last);
    }
  }

  lemma BlockGrown(at: int, front: seq<Instr>, last: Instr)
    ensures |Block(at, front + [last])| == |Block(at, front)| + 1
  {
    var m, m' := Block(at, front), Block(at, front + [last]);
    BlockConcat(at, front, [last]);
    hide Block;
    assert m.Keys !! {at + |front|} && m'.Keys == m.Keys + {at + |front|} by { BlockKeys(at, front, last); }
    assert |m| == |m.Keys| && |m'| == |m'.Keys|;
  }

  lemma BlockKeys(at: int, front: seq<Instr>, last: Instr)
    ensures Block(at, front).Keys !! {at + |front|}
    ensures Block(at, front + [last]).Keys == Block(at, front).Keys + {at + |front|}
  {
  }

  /** The code file of a program describes exactly the program's code from location 0 on, and each of its locations,
      the ones left open for a jump included, is written exactly once. */
  lemma ProgramImage(t: Stmts, loc: string -> int)
    ensures Image(ProgramLines(t, loc)) == Block(0, ProgramCode(t, loc))
    ensures |ProgramLines(t, loc)| == |ProgramCode(t, loc)|
    ensures forall i, j :: 0 <= i < j < |ProgramLines(t, loc)| ==> ProgramLines(t, loc)[i].loc != ProgramLines(t, loc)[j].loc
    ensures forall i :: 0 <= i < |ProgramLines(t, loc)| ==> 0 <= ProgramLines(t, loc)[i].loc < |ProgramCode(t, loc)|
  {
    StmtsImage(t, 2, 0, loc);
    ImagePlace(0, Prelude());
    var body := StmtsLines(t, 2, 0, loc);
    ImageThen(0, Place(0, Prelude()), body, Prelude(), StmtsCode(t, 0, loc));
    ImageThenLine(0, Place(0, Prelude()) + body, Line(2 + |body|, RO(HALT, 0, 0, 0)), Prelude() + StmtsCode(t, 0, loc));
    NoLocationTwice(ProgramLines(t, loc));
    BlockSize(0, ProgramCode(t, loc));
  }

  // ----- the generator -----

  lemma Assoc<T>(a: seq<T>, b: seq<T>, c: seq<T>)
    ensures a + (b + c) == a + b + c
  {
  }

  class Generator {
    const stLookup: string -> int  // the memory location of each variable
    var tmpOffset: int
    var emitLoc: int
    var highEmitLoc: int
    var code: seq<Line>

    constructor (stLookup: string -> int)
      ensures this.stLookup == stLookup
      ensures tmpOffset == emitLoc == highEmitLoc == 0 && code == []
    {
      this.stLookup := stLookup;
      tmpOffset, emitLoc, highEmitLoc, code := 0, 0, 0, [];
    }

    /** `lines` have been written, the generator stands at the end of everything emitted, and the temporaries are as
        they were. */
    twostate predicate Wrote(lines: seq<Line>)
      reads this
    {
      && code == old(code) + lines
      && emitLoc == highEmitLoc == old(emitLoc) + |lines|
      && tmpOffset == old(tmpOffset)
    }

    /** Writes one line, wherever the generator stands. */
    method Emit(i: Instr)
      modifies this`emitLoc, this`highEmitLoc, this`code
      ensures code == old(code) + [Line(old(emitLoc), i)]
      ensures emitLoc == old(emitLoc) + 1
      ensures highEmitLoc == Max(old(highEmitLoc), emitLoc)
    {
      code := code + [Line(emitLoc, i)];
      emitLoc := emitLoc + 1;
      if highEmitLoc < emitLoc {
        highEmitLoc := emitLoc;
      }
    }

    method EmitRO(op: Opcode, r: int, s: int, t: int)
      requires IsReg(r) && IsReg(s) && IsReg(t)
      modifies this`emitLoc, this`highEmitLoc, this`code
      ensures code == old(code) + [Line(old(emitLoc), RO(op, r, s, t))]
      ensures emitLoc == old(emitLoc) + 1
      ensures highEmitLoc == Max(old(highEmitLoc), emitLoc)
    {
      Emit(RO(op, r, s, t));
    }

    method EmitRM(op: Opcode, r: int, d: int, s: int)
      requires IsReg(r) && IsReg(s) && !RegisterOnly(op)
      modifies this`emitLoc, this`highEmitLoc, this`code
      ensures code == old(code) + [Line(old(emitLoc), RM(op, r, d, s))]
      ensures emitLoc == old(emitLoc) + 1
      ensures highEmitLoc == Max(old(highEmitLoc), emitLoc)
    {
      Emit(RM(op, r, d, s));
    }

    /** Turns an absolute target into a displacement from the next instruction. */
    method EmitRMAbs(op: Opcode, r: int, a: int)
      requires IsReg(r) && !RegisterOnly(op)
      modifies this`emitLoc, this`highEmitLoc, this`code
      ensures code == old(code) + [Line(old(emitLoc), RM(op, r, a - (old(emitLoc) + 1), PC))]
      ensures emitLoc == old(emitLoc) + 1
      ensures highEmitLoc == Max(old(highEmitLoc), emitLoc)
    {
      Emit(RM(op, r, a - (emitLoc + 1), PC));
    }

    method EmitSkip(howMany: nat) returns (i: int)
      modifies this`emitLoc, this`highEmitLoc
      ensures i == old(emitLoc) && emitLoc == i + howMany
      ensures highEmitLoc == Max(old(highEmitLoc), emitLoc)
    {
      i := emitLoc;
      emitLoc := emitLoc + howMany;
      if highEmitLoc < emitLoc {
        highEmitLoc := emitLoc;
      }
    }

    method EmitBackup(loc: int)
      modifies this`emitLoc
      ensures emitLoc == loc
    {
      emitLoc := loc;
    }

    method EmitRestore()
      modifies this`emitLoc
      ensures emitLoc == highEmitLoc
    {
      emitLoc := highEmitLoc;
    }

    /** Goes back to a skipped location, puts a jump to the current end there, and returns to the end. */
    method FillIn(op: Opcode, r: int, hole: int)
      requires IsReg(r) && !RegisterOnly(op) && hole < emitLoc == highEmitLoc
      modifies this`emitLoc, this`highEmitLoc, this`code
      ensures code == old(code) + [Line(hole, RM(op, r, emitLoc - (hole + 1), PC))]
      ensures emitLoc == highEmitLoc == old(emitLoc)
    {
      var currentLoc := EmitSkip(0);
      EmitBackup(hole);
      EmitRMAbs(op, r, currentLoc);
      EmitRestore();
    }

    method GenExp(e: Exp)
      requires emitLoc == highEmitLoc
      modifies this
      ensures Wrote(ExpLines(e, old(emitLoc), old(tmpOffset), stLookup))
      decreases e, 1
    {
      match e {
        case ConstK(n) => EmitRM(LDC, AC, n, 0);
        case IdK(x) => EmitRM(LD, AC, stLookup(x), GP);
        case OpK(op, l, r) => GenOpK(e, op, l, r);
      }
    }

    method GenOpK(e: Exp, op: Op, l: Exp, r: Exp)
      requires e == OpK(op, l, r) && emitLoc == highEmitLoc
      modifies this
      ensures Wrote(ExpLines(e, old(emitLoc), old(tmpOffset), stLookup))
      decreases e, 0
    {
      hide ExpLines, Place, OpCode;
      OpLinesAre(e, op, l, r, emitLoc, tmpOffset, stLookup);
      ghost var left := ExpLines(l, emitLoc, tmpOffset, stLookup);
      GenExp(l);
      ghost var push := Line(emitLoc, RM(ST, AC, tmpOffset, MP));
      EmitRM(ST, AC, tmpOffset, MP);
      tmpOffset := tmpOffset - 1;
      Assoc(old(code), left, [push]);
      ghost var right := ExpLines(r, emitLoc, tmpOffset, stLookup);
      GenExp(r);
      tmpOffset := tmpOffset + 1;
      Assoc(old(code), left + [push], right);
      ghost var last := Place(emitLoc, [RM(LD, AC1, tmpOffset, MP)] + OpCode(op));
      Combine(op);
      Assoc(old(code), left + [push] + right, last);
    }

    /** Loads the pending left operand and combines it with the right one. */
    method Combine(op: Op)
      requires emitLoc == highEmitLoc
      modifies this`emitLoc, this`highEmitLoc, this`code
      ensures Wrote(Place(old(emitLoc), [RM(LD, AC1, tmpOffset, MP)] + OpCode(op)))
    {
      EmitRM(LD, AC1, tmpOffset, MP);
      GenOp(op);
    }

    method GenOp(op: Op)
      requires emitLoc == highEmitLoc
      modifies this`emitLoc, this`highEmitLoc, this`code
      ensures Wrote(Place(old(emitLoc), OpCode(op)))
    {
      match op {
        case PLUS => EmitRO(ADD, AC, AC1, AC);
        case MINUS => EmitRO(SUB, AC, AC1, AC);
        case TIMES => EmitRO(MUL, AC, AC1, AC);
        case OVER => EmitRO(DIV, AC, AC1, AC);
        case LT => GenComparison(JLT);
        case EQ => GenComparison(JEQ);
      }
    }

    method GenComparison(jump: Opcode)
      requires emitLoc == highEmitLoc && !RegisterOnly(jump)
      modifies this`emitLoc, this`highEmitLoc, this`code
      ensures Wrote(Place(old(emitLoc), Comparison(jump)))
    {
      EmitRO(SUB, AC, AC1, AC);
      EmitRM(jump, AC, 2, PC);
      EmitRM(LDC, AC, 0, AC);
      EmitRM(LDA, PC, 1, PC);
      EmitRM(LDC, AC, 1, AC);
    }

    method GenStmt(s: Stmt)
      requires emitLoc == highEmitLoc
      modifies this
      ensures Wrote(StmtLines(s, old(emitLoc), old(tmpOffset), stLookup))
      decreases s, 1
    {
      match s {
        case IfK(e, p, q) => GenIf(s, e, p, q);
        case RepeatK(p, e) => GenRepeat(s, p, e);
        case AssignK(x, e) =>
          GenExp(e);
          EmitRM(ST, AC, stLookup(x), GP);
        case ReadK(x) =>
          EmitRO(IN, AC, 0, 0);
          EmitRM(ST, AC, stLookup(x), GP);
        case WriteK(e) =>
          GenExp(e);
          EmitRO(OUT, AC, 0, 0);
      }
    }

    method GenIf(s: Stmt, e: Exp, p: Stmts, q: Stmts)
      requires s == IfK(e, p, q) && emitLoc == highEmitLoc
      modifies this
      ensures Wrote(StmtLines(s, old(emitLoc), old(tmpOffset), stLookup))
      decreases s, 0
    {
      hide ExpLines, StmtsLines;
      ghost var test := ExpLines(e, emitLoc, tmpOffset, stLookup);
      GenExp(e);
      var savedLoc1 := EmitSkip(1);
      ghost var thenLines := StmtsLines(p, emitLoc, tmpOffset, stLookup);
      CGen(p);
      Assoc(old(code), test, thenLines);
      var savedLoc2 := EmitSkip(1);
      ghost var jump1 := Line(savedLoc1, RM(JEQ, AC, |thenLines| + 1, PC));
      FillIn(JEQ, AC, savedLoc1);
      Assoc(old(code), test + thenLines, [jump1]);
      ghost var elseLines := StmtsLines(q, emitLoc, tmpOffset, stLookup);
      CGen(q);
      Assoc(old(code), test + thenLines + [jump1], elseLines);
      FillIn(LDA, PC, savedLoc2);
      Assoc(old(code), test + thenLines + [jump1] + elseLines, [Line(savedLoc2, RM(LDA, PC, |elseLines|, PC))]);
    }

    method GenRepeat(s: Stmt, p: Stmts, e: Exp)
      requires s == RepeatK(p, e) && emitLoc == highEmitLoc
      modifies this
      ensures Wrote(StmtLines(s, old(emitLoc), old(tmpOffset), stLookup))
      decreases s, 0
    {
      hide StmtsLines, ExpLines;
      ghost var body := StmtsLines(p, emitLoc, tmpOffset, stLookup);
      var savedLoc1 := EmitSkip(0);
      CGen(p);
      ghost var test := ExpLines(e, emitLoc, tmpOffset, stLookup);
      GenExp(e);
      Assoc(old(code), body, test);
      ghost var jump := Line(emitLoc, RM(JEQ, AC, -(|body| + |test| + 1), PC));
      EmitRMAbs(JEQ, AC, savedLoc1);
      Assoc(old(code), body + test, [jump]);
    }

    method CGen(t: Stmts)
      requires emitLoc == highEmitLoc
      modifies this
      ensures Wrote(StmtsLines(t, old(emitLoc), old(tmpOffset), stLookup))
      decreases t
    {
      if t.Then? {
        GenStmt(t.first);
        CGen(t.sibling);
      }
    }

    /** Writes the whole code file. */
    method CodeGen(t: Stmts)
      requires tmpOffset == emitLoc == highEmitLoc == 0 && code == []
      modifies this
      ensures code == ProgramLines(t, stLookup)
      ensures Image(code) == Block(0, ProgramCode(t, stLookup))
    {
      EmitRM(LD, MP, 0, AC);
      EmitRM(ST, AC, 0, AC);
      assert code == Place(0, Prelude());
      CGen(t);
      EmitRO(HALT, 0, 0, 0);
      ProgramImage(t, stLookup);
    }
  }
}
