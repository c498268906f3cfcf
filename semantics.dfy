/** What each instruction's `run_by` does to the machine, on the machine's
    contents as values: the 32 register cells, the memory cells and the
    program counter.

    `Run` is one instruction executed as the RV64I semantics of sections
    2.4-2.6 and chapter 5 of the RISC-V Unprivileged ISA Specification
    (20191213) describe it, with this simulator's own choices: operands are
    read at 8 bytes, results are stored through `Register.set` (which
    raises instead of truncating), shift counts are not masked and the
    branch and jump immediates are already halved. Every `run_by` but the
    stores' does exactly this. `Exec` is `run_by` as written: a store
    writes its bytes and then raises. */
module Semantics {
  import opened Wrappers
  import opened Bits
  import opened Config
  import opened Encoding
  import opened Simulation
  import Utils

  /** The simulator's contents: `registers`, `memory` and `pc`. */
  datatype State = State(regs: seq<nat>, mem: map<int, nat>, pc: int)

  /** The invariant every state the simulator reaches keeps: 32 cells of
      SIZE bytes and byte-sized memory cells. */
  ghost predicate Good(s: State) {
    WellFormed(s.regs) && ByteCells(s.mem)
  }

  /** What one `run_by` leaves behind: the state, and the exception it
      raised, if any. A raise can follow a partial update. */
  datatype Outcome = Outcome(state: State, raised: Option<Error>)

  // ---------------------------------------------------------------------
  // The per-class constants of the run_by bodies

  /** The bytes each load reads. */
  function LoadWidth(op: LoadOp): (n: nat)
    ensures n == 1 || n == 2 || n == 4 || n == 8
  {
    match op
    case Lb => 1 case Lbu => 1
    case Lh => 2 case Lhu => 2
    case Lw => 4 case Lwu => 4
    case Ld => 8
  }

  /** lb, lh, lw and ld sign-extend; lbu, lhu and lwu do not. */
  predicate LoadSigned(op: LoadOp) {
    op == Lb || op == Lh || op == Lw || op == Ld
  }

  /** The bytes each store writes. */
  function StoreWidth(op: StoreOp): (n: nat)
    ensures n == 1 || n == 2 || n == 4 || n == 8
  {
    match op
    case Sb => 1 case Sh => 2 case Sw => 4 case Sd => 8
  }

  /** beq, bne, blt and bge read their operands signed; bltu and bgeu
      unsigned. */
  predicate BranchSigned(op: BranchOp) {
    op == Beq || op == Bne || op == Blt || op == Bge
  }

  /** The comparison each branch makes. */
  predicate Taken(op: BranchOp, a: int, b: int) {
    match op
    case Beq => a == b
    case Bne => a != b
    case Blt => a < b
    case Bge => a >= b
    case Bltu => a < b
    case Bgeu => a >= b
  }

  /** The Python operator of each R-type class on its operands. A
      negative shift count (only sra can read one) is ValueError. */
  function AluR(op: ROp, a: int, b: int): (r: Result<int>)
    ensures r.Err? <==> (op == Sll || op == Srl || op == Sra) && b < 0
  {
    match op
    case Add => Ok(a + b)
    case Sub => Ok(a - b)
    case Sll => ShiftLeft(a, b)
    case Srl => ShiftRight(a, b)
    case Sra => ShiftRight(a, b)
    case Xor => Ok(BitXor(a, b))
    case Or => Ok(BitOr(a, b))
    case And => Ok(BitAnd(a, b))
  }

  /** The Python operator of each immediate class on the register and
      the immediate. A negative shift immediate is ValueError. */
  function AluI(op: ImmOp, a: int, imm: int): (r: Result<int>)
    ensures r.Err? <==> (op == Slli || op == Srli || op == Srai) && imm < 0
  {
    match op
    case Addi => Ok(a + imm)
    case Slli => ShiftLeft(a, imm)
    case Xori => Ok(BitXor(a, imm))
    case Srli => ShiftRight(a, imm)
    case Srai => ShiftRight(a, imm)
    case Ori => Ok(BitOr(a, imm))
    case Andi => Ok(BitAnd(a, imm))
  }

  // ---------------------------------------------------------------------
  // One instruction

  /** A store's reads and its write of n bytes: the value is the low n
      bytes of rs2, the address rs1 plus the immediate; the memory
      afterwards. */
  function StoreWrite(n: nat, rs1: int, rs2: int, imm: int, s: State): (r: Result<map<int, nat>>)
    requires |s.regs| == 32
    ensures r.Ok? <==> RegisterIndex(Num(rs2)).Ok? && RegisterIndex(Num(rs1)).Ok?
  {
    var v :- ReadReg(s.regs, Num(rs2), n, false);
    var base :- ReadReg(s.regs, Num(rs1), SIZE, false);
    Ok(WriteBytes(s.mem, base + imm, n, v))
  }

  /** An R-type `run_by`: the operand reads, then the destination cell
      (Python finds `registers[rd]` before it evaluates the value it
      sets), then the operator, then the store into the cell. */
  function RunR(op: ROp, rd: int, rs1: int, rs2: int, s: State): (r: Result<State>)
    requires |s.regs| == 32
    ensures r.Ok? ==> |r.value.regs| == 32
  {
    var a :- ReadReg(s.regs, Num(rs1), SIZE, op == Sra);
    var b :- ReadReg(s.regs, Num(rs2), SIZE, op == Sra);
    var _ :- RegisterIndex(Num(rd));
    var v :- AluR(op, a, b);
    var regs :- WriteReg(s.regs, Num(rd), SIZE, v);
    Ok(State(regs, s.mem, s.pc + 4))
  }

  /** A load's `run_by`: the base register, the memory read, the store
      into rd at the load's width. */
  function RunLoad(op: LoadOp, rd: int, imm: int, rs: int, s: State): (r: Result<State>)
    requires |s.regs| == 32
    ensures r.Ok? ==> |r.value.regs| == 32
  {
    LoadAt(LoadWidth(op), LoadSigned(op), rd, imm, rs, s)
  }

  /** The load steps for a width of n bytes, sign-extending or not. */
  function LoadAt(n: int, signed: bool, rd: int, imm: int, rs: int, s: State): (r: Result<State>)
    requires |s.regs| == 32
    ensures r.Ok? ==> |r.value.regs| == 32
  {
    var base :- ReadReg(s.regs, Num(rs), SIZE, false);
    var v :- MemRead(s.mem, base + imm, n, signed);
    var regs :- WriteReg(s.regs, Num(rd), n, v);
    Ok(State(regs, s.mem, s.pc + 4))
  }

  /** An immediate ALU `run_by`: the operand, the operator, then rd. */
  function RunImm(op: ImmOp, rd: int, imm: int, rs: int, s: State): (r: Result<State>)
    requires |s.regs| == 32
    ensures r.Ok? ==> |r.value.regs| == 32
  {
    var a :- ReadReg(s.regs, Num(rs), SIZE, op == Srai);
    var v :- AluI(op, a, imm);
    var regs :- WriteReg(s.regs, Num(rd), SIZE, v);
    Ok(State(regs, s.mem, s.pc + 4))
  }

  /** jalr's `run_by`: the target is computed from rs before rd is set. */
  function RunJalr(rd: int, imm: int, rs: int, s: State): (r: Result<State>)
    requires |s.regs| == 32
    ensures r.Ok? ==> |r.value.regs| == 32
  {
    var a :- ReadReg(s.regs, Num(rs), SIZE, false);
    var regs :- WriteReg(s.regs, Num(rd), SIZE, s.pc + 4);
    Ok(State(regs, s.mem, a + imm))
  }

  /** A branch's `run_by`. */
  function RunBranch(op: BranchOp, rs1: int, rs2: int, imm: int, s: State): (r: Result<State>)
    requires |s.regs| == 32
    ensures r.Ok? ==> |r.value.regs| == 32
  {
    var a :- ReadReg(s.regs, Num(rs1), SIZE, BranchSigned(op));
    var b :- ReadReg(s.regs, Num(rs2), SIZE, BranchSigned(op));
    Ok(State(s.regs, s.mem, if Taken(op, a, b) then s.pc + imm * 2 else s.pc + 4))
  }

  /** A store's reads and write, and pc advanced by 4. */
  function RunStore(op: StoreOp, rs1: int, rs2: int, imm: int, s: State): (r: Result<State>)
    requires |s.regs| == 32
    ensures r.Ok? ==> |r.value.regs| == 32
  {
    var mem :- StoreWrite(StoreWidth(op), rs1, rs2, imm, s);
    Ok(State(s.regs, mem, s.pc + 4))
  }

  /** lui's `run_by`: rd receives the immediate shifted left by 12, set
      at 4 bytes. */
  function RunLui(rd: int, imm: int, s: State): (r: Result<State>)
    requires |s.regs| == 32
    ensures r.Ok? ==> |r.value.regs| == 32
  {
    var regs :- WriteReg(s.regs, Num(rd), 4, Shl(imm, 12));
    Ok(State(regs, s.mem, s.pc + 4))
  }

  /** jal's `run_by`: rd receives the return address, pc moves by twice
      the immediate. */
  function RunJal(rd: int, imm: int, s: State): (r: Result<State>)
    requires |s.regs| == 32
    ensures r.Ok? ==> |r.value.regs| == 32
  {
    var regs :- WriteReg(s.regs, Num(rd), SIZE, s.pc + 4);
    Ok(State(regs, s.mem, s.pc + imm * 2))
  }

  /** One instruction, run: the new state, or the exception raised, in
      which case nothing has changed. Stores write their bytes and advance
      pc by 4. */
  function Run(i: Instr, s: State): (r: Result<State>)
    requires |s.regs| == 32
    ensures r.Ok? ==> |r.value.regs| == 32
  {
    match i
    case RType(op, rd, rs1, rs2) => RunR(op, rd, rs1, rs2, s)
    case Load(op, rd, imm, rs) => RunLoad(op, rd, imm, rs, s)
    case AluImm(op, rd, imm, rs) => RunImm(op, rd, imm, rs, s)
    case Jalr(rd, imm, rs) => RunJalr(rd, imm, rs, s)
    case Store(op, rs1, rs2, imm) => RunStore(op, rs1, rs2, imm, s)
    case Branch(op, rs1, rs2, imm) => RunBranch(op, rs1, rs2, imm, s)
    case Lui(rd, imm) => RunLui(rd, imm, s)
    case Jal(rd, imm) => RunJal(rd, imm, s)
  }

  /** `instruction.run_by(simulator)` as written. A store writes its bytes
      and then reads `self.rd`, which store objects lack: AttributeError,
      with the memory written and the program counter where it was. Every
      other class runs as `Run` says, and raises only before any change. */
  function Exec(i: Instr, s: State): (o: Outcome)
    requires |s.regs| == 32
    ensures o.raised.None? <==> !i.Store? && Run(i, s).Ok?
    ensures o.raised.None? ==> o.state == Run(i, s).value
    ensures !i.Store? && o.raised.Some? ==> o.state == s && o.raised == Some(Run(i, s).error)
  {
    if i.Store? then
      match StoreWrite(StoreWidth(i.sop), i.rs1, i.rs2, i.imm, s)
      case Ok(mem) => Outcome(s.(mem := mem), Some(AttributeError))
      case Err(e) => Outcome(s, Some(e))
    else
      match Run(i, s)
      case Ok(t) => Outcome(t, None)
      case Err(e) => Outcome(s, Some(e))
  }

  // ---------------------------------------------------------------------
  // Properties of one instruction

  /** The register operand as an R-type or immediate class reads it: the
      cell, or its two's-complement reading for sra and srai. */
  function Operand(cell: nat, signed: bool): (r: int)
    requires cell < Pow2(64)
    ensures signed ==> r == Utils.SignedAs(cell, 64, true).value
    ensures !signed ==> r == cell
  {
    if signed then Utils.SignedAs(cell, 64, true).value else cell
  }

  /** A read at SIZE bytes of a well-formed cell is the cell itself, or its
      two's-complement reading. */
  lemma ReadFull(regs: seq<nat>, r: int, signed: bool)
    requires WellFormed(regs) && RegisterIndex(Num(r)).Ok?
    ensures regs[RegisterIndex(Num(r)).value] < Pow2(64)
    ensures ReadReg(regs, Num(r), SIZE, signed) == Ok(Operand(regs[RegisterIndex(Num(r)).value], signed))
  {
    var c := regs[RegisterIndex(Num(r)).value];
    assert c < Pow2(64);
    DivModUnique(c, Pow2(64), 0, c);
    if signed {
      CellGetSigned(c, 8);
    }
  }

  /** An R-type instruction reads both operands at 8 bytes (two's
      complement for sra), applies its operator on unbounded integers and
      fails, changing nothing, exactly when a register number is out of
      range, sra's count is negative, or the result lies outside
      [-2^63, 2^64). Otherwise rd receives the result modulo 2^64, no
      other register or byte changes, and pc advances by 4. */
  lemma RTypeResult(i: Instr, s: State)
    requires i.RType? && WellFormed(s.regs)
    requires RegisterIndex(Num(i.rs1)).Ok? && RegisterIndex(Num(i.rs2)).Ok?
    ensures var a := Operand(s.regs[RegisterIndex(Num(i.rs1)).value], i.rop == Sra);
            var b := Operand(s.regs[RegisterIndex(Num(i.rs2)).value], i.rop == Sra);
            var v := AluR(i.rop, a, b);
            && (Run(i, s).Ok? <==> RegisterIndex(Num(i.rd)).Ok? && v.Ok?
                                   && -(Pow2(63) as int) <= v.value < Pow2(64))
            && (Run(i, s).Ok? ==> var t := Run(i, s).value; var d := RegisterIndex(Num(i.rd)).value;
                  && t.regs[d] == v.value % Pow2(64)
                  && (forall j | 0 <= j < 32 && j != d :: t.regs[j] == s.regs[j])
                  && t.mem == s.mem && t.pc == s.pc + 4)
  {
    ReadFull(s.regs, i.rs1, i.rop == Sra);
    ReadFull(s.regs, i.rs2, i.rop == Sra);
    Pow2Table();
  }

  /** An immediate ALU instruction: the same as an R-type one, with the
      immediate for the second operand. */
  lemma AluImmResult(i: Instr, s: State)
    requires i.AluImm? && WellFormed(s.regs) && RegisterIndex(Num(i.rs)).Ok?
    ensures var a := Operand(s.regs[RegisterIndex(Num(i.rs)).value], i.iop == Srai);
            var v := AluI(i.iop, a, i.imm);
            && (Run(i, s).Ok? <==> RegisterIndex(Num(i.rd)).Ok? && v.Ok?
                                   && -(Pow2(63) as int) <= v.value < Pow2(64))
            && (Run(i, s).Ok? ==> var t := Run(i, s).value; var d := RegisterIndex(Num(i.rd)).value;
                  && t.regs[d] == v.value % Pow2(64)
                  && (forall j | 0 <= j < 32 && j != d :: t.regs[j] == s.regs[j])
                  && t.mem == s.mem && t.pc == s.pc + 4)
  {
    ReadFull(s.regs, i.rs, i.iop == Srai);
    Pow2Table();
  }

  /** `&`, `|`, `^` and srl of two registers with valid numbers never
      fail: on operands in [0, 2^64) each result stays in [0, 2^64). */
  lemma BitwiseNeverFails(i: Instr, s: State)
    requires i.RType? && (i.rop == Xor || i.rop == Or || i.rop == And || i.rop == Srl)
    requires WellFormed(s.regs)
    requires RegisterIndex(Num(i.rs1)).Ok? && RegisterIndex(Num(i.rs2)).Ok? && RegisterIndex(Num(i.rd)).Ok?
    ensures Run(i, s).Ok?
  {
    RTypeResult(i, s);
    var a := s.regs[RegisterIndex(Num(i.rs1)).value];
    var b := s.regs[RegisterIndex(Num(i.rs2)).value];
    AluRUnsigned(i.rop, a, b);
    Pow2Table();
  }

  /** The unsigned R-type operators keep 64-bit operands within 64 bits. */
  lemma AluRUnsigned(op: ROp, a: int, b: int)
    requires op == Xor || op == Or || op == And || op == Srl
    requires 0 <= a < Pow2(64) && 0 <= b < Pow2(64)
    ensures AluR(op, a, b).Ok? && 0 <= AluR(op, a, b).value < Pow2(64)
  {
    hide Run, LoadAt, StoreWrite, Assemble, Mapped, MemRead, ReadReg, WriteReg, CellGet, CellSet, WriteBytes, BitAnd, BitOr, BitXor;
    if op == Srl {
      DivLe(a, Pow2(b));
    } else {
      BitwiseBounded(a, b, 64);
    }
  }

  /** A load reads n bytes (1, 2, 4 or 8 by class) at rs read unsigned plus
      the immediate; it fails, changing nothing, exactly when a register
      number is out of range or one of the n bytes was never mapped.
      Otherwise rd holds exactly the n bytes read, little-endian, and zero
      above them, whether the class sign-extends or not; nothing else
      changes and pc advances by 4. */
  lemma LoadResult(i: Instr, s: State)
    requires i.Load? && WellFormed(s.regs) && RegisterIndex(Num(i.rs)).Ok?
    ensures var addr := s.regs[RegisterIndex(Num(i.rs)).value] + i.imm;
            var n := LoadWidth(i.lop);
            && (Run(i, s).Ok? <==> RegisterIndex(Num(i.rd)).Ok? && Mapped(s.mem, addr, n))
            && (RegisterIndex(Num(i.rd)).Ok? && Mapped(s.mem, addr, n) ==>
                  var d := RegisterIndex(Num(i.rd)).value;
                  Run(i, s) == Ok(State(s.regs[d := Assemble(s.mem, addr, n)], s.mem, s.pc + 4)))
  {
    hide Run, RunLoad, RunStore, LoadAt, StoreWrite, Pow2, Assemble, Mapped, MemRead, ReadReg, WriteReg, CellGet, CellSet;
    RunLoadIs(i, s);
    LoadAtResult(LoadWidth(i.lop), LoadSigned(i.lop), i.rd, i.imm, i.rs, s);
  }

  /** LoadResult for any width from 1 to 8 bytes. */
  lemma LoadAtResult(n: int, signed: bool, rd: int, imm: int, rs: int, s: State)
    requires 0 < n <= SIZE && WellFormed(s.regs) && RegisterIndex(Num(rs)).Ok?
    ensures var addr := s.regs[RegisterIndex(Num(rs)).value] + imm;
            var r := LoadAt(n, signed, rd, imm, rs, s);
            && (r.Ok? <==> RegisterIndex(Num(rd)).Ok? && Mapped(s.mem, addr, n))
            && (RegisterIndex(Num(rd)).Ok? && Mapped(s.mem, addr, n) ==>
                  var d := RegisterIndex(Num(rd)).value;
                  r == Ok(State(s.regs[d := Assemble(s.mem, addr, n)], s.mem, s.pc + 4)))
  {
    hide Run, RunLoad, RunStore, LoadAt, StoreWrite, Pow2, Assemble, Mapped, MemRead, ReadReg, WriteReg, CellGet, CellSet;
    var addr := s.regs[RegisterIndex(Num(rs)).value] + imm;
    if Mapped(s.mem, addr, n) && RegisterIndex(Num(rd)).Ok? {
      ReadFull(s.regs, rs, false);
      LoadAtMapped(n, signed, rd, imm, rs, s, addr - imm, RegisterIndex(Num(rd)).value);
    } else {
      LoadAtFails(n, signed, rd, imm, rs, s);
    }
  }

  /** A load from an unmapped byte or into an out-of-range register fails. */
  lemma LoadAtFails(n: int, signed: bool, rd: int, imm: int, rs: int, s: State)
    requires 0 < n <= SIZE && WellFormed(s.regs) && RegisterIndex(Num(rs)).Ok?
    requires !(RegisterIndex(Num(rd)).Ok? && Mapped(s.mem, s.regs[RegisterIndex(Num(rs)).value] + imm, n))
    ensures LoadAt(n, signed, rd, imm, rs, s).Err?
  {
    ReadFull(s.regs, rs, false);
  }

  /** A load from n mapped bytes into a valid register stores the
      unsigned value of those bytes, whether it sign-extends or not. */
  lemma LoadAtMapped(n: int, signed: bool, rd: int, imm: int, rs: int, s: State, base: int, d: nat)
    requires 0 < n <= SIZE && |s.regs| == 32
    requires ReadReg(s.regs, Num(rs), SIZE, false) == Ok(base)
    requires RegisterIndex(Num(rd)) == Ok(d) && Mapped(s.mem, base + imm, n)
    ensures LoadAt(n, signed, rd, imm, rs, s) == Ok(State(s.regs[d := Assemble(s.mem, base + imm, n)], s.mem, s.pc + 4))
  {
    LoadedCell(n, signed, s.regs, rd, s.mem, base + imm);
    hide *;
    LoadAtSteps(n, signed, rd, imm, rs, s, base, MemRead(s.mem, base + imm, n, signed).value, s.regs[d := Assemble(s.mem, base + imm, n)]);
  }

  /** Setting rd at n bytes to what a read of n mapped bytes returns
      stores the unsigned value of those bytes. */
  lemma LoadedCell(n: int, signed: bool, regs: seq<nat>, rd: int, mem: map<int, nat>, addr: int)
    requires 0 < n <= SIZE && |regs| == 32 && RegisterIndex(Num(rd)).Ok? && Mapped(mem, addr, n)
    ensures MemRead(mem, addr, n, signed).Ok?
    ensures WriteReg(regs, Num(rd), n, MemRead(mem, addr, n, signed).value)
            == Ok(regs[RegisterIndex(Num(rd)).value := Assemble(mem, addr, n)])
  {
    var A := Assemble(mem, addr, n);
    var v := MemRead(mem, addr, n, signed).value;
    ReadThenSet(A, n);
    assert CellSet(SIZE, n, v) == Ok(A);
  }

  /** LoadAt succeeds with the outcome of its three steps when each does. */
  lemma LoadAtSteps(n: int, signed: bool, rd: int, imm: int, rs: int, s: State, base: int, v: int, regs: seq<nat>)
    requires |s.regs| == 32
    requires ReadReg(s.regs, Num(rs), SIZE, false) == Ok(base)
    requires MemRead(s.mem, base + imm, n, signed) == Ok(v)
    requires WriteReg(s.regs, Num(rd), n, v) == Ok(regs)
    ensures LoadAt(n, signed, rd, imm, rs, s) == Ok(State(regs, s.mem, s.pc + 4))
  {
    hide ReadReg, MemRead, WriteReg, Pow2, Assemble, CellGet, CellSet, Mapped, RegisterIndex;
  }

  /** A branch changes no register and no byte, and fails only on a
      register number out of range. It is taken when the comparison holds
      on the two registers read as 64-bit two's complement (beq, bne, blt,
      bge) or as unsigned numbers (bltu, bgeu); pc then moves by twice the
      immediate, and by 4 when it is not taken. */
  lemma BranchResult(i: Instr, s: State)
    requires i.Branch? && WellFormed(s.regs)
    ensures Run(i, s).Ok? <==> RegisterIndex(Num(i.rs1)).Ok? && RegisterIndex(Num(i.rs2)).Ok?
    ensures Run(i, s).Ok? ==>
              var t := Run(i, s).value;
              var a := Operand(s.regs[RegisterIndex(Num(i.rs1)).value], BranchSigned(i.bop));
              var b := Operand(s.regs[RegisterIndex(Num(i.rs2)).value], BranchSigned(i.bop));
              && t.regs == s.regs && t.mem == s.mem
              && t.pc == (if Taken(i.bop, a, b) then s.pc + 2 * i.imm else s.pc + 4)
  {
    hide Pow2, LoadAt, StoreWrite, Assemble, Mapped, MemRead, WriteReg, CellSet, WriteBytes;
    if RegisterIndex(Num(i.rs1)).Ok? && RegisterIndex(Num(i.rs2)).Ok? {
      ReadFull(s.regs, i.rs1, BranchSigned(i.bop));
      ReadFull(s.regs, i.rs2, BranchSigned(i.bop));
    }
  }

  /** jal links pc + 4 into rd and jumps by twice its immediate; jalr links
      pc + 4 into rd and jumps to rs read unsigned plus its immediate, with
      rs read before rd is written, so `jalr x1, 0(x1)` jumps to the old
      x1. Either fails, changing nothing, on a register number out of range
      or a link value outside [-2^63, 2^64). */
  lemma JumpResult(i: Instr, s: State)
    requires (i.Jal? || i.Jalr?) && WellFormed(s.regs)
    requires i.Jalr? ==> RegisterIndex(Num(i.rs)).Ok?
    ensures Run(i, s).Ok? <==> RegisterIndex(Num(i.rd)).Ok? && -(Pow2(63) as int) <= s.pc + 4 < Pow2(64)
    ensures Run(i, s).Ok? ==>
              var t := Run(i, s).value; var d := RegisterIndex(Num(i.rd)).value;
              && t.regs[d] == (s.pc + 4) % Pow2(64)
              && (forall j | 0 <= j < 32 && j != d :: t.regs[j] == s.regs[j])
              && t.mem == s.mem
              && t.pc == (if i.Jal? then s.pc + 2 * i.imm
                          else s.regs[RegisterIndex(Num(i.rs)).value] + i.imm)
  {
    if i.Jalr? {
      ReadFull(s.regs, i.rs, false);
    }
    Pow2Table();
  }

  /** lui stores the immediate times 2^12 at 4 bytes: rd receives its low
      32 bits, zero above, and the step fails, changing nothing, when the
      product lies outside [-2^31, 2^32) or rd is out of range. */
  lemma LuiResult(i: Instr, s: State)
    requires i.Lui? && WellFormed(s.regs)
    ensures Run(i, s).Ok? <==> RegisterIndex(Num(i.rd)).Ok?
                               && -(Pow2(31) as int) <= i.imm * 4096 < Pow2(32)
    ensures Run(i, s).Ok? ==>
              var t := Run(i, s).value; var d := RegisterIndex(Num(i.rd)).value;
              && t.regs[d] == (i.imm * 4096) % Pow2(32)
              && (forall j | 0 <= j < 32 && j != d :: t.regs[j] == s.regs[j])
              && t.mem == s.mem && t.pc == s.pc + 4
  {
    Pow2Table();
  }

  /** A store, run as intended, writes the low n bytes of rs2 (n = 1, 2,
      4 or 8 by class) at rs1 read unsigned plus the immediate, touches no
      register and no other byte, and advances pc by 4. */
  lemma StoreResult(i: Instr, s: State)
    requires i.Store? && WellFormed(s.regs)
    ensures Run(i, s).Ok? <==> RegisterIndex(Num(i.rs1)).Ok? && RegisterIndex(Num(i.rs2)).Ok?
    ensures Run(i, s).Ok? ==>
              var t := Run(i, s).value;
              var n := StoreWidth(i.sop);
              var addr := s.regs[RegisterIndex(Num(i.rs1)).value] + i.imm;
              && t.regs == s.regs && t.pc == s.pc + 4
              && t.mem == WriteBytes(s.mem, addr, n, s.regs[RegisterIndex(Num(i.rs2)).value] % Pow2(8 * n))
  {
    if RegisterIndex(Num(i.rs1)).Ok? && RegisterIndex(Num(i.rs2)).Ok? {
      StoreWriteResult(StoreWidth(i.sop), i.rs1, i.rs2, i.imm, s);
    }
  }

  /** StoreWrite's memory when both register numbers are in range. */
  lemma StoreWriteResult(n: nat, rs1: int, rs2: int, imm: int, s: State)
    requires WellFormed(s.regs) && RegisterIndex(Num(rs1)).Ok? && RegisterIndex(Num(rs2)).Ok?
    ensures StoreWrite(n, rs1, rs2, imm, s)
            == Ok(WriteBytes(s.mem, s.regs[RegisterIndex(Num(rs1)).value] + imm, n,
                             s.regs[RegisterIndex(Num(rs2)).value] % Pow2(8 * n)))
  {
    hide Run, LoadAt, Assemble, Mapped, MemRead, WriteReg, CellSet, WriteBytes;
    ReadFull(s.regs, rs1, false);
    var c := s.regs[RegisterIndex(Num(rs2)).value];
    assert ReadReg(s.regs, Num(rs2), n, false) == Ok(c % Pow2(8 * n));
    hide ReadReg, CellGet, Pow2;
  }

  /** The unsigned load of a store's width (ld for sd). */
  function LoadOf(op: StoreOp): LoadOp {
    match op
    case Sb => Lbu case Sh => Lhu case Sw => Lwu case Sd => Ld
  }

  /** A store followed by the load of the same width at the same address
      brings back the low bytes of the stored register. */
  lemma StoreThenLoad(op: StoreOp, rs1: int, rs2: int, imm: int, rd: int, s: State)
    requires WellFormed(s.regs)
    requires RegisterIndex(Num(rs1)).Ok? && RegisterIndex(Num(rs2)).Ok? && RegisterIndex(Num(rd)).Ok?
    ensures Run(Store(op, rs1, rs2, imm), s).Ok?
    ensures var t := Run(Store(op, rs1, rs2, imm), s).value;
            var n := StoreWidth(op);
            && Run(Load(LoadOf(op), rd, imm, rs1), t).Ok?
            && Run(Load(LoadOf(op), rd, imm, rs1), t).value.regs[RegisterIndex(Num(rd)).value]
               == s.regs[RegisterIndex(Num(rs2)).value] % Pow2(8 * n)
  {
    hide Run, RunLoad, RunStore, LoadAt, StoreWrite, Pow2, Assemble, Mapped, MemRead, ReadReg, WriteReg, CellGet, CellSet;
    var st := Store(op, rs1, rs2, imm);
    StoreResult(st, s);
    var t := Run(st, s).value;
    var n := StoreWidth(op);
    var addr := s.regs[RegisterIndex(Num(rs1)).value] + imm;
    var v := s.regs[RegisterIndex(Num(rs2)).value] % Pow2(8 * n);
    assert t.regs == s.regs && t.mem == WriteBytes(s.mem, addr, n, v);
    ReadAfterWrite(s.mem, addr, n, v);
    DivModUnique(v, Pow2(8 * n), 0, v);
    assert t.regs[RegisterIndex(Num(rs1)).value] + imm == addr;
    LoadBack(op, rd, imm, rs1, t, addr, v);
  }

  /** The load of a store's width brings back the bytes it covers. */
  lemma LoadBack(op: StoreOp, rd: int, imm: int, rs1: int, t: State, addr: int, v: int)
    requires WellFormed(t.regs) && RegisterIndex(Num(rs1)).Ok? && RegisterIndex(Num(rd)).Ok?
    requires t.regs[RegisterIndex(Num(rs1)).value] + imm == addr
    requires Mapped(t.mem, addr, StoreWidth(op)) && Assemble(t.mem, addr, StoreWidth(op)) == v
    ensures Run(Load(LoadOf(op), rd, imm, rs1), t)
            == Ok(State(t.regs[RegisterIndex(Num(rd)).value := v], t.mem, t.pc + 4))
  {
    hide Run, RunLoad, RunStore, LoadAt, StoreWrite, Pow2, Assemble, Mapped, MemRead, ReadReg, WriteReg, CellGet, CellSet;
    LoadOfWidth(op);
    ReadFull(t.regs, rs1, false);
    LoadAtMapped(StoreWidth(op), LoadSigned(LoadOf(op)), rd, imm, rs1, t, addr - imm, RegisterIndex(Num(rd)).value);
    RunLoadIs(Load(LoadOf(op), rd, imm, rs1), t);
  }

  /** Run on a load is LoadAt at the class's width and signedness. */
  lemma RunLoadIs(i: Instr, s: State)
    requires i.Load? && |s.regs| == 32
    ensures Run(i, s) == LoadAt(LoadWidth(i.lop), LoadSigned(i.lop), i.rd, i.imm, i.rs, s)
  {
  }

  /** The load of a store's width reads as many bytes as the store writes. */
  lemma LoadOfWidth(op: StoreOp)
    ensures LoadWidth(LoadOf(op)) == StoreWidth(op)
  {
  }

  /** Every instruction keeps the state invariant. */
  lemma RunKeepsGood(i: Instr, s: State)
    requires Good(s) && Run(i, s).Ok?
    ensures Good(Run(i, s).value)
  {
    match i
    case RType(_, _, _, _) => RTypeKeepsGood(i, s);
    case Load(_, _, _, _) => LoadKeepsGood(i, s);
    case AluImm(_, _, _, _) => AluImmKeepsGood(i, s);
    case Jalr(_, _, _) => JumpKeepsGood(i, s);
    case Store(_, _, _, _) => StoreKeepsGood(i, s);
    case Branch(_, _, _, _) => BranchResult(i, s);
    case Lui(_, _) => LuiKeepsGood(i, s);
    case Jal(_, _) => JumpKeepsGood(i, s);
  }

  lemma RTypeKeepsGood(i: Instr, s: State)
    requires i.RType? && Good(s) && Run(i, s).Ok?
    ensures Good(Run(i, s).value)
  {
    RTypeResult(i, s);
  }

  lemma AluImmKeepsGood(i: Instr, s: State)
    requires i.AluImm? && Good(s) && Run(i, s).Ok?
    ensures Good(Run(i, s).value)
  {
    AluImmResult(i, s);
  }

  lemma LoadKeepsGood(i: Instr, s: State)
    requires i.Load? && Good(s) && Run(i, s).Ok?
    ensures Good(Run(i, s).value)
  {
    LoadResult(i, s);
    Pow2Mono(8 * LoadWidth(i.lop), 64);
  }

  lemma JumpKeepsGood(i: Instr, s: State)
    requires (i.Jal? || i.Jalr?) && Good(s) && Run(i, s).Ok?
    ensures Good(Run(i, s).value)
  {
    JumpResult(i, s);
  }

  lemma LuiKeepsGood(i: Instr, s: State)
    requires i.Lui? && Good(s) && Run(i, s).Ok?
    ensures Good(Run(i, s).value)
  {
    hide Pow2, Run, RunLui, LoadAt, StoreWrite, Assemble, Mapped, MemRead, ReadReg, WriteReg, CellGet, CellSet, WriteBytes;
    LuiResult(i, s);
    Pow2Mono(32, 64);
    var t := Run(i, s).value;
    var d := RegisterIndex(Num(i.rd)).value;
    assert t.regs[d] < Pow2(64);
    assert WellFormed(t.regs);
  }

  lemma StoreKeepsGood(i: Instr, s: State)
    requires i.Store? && Good(s) && Run(i, s).Ok?
    ensures Good(Run(i, s).value)
  {
    hide Run, RunStore, LoadAt, StoreWrite, Assemble, Mapped, MemRead, ReadReg, WriteReg, CellGet, CellSet;
    StoreResult(i, s);
    var t := Run(i, s).value;
    var n := StoreWidth(i.sop);
    var addr := s.regs[RegisterIndex(Num(i.rs1)).value] + i.imm;
    var v := s.regs[RegisterIndex(Num(i.rs2)).value] % Pow2(8 * n);
    assert t.regs == s.regs && t.mem == WriteBytes(s.mem, addr, n, v);
    WriteKeepsBytes(s.mem, addr, n, v);
  }

  // ---------------------------------------------------------------------
  // The stores as written

  /** Every store whose register numbers are in range raises
      AttributeError after writing its bytes: the memory is the one `Run`
      produces, but pc does not advance. */
  lemma StoreCrashes(i: Instr, s: State)
    requires i.Store? && |s.regs| == 32
    requires RegisterIndex(Num(i.rs1)).Ok? && RegisterIndex(Num(i.rs2)).Ok?
    ensures Run(i, s).Ok? && Run(i, s).value.pc == s.pc + 4
    ensures Exec(i, s) == Outcome(Run(i, s).value.(pc := s.pc), Some(AttributeError))
  {
  }
}
