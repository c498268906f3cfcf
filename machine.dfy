/** The simulator object: `Simulator`, its register file, its memory and
    its program counter, updated in place by `step` and by the item and
    attribute shortcuts. */
module Machine {
  import opened Wrappers
  import opened Bits
  import opened Config
  import opened Encoding
  import opened Simulation
  import opened Semantics

  /** A key of the `sim[key]` shortcuts: an int addresses a memory byte, a
      str names a register. */
  datatype Key = Addr(addr: int) | Attr(name: string)

  /** What a `run_by` that raises before changing anything leaves behind. */
  function Settle(r: Result<State>, s: State): (o: Outcome)
    ensures r.Ok? ==> o == Outcome(r.value, None)
    ensures r.Err? ==> o == Outcome(s, Some(r.error))
  {
    match r
    case Ok(t) => Outcome(t, None)
    case Err(e) => Outcome(s, Some(e))
  }

  /** The keyword arguments of `Simulator(**kwargs)`, from the i-th on:
      `pc` is an attribute of the object and is set as it is; every other
      keyword names a register, set at SIZE bytes, and a name the table
      lacks is TypeError. */
  function Configured(s: State, kwargs: seq<(string, int)>, i: nat): (r: Result<State>)
    requires |s.regs| == 32 && i <= |kwargs|
    ensures r.Ok? ==> |r.value.regs| == 32 && r.value.mem == s.mem
    ensures r.Err? ==> r.error == TypeError || r.error == ValueError
    decreases |kwargs| - i
  {
    if i == |kwargs| then Ok(s)
    else if kwargs[i].0 == "pc" then Configured(s.(pc := kwargs[i].1), kwargs, i + 1)
    else
      match WriteReg(s.regs, Name(kwargs[i].0), SIZE, kwargs[i].1)
      case Err(e) => Err(if e == KeyError then TypeError else e)
      case Ok(regs) => Configured(s.(regs := regs), kwargs, i + 1)
  }

  /** A keyword that is neither `pc` nor a register name is TypeError. */
  lemma UnknownKeyword(s: State, name: string, v: int)
    requires |s.regs| == 32 && name != "pc" && name !in RegistersDir
    ensures Configured(s, [(name, v)], 0) == Err(TypeError)
  {
  }

  /** `registers["x2"].set(SIZE, -4321)` on zero registers. */
  lemma X2Example()
    ensures WriteReg(Zeros, Name("x2"), SIZE, -4321) == Ok(Zeros[2 := 0xffff_ffff_ffff_ef1f])
  {
    X2Name();
    SetNegativeExample();
    hide RegisterIndex, CellSet;
  }

  /** The numeric name of register 2. */
  lemma X2Spelling()
    ensures XName(2) == "x2"
  {
  }

  /** The name "x2" reaches cell 2. */
  lemma X2Name()
    ensures RegisterIndex(Name("x2")) == Ok(2)
  {
    X2Spelling();
    XNamesIndex();
    hide XName;
  }

  /** `Simulator(x2=-4321, pc=8000)` holds 2^64 - 4321 in cell 2 and
      starts at 8000. */
  lemma ConfiguredExample()
    ensures Configured(State(Zeros, map[], 0), [("x2", -4321), ("pc", 8000)], 0)
      == Ok(State(Zeros[2 := 0xffff_ffff_ffff_ef1f], map[], 8000))
  {
    var kwargs := [("x2", -4321), ("pc", 8000)];
    var s1 := State(Zeros[2 := 0xffff_ffff_ffff_ef1f], map[], 0);
    X2Example();
    hide WriteReg;
    assert Configured(s1.(pc := 8000), kwargs, 2) == Ok(s1.(pc := 8000));
    assert Configured(s1, kwargs, 1) == Ok(s1.(pc := 8000));
  }

  /** Every class but the stores raises before it changes anything. */
  lemma ExecSettles(i: Instr, s: State)
    requires |s.regs| == 32 && !i.Store?
    ensures Exec(i, s) == Settle(Run(i, s), s)
  {
  }

  /** `set(1, v)` on a one-byte cell: refused outside [-128, 256), and
      otherwise the byte v modulo 256. */
  lemma ByteSet(v: int)
    ensures CellSet(1, 1, v).Ok? <==> -128 <= v < 256
    ensures CellSet(1, 1, v).Ok? ==> CellSet(1, 1, v).value == v % 256
  {
    Pow2Byte();
    assert Pow2(8) == 2 * Pow2(7);
  }

  /** `memory[addr].set(1, value)`: the byte is mapped (to 0 when missing)
      before `set` can refuse the value, so a refused write still leaves
      it mapped. */
  function Poke(mem: map<int, nat>, addr: int, v: int): (r: (map<int, nat>, Option<Error>))
    ensures addr in r.0
    ensures r.1.None? <==> -128 <= v < 256
    ensures r.1.None? ==> r.0 == mem[addr := v % 256]
    ensures r.1.Some? ==> r.1 == Some(ValueError) && r.0 == (if addr in mem then mem else mem[addr := 0])
  {
    ByteSet(v);
    var m := if addr in mem then mem else mem[addr := 0];
    var c := CellSet(1, 1, v);
    if c.Ok? then (m[addr := c.value], None) else (m, Some(ValueError))
  }

  /** `set_memory(values, start)`: the values poked in order at start,
      start + 1, ...; the first refused value ends the loop, with the
      bytes before it written. */
  function PokeAll(mem: map<int, nat>, start: int, vs: seq<int>): (map<int, nat>, Option<Error>)
  {
    if vs == [] then (mem, None)
    else
      var p := PokeAll(mem, start, vs[..|vs| - 1]);
      if p.1.Some? then p else Poke(p.0, start + |vs| - 1, vs[|vs| - 1])
  }

  /** One more value: poked after the ones before it, unless one of them
      was refused. */
  lemma PokeAllStep(mem: map<int, nat>, start: int, vs: seq<int>, i: nat)
    requires i < |vs|
    ensures var p := PokeAll(mem, start, vs[..i]);
            PokeAll(mem, start, vs[..i + 1]) == if p.1.Some? then p else Poke(p.0, start + i, vs[i])
  {
    assert vs[..i + 1][..i] == vs[..i];
  }

  /** Once a value is refused, the rest of the values change nothing. */
  lemma {:induction false} PokeAllStops(mem: map<int, nat>, start: int, vs: seq<int>, i: nat)
    requires i <= |vs| && PokeAll(mem, start, vs[..i]).1.Some?
    ensures PokeAll(mem, start, vs) == PokeAll(mem, start, vs[..i])
    decreases |vs| - i
  {
    if i < |vs| {
      var w := vs[..i + 1];
      assert w[..|w| - 1] == vs[..i];
      PokeAllStops(mem, start, vs, i + 1);
    } else {
      assert vs[..i] == vs;
    }
  }

  /** When every value is a byte (in [-128, 256)), `set_memory` stores
      each one modulo 256 at its own address, maps nothing else and keeps
      every other byte. */
  lemma {:induction false} PokeAllWrites(mem: map<int, nat>, start: int, vs: seq<int>)
    requires forall i | 0 <= i < |vs| :: -128 <= vs[i] < 256
    ensures PokeAll(mem, start, vs).1.None?
    ensures forall a :: a in PokeAll(mem, start, vs).0 <==> a in mem || start <= a < start + |vs|
    ensures forall i | 0 <= i < |vs| :: PokeAll(mem, start, vs).0[start + i] == vs[i] % 256
    ensures forall a | a in mem && !(start <= a < start + |vs|) :: PokeAll(mem, start, vs).0[a] == mem[a]
  {
    if vs != [] {
      var init := vs[..|vs| - 1];
      PokeAllWrites(mem, start, init);
      assert forall i | 0 <= i < |init| :: init[i] == vs[i];
    }
  }

  class Simulator {
    var registers: Registers
    var memory: Memory
    var pc: int

    /** Cells of the register file fit SIZE bytes; memory cells fit one. */
    ghost predicate Valid()
      reads this, registers, memory
    {
      registers.Valid() && memory.Valid()
    }

    /** The contents, as the instruction semantics sees them. */
    function Snapshot(): State
      reads this, registers, memory
    {
      State(registers.values, memory.values, pc)
    }

    /** `Simulator()`: 32 zero registers, no memory, pc 0. */
    constructor ()
      ensures Valid() && fresh(registers) && fresh(memory)
      ensures Snapshot() == State(Zeros, map[], 0)
    {
      registers := new Registers();
      memory := new Memory();
      pc := 0;
    }

    /** The keyword loop of `Simulator.__init__(**kwargs)`, run on
        `Simulator()`: a register that `Registers.__getitem__` cannot find
        (KeyError) becomes TypeError; ValueError from `set` passes through.
        On success the simulator holds what `Configured` computes. */
    method Configure(kwargs: seq<(string, int)>) returns (raised: Option<Error>)
      requires Valid()
      modifies this, registers
      ensures Valid() && registers == old(registers) && memory == old(memory)
      ensures var r := Configured(old(Snapshot()), kwargs, 0);
              && (r.Ok? ==> raised.None? && Snapshot() == r.value)
              && (r.Err? ==> raised == Some(r.error))
    {
      ghost var s0 := Snapshot();
      for i := 0 to |kwargs|
        invariant Valid() && registers == old(registers) && memory == old(memory)
        invariant Configured(s0, kwargs, 0) == Configured(Snapshot(), kwargs, i)
      {
        var (name, v) := kwargs[i];
        if name == "pc" {
          pc := v;
        } else {
          raised := SetAttr(name, v);
          if raised.Some? {
            if raised == Some(KeyError) {
              raised := Some(TypeError);
            }
            return;
          }
        }
      }
      raised := None;
    }

    /** `sim.name = value` for a name that is not an attribute of the
        object: `registers[name].set(SIZE, value)`. An unknown name is
        KeyError; an out-of-range value ValueError, leaving the cell. */
    method SetAttr(name: string, v: int) returns (raised: Option<Error>)
      requires Valid()
      modifies registers
      ensures Valid() && pc == old(pc)
      ensures var r := WriteReg(old(registers.values), Name(name), SIZE, v);
              && (r.Ok? ==> raised.None? && registers.values == r.value)
              && (r.Err? ==> raised == Some(r.error) && registers.values == old(registers.values))
    {
      raised := registers.Set(Name(name), SIZE, v);
    }

    /** `sim.name` for a name that is not an attribute of the object, and
        `sim["name"]` for every name (which calls `__getattr__` directly, so
        even `sim["pc"]` looks for a register): the register read unsigned
        at SIZE bytes, or AttributeError when the table lacks the name. */
    method GetAttr(name: string) returns (r: Result<int>)
      requires Valid()
      ensures var c := ReadReg(registers.values, Name(name), SIZE, false);
              r == if c.Err? then Err(AttributeError) else c
    {
      r := registers.Get(Name(name), SIZE, false);
      if r.Err? {
        r := Err(AttributeError);
      }
    }

    /** `sim[key] = value`. An address reaches `memory[addr]`, which maps a
        missing byte to 0 before `set(1, value)` can refuse the value, so a
        refused write still leaves the byte mapped. A name is `sim.name =
        value`, and "pc" is an attribute: it sets the program counter. */
    method SetItem(key: Key, v: int) returns (raised: Option<Error>)
      requires Valid()
      modifies this, registers, memory
      ensures Valid() && registers == old(registers) && memory == old(memory)
      ensures key.Addr? ==>
                var m := if key.addr in old(memory.values) then old(memory.values) else old(memory.values)[key.addr := 0];
                var c := CellSet(1, 1, v);
                && registers.values == old(registers.values) && pc == old(pc)
                && (c.Ok? ==> raised.None? && memory.values == m[key.addr := c.value])
                && (c.Err? ==> raised == Some(ValueError) && memory.values == m)
      ensures key.Attr? && key.name == "pc" ==>
                raised.None? && Snapshot() == old(Snapshot()).(pc := v)
      ensures key.Attr? && key.name != "pc" ==>
                var r := WriteReg(old(registers.values), Name(key.name), SIZE, v);
                && memory.values == old(memory.values) && pc == old(pc)
                && (r.Ok? ==> raised.None? && registers.values == r.value)
                && (r.Err? ==> raised == Some(r.error) && registers.values == old(registers.values))
    {
      match key
      case Addr(a) =>
        var _ := memory.Cell(a);
        var c := CellSet(1, 1, v);
        if c.Err? {
          return Some(ValueError);
        }
        memory.values := memory.values[a := c.value];
        Pow2Byte();
        raised := None;
      case Attr(name) =>
        if name == "pc" {
          pc := v;
          raised := None;
        } else {
          raised := SetAttr(name, v);
        }
    }

    /** `sim[key]`. An address reads `memory[addr].get(1)`, mapping a
        missing byte to 0 on the way; a name is `__getattr__(name)`. */
    method GetItem(key: Key) returns (r: Result<int>)
      requires Valid()
      modifies memory
      ensures Valid() && registers.values == old(registers.values)
      ensures key.Addr? ==>
                && memory.values == (if key.addr in old(memory.values) then old(memory.values)
                                     else old(memory.values)[key.addr := 0])
                && r == Ok(memory.values[key.addr])
      ensures key.Attr? ==> memory.values == old(memory.values)
      ensures key.Attr? ==> r == (var c := ReadReg(registers.values, Name(key.name), SIZE, false);
                                  if c.Err? then Err(AttributeError) else c)
    {
      match key
      case Addr(a) =>
        var cell := memory.Cell(a);
        Pow2Byte();
        DivModUnique(cell, 256, 0, cell);
        r := Ok(cell % 256);
      case Attr(name) =>
        r := GetAttr(name);
    }

    /** `set_memory(values, start)`: `memory[start + i].set(1, v)` for each
        value in turn, the first refused value ending the loop. */
    method SetMemory(vs: seq<int>, start: int) returns (raised: Option<Error>)
      requires Valid()
      modifies memory
      ensures Valid()
      ensures (memory.values, raised) == PokeAll(old(memory.values), start, vs)
    {
      var i := 0;
      while i < |vs|
        invariant 0 <= i <= |vs|
        invariant Valid()
        invariant PokeAll(old(memory.values), start, vs[..i]) == (memory.values, None)
      {
        PokeAllStep(old(memory.values), start, vs, i);
        ByteSet(vs[i]);
        hide PokeAll, CellSet;
        var _ := memory.Cell(start + i);
        var c := CellSet(1, 1, vs[i]);
        if c.Err? {
          PokeAllStops(old(memory.values), start, vs, i + 1);
          return Some(ValueError);
        }
        memory.values := memory.values[start + i := c.value];
        i := i + 1;
      }
      assert vs[..i] == vs;
      raised := None;
    }

    /** `simulator.step(instruction)`. The guard `isinstance == None` is
        never true, so `instruction.run_by(self)` always runs, and `None`
        has no `run_by`: AttributeError with nothing changed. */
    method Step(instr: Option<Instr>) returns (raised: Option<Error>)
      requires Valid()
      modifies this, registers, memory
      ensures Valid() && registers == old(registers) && memory == old(memory)
      ensures instr.None? ==> raised == Some(AttributeError) && Snapshot() == old(Snapshot())
      ensures instr.Some? ==> Outcome(Snapshot(), raised) == Exec(instr.value, old(Snapshot()))
    {
      if instr.None? {
        return Some(AttributeError);
      }
      hide Exec;
      match instr.value
      case RType(op, rd, rs1, rs2) => raised := StepR(op, rd, rs1, rs2);
      case Load(op, rd, imm, rs) => raised := StepLoad(op, rd, imm, rs);
      case AluImm(op, rd, imm, rs) => raised := StepImm(op, rd, imm, rs);
      case Jalr(rd, imm, rs) => raised := StepJalr(rd, imm, rs);
      case Store(op, rs1, rs2, imm) => raised := StepStore(op, rs1, rs2, imm);
      case Branch(op, rs1, rs2, imm) => raised := StepBranch(op, rs1, rs2, imm);
      case Lui(rd, imm) => raised := StepLui(rd, imm);
      case Jal(rd, imm) => raised := StepJal(rd, imm);
    }

    /** An R-type `run_by`: both operands, then `registers[rd]`, then the
        operator, then `set`; pc advances only when all of them succeed. */
    method StepR(op: ROp, rd: int, rs1: int, rs2: int) returns (raised: Option<Error>)
      requires Valid()
      modifies this, registers
      ensures Valid() && registers == old(registers) && memory == old(memory)
      ensures Outcome(Snapshot(), raised) == Exec(RType(op, rd, rs1, rs2), old(Snapshot()))
    {
      hide Exec, Pow2, Assemble, Mapped, MemRead, ReadReg, WriteReg, CellGet, CellSet, LoadAt, StoreWrite, WriteBytes;
      ExecSettles(RType(op, rd, rs1, rs2), Snapshot());
      var a := registers.Get(Num(rs1), SIZE, op == Sra);
      if a.Err? {
        return Some(a.error);
      }
      var b := registers.Get(Num(rs2), SIZE, op == Sra);
      if b.Err? {
        return Some(b.error);
      }
      var d := RegisterIndex(Num(rd));
      if d.Err? {
        return Some(d.error);
      }
      var v := AluR(op, a.value, b.value);
      if v.Err? {
        return Some(v.error);
      }
      raised := registers.Set(Num(rd), SIZE, v.value);
      if raised.None? {
        pc := pc + 4;
      }
    }

    /** A load's `run_by`: the base register, `memory.read`, then `set` at
        the load's width. */
    method StepLoad(op: LoadOp, rd: int, imm: int, rs: int) returns (raised: Option<Error>)
      requires Valid()
      modifies this, registers
      ensures Valid() && registers == old(registers) && memory == old(memory)
      ensures Outcome(Snapshot(), raised) == Exec(Load(op, rd, imm, rs), old(Snapshot()))
    {
      hide Exec;
      hide LoadAt;
      ExecSettles(Load(op, rd, imm, rs), Snapshot());
      raised := LoadInto(LoadWidth(op), LoadSigned(op), rd, imm, rs);
    }

    /** The load steps at a width of n bytes, sign-extending or not. */
    method LoadInto(n: int, signed: bool, rd: int, imm: int, rs: int) returns (raised: Option<Error>)
      requires Valid()
      modifies this, registers
      ensures Valid() && registers == old(registers) && memory == old(memory)
      ensures Outcome(Snapshot(), raised) == Settle(LoadAt(n, signed, rd, imm, rs, old(Snapshot())), old(Snapshot()))
    {
      hide Run, Pow2, Assemble, Mapped, MemRead, ReadReg, WriteReg, CellGet, CellSet;
      var base := registers.Get(Num(rs), SIZE, false);
      if base.Err? {
        return Some(base.error);
      }
      var v := memory.Read(base.value + imm, n, signed);
      if v.Err? {
        return Some(v.error);
      }
      raised := registers.Set(Num(rd), n, v.value);
      if raised.None? {
        pc := pc + 4;
      }
    }

    /** An immediate ALU `run_by`: the operand, the operator, then `set`. */
    method StepImm(op: ImmOp, rd: int, imm: int, rs: int) returns (raised: Option<Error>)
      requires Valid()
      modifies this, registers
      ensures Valid() && registers == old(registers) && memory == old(memory)
      ensures Outcome(Snapshot(), raised) == Exec(AluImm(op, rd, imm, rs), old(Snapshot()))
    {
      hide Exec, Pow2, Assemble, Mapped, MemRead, ReadReg, WriteReg, CellGet, CellSet, LoadAt, StoreWrite, WriteBytes;
      ExecSettles(AluImm(op, rd, imm, rs), Snapshot());
      var a := registers.Get(Num(rs), SIZE, op == Srai);
      if a.Err? {
        return Some(a.error);
      }
      var v := AluI(op, a.value, imm);
      if v.Err? {
        return Some(v.error);
      }
      raised := registers.Set(Num(rd), SIZE, v.value);
      if raised.None? {
        pc := pc + 4;
      }
    }

    /** jalr's `run_by`: the target from rs, then rd := pc + 4, then pc. */
    method StepJalr(rd: int, imm: int, rs: int) returns (raised: Option<Error>)
      requires Valid()
      modifies this, registers
      ensures Valid() && registers == old(registers) && memory == old(memory)
      ensures Outcome(Snapshot(), raised) == Exec(Jalr(rd, imm, rs), old(Snapshot()))
    {
      hide Exec, Pow2, Assemble, Mapped, MemRead, ReadReg, WriteReg, CellGet, CellSet, LoadAt, StoreWrite, WriteBytes;
      ExecSettles(Jalr(rd, imm, rs), Snapshot());
      var a := registers.Get(Num(rs), SIZE, false);
      if a.Err? {
        return Some(a.error);
      }
      raised := registers.Set(Num(rd), SIZE, pc + 4);
      if raised.None? {
        pc := a.value + imm;
      }
    }

    /** A store's `run_by` as written: rs2 at the store's width, rs1, the
        bytes written, and then `self.rd`, which a store lacks. */
    method StepStore(op: StoreOp, rs1: int, rs2: int, imm: int) returns (raised: Option<Error>)
      requires Valid()
      modifies memory
      ensures Valid() && registers == old(registers) && memory == old(memory)
      ensures Outcome(Snapshot(), raised) == Exec(Store(op, rs1, rs2, imm), old(Snapshot()))
    {
      hide Run, LoadAt, Pow2, Assemble, Mapped, MemRead, ReadReg, WriteReg, CellGet, CellSet, WriteBytes;
      var v := registers.Get(Num(rs2), StoreWidth(op), false);
      if v.Err? {
        return Some(v.error);
      }
      var base := registers.Get(Num(rs1), SIZE, false);
      if base.Err? {
        return Some(base.error);
      }
      WriteKeepsBytes(memory.values, base.value + imm, StoreWidth(op), v.value);
      memory.Write(base.value + imm, StoreWidth(op), v.value);
      raised := Some(AttributeError);
    }

    /** A branch's `run_by`: both operands, then pc. */
    method StepBranch(op: BranchOp, rs1: int, rs2: int, imm: int) returns (raised: Option<Error>)
      requires Valid()
      modifies this
      ensures Valid() && registers == old(registers) && memory == old(memory)
      ensures Outcome(Snapshot(), raised) == Exec(Branch(op, rs1, rs2, imm), old(Snapshot()))
    {
      hide Exec, Pow2, Assemble, Mapped, MemRead, ReadReg, WriteReg, CellGet, CellSet, LoadAt, StoreWrite, WriteBytes;
      ExecSettles(Branch(op, rs1, rs2, imm), Snapshot());
      var a := registers.Get(Num(rs1), SIZE, BranchSigned(op));
      if a.Err? {
        return Some(a.error);
      }
      var b := registers.Get(Num(rs2), SIZE, BranchSigned(op));
      if b.Err? {
        return Some(b.error);
      }
      pc := if Taken(op, a.value, b.value) then pc + imm * 2 else pc + 4;
      raised := None;
    }

    /** lui's `run_by`: `set(4, imm << 12)`, then pc. */
    method StepLui(rd: int, imm: int) returns (raised: Option<Error>)
      requires Valid()
      modifies this, registers
      ensures Valid() && registers == old(registers) && memory == old(memory)
      ensures Outcome(Snapshot(), raised) == Exec(Lui(rd, imm), old(Snapshot()))
    {
      hide Exec, Pow2, Assemble, Mapped, MemRead, ReadReg, WriteReg, CellGet, CellSet, LoadAt, StoreWrite, WriteBytes;
      ExecSettles(Lui(rd, imm), Snapshot());
      raised := registers.Set(Num(rd), 4, Shl(imm, 12));
      if raised.None? {
        pc := pc + 4;
      }
    }

    /** jal's `run_by`: rd := pc + 4, then pc moves by twice the immediate. */
    method StepJal(rd: int, imm: int) returns (raised: Option<Error>)
      requires Valid()
      modifies this, registers
      ensures Valid() && registers == old(registers) && memory == old(memory)
      ensures Outcome(Snapshot(), raised) == Exec(Jal(rd, imm), old(Snapshot()))
    {
      hide Exec, Pow2, Assemble, Mapped, MemRead, ReadReg, WriteReg, CellGet, CellSet, LoadAt, StoreWrite, WriteBytes;
      ExecSettles(Jal(rd, imm), Snapshot());
      var target := pc + imm * 2;
      raised := registers.Set(Num(rd), SIZE, pc + 4);
      if raised.None? {
        pc := target;
      }
    }

    /** `simulator.copy()`: a new simulator with the same pc and copies of
        the register file and the memory, sharing no cell with this one. */
    method Copy() returns (c: Simulator)
      requires Valid()
      ensures fresh(c) && fresh(c.registers) && fresh(c.memory)
      ensures c.Valid() && c.Snapshot() == Snapshot()
    {
      c := new Simulator();
      c.pc := pc;
      c.registers := registers.Copy();
      c.memory := memory.Copy();
    }
  }

  /** What the step test does with each case: copy the simulator, step the
      copy. The copy changes as `Exec` says and the original not at all. */
  method StepCopy(sim: Simulator, i: Instr) returns (c: Simulator, raised: Option<Error>)
    requires sim.Valid()
    ensures fresh(c) && c.Valid()
    ensures Outcome(c.Snapshot(), raised) == Exec(i, sim.Snapshot())
  {
    c := sim.Copy();
    raised := c.Step(Some(i));
  }
}
