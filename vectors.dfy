/** The single-step vectors of the simulator's step test: one machine
    state, and what each instruction leaves in the register or pc the test
    reads. Registers are read back as the test reads them, at SIZE bytes
    and signed. */
module StepVectors {
  import opened Wrappers
  import opened Bits
  import opened Config
  import opened Encoding
  import opened Simulation
  import opened Semantics
  import Utils

  /** x1 = 1234, x2 = -4321 (stored as 2^64 - 4321), x3 = 1000, pc = 8000,
      and the bytes -10, 20, -30, 40 (mod 256) at 1230..1233. */
  function TestState(): State {
    State(Zeros[1 := 1234][2 := 0xffff_ffff_ffff_ef1f][3 := 1000],
          map[1230 := 246, 1231 := 20, 1232 := 226, 1233 := 40], 8000)
  }

  /** The test state is one the simulator can reach. */
  lemma TestStateGood()
    ensures Good(TestState())
    ensures TestState().regs[0] == 0 && TestState().regs[1] == 1234
    ensures TestState().regs[2] == 0xffff_ffff_ffff_ef1f
  {
    Pow2Widths();
    hide Pow2;
    var r := TestState().regs;
    assert forall i | 0 <= i < 32 :: r[i] <= 0xffff_ffff_ffff_ef1f;
  }

  /** A cell read at SIZE bytes, signed, as the test reads it. */
  function Signed(cell: nat): (r: int)
    requires cell < Pow2(64)
    ensures -(Pow2(63) as int) <= r < Pow2(63)
  {
    Utils.SignedAsRange(cell, 64, true);
    Utils.SignedAs(cell, 64, true).value
  }

  /** A cell holding 2^64 - k, 0 < k <= 2^63, reads as -k. */
  lemma SignedNegative(k: nat)
    requires 0 < k <= Pow2(63) && Pow2(64) == 2 * Pow2(63)
    ensures Signed(Pow2(64) - k) == -(k as int)
  {
    Utils.SignedAsStrict(Pow2(64) - k, 64);
  }

  /** A cell below 2^63 reads as itself. */
  lemma SignedSmall(c: nat)
    requires c < Pow2(63) && Pow2(64) == 2 * Pow2(63)
    ensures Signed(c) == c
  {
    Utils.SignedAsStrict(c, 64);
  }

  /** 2^63, from the 64-bit power. */
  lemma Pow2Top()
    ensures Pow2(64) == 2 * Pow2(63) && Pow2(63) == 9223372036854775808
  {
    Pow2Widths();
  }

  /** `addi x1, x0, -100` leaves -100 in x1. */
  lemma AddiVector()
    ensures var r := Run(AluImm(Addi, 1, -100, 0), TestState());
            r.Ok? && r.value.regs[1] < Pow2(64) && Signed(r.value.regs[1]) == -100 && r.value.pc == 8004
  {
    var s := TestState();
    TestStateGood();
    Pow2Top();
    AluImmResult(AluImm(Addi, 1, -100, 0), s);
    DivModUnique(-100, Pow2(64), -1, Pow2(64) - 100);
    SignedNegative(100);
  }

  /** The four test bytes at 1230, read little-endian: 0x28e214f6. */
  lemma TestWord()
    ensures Mapped(TestState().mem, 1230, 4)
    ensures Assemble(TestState().mem, 1230, 4) == 0x28e214f6
  {
    var m := TestState().mem;
    assert Assemble(m, 1233, 1) == 40;
    assert Assemble(m, 1232, 2) == 226 + 256 * 40;
    assert Assemble(m, 1231, 3) == 20 + 256 * (226 + 256 * 40);
  }

  /** `lw x2, -4(x1)` and `lwu x2, -4(x1)` both load 0x28e214f6 into x2:
      the word's bit 31 is clear, so sign extension changes nothing. */
  lemma LoadWordVector(op: LoadOp)
    requires op == Lw || op == Lwu
    ensures var r := Run(Load(op, 2, -4, 1), TestState());
            r.Ok? && r.value.regs[2] < Pow2(64) && Signed(r.value.regs[2]) == 0x28e214f6 && r.value.pc == 8004
  {
    var s := TestState();
    TestStateGood();
    TestWord();
    Pow2Top();
    LoadResult(Load(op, 2, -4, 1), s);
    SignedSmall(0x28e214f6);
  }

  /** `lui x1, 1234` leaves 1234 * 2^12 = 5054464 in x1. */
  lemma LuiVector()
    ensures var r := Run(Lui(1, 1234), TestState());
            r.Ok? && r.value.regs[1] < Pow2(64) && Signed(r.value.regs[1]) == 5054464 && r.value.pc == 8004
  {
    var s := TestState();
    TestStateGood();
    Pow2Top();
    Pow2Widths();
    assert Pow2(32) == 2 * Pow2(31);
    LuiResult(Lui(1, 1234), s);
    DivModUnique(5054464, Pow2(32), 0, 5054464);
    SignedSmall(5054464);
  }

  /** 1234 & 100 = 64, one bit at a time from the top. */
  lemma AndiValue()
    ensures BitAnd(1234, 100) == 64
  {
    hide BitAnd;
    AndZero(9);
    AndStep(19, 1); AndStep(38, 3); AndStep(77, 6); AndStep(154, 12);
    AndStep(308, 25); AndStep(617, 50); AndStep(1234, 100);
  }

  /** `andi x2, x1, 100` leaves 1234 & 100 = 64 in x2. */
  lemma AndiVector()
    ensures var r := Run(AluImm(Andi, 2, 100, 1), TestState());
            r.Ok? && r.value.regs[2] < Pow2(64) && Signed(r.value.regs[2]) == 64 && r.value.pc == 8004
  {
    hide Run, BitAnd;
    var s := TestState();
    TestStateGood();
    Pow2Top();
    AndiValue();
    AluImmResult(AluImm(Andi, 2, 100, 1), s);
    DivModUnique(64, Pow2(64), 0, 64);
    SignedSmall(64);
  }

  /** `sra x3, x2, x1` shifts -4321 right by 1234 places: -1. */
  lemma SraVector()
    ensures var r := Run(RType(Sra, 3, 2, 1), TestState());
            r.Ok? && r.value.regs[3] < Pow2(64) && Signed(r.value.regs[3]) == -1 && r.value.pc == 8004
  {
    var s := TestState();
    TestStateGood();
    Pow2Top();
    SignedNegative(4321);
    SignedSmall(1234);
    Pow2Widths();
    Pow2Mono(16, 1234);
    DivModUnique(-4321, Pow2(1234), -1, Pow2(1234) - 4321);
    RTypeResult(RType(Sra, 3, 2, 1), s);
    DivModUnique(-1, Pow2(64), -1, Pow2(64) - 1);
    SignedNegative(1);
  }

  /** `blt x2, x1, -100` compares -4321 < 1234 signed and jumps back by
      200 to 7800; `beq x2, x1, 100` and `bltu x2, x1, 100` (2^64 - 4321 is
      not below 1234 unsigned) fall through to 8004. No register changes. */
  lemma BranchVectors()
    ensures var r := Run(Branch(Blt, 2, 1, -100), TestState());
            r.Ok? && r.value.pc == 7800 && r.value.regs == TestState().regs
    ensures var r := Run(Branch(Bltu, 2, 1, 100), TestState());
            r.Ok? && r.value.pc == 8004 && r.value.regs == TestState().regs
    ensures var r := Run(Branch(Beq, 2, 1, 100), TestState());
            r.Ok? && r.value.pc == 8004 && r.value.regs == TestState().regs
  {
    var s := TestState();
    TestStateGood();
    Pow2Top();
    SignedNegative(4321);
    SignedSmall(1234);
    BranchResult(Branch(Blt, 2, 1, -100), s);
    BranchResult(Branch(Bltu, 2, 1, 100), s);
    BranchResult(Branch(Beq, 2, 1, 100), s);
  }

  /** `jal x1, -200` links 8004 into x1 and moves pc to 7600; `jalr x2,
      -100(x1)` links 8004 into x2 and jumps to 1234 - 100 = 1134. */
  lemma JumpVectors()
    ensures var r := Run(Jal(1, -200), TestState());
            r.Ok? && r.value.regs[1] == 8004 && r.value.pc == 7600
    ensures var r := Run(Jalr(2, -100, 1), TestState());
            r.Ok? && r.value.regs[2] == 8004 && r.value.pc == 1134
  {
    var s := TestState();
    TestStateGood();
    Pow2Top();
    DivModUnique(8004, Pow2(64), 0, 8004);
    JumpResult(Jal(1, -200), s);
    JumpResult(Jalr(2, -100, 1), s);
  }
}
