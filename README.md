# riscv-sim in Dafny

A model of riscv-sim, a small Python simulator for a subset of RV64I. It covers:

- the register file and memory;
- the instruction classes, with their binary encoders and `run_by` transitions;
- the instruction factory, which assembles text lines and decodes words.

The model follows the Python code as it is written. Wherever the code fails, the model fails too: a raise, a failed `assert`, or a missing attribute. The state it leaves behind is the code's, and so is the exception kind, with one exception: the left-shift failures listed under "## Left out". Python exceptions become values of `Wrappers.Error`, carried in `Result`/`Option`. The defects are stated as lemmas, and each one has a corrected definition next to it (see "## Findings").

Modules, one per concern:

- `Wrappers`: `Option`, `Result` and the exception kinds.
- `Bits`: Python's `&`, `|`, `^`, `<<` and `>>` on unbounded integers, as floor division and remainder by powers of two.
- `Text`: the `str` methods the factory uses (`lower`, `replace`, `split`, `strip`, `rstrip`, `endswith`, `startswith`, `find`, `splitlines`), `int()` on a token and `str()` of an int.
- `Config`: `SIZE` and `REGISTERS_DIR`.
- `Utils`: `signed_as`.
- `Simulation`: `Register`, `Registers` and `Memory`. Each is a class whose methods update its fields in place, proved against pure functions on the stored values.
- `Encoding`: the instruction datatype (one constructor per format family, one enum per family for the operation), the class constants (`opcode`, `funct3`, `funct7`) and the six `__index__` encoders.
- `Semantics`: every `run_by` as a pure transition on a machine state (registers, memory, pc). This includes what a raise leaves behind.
- `Machine`: the `Simulator` class: `step`, `copy`, the item and attribute shortcuts, `set_memory` and the keyword constructor. Each `step` of an instruction is proved to do what `Semantics.Exec` says.
- `StepVectors`: the step test's machine and expected results, proved against the semantics.
- `Classes`: the `instruction_classes` dictionary.
- `Decoder`: `__translate_int` as written, and a corrected decoder proved to invert a corrected encoder.
- `Factory`: `__extract_tokens`, `__register_index`, `__translate` and `get`. Also proved: tokenising the spelling of an instruction gives back its tokens, and the corrected translate rebuilds the instruction.
- `Program`: `get_text`. Its passes are loops: comment stripping, the label pass, label replacement, blank-line filtering and translation. The label dictionary is an insertion-ordered association list.

## Model

| member | source | states |
|---|---|---|
| Config.RegisterWidth | riscvsim/config.py:1 | SIZE is 8 bytes, so a register holds 64 bits (2^64 values) |
| Config.IndicesInRange | riscvsim/config.py:3-70 | every index in REGISTERS_DIR lies in [0, 32) |
| Config.XNamesIndex | riscvsim/config.py:3-70 | "xN" maps to N for every N in 0..31, so every register has a name |
| Config.StackPointerRebound | riscvsim/config.py:9-22 | "sp" is bound twice and the later binding wins: sp and s0 both map to 8, and only "x2" maps to 2 |
| Config.AbiNamesResolve | riscvsim/config.py:5-69 | every ABI name keeps its own index in the merged table |
| Config.AbiPrefix | riscvsim/config.py:5-69 | no ABI name starts with 'x', so `register_index` never reads one as "xN" |
| Config.AbiExamples | riscvsim/config.py:50-66 | t5 maps to 30 and s6 to 22 |
| Utils.SignedAs | riscvsim/utils.py:1-18 | raises ValueError exactly when x < 0, bits <= 0 (a negative shift), or strict and x >= 2^bits |
| Utils.SignedAsCases | riscvsim/utils.py:12-16 | the result is y = x mod 2^bits when y < 2^(bits-1), and y - 2^bits otherwise |
| Utils.SignedAsRange | riscvsim/utils.py:12-18 | the result lies in [-2^(bits-1), 2^(bits-1)) |
| Utils.SignedAsCongruent | riscvsim/utils.py:12-16 | the result is congruent to x modulo 2^bits |
| Utils.SignedAsStrict | riscvsim/utils.py:8-16 | in strict mode, 0 <= x < 2^bits gives x below 2^(bits-1) and x - 2^bits from there on |
| Simulation.CellGet | riscvsim/simulator.py:11-16 | `get(n, signed)` fails (negative shift) exactly when n < 0, or n = 0 and signed; an unsigned read lies in [0, 2^(8n)) |
| Simulation.CellGetSigned | riscvsim/simulator.py:13-15 | a signed read is `signed_as` of the masked value: in [-2^(8n-1), 2^(8n-1)) and congruent to the cell |
| Simulation.CellSet | riscvsim/simulator.py:18-38 | `set(n, v)` succeeds exactly when n > 0 and v lies in [-2^(8k-1), 2^(8k)) with k = min(n, bytes_num), otherwise ValueError; the stored value fits k bytes |
| Simulation.CellSetCongruent | riscvsim/simulator.py:29-38 | the stored value is congruent to v modulo 2^(8k), so the bytes above k are cleared |
| Simulation.SetGetSigned | riscvsim/simulator.py:11-38 | a value in the signed range of n bytes, set and read back signed, is itself |
| Simulation.SetGetUnsigned | riscvsim/simulator.py:11-38 | v in [0, 2^(8n)), set and read back, is v unsigned, and v or v - 2^(8n) signed |
| Simulation.ReadThenSet | riscvsim/simulator.py:11-38 | setting a cell to what it holds, or to its signed read, leaves it unchanged |
| Simulation.SetNegativeExample | riscvsim/simulator.py:36-38 | `set(8, -4321)` stores 0xffffffffffffef1f |
| Simulation.Register.constructor | riscvsim/simulator.py:7-9 | a cell of the given width holding the given value |
| Simulation.Register.Get | riscvsim/simulator.py:11-16 | returns `CellGet` of the stored value and changes nothing |
| Simulation.Register.Set | riscvsim/simulator.py:18-38 | stores `CellSet`'s value, or raises ValueError and keeps the old value; the width never changes |
| Simulation.Register.Copy | riscvsim/simulator.py:46-48 | a fresh cell with the same width and value |
| Simulation.RegisterIndex | riscvsim/simulator.py:63-70 | an int reaches a cell exactly when -32 <= i < 32 (list indexing, negative from the end), else IndexError; a name exactly when REGISTERS_DIR has it, else KeyError |
| Simulation.NameReachesNumber | riscvsim/simulator.py:63-67 | a name and its index reach the same cell |
| Simulation.EveryCellNamed | riscvsim/simulator.py:63-67 | "xN" reaches cell N |
| Simulation.NegativeIndex | riscvsim/simulator.py:64-65 | an index i in [-32, 0) reaches cell i + 32 |
| Simulation.ReadReg | riscvsim/simulator.py:63-70 | `registers[key].get(n, signed)`: the lookup's error, or the read of the cell the key reaches |
| Simulation.WriteReg | riscvsim/simulator.py:63-70 | `registers[key].set(n, v)` succeeds exactly when the key resolves and `set` accepts v; it changes that cell only |
| Simulation.WriteRegWellFormed | riscvsim/simulator.py:18-38 | a write keeps every register cell below 2^64 |
| Simulation.WriteThenRead | riscvsim/simulator.py:11-38 | writing v through one key and reading signed through any key for the same cell gives v |
| Simulation.TooManyPositional | riscvsim/simulator.py:56-58 | `Registers()` with more than 32 positional values raises IndexError |
| Simulation.PositionalExample | riscvsim/simulator.py:56-58 | `Registers(0x00, 0x11, 0x22, 0x33, 0x44)` fills cells 0 to 4 |
| Simulation.KeywordExample | riscvsim/simulator.py:59-61 | keywords t5 and s6 set cells 30 and 22 |
| Simulation.InitialRegistersExample | riscvsim/simulator.py:52-61 | positional values and then keywords, as the register test builds them |
| Simulation.Registers.constructor | riscvsim/simulator.py:52-55 | 32 zero cells |
| Simulation.Registers.Get | riscvsim/simulator.py:63-70 | returns `ReadReg` and changes nothing |
| Simulation.Registers.Set | riscvsim/simulator.py:63-70 | the new cells are `WriteReg`'s, or the error is raised with every cell unchanged |
| Simulation.Registers.Init | riscvsim/simulator.py:52-61 | the positional and keyword loops leave what `InitialRegisters` computes, or raise its error |
| Simulation.Registers.Copy | riscvsim/simulator.py:79-82 | a fresh register file with the same cells |
| Simulation.MemRead | riscvsim/simulator.py:99-107 | `read` fails with KeyError exactly when a byte is unmapped, and with ValueError for a signed read of n <= 0 bytes; otherwise it returns the bytes little-endian, sign-extended when signed |
| Simulation.WriteBytesCells | riscvsim/simulator.py:109-113 | `write` maps addr .. addr+n-1 to the bytes (v >> 8i) & 0xff and keeps every other address |
| Simulation.WriteKeepsBytes | riscvsim/simulator.py:109-113 | every memory cell stays a byte |
| Simulation.ReadAfterWrite | riscvsim/simulator.py:99-113 | after a write, the n bytes are mapped and assemble to v mod 2^(8n) |
| Simulation.WriteThenReadMemory | riscvsim/simulator.py:99-113 | read after write gives v mod 2^(8n) unsigned, and v signed when v is in the signed range |
| Simulation.WriteElsewhere | riscvsim/simulator.py:99-113 | a write to disjoint addresses does not change a read |
| Simulation.MemoryExample | test.py:169-170 | the memory test's bytes read 4023233417 unsigned and -271733879 signed |
| Simulation.Memory.constructor | riscvsim/simulator.py:87-89 | no address is mapped |
| Simulation.Memory.Cell | riscvsim/simulator.py:94-97 | `memory[addr]` maps a missing address to 0 and returns the cell |
| Simulation.Memory.Read | riscvsim/simulator.py:99-107 | the reversed accumulation loop returns `MemRead` |
| Simulation.Memory.Write | riscvsim/simulator.py:109-113 | the byte loop leaves `WriteBytes` of the old memory |
| Simulation.Memory.Copy | riscvsim/simulator.py:139-142 | a fresh memory with the same cells |
| Encoding.Encode | riscvsim/instructions.py:16-112 | `int(instruction)` fails with AttributeError exactly for sra, whose class lacks `funct3` |
| Encoding.EncodeRWord | riscvsim/instructions.py:23-31 | R word = funct7*2^25 + rs2*2^20 + rs1*2^15 + funct3*2^12 + rd*2^7 + opcode |
| Encoding.EncodeIWord | riscvsim/instructions.py:41-47 | I word puts imm mod 2^12 at bit 20, so negative immediates appear in two's complement |
| Encoding.EncodeSWord | riscvsim/instructions.py:57-64 | S word puts imm[11:5] at bit 25 and imm[4:0] at bit 7 |
| Encoding.EncodeSBWord | riscvsim/instructions.py:74-83 | SB word scatters imm bits 11, 9:4, 3:0 and 10 to bits 31, 30:25, 11:8 and 7 |
| Encoding.EncodeUWord | riscvsim/instructions.py:92-96 | U word = imm*2^12 + rd*2^7 + opcode, with no mask |
| Encoding.EncodeUJWord | riscvsim/instructions.py:105-112 | UJ word scatters imm bits 19, 9:0, 10 and 18:11 to bits 31, 30:21, 20 and 19:12 |
| Encoding.EncodeAddExample | test.py:26 | `add x3, x2, x1` is 0x001101b3 |
| Encoding.EncodeAddiExample | test.py:27 | `addi x2, x1, -100` is 0xf9c08113 |
| Encoding.EncodeLwExample | test.py:28 | `lw x2, -100(x1)` is 0xf9c0a103 |
| Encoding.EncodeSlliExample | test.py:29 | `slli x2, x1, 12` is 0x00c09113 |
| Encoding.EncodeJalrExample | test.py:30 | `jalr x2, -100(x1)` is 0xf9c08167 |
| Encoding.EncodeSwExample | test.py:31 | `sw x2, 100(x1)` is 0x0620a223 |
| Encoding.EncodeBeqExample | test.py:32 | `beq x1, x2, -100` is 0xf2208ce7 |
| Encoding.EncodeLuiExample | test.py:33 | `lui x1, 1234` is 0x004d20b7 |
| Encoding.EncodeJalExample | test.py:34 | `jal x1, -200` is 0xe71ff0ef |
| Encoding.SraHasNoWord | riscvsim/instructions.py:179-182 | an sra instruction has no word: AttributeError |
| Semantics.AluR | riscvsim/instructions.py:115-237 | an R operator fails exactly for a negative shift count of sll, srl or sra |
| Semantics.AluI | riscvsim/instructions.py:348-443 | an immediate operator fails exactly for a negative shift amount of slli, srli or srai |
| Semantics.Operand | riscvsim/simulator.py:11-16 | an 8-byte operand read signed is `signed_as(cell, 64)`, and read unsigned is the cell |
| Semantics.ReadFull | riscvsim/simulator.py:11-16 | reading a register at SIZE bytes gives that operand |
| Semantics.RTypeResult | riscvsim/instructions.py:115-237 | an R step succeeds exactly when rd resolves and the unbounded result lies in [-2^63, 2^64); then rd holds it mod 2^64, no other cell or byte changes, and pc advances by 4 |
| Semantics.AluImmResult | riscvsim/instructions.py:348-443 | the same for the immediate ALU classes, with the operand read signed only for srai |
| Semantics.BitwiseNeverFails | riscvsim/instructions.py:163-237 | xor, or, and and srl never fail on resolvable registers |
| Semantics.AluRUnsigned | riscvsim/instructions.py:163-237 | xor, or, and and srl of 64-bit unsigned operands stay in [0, 2^64) |
| Semantics.LoadResult | riscvsim/instructions.py:243-342 | a load succeeds exactly when rd resolves and the n bytes at unsigned rs + imm are mapped; then rd holds them little-endian, with the bytes above n cleared |
| Semantics.BranchResult | riscvsim/instructions.py:523-625 | a branch changes no cell or byte; pc becomes pc + 2*imm when the condition holds, else pc + 4; beq/bne/blt/bge compare signed, bltu/bgeu unsigned |
| Semantics.JumpResult | riscvsim/instructions.py:449-457 | jalr and jal set rd to pc + 4 (mod 2^64) and change nothing else; jal jumps to pc + 2*imm, jalr to rs + imm with rs read before rd is written |
| Semantics.LuiResult | riscvsim/instructions.py:631-638 | lui succeeds exactly when imm*4096 fits the 4-byte range; rd then holds it mod 2^32 and pc advances by 4 |
| Semantics.StoreResult | riscvsim/instructions.py:463-517 | a store writes the low n bytes of rs2 at rs1 + imm and keeps the registers |
| Semantics.StoreThenLoad | riscvsim/instructions.py:463-517 | a store followed by the unsigned load of the same width and address gives rs2 mod 2^(8n) |
| Semantics.RunKeepsGood | riscvsim/instructions.py:115-651 | every successful step keeps the register cells below 2^64 and the memory cells bytes |
| Semantics.Exec | riscvsim/instructions.py:115-651 | a `run_by` other than a store completes, or raises and leaves the machine unchanged; a store always raises |
| Semantics.StoreCrashes | riscvsim/instructions.py:467-472 | as written, a store writes memory and then raises AttributeError (there is no `self.rd`), leaving pc unchanged |
| Machine.Configured | riscvsim/simulator.py:147-157 | the keyword loop changes no memory byte; its errors are TypeError (unknown name) or ValueError (from `set`) |
| Machine.UnknownKeyword | riscvsim/simulator.py:154-157 | a keyword that is neither pc nor a register name is TypeError |
| Machine.X2Example | riscvsim/simulator.py:184 | `registers["x2"].set(SIZE, -4321)` stores 0xffffffffffffef1f in cell 2 |
| Machine.ConfiguredExample | riscvsim/simulator.py:147-157 | `Simulator(x2=-4321, pc=8000)` holds 0xffffffffffffef1f in x2 and starts at 8000 |
| Machine.Poke | riscvsim/simulator.py:196 | `memory[a].set(1, v)` succeeds exactly for v in [-128, 256) and stores v mod 256; a refused value still leaves a mapped |
| Machine.PokeAllStops | riscvsim/simulator.py:195-196 | after the first refused value, the values that follow change nothing |
| Machine.PokeAllWrites | riscvsim/simulator.py:194-196 | with byte values, `set_memory` stores each at start + i mod 256, maps nothing else and keeps every other byte |
| Machine.Simulator.constructor | riscvsim/simulator.py:147-150 | zero registers, no memory, pc 0 |
| Machine.Simulator.Configure | riscvsim/simulator.py:152-157 | the keyword loop leaves what `Configured` computes, or raises its error |
| Machine.Simulator.SetAttr | riscvsim/simulator.py:180-184 | `sim.name = v` is `registers[name].set(SIZE, v)`: `WriteReg`, or its error with the cells unchanged |
| Machine.Simulator.GetAttr | riscvsim/simulator.py:187-192 | `sim.name` is the unsigned read of the register; a missing name is AttributeError |
| Machine.Simulator.SetItem | riscvsim/simulator.py:160-167 | an address maps the byte and then sets it, or raises ValueError with it mapped; "pc" sets pc; another name is `SetAttr` |
| Machine.Simulator.GetItem | riscvsim/simulator.py:170-177 | an address maps the byte and returns it; a name is `GetAttr` |
| Machine.Simulator.SetMemory | riscvsim/simulator.py:194-196 | the loop leaves the memory and the error that `PokeAll` computes |
| Machine.Simulator.Step | riscvsim/simulator.py:198-203 | `step(None)` raises AttributeError and changes nothing; `step(i)` does what `Exec` says |
| Machine.Simulator.StepR | riscvsim/instructions.py:115-237 | an R `run_by` does what `Exec` says |
| Machine.Simulator.StepLoad | riscvsim/instructions.py:243-342 | a load `run_by` does what `Exec` says |
| Machine.Simulator.LoadInto | riscvsim/instructions.py:247-252 | a load body of width n does what `LoadAt` computes, or raises with nothing changed |
| Machine.Simulator.StepImm | riscvsim/instructions.py:348-443 | an immediate ALU `run_by` does what `Exec` says |
| Machine.Simulator.StepJalr | riscvsim/instructions.py:449-457 | jalr's `run_by` does what `Exec` says |
| Machine.Simulator.StepStore | riscvsim/instructions.py:463-517 | a store's `run_by` writes memory and raises, as `Exec` says |
| Machine.Simulator.StepBranch | riscvsim/instructions.py:523-625 | a branch's `run_by` does what `Exec` says |
| Machine.Simulator.StepLui | riscvsim/instructions.py:631-638 | lui's `run_by` does what `Exec` says |
| Machine.Simulator.StepJal | riscvsim/instructions.py:644-651 | jal's `run_by` does what `Exec` says |
| Machine.Simulator.Copy | riscvsim/simulator.py:214-219 | a fresh simulator, register file and memory with the same contents |
| Machine.StepCopy | test.py:248-251 | stepping a copy changes the copy as `Exec` says and leaves the original alone |
| StepVectors.TestStateGood | test.py:223-228 | the step test's machine is well formed (64-bit cells, byte memory), with x0 = 0, x1 = 1234 and x2 holding -4321 as 0xffffffffffffef1f |
| StepVectors.AddiVector | test.py:231 | `addi x1, x0, -100` gives x1 = -100 |
| StepVectors.LoadWordVector | test.py:232-233 | `lw x2, -4(x1)` and `lwu x2, -4(x1)` give x2 = 0x28e214f6 |
| StepVectors.LuiVector | test.py:234 | `lui x1, 1234` gives x1 = 5054464 |
| StepVectors.AndiVector | test.py:235 | `andi x2, x1, 100` gives x2 = 64 |
| StepVectors.SraVector | test.py:236 | `sra x3, x2, x1` gives x3 = -1 |
| StepVectors.BranchVectors | test.py:237-246 | blt taken to 7800; bltu and beq not taken, to 8004 |
| StepVectors.JumpVectors | test.py:239-242 | jal gives x1 = 8004, pc = 7600; jalr gives x2 = 8004, pc = 1134 |
| Classes.ClassNamed | riscvsim/instruction_factory.py:4-40 | a name selects a class only when it is that class's mnemonic |
| Classes.ClassNamedMnemonic | riscvsim/instruction_factory.py:4-40 | every class is listed under its own mnemonic |
| Decoder.FieldsOf | riscvsim/instruction_factory.py:101-106 | each decoded field lies within its width |
| Decoder.RWord | riscvsim/instruction_factory.py:101-106 | the fields of an R word are the ones the encoder packed |
| Decoder.IWord | riscvsim/instruction_factory.py:130 | the I immediate of an encoded word is the encoded 12-bit immediate |
| Decoder.SWord | riscvsim/instruction_factory.py:139-140 | an S word gives back rs1, rs2 and funct3; the immediate comes back without bit 4 as written, and whole with a 5-bit mask |
| Decoder.SBWord | riscvsim/instruction_factory.py:149-153 | the SB immediate of an encoded word is the encoded immediate, for 0 <= imm < 2^12 |
| Decoder.UWord | riscvsim/instruction_factory.py:158 | the U immediate of an encoded word is the encoded immediate, for 0 <= imm < 2^20 |
| Decoder.UJWord | riscvsim/instruction_factory.py:163-167 | the UJ immediate of an encoded word is the encoded immediate, for 0 <= imm < 2^20 |
| Decoder.WithOpcodeMembers | riscvsim/instruction_factory.py:108-112 | the opcode filter keeps exactly the classes with that opcode |
| Decoder.WithFunct3 | riscvsim/instruction_factory.py:125-128 | the funct3 filter raises AttributeError exactly when a candidate has no funct3, and otherwise keeps exactly the matching classes |
| Decoder.WithFuncts | riscvsim/instruction_factory.py:117-121 | the R filter raises AttributeError whenever sra is a candidate, and otherwise keeps exactly the matching classes |
| Decoder.Candidates | riscvsim/instruction_factory.py:108-112 | the candidates per opcode, in dictionary order; 0x67 gives jalr followed by the six branches |
| Decoder.Select | riscvsim/instruction_factory.py:108-157 | a selected class has the word's opcode, and for I, S and SB its funct3 |
| Decoder.RWordsRaise | riscvsim/instruction_factory.py:116-123 | every R word raises AttributeError |
| Decoder.TranslateIntRaises | riscvsim/instruction_factory.py:124-169 | `__translate_int` never returns an instruction; after a unique selection it raises Warning |
| Decoder.BranchLayoutUnused | riscvsim/instruction_factory.py:143-155 | the SB case is never reached |
| Decoder.JalrBeqCollide | riscvsim/instruction_factory.py:124-129 | opcode 0x67 with funct3 0 fails the uniqueness assert (jalr and beq) |
| Decoder.SrliSraiCollide | riscvsim/instruction_factory.py:124-129 | opcode 0x13 with funct3 5 fails the uniqueness assert (srli and srai) |
| Decoder.DecimalFunct3Unreachable | riscvsim/instruction_factory.py:124-129 | lbu, xori and bltu are never selected |
| Decoder.TestWordsRaise | riscvsim/instruction_factory.py:100-123 | 0x001101b3 raises AttributeError and 0xf2208ce7 fails the assert |
| Decoder.ImmSLosesBit4 | riscvsim/instruction_factory.py:139-140 | an S word encoding imm 16 decodes to imm 0 |
| Decoder.FixedKeepsTheRest | riscvsim/instructions.py:115-645 | the corrected opcodes equal the declared ones except for the branches, and the corrected funct3 equals the declared one except for lbu, xori, sra, sd and bltu |
| Decoder.DecodeFixedOpcode | riscvsim/instruction_factory.py:100-173 | the corrected decoder returns a class with the word's opcode |
| Decoder.SdFunct3AsWritten | riscvsim/instructions.py:508-510 | as declared, every sd word carries funct3 7 |
| Decoder.SdFunct3Fixed | riscvsim/instructions.py:508-510 | with RV64I's funct3 3, the sd word decodes back to the same store |
| Decoder.DecodeFixedRoundTrip | riscvsim/instruction_factory.py:100-173 | the corrected decoder inverts the corrected encoder for every instruction with in-range fields |
| Factory.Clean | riscvsim/instruction_factory.py:92-95 | lower-cases the line and turns `,`, `(` and `)` into spaces, keeping its length |
| Factory.ExtractTokens | riscvsim/instruction_factory.py:91-97 | every token is non-empty and holds no whitespace, separator or capital; the tokens concatenate to the non-space characters of the cleaned line |
| Factory.LineTokens | riscvsim/instruction_factory.py:91-97 | plain words joined by separator gaps tokenise back into those words |
| Factory.TestLineTokens | riscvsim/instruction_factory.py:91-97 | `lw x2, -100(x1)` gives [lw, x2, -100, x1] |
| Factory.SpellTokens | riscvsim/instruction_factory.py:91-97 | tokenising an instruction's spelling gives its tokens |
| Factory.RegisterToken | riscvsim/instruction_factory.py:232-239 | as written, only a token "x..." can succeed |
| Factory.RegisterTokenXName | riscvsim/instruction_factory.py:233-234 | "xN" gives N |
| Factory.AbiNamesRaise | riscvsim/instruction_factory.py:235 | as written, every ABI name raises NameError |
| Factory.RegisterTokenFixed | riscvsim/instruction_factory.py:232-239 | corrected: a name that is not "x..." resolves through REGISTERS_DIR into [0, 32) |
| Factory.AbiNamesResolveFixed | riscvsim/instruction_factory.py:235-236 | corrected: an ABI name gives its index; sp gives 8 |
| Factory.Read | riscvsim/instruction_factory.py:180-227 | as written, only an R mnemonic builds an instruction, of the class named |
| Factory.ReadR | riscvsim/instruction_factory.py:185-188 | R operands are rd, rs1, rs2 |
| Factory.ReadLoad | riscvsim/instruction_factory.py:193-197 | load operands are rd, imm, rs1; as written, Warning |
| Factory.ReadJalr | riscvsim/instruction_factory.py:193-197 | jalr operands are rd, imm, rs1; as written, Warning |
| Factory.ReadImm | riscvsim/instruction_factory.py:202-206 | immediate ALU operands are rd, rs1, imm; as written, Warning |
| Factory.ReadStore | riscvsim/instruction_factory.py:209-213 | store operands are rs2, imm, rs1; as written, Warning |
| Factory.ReadBranch | riscvsim/instruction_factory.py:217-221 | branch operands are rs1, rs2, imm; as written, Warning |
| Factory.ReadLui | riscvsim/instruction_factory.py:224-227 | lui operands are rd, imm; as written, Warning |
| Factory.ReadJal | riscvsim/instruction_factory.py:224-227 | jal operands are rd, imm; as written, Warning |
| Factory.Translate | riscvsim/instruction_factory.py:176-229 | as written: an empty line is IndexError, an unknown mnemonic ValueError, and only R-type lines succeed, with the class named |
| Factory.TranslateFixed | riscvsim/instruction_factory.py:176-229 | corrected: the same errors, and any instruction built is of the class named |
| Factory.SpellRoundTrip | riscvsim/instruction_factory.py:176-229 | the corrected translate of an instruction's tokenised spelling is that instruction |
| Factory.SpellAsWritten | riscvsim/instruction_factory.py:176-229 | as written, the round trip holds for R-type and raises Warning for every other class |
| Factory.Get | riscvsim/instruction_factory.py:45-52 | an int always fails; a line that translates is R-type |
| Program.RemoveComment | riscvsim/instruction_factory.py:60-64 | the prefix of the line before its first ';' |
| Program.CleanLinesNoComment | riscvsim/instruction_factory.py:60-66 | no cleaned line holds ';' |
| Program.Put | riscvsim/instruction_factory.py:73 | dict assignment: the key maps to the value, other keys keep theirs, a new key goes last, an existing key keeps its place |
| Program.PutDistinct | riscvsim/instruction_factory.py:73 | assignment never duplicates a key |
| Program.Count | riscvsim/instruction_factory.py:69-75 | the running index is at most the number of lines, and equals it when no line is a label |
| Program.CollectLabels | riscvsim/instruction_factory.py:69-75 | the label loop returns `LabelsOf` and the final index |
| Program.LabelsOfDistinct | riscvsim/instruction_factory.py:69-75 | the labels have distinct keys |
| Program.LabelsOfKeys | riscvsim/instruction_factory.py:70-73 | a key exists exactly when some label line names it |
| Program.LabelsOfValue | riscvsim/instruction_factory.py:69-75 | a label's value is the count of non-label lines (blank ones included) before its last definition |
| Program.Unlabelled | riscvsim/instruction_factory.py:76 | keeps exactly the lines whose `rstrip(":")` is not a label |
| Program.UnlabelledDropsLabels | riscvsim/instruction_factory.py:76 | no label line survives the filter |
| Program.Resolve | riscvsim/instruction_factory.py:78-83 | a line in which no label occurs is unchanged |
| Program.ResolveLine | riscvsim/instruction_factory.py:78-83 | the replacement loop returns `Resolve` |
| Program.ResolveTarget | riscvsim/instruction_factory.py:80-82 | a label at the end of a line becomes (index - curr) * 2 |
| Program.ResolveLines | riscvsim/instruction_factory.py:84 | the map over the kept lines returns `ResolveAll` |
| Program.NonBlank | riscvsim/instruction_factory.py:85 | keeps exactly the lines that are neither empty nor all whitespace |
| Program.Collect | riscvsim/instruction_factory.py:87 | the list of `get` results succeeds exactly when every line does; the first error is raised |
| Program.CollectFirstError | riscvsim/instruction_factory.py:87 | the list comprehension raises the error of the first line that raises |
| Program.CollectAll | riscvsim/instruction_factory.py:87 | when no line raises, the list holds every instruction in order |
| Program.TranslateLines | riscvsim/instruction_factory.py:87 | the translation loop returns `TranslateAll` |
| Program.GetText | riscvsim/instruction_factory.py:55-88 | `get_text` returns `AssembleText` |
| Program.ResolvedLines | riscvsim/instruction_factory.py:55-85 | every line handed to `get` is non-empty, not all whitespace and free of ';' |
| Program.NoLabels | riscvsim/instruction_factory.py:68-85 | without labels, the lines translated are the stripped, comment-free, non-blank lines |
| Program.AssembledAreR | riscvsim/instruction_factory.py:55-88 | as written, every instruction `get_text` returns is R-type |

## Left out

- `__str__` and `__repr__` of every class: display formatting only.
- `Memory.__len__`, which refers to an undefined `size`, and the `addr_max` argument, which nothing reads.
- `Simulator.__setattr__`/`__getattr__` dispatch through `dir(self)`. It is modelled for the one attribute a caller sets by name, `pc`, and for register names. Reassigning `registers` or `memory` through it is not modelled.
- The `isinstance` checks and the TypeError they raise. Dafny's types rule out non-int widths and values, and `Key`/`RegKey`/`Source` carry only int or str keys.
- Machine.Simulator.SetMemory: drops the `bytes_num` parameter, which the source never reads. The defaults of `set_memory(values=(), start=0, bytes_num=1)` are not modelled either: a caller passes `vs` and `start` explicitly, and `SetMemory([], 0)` is the call with both defaults.
- Semantics.AluR: `sll` of a non-zero value by a count too large for CPython raises OverflowError, or MemoryError for counts near 2^35 and above. The model computes the shifted value, so `set` then raises ValueError. An unsigned register count of 2^64 - 1 is one such case. The machine state after the raise is the same, but the exception kind differs. The threshold depends on the platform and on available memory, so it is not modelled.
- Semantics.AluI: `slli` with an oversized immediate raises OverflowError or MemoryError in CPython, for the same reason as `sll` above. The model raises ValueError from `set`.
- Factory.Get: an input that is neither str nor int (an UnboundLocalError in the source) cannot be expressed.
- Python's `int()` accepts surrounding whitespace, underscores and non-ASCII digits. Tokens never hold whitespace; the other two forms are not modelled. `Text.ParseInt` takes an optional sign and ASCII digits.
- `str.lower()` lower-cases only ASCII capitals here; other Unicode case mappings are not modelled.
- Exception messages. The kind of each exception is kept, except for the oversized left shifts below; the text is not kept.
- `Instruction.__init__`/`run_by` of the abstract base class, which raise NotImplementedError and are never reached.
- `load`, `run`, `auipc` and `slti`: these do not exist in the source.
- Identity of cells. Register and memory cells are values in a `seq`/`map`, not `Register` objects. So "a copy shares no cell with the original" holds by construction: `Copy` returns fresh containers with equal contents.

## Findings

| source | as written | input that shows it | evidently intended | confidence | as-written member | corrected member |
|---|---|---|---|---|---|---|
| riscvsim/instructions.py:467-472 | a store's `run_by` writes memory, then evaluates `registers[self.rd]` (stores have no rd) and an unbound `pc` | `sw x2, 100(x1)` stepped on any machine | write the bytes and advance pc by 4 | not executed | Semantics.StoreCrashes | Semantics.StoreResult |
| riscvsim/instruction_factory.py:195 | every non-R branch of `__translate` raises Warning before it returns; the I branches would also pass `rs1=` to a constructor that takes `rs` | `addi x2, x1, -100` | return the instruction built from its operands | not executed | Factory.SpellAsWritten | Factory.SpellRoundTrip |
| riscvsim/instruction_factory.py:235 | `__register_index` reads the undefined name `registers` | `add x3, sp, x1` | resolve ABI names through REGISTERS_DIR | not executed | Factory.AbiNamesRaise | Factory.AbiNamesResolveFixed |
| riscvsim/instructions.py:181 | sra declares `fucnt3`, so filtering the R candidates by funct3 raises AttributeError | the word 0x001101b3 (`add x3, x2, x1`) | decode every R word | not executed | Decoder.RWordsRaise | Decoder.DecodeFixedRoundTrip |
| riscvsim/instructions.py:524 | the branches use jalr's opcode 0b1100111 | the word 0xf2208ce7 (`beq x1, x2, -100`) | branch opcode 0b1100011 | not executed | Decoder.JalrBeqCollide | Decoder.DecodeFixedRoundTrip |
| riscvsim/instructions.py:392-395 | srai's funct6 is never encoded, so srli and srai share every key | any word with opcode 0x13 and funct3 5 | put funct6 in bits 31:26 of srai | not executed | Decoder.SrliSraiCollide | Decoder.DecodeFixedRoundTrip |
| riscvsim/instructions.py:305 | lbu, xori and bltu write funct3 as decimal 100 or 110, which a 3-bit field never equals | any lbu word | funct3 0b100 and 0b110 | not executed | Decoder.DecimalFunct3Unreachable | Decoder.DecodeFixedRoundTrip |
| riscvsim/instruction_factory.py:131 | every I, S, SB, U and UJ branch of `__translate_int` raises Warning before it returns | the word 0xf9c08113 (`addi x2, x1, -100`) | return the decoded instruction | not executed | Decoder.TranslateIntRaises | Decoder.DecodeFixedRoundTrip |
| riscvsim/instruction_factory.py:140 | S decode masks imm[4:0] with `0b1111` and loses bit 4 | `sw x2, 16(x1)` encoded and decoded | mask `0b11111` | not executed | Decoder.ImmSLosesBit4 | Decoder.SWord |
| riscvsim/instructions.py:510 | sd declares funct3 0b111. No other store shares it, so it still decodes uniquely, but RV64I assigns sd 0b011 | `sd x2, 0(x1)` encodes funct3 7 | funct3 0b011, as in RV64I | not executed | Decoder.SdFunct3AsWritten | Decoder.SdFunct3Fixed |
