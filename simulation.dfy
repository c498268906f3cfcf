/** The simulator's storage and machine state: byte-width cells, the
    register file of 32 cells, the sparse byte memory and the simulator
    that holds them with the program counter.

    A cell is an integer value with a width in bytes. The register file and
    the memory hold their cells as values (a `seq` and a `map`); a copy of
    either is a fresh object, so mutating one never changes the other. */
module Simulation {
  import opened Wrappers
  import opened Bits
  import opened Config
  import Utils

  function Min(a: int, b: int): int {
    if a < b then a else b
  }

  // ---------------------------------------------------------------------
  // One cell: Register.get and Register.set

  /** `Register.get(n, signed=signed)` on a cell holding `value`: the low
      `n` bytes, read as two's complement when `signed`. A negative width
      is a negative shift count, and so is a signed read of width 0: both
      are ValueError. */
  function CellGet(value: int, n: int, signed: bool): (r: Result<int>)
    ensures r.Err? <==> n < 0 || (n == 0 && signed)
    ensures r.Err? ==> r.error == ValueError
    ensures r.Ok? && !signed ==> 0 <= r.value < Pow2(8 * n)
  {
    if n < 0 then Err(ValueError)
    else
      var v := value % Pow2(8 * n);
      if !signed then Ok(v)
      else if n == 0 then Err(ValueError)
      else Ok(if Bit(v, 8 * n - 1) then v - Pow2(8 * n) else v)
  }

  /** A signed read is `signed_as` on the unsigned read, so it lies in
      [-2^(8n-1), 2^(8n-1)) and is congruent to the cell modulo 2^(8n). */
  lemma CellGetSigned(value: int, n: int)
    requires n >= 1
    ensures CellGet(value, n, true) == Utils.SignedAs(value % Pow2(8 * n), 8 * n, false)
    ensures -(Pow2(8 * n - 1) as int) <= CellGet(value, n, true).value < Pow2(8 * n - 1)
    ensures (CellGet(value, n, true).value - value) % Pow2(8 * n) == 0
  {
    var p := Pow2(8 * n);
    var v := value % p;
    DivModUnique(v, p, 0, v);
    Utils.SignedAsRange(v, 8 * n, false);
    Utils.SignedAsCongruent(v, 8 * n, false);
    ModCongruent(value, p);
    var r := CellGet(value, n, true).value;
    assert r - value == (r - v) + (v - value);
    SumOfMultiples(r - v, v - value, p);
  }

  /** `Register.set(n, v)` on a cell of `width` bytes: the value stored, or
      ValueError when `n <= 0` or `v` lies outside [-2^(8k-1), 2^(8k)) with
      k = min(n, width). The stored value fits k bytes and is congruent to
      `v`, so the bytes above k are cleared. */
  function CellSet(width: int, n: int, v: int): (r: Result<nat>)
    ensures r.Ok? <==> (n > 0 && width > 0
                        && -(Pow2(8 * Min(n, width) - 1) as int) <= v < Pow2(8 * Min(n, width)))
    ensures r.Err? ==> r.error == ValueError
    ensures r.Ok? ==> r.value < Pow2(8 * Min(n, width)) <= Pow2(8 * width)
  {
    if n <= 0 then Err(ValueError)
    else
      var k := Min(n, width);
      if k <= 0 then Err(ValueError)
      else if !(-(Pow2(8 * k - 1) as int) <= v < Pow2(8 * k)) then Err(ValueError)
      else
        Pow2Mono(8 * k, 8 * width);
        ModCongruent(v, Pow2(8 * k));
        Ok(v % Pow2(8 * k))
  }

  /** What `Register.set` stores is congruent to the value given modulo
      2^(8k), k = min(n, width): only the bytes above k are cleared. */
  lemma CellSetCongruent(width: int, n: int, v: int)
    requires CellSet(width, n, v).Ok?
    ensures (CellSet(width, n, v).value - v) % Pow2(8 * Min(n, width)) == 0
  {
    ModCongruent(v, Pow2(8 * Min(n, width)));
  }

  /** A value in the signed range of n <= width bytes reads back signed. */
  lemma SetGetSigned(width: int, n: int, v: int)
    requires 0 < n <= width
    requires -(Pow2(8 * n - 1) as int) <= v < Pow2(8 * n - 1)
    ensures CellSet(width, n, v).Ok? && CellGet(CellSet(width, n, v).value, n, true) == Ok(v)
  {
    var p := Pow2(8 * n);
    assert Pow2(8 * n) == 2 * Pow2(8 * n - 1);
    var s := CellSet(width, n, v).value;
    if v >= 0 {
      DivModUnique(v, p, 0, v);
    } else {
      DivModUnique(v, p, -1, v + p);
    }
    CellGetSigned(s, n);
    DivModUnique(s, p, 0, s);
    Utils.SignedAsCases(s, 8 * n, false);
  }

  /** A value in [0, 2^(8n)) reads back unsigned; read signed, one in
      [2^(8n-1), 2^(8n)) comes back as v - 2^(8n). */
  lemma SetGetUnsigned(width: int, n: int, v: int)
    requires 0 < n <= width
    requires 0 <= v < Pow2(8 * n)
    ensures CellSet(width, n, v).Ok?
    ensures CellGet(CellSet(width, n, v).value, n, false) == Ok(v)
    ensures CellGet(CellSet(width, n, v).value, n, true)
      == Ok(if v < Pow2(8 * n - 1) then v else v - Pow2(8 * n))
  {
    var p := Pow2(8 * n);
    assert Pow2(8 * n) == 2 * Pow2(8 * n - 1);
    DivModUnique(v, p, 0, v);
    CellGetSigned(v, n);
    Utils.SignedAsCases(v, 8 * n, false);
  }

  /** Storing what an n-byte read of n bytes returned, signed or not,
      at n bytes gives back those n bytes. */
  lemma ReadThenSet(value: nat, n: int)
    requires 0 < n <= SIZE && value < Pow2(8 * n)
    ensures CellSet(SIZE, n, value) == Ok(value)
    ensures CellSet(SIZE, n, CellGet(value, n, true).value) == Ok(value)
  {
    var p := Pow2(8 * n);
    SetGetUnsigned(SIZE, n, value);
    DivModUnique(value, p, 0, value);
    if value >= Pow2(8 * n - 1) {
      DivModUnique(value - p, p, -1, value);
    }
  }

  /** `Simulator(x2=-4321)` stores 0xffffffffffffef1f. */
  lemma SetNegativeExample()
    ensures CellSet(SIZE, SIZE, -4321) == Ok(0xffffffffffffef1f)
  {
    Pow2Table();
    DivModUnique(-4321, Pow2(64), -1, 0xffffffffffffef1f);
  }

  /** A standalone cell: `Register(bytes_num, value)`. */
  class Register {
    var bytesNum: int
    var value: int

    constructor (bytesNum: int, value: int)
      ensures this.bytesNum == bytesNum && this.value == value
    {
      this.bytesNum := bytesNum;
      this.value := value;
    }

    method Get(n: int, signed: bool) returns (r: Result<int>)
      ensures r == CellGet(value, n, signed)
    {
      if n < 0 {
        return Err(ValueError);
      }
      var v := value % Pow2(8 * n);
      if signed {
        if n == 0 {
          return Err(ValueError);
        }
        if Bit(v, 8 * n - 1) {
          v := v - Pow2(8 * n);
        }
      }
      return Ok(v);
    }

    /** On ValueError the cell keeps its value. */
    method Set(n: int, v: int) returns (raised: Option<Error>)
      modifies this
      ensures bytesNum == old(bytesNum)
      ensures CellSet(bytesNum, n, v).Ok? ==> raised.None? && value == CellSet(bytesNum, n, v).value
      ensures CellSet(bytesNum, n, v).Err? ==> raised == Some(ValueError) && value == old(value)
    {
      if n <= 0 {
        return Some(ValueError);
      }
      var k := Min(n, bytesNum);
      if k <= 0 {
        return Some(ValueError);
      }
      var down, up := -(Pow2(8 * k - 1) as int), Pow2(8 * k);
      if !(down <= v < up) {
        return Some(ValueError);
      }
      var stored := v;
      if stored < 0 {
        stored := stored + up;
        DivModUnique(v, up, -1, stored);
      }
      DivModUnique(stored, up, 0, stored);
      value := stored % up;
      return None;
    }

    method Copy() returns (c: Register)
      ensures fresh(c) && c.bytesNum == bytesNum && c.value == value
    {
      c := new Register(bytesNum, value);
    }
  }

  // ---------------------------------------------------------------------
  // The register file

  /** A key of `Registers.__getitem__`: a register number or a name. */
  datatype RegKey = Num(index: int) | Name(name: string)

  /** The cell `Registers.__getitem__(key)` selects. A number indexes the
      Python list of 32 cells, so -32..-1 count from the end and anything
      else is IndexError; a name goes through the register-name table, and
      an unknown name is KeyError. */
  function RegisterIndex(key: RegKey): (r: Result<nat>)
    ensures r.Ok? ==> r.value < 32
    ensures key.Num? ==> (r.Ok? <==> -32 <= key.index < 32)
    ensures key.Num? && r.Ok? ==> r.value == key.index || r.value == key.index + 32
    ensures key.Name? ==> (r.Ok? <==> key.name in RegistersDir)
    ensures r.Err? ==> r.error == (if key.Num? then IndexError else KeyError)
  {
    match key
    case Num(i) =>
      if -32 <= i < 32 then
        Ok(if i < 0 then i + 32 else i)
      else Err(IndexError)
    case Name(s) =>
      if s in RegistersDir then
        IndicesInRange();
        Ok(RegistersDir[s])
      else Err(KeyError)
  }

  /** A name and its register number reach the same cell, and "xN" reaches
      cell N. */
  lemma NameReachesNumber(name: string)
    requires name in RegistersDir
    ensures RegisterIndex(Name(name)) == RegisterIndex(Num(RegistersDir[name]))
  {
    var k := RegistersDir[name];
    IndicesInRange();
    assert k < 32;
    DivModUnique(k, 32, 0, k);
  }

  /** Every cell has a name: "xN" reaches cell N. */
  lemma EveryCellNamed(n: nat)
    requires n < 32
    ensures RegisterIndex(Name(XName(n))) == Ok(n)
  {
    XNamesIndex();
  }

  /** A negative register number -k names the same cell as 32 - k. */
  lemma NegativeIndex(i: int)
    requires -32 <= i < 0
    ensures RegisterIndex(Num(i)) == RegisterIndex(Num(i + 32)) == Ok(i + 32)
  {
  }

  /** The initial register file: 32 cells holding 0. */
  const Zeros: seq<nat> := [0, 0, 0, 0, 0, 0, 0, 0, 0, 0, 0, 0, 0, 0, 0, 0, 0, 0, 0, 0, 0, 0, 0, 0, 0, 0, 0, 0, 0, 0, 0, 0]

  /** The register-file invariant: 32 cells of SIZE bytes. */
  ghost predicate WellFormed(regs: seq<nat>) {
    |regs| == 32 && forall i | 0 <= i < 32 :: regs[i] < Pow2(8 * SIZE)
  }

  /** `registers[key].get(n, signed=signed)`. */
  function ReadReg(regs: seq<nat>, key: RegKey, n: int, signed: bool): (r: Result<int>)
    requires |regs| == 32
    ensures RegisterIndex(key).Err? ==> r == Err(RegisterIndex(key).error)
    ensures RegisterIndex(key).Ok? ==> r == CellGet(regs[RegisterIndex(key).value], n, signed)
  {
    var i :- RegisterIndex(key);
    CellGet(regs[i], n, signed)
  }

  /** `registers[key].set(n, v)`: the new register file. Only the selected
      cell changes, and it receives what `Register.set` stores. */
  function WriteReg(regs: seq<nat>, key: RegKey, n: int, v: int): (r: Result<seq<nat>>)
    requires |regs| == 32
    ensures r.Ok? <==> RegisterIndex(key).Ok? && CellSet(SIZE, n, v).Ok?
    ensures RegisterIndex(key).Err? ==> r == Err(RegisterIndex(key).error)
    ensures r.Ok? ==> (|r.value| == 32
                       && r.value[RegisterIndex(key).value] == CellSet(SIZE, n, v).value
                       && forall j | 0 <= j < 32 && j != RegisterIndex(key).value :: r.value[j] == regs[j])
  {
    var i :- RegisterIndex(key);
    var s :- CellSet(SIZE, n, v);
    Ok(regs[i := s])
  }

  /** Every successful write keeps the register file well formed. */
  lemma WriteRegWellFormed(regs: seq<nat>, key: RegKey, n: int, v: int)
    requires WellFormed(regs)
    requires WriteReg(regs, key, n, v).Ok?
    ensures WellFormed(WriteReg(regs, key, n, v).value)
  {
  }

  /** A write of a value in the signed range of n <= SIZE bytes reads back,
      through the same key or any other key for the same cell. */
  lemma WriteThenRead(regs: seq<nat>, key: RegKey, other: RegKey, n: int, v: int)
    requires |regs| == 32 && 0 < n <= SIZE
    requires -(Pow2(8 * n - 1) as int) <= v < Pow2(8 * n - 1)
    requires RegisterIndex(key).Ok? && RegisterIndex(other) == RegisterIndex(key)
    ensures WriteReg(regs, key, n, v).Ok?
    ensures ReadReg(WriteReg(regs, key, n, v).value, other, n, true) == Ok(v)
  {
    SetGetSigned(SIZE, n, v);
  }

  /** The positional arguments of `Registers(*args)`, from the i-th on: the
      i-th argument is set into cell i at SIZE bytes. */
  function SetPositional(regs: seq<nat>, args: seq<int>, i: nat): (r: Result<seq<nat>>)
    requires |regs| == 32 && i <= |args|
    ensures r.Ok? ==> |r.value| == 32
    decreases |args| - i
  {
    if i == |args| then Ok(regs)
    else
      var next :- WriteReg(regs, Num(i), SIZE, args[i]);
      SetPositional(next, args, i + 1)
  }

  /** The keyword arguments of `Registers(**kwargs)`, from the i-th on: each
      names a register through the register-name table. */
  function SetKeywords(regs: seq<nat>, kwargs: seq<(string, int)>, i: nat): (r: Result<seq<nat>>)
    requires |regs| == 32 && i <= |kwargs|
    ensures r.Ok? ==> |r.value| == 32
    decreases |kwargs| - i
  {
    if i == |kwargs| then Ok(regs)
    else
      var next :- WriteReg(regs, Name(kwargs[i].0), SIZE, kwargs[i].1);
      SetKeywords(next, kwargs, i + 1)
  }

  /** The register file `Registers(*args, **kwargs)` builds. */
  function InitialRegisters(args: seq<int>, kwargs: seq<(string, int)>): Result<seq<nat>> {
    var afterArgs :- SetPositional(Zeros, args, 0);
    SetKeywords(afterArgs, kwargs, 0)
  }

  /** More than 32 positional arguments are IndexError: the 33rd has no cell. */
  lemma {:induction false} TooManyPositional(regs: seq<nat>, args: seq<int>, i: nat)
    requires |regs| == 32 && i <= 32 < |args|
    requires forall j | i <= j < |args| :: 0 <= args[j] < Pow2(8 * SIZE)
    ensures SetPositional(regs, args, i) == Err(IndexError)
    decreases 32 - i
  {
    if i < 32 {
      SetGetUnsigned(SIZE, SIZE, args[i]);
      TooManyPositional(WriteReg(regs, Num(i), SIZE, args[i]).value, args, i + 1);
    }
  }

  /** The positional half of the example below. */
  lemma PositionalExample()
    ensures SetPositional(Zeros, [0x00, 0x11, 0x22, 0x33, 0x44], 0)
      == Ok(Zeros[1 := 0x11][2 := 0x22][3 := 0x33][4 := 0x44])
  {
    var args := [0x00, 0x11, 0x22, 0x33, 0x44];
    Pow2Table();
    assert forall v | 0 <= v < 0x100 :: CellSet(SIZE, SIZE, v) == Ok(v);
    var r4 := Zeros[1 := 0x11][2 := 0x22][3 := 0x33][4 := 0x44];
    assert SetPositional(r4, args, 5) == Ok(r4);
    assert SetPositional(Zeros[1 := 0x11][2 := 0x22][3 := 0x33], args, 4) == Ok(r4);
    assert SetPositional(Zeros[1 := 0x11][2 := 0x22], args, 3) == Ok(r4);
    assert SetPositional(Zeros[1 := 0x11], args, 2) == Ok(r4);
    assert SetPositional(Zeros, args, 1) == Ok(r4);
    assert Zeros[0 := 0] == Zeros;
  }

  /** The keyword half of the example below. */
  lemma KeywordExample(regs: seq<nat>)
    requires |regs| == 32
    ensures SetKeywords(regs, [("t5", 0x55), ("s6", 0x66)], 0) == Ok(regs[30 := 0x55][22 := 0x66])
  {
    var kwargs := [("t5", 0x55), ("s6", 0x66)];
    Pow2Table();
    AbiExamples();
    var r6 := regs[30 := 0x55][22 := 0x66];
    assert SetKeywords(r6, kwargs, 2) == Ok(r6);
    assert SetKeywords(regs[30 := 0x55], kwargs, 1) == Ok(r6);
  }

  /** `Registers(0x00, 0x11, 0x22, 0x33, 0x44, t5=0x55, s6=0x66)` holds
      those values in cells 0-4, 30 and 22 and 0 elsewhere. */
  lemma InitialRegistersExample()
    ensures InitialRegisters([0x00, 0x11, 0x22, 0x33, 0x44], [("t5", 0x55), ("s6", 0x66)])
      == Ok(Zeros[1 := 0x11][2 := 0x22][3 := 0x33][4 := 0x44][30 := 0x55][22 := 0x66])
  {
    PositionalExample();
    KeywordExample(Zeros[1 := 0x11][2 := 0x22][3 := 0x33][4 := 0x44]);
  }

  /** The register file: `Registers`, whose 32 cells are held as values. */
  class Registers {
    var values: seq<nat>

    ghost predicate Valid()
      reads this
    {
      WellFormed(values)
    }

    /** `Registers()`. */
    constructor ()
      ensures values == Zeros && Valid()
    {
      values := Zeros;
    }

    /** `registers[key].get(n, signed=signed)`. */
    method Get(key: RegKey, n: int, signed: bool) returns (r: Result<int>)
      requires |values| == 32
      ensures r == ReadReg(values, key, n, signed)
    {
      var i := RegisterIndex(key);
      if i.Err? {
        return Err(i.error);
      }
      r := CellGet(values[i.value], n, signed);
    }

    /** `registers[key].set(n, v)`: on an error nothing changes. */
    method Set(key: RegKey, n: int, v: int) returns (raised: Option<Error>)
      requires Valid()
      modifies this
      ensures Valid()
      ensures WriteReg(old(values), key, n, v).Ok? ==> raised.None? && values == WriteReg(old(values), key, n, v).value
      ensures WriteReg(old(values), key, n, v).Err? ==> raised == Some(WriteReg(old(values), key, n, v).error) && values == old(values)
    {
      var i := RegisterIndex(key);
      if i.Err? {
        return Some(i.error);
      }
      var stored := CellSet(SIZE, n, v);
      if stored.Err? {
        return Some(stored.error);
      }
      values := values[i.value := stored.value];
      return None;
    }

    /** The body of `Registers.__init__(*args, **kwargs)`, run on `Registers()`:
        it succeeds exactly when `InitialRegisters` does and then holds its
        register file. */
    method Init(args: seq<int>, kwargs: seq<(string, int)>) returns (raised: Option<Error>)
      requires values == Zeros
      modifies this
      ensures Valid()
      ensures InitialRegisters(args, kwargs).Ok? ==> raised.None? && values == InitialRegisters(args, kwargs).value
      ensures InitialRegisters(args, kwargs).Err? ==> raised == Some(InitialRegisters(args, kwargs).error)
    {
      for i := 0 to |args|
        invariant Valid()
        invariant SetPositional(Zeros, args, 0) == SetPositional(values, args, i)
      {
        raised := Set(Num(i), SIZE, args[i]);
        if raised.Some? {
          return;
        }
      }
      for i := 0 to |kwargs|
        invariant Valid()
        invariant InitialRegisters(args, kwargs) == SetKeywords(values, kwargs, i)
      {
        raised := Set(Name(kwargs[i].0), SIZE, kwargs[i].1);
        if raised.Some? {
          return;
        }
      }
      raised := None;
    }

    /** `Registers.copy()`: a fresh register file with the same contents. */
    method Copy() returns (c: Registers)
      ensures fresh(c) && c.values == values
    {
      c := new Registers();
      c.values := values;
    }
  }

  // ---------------------------------------------------------------------
  // The memory

  /** Every address in [addr, addr + n) holds a cell. */
  predicate Mapped(mem: map<int, nat>, addr: int, n: int) {
    forall a | addr <= a < addr + n :: a in mem
  }

  /** Every cell of the memory holds a byte. */
  ghost predicate ByteCells(mem: map<int, nat>) {
    forall a | a in mem :: mem[a] < 256
  }

  /** 2^(8n) is 256 times 2^(8(n-1)). */
  lemma BytePow(n: nat)
    requires n > 0
    ensures Pow2(8 * n) == 256 * Pow2(8 * (n - 1))
  {
    Pow2Add(8, 8 * (n - 1));
    assert 8 + 8 * (n - 1) == 8 * n;
    Pow2Byte();
  }

  /** The n bytes at addr read as one little-endian unsigned number: the
      byte at addr is the least significant. */
  function Assemble(mem: map<int, nat>, addr: int, n: nat): (r: nat)
    requires Mapped(mem, addr, n)
    ensures r < Pow2(8 * n)
    decreases n
  {
    if n == 0 then 0
    else
      var rest := Assemble(mem, addr + 1, n - 1);
      BytePow(n);
      mem[addr] % 256 + 256 * rest
  }

  /** `Memory.read(addr, n, signed=signed)`. The bytes are looked up in the
      dictionary itself, so a byte that was never mapped is KeyError; a
      width of 0 or less reads 0, and a signed read of such a width shifts
      by a negative count, ValueError. A signed read sign-extends from
      bit 8n-1. */
  function MemRead(mem: map<int, nat>, addr: int, n: int, signed: bool): (r: Result<int>)
    ensures r.Err? <==> !Mapped(mem, addr, n) || (signed && n <= 0)
    ensures r.Err? ==> r.error == (if Mapped(mem, addr, n) then ValueError else KeyError)
    ensures r.Ok? && n <= 0 ==> r.value == 0
    ensures r.Ok? && n > 0 && !signed ==> r.value == Assemble(mem, addr, n)
    ensures r.Ok? && signed ==> n > 0 && r.value == CellGet(Assemble(mem, addr, n), n, true).value
  {
    if !Mapped(mem, addr, n) then Err(KeyError)
    else if n <= 0 then (if signed then Err(ValueError) else Ok(0))
    else
      var v := Assemble(mem, addr, n);
      DivModUnique(v, Pow2(8 * n), 0, v);
      if !signed then Ok(v)
      else Ok(if Bit(v, 8 * n - 1) then v - Pow2(8 * n) else v)
  }

  /** `Memory.write(addr, n, value)`: byte addr+i receives
      `(value >> 8i) & 0xff` for i < n, a fresh cell either way. */
  function WriteBytes(mem: map<int, nat>, addr: int, n: int, v: int): map<int, nat>
    decreases n
  {
    if n <= 0 then mem
    else WriteBytes(mem[addr := v % 256], addr + 1, n - 1, v / 256)
  }

  /** A write maps exactly the n addresses from addr on, gives the i-th
      of them byte i of v, and leaves every other cell as it was. */
  lemma {:induction false} WriteBytesCells(mem: map<int, nat>, addr: int, n: int, v: int)
    ensures forall a :: a in WriteBytes(mem, addr, n, v) <==> a in mem || addr <= a < addr + n
    ensures forall a | addr <= a < addr + n :: WriteBytes(mem, addr, n, v)[a] == Field(v, 8 * (a - addr), 8)
    ensures forall a | a in mem && !(addr <= a < addr + n) :: WriteBytes(mem, addr, n, v)[a] == mem[a]
    decreases n
  {
    if n > 0 {
      var r := WriteBytes(mem, addr, n, v);
      assert r == WriteBytes(mem[addr := v % 256], addr + 1, n - 1, v / 256);
      WriteBytesCells(mem[addr := v % 256], addr + 1, n - 1, v / 256);
      Pow2Byte();
      forall a | addr + 1 <= a < addr + n
        ensures r[a] == Field(v, 8 * (a - addr), 8)
      {
        FieldShift(v, 8, 8 * (a - addr - 1), 8);
      }
    }
  }

  /** One step of a write: the lowest byte, then the rest one address up. */
  lemma WriteBytesStep(mem: map<int, nat>, addr: int, n: int, v: int)
    requires n > 0
    ensures WriteBytes(mem, addr, n, v) == WriteBytes(mem[addr := v % 256], addr + 1, n - 1, v / 256)
  {
  }

  /** A write keeps every cell a byte. */
  lemma WriteKeepsBytes(mem: map<int, nat>, addr: int, n: int, v: int)
    requires ByteCells(mem)
    ensures ByteCells(WriteBytes(mem, addr, n, v))
  {
    WriteBytesCells(mem, addr, n, v);
    Pow2Table();
  }

  /** Reading back what was written gives its low n bytes unsigned. */
  lemma {:induction false} ReadAfterWrite(mem: map<int, nat>, addr: int, n: nat, v: int)
    ensures Mapped(WriteBytes(mem, addr, n, v), addr, n)
    ensures Assemble(WriteBytes(mem, addr, n, v), addr, n) == v % Pow2(8 * n)
    decreases n
  {
    WriteMaps(mem, addr, n, v);
    if n > 0 {
      var s := WriteBytes(mem, addr, n, v);
      WriteBytesStep(mem, addr, n, v);
      ReadAfterWrite(mem[addr := v % 256], addr + 1, n - 1, v / 256);
      WriteLowByte(mem, addr, n, v);
      var rest := Assemble(s, addr + 1, n - 1);
      assert Assemble(s, addr, n) == v % 256 + 256 * rest;
      ByteMod(v, n);
    }
  }

  /** A write maps the n addresses it covers. */
  lemma WriteMaps(mem: map<int, nat>, addr: int, n: int, v: int)
    ensures Mapped(WriteBytes(mem, addr, n, v), addr, n)
  {
    WriteBytesCells(mem, addr, n, v);
  }

  /** The first byte written is the low byte of the value. */
  lemma WriteLowByte(mem: map<int, nat>, addr: int, n: int, v: int)
    requires n > 0
    ensures addr in WriteBytes(mem, addr, n, v) && WriteBytes(mem, addr, n, v)[addr] == v % 256
  {
    WriteBytesCells(mem, addr, n, v);
    Pow2Byte();
    assert Field(v, 0, 8) == v % 256;
  }

  /** The low n bytes of v are its low byte and, above it, the low n-1
      bytes of v shifted down by one byte. */
  lemma ByteMod(v: int, n: nat)
    requires n > 0
    ensures v % Pow2(8 * n) == v % 256 + 256 * ((v / 256) % Pow2(8 * (n - 1)))
  {
    BytePow(n);
    DivModNest(v, 256, Pow2(8 * (n - 1)));
  }

  /** After `write(addr, n, v)` a read of the same n > 0 bytes returns v
      modulo 2^(8n) unsigned, and v itself signed when v lies in the signed
      range of n bytes. */
  lemma WriteThenReadMemory(mem: map<int, nat>, addr: int, n: int, v: int)
    requires n > 0
    ensures MemRead(WriteBytes(mem, addr, n, v), addr, n, false) == Ok(v % Pow2(8 * n))
    ensures -(Pow2(8 * n - 1) as int) <= v < Pow2(8 * n - 1) ==>
              MemRead(WriteBytes(mem, addr, n, v), addr, n, true) == Ok(v)
  {
    ReadAfterWrite(mem, addr, n, v);
    if -(Pow2(8 * n - 1) as int) <= v < Pow2(8 * n - 1) {
      SetGetSigned(n, n, v);
    }
  }

  /** A read depends only on the bytes it covers. */
  lemma {:induction false} AssembleLocal(m1: map<int, nat>, m2: map<int, nat>, addr: int, n: nat)
    requires Mapped(m1, addr, n) && Mapped(m2, addr, n)
    requires forall a | addr <= a < addr + n :: m1[a] == m2[a]
    ensures Assemble(m1, addr, n) == Assemble(m2, addr, n)
    decreases n
  {
    if n > 0 {
      AssembleLocal(m1, m2, addr + 1, n - 1);
    }
  }

  /** A write leaves every read of other bytes as it was. */
  lemma WriteElsewhere(mem: map<int, nat>, addr: int, n: int, other: int, k: int, v: int, signed: bool)
    requires other + k <= addr || addr + n <= other
    ensures MemRead(WriteBytes(mem, other, k, v), addr, n, signed) == MemRead(mem, addr, n, signed)
  {
    var s := WriteBytes(mem, other, k, v);
    WriteBytesCells(mem, other, k, v);
    assert Mapped(s, addr, n) <==> Mapped(mem, addr, n);
    if Mapped(mem, addr, n) && n > 0 {
      AssembleLocal(s, mem, addr, n);
    }
  }

  /** The memory after the writes of the memory test: bytes 0x00-0x0f
      hold 01 23 45 67 89 ab cd ef fe dc ba 98 76 54 32 10. */
  function TestMemory(): map<int, nat> {
    var m1 := WriteBytes(map[], 0, 1, 0x01);
    var m2 := WriteBytes(m1, 1, 1, 0x23);
    var m3 := WriteBytes(m2, 2, 2, 0x6745);
    var m4 := WriteBytes(m3, 4, 4, 0xefcdab89);
    WriteBytes(m4, 8, 8, 0x1032547698badcfe)
  }

  /** Reading the word at 4 gives 4023233417 unsigned and -271733879
      signed. */
  lemma MemoryExample()
    ensures MemRead(TestMemory(), 4, 4, false) == Ok(4023233417)
    ensures MemRead(TestMemory(), 4, 4, true) == Ok(-271733879)
  {
    var m3 := WriteBytes(WriteBytes(WriteBytes(map[], 0, 1, 0x01), 1, 1, 0x23), 2, 2, 0x6745);
    var m4 := WriteBytes(m3, 4, 4, 0xefcdab89);
    Pow2Table();
    assert Pow2(32) == 4294967296 by {
      Pow2Add(16, 16);
    }
    WriteThenReadMemory(m3, 4, 4, 0xefcdab89);
    WriteElsewhere(m4, 4, 4, 8, 8, 0x1032547698badcfe, false);
    WriteElsewhere(m4, 4, 4, 8, 8, 0x1032547698badcfe, true);
    ReadAfterWrite(m3, 4, 4, 0xefcdab89);
    SetGetUnsigned(4, 4, 0xefcdab89);
  }

  /** The memory: `Memory`, a dictionary from address to one-byte cell,
      held as the cells' values. */
  class Memory {
    var values: map<int, nat>

    ghost predicate Valid()
      reads this
    {
      ByteCells(values)
    }

    /** `Memory()`: no address is mapped. */
    constructor ()
      ensures values == map[] && Valid()
    {
      values := map[];
    }

    /** `memory[addr]`: the cell at addr, inserted with 0 when missing. */
    method Cell(addr: int) returns (value: nat)
      modifies this
      ensures values == if addr in old(values) then old(values) else old(values)[addr := 0]
      ensures addr in values && value == values[addr]
    {
      if addr !in values {
        values := values[addr := 0];
      }
      value := values[addr];
    }

    /** `memory.read(addr, n, signed=signed)`: the bytes are gathered from
        the highest down, each shifting the sum one byte up. */
    method Read(addr: int, n: int, signed: bool) returns (r: Result<int>)
      ensures r == MemRead(values, addr, n, signed)
    {
      var value := 0;
      var i := if n > 0 then n else 0;
      while i > 0
        invariant 0 <= i && (n > 0 ==> i <= n)
        invariant Mapped(values, addr + i, n - i)
        invariant n > 0 ==> value == Assemble(values, addr + i, n - i)
        invariant n <= 0 ==> value == 0
      {
        i := i - 1;
        if addr + i !in values {
          return Err(KeyError);
        }
        value := value * 256 + values[addr + i] % 256;
      }
      if signed {
        if n <= 0 {
          return Err(ValueError);
        }
        if Bit(value, 8 * n - 1) {
          value := value - Pow2(8 * n);
        }
      }
      return Ok(value);
    }

    /** `memory.write(addr, n, value)`: byte by byte, lowest first, the
        value shifting down one byte each time. */
    method Write(addr: int, n: int, v: int)
      modifies this
      ensures values == WriteBytes(old(values), addr, n, v)
    {
      if n <= 0 {
        return;
      }
      var rest, i := v, 0;
      ghost var target := WriteBytes(values, addr, n, v);
      while i < n
        invariant 0 <= i <= n
        invariant target == WriteBytes(values, addr + i, n - i, rest)
      {
        WriteBytesStep(values, addr + i, n - i, rest);
        values, rest, i := values[addr + i := rest % 256], rest / 256, i + 1;
      }
    }

    /** `memory.copy()`: a fresh memory with the same cells. */
    method Copy() returns (c: Memory)
      ensures fresh(c) && c.values == values
    {
      c := new Memory();
      c.values := values;
    }
  }
}
