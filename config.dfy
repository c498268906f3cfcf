/** Configuration constants: the register width and the register-name table. */
module Config {
  import opened Bits
  import Text

  /** The width of every general-purpose register, in bytes. */
  const SIZE: nat := 8

  /** The ABI names of the register table. "sp" is bound twice, first to 2
      and then to 8 (beside "s0"); as in a Python dict display the later
      binding wins. */
  const AbiNames: map<string, nat> :=
    map[
      "zero" := 0, "ra" := 1, "sp" := 2, "gp" := 3, "tp" := 4,
      "t0" := 5, "t1" := 6, "t2" := 7,
      "s0" := 8, "sp" := 8, "s1" := 9,
      "a0" := 10, "a1" := 11, "a2" := 12, "a3" := 13,
      "a4" := 14, "a5" := 15, "a6" := 16, "a7" := 17,
      "s2" := 18, "s3" := 19, "s4" := 20, "s5" := 21, "s6" := 22,
      "s7" := 23, "s8" := 24, "s9" := 25, "s10" := 26, "s11" := 27,
      "t3" := 28, "t4" := 29, "t5" := 30, "t6" := 31
    ]

  /** The numeric names "x0" to "x31" of the register table. */
  const NumericNames: map<string, nat> :=
    map[
      "x0" := 0, "x1" := 1, "x2" := 2, "x3" := 3, "x4" := 4, "x5" := 5, "x6" := 6, "x7" := 7,
      "x8" := 8, "x9" := 9, "x10" := 10, "x11" := 11, "x12" := 12, "x13" := 13, "x14" := 14, "x15" := 15,
      "x16" := 16, "x17" := 17, "x18" := 18, "x19" := 19, "x20" := 20, "x21" := 21, "x22" := 22, "x23" := 23,
      "x24" := 24, "x25" := 25, "x26" := 26, "x27" := 27, "x28" := 28, "x29" := 29, "x30" := 30, "x31" := 31
    ]

  /** The register-name table. The table lists each ABI name beside its
      numeric name; no name occurs in both groups, so the table is the
      union of the two groups. */
  const RegistersDir: map<string, nat> := AbiNames + NumericNames

  /** SIZE bytes are 64 bits: registers hold values below 2^64. */
  lemma RegisterWidth()
    ensures 8 * SIZE == 64
    ensures Pow2(8 * SIZE) == 18446744073709551616
  {
    Pow2Table();
  }

  lemma NumericPrefix()
    ensures forall name | name in NumericNames :: |name| >= 2 && name[0] == 'x'
  {
  }

  /** An ABI name resolves through the ABI group: no numeric name shadows it. */
  lemma AbiLookup(name: string)
    requires |name| > 0 && name[0] != 'x' && name in AbiNames
    ensures name in RegistersDir && RegistersDir[name] == AbiNames[name]
  {
    NumericPrefix();
  }

  /** Every name in the table denotes one of the 32 registers. */
  lemma IndicesInRange()
    ensures forall name | name in RegistersDir :: RegistersDir[name] < 32
  {
    AbiInRange();
    NumericInRange();
  }

  lemma AbiInRange()
    ensures forall name | name in AbiNames :: AbiNames[name] < 32
  {
  }

  lemma NumericInRange()
    ensures forall name | name in NumericNames :: NumericNames[name] < 32
  {
  }

  /** The numeric name "xN" of register N. */
  function XName(n: nat): (s: string)
    ensures |s| >= 2 && s[0] == 'x'
  {
    "x" + Text.IntToString(n)
  }

  lemma XNameLookup0(n: nat)
    requires 0 <= n < 4
    ensures XName(n) in NumericNames && NumericNames[XName(n)] == n
  {
    if n == 0 {
      assert XName(0) == "x0";
    } else if n == 1 {
      assert XName(1) == "x1";
    } else if n == 2 {
      assert XName(2) == "x2";
    } else {
      assert XName(3) == "x3";
    }
  }

  lemma XNameLookup1(n: nat)
    requires 4 <= n < 8
    ensures XName(n) in NumericNames && NumericNames[XName(n)] == n
  {
    if n == 4 {
      assert XName(4) == "x4";
    } else if n == 5 {
      assert XName(5) == "x5";
    } else if n == 6 {
      assert XName(6) == "x6";
    } else {
      assert XName(7) == "x7";
    }
  }

  lemma XNameLookup2(n: nat)
    requires 8 <= n < 12
    ensures XName(n) in NumericNames && NumericNames[XName(n)] == n
  {
    if n == 8 {
      assert XName(8) == "x8";
    } else if n == 9 {
      assert XName(9) == "x9";
    } else if n == 10 {
      assert XName(10) == "x10";
    } else {
      assert XName(11) == "x11";
    }
  }

  lemma XNameLookup3(n: nat)
    requires 12 <= n < 16
    ensures XName(n) in NumericNames && NumericNames[XName(n)] == n
  {
    if n == 12 {
      assert XName(12) == "x12";
    } else if n == 13 {
      assert XName(13) == "x13";
    } else if n == 14 {
      assert XName(14) == "x14";
    } else {
      assert XName(15) == "x15";
    }
  }

  lemma XNameLookup4(n: nat)
    requires 16 <= n < 20
    ensures XName(n) in NumericNames && NumericNames[XName(n)] == n
  {
    if n == 16 {
      assert XName(16) == "x16";
    } else if n == 17 {
      assert XName(17) == "x17";
    } else if n == 18 {
      assert XName(18) == "x18";
    } else {
      assert XName(19) == "x19";
    }
  }

  lemma XNameLookup5(n: nat)
    requires 20 <= n < 24
    ensures XName(n) in NumericNames && NumericNames[XName(n)] == n
  {
    if n == 20 {
      assert XName(20) == "x20";
    } else if n == 21 {
      assert XName(21) == "x21";
    } else if n == 22 {
      assert XName(22) == "x22";
    } else {
      assert XName(23) == "x23";
    }
  }

  lemma XNameLookup6(n: nat)
    requires 24 <= n < 28
    ensures XName(n) in NumericNames && NumericNames[XName(n)] == n
  {
    if n == 24 {
      assert XName(24) == "x24";
    } else if n == 25 {
      assert XName(25) == "x25";
    } else if n == 26 {
      assert XName(26) == "x26";
    } else {
      assert XName(27) == "x27";
    }
  }

  lemma XNameLookup7(n: nat)
    requires 28 <= n < 32
    ensures XName(n) in NumericNames && NumericNames[XName(n)] == n
  {
    if n == 28 {
      assert XName(28) == "x28";
    } else if n == 29 {
      assert XName(29) == "x29";
    } else if n == 30 {
      assert XName(30) == "x30";
    } else {
      assert XName(31) == "x31";
    }
  }

  /** "xN" names register N for every N in 0..31, so every register has a name. */
  lemma XNamesIndex()
    ensures forall n | 0 <= n < 32 :: XName(n) in RegistersDir && RegistersDir[XName(n)] == n
  {
    forall n | 0 <= n < 32
      ensures XName(n) in RegistersDir && RegistersDir[XName(n)] == n
    {
      if n < 4 {
        XNameLookup0(n);
      } else if n < 8 {
        XNameLookup1(n);
      } else if n < 12 {
        XNameLookup2(n);
      } else if n < 16 {
        XNameLookup3(n);
      } else if n < 20 {
        XNameLookup4(n);
      } else if n < 24 {
        XNameLookup5(n);
      } else if n < 28 {
        XNameLookup6(n);
      } else {
        XNameLookup7(n);
      }
    }
  }

  lemma AbiNeverTwo()
    ensures forall name | name in AbiNames :: AbiNames[name] != 2
  {
  }

  lemma NumericTwo()
    ensures forall name | name in NumericNames && NumericNames[name] == 2 :: name == "x2"
  {
  }

  /** "sp" keeps its later binding: it names register 8 (like "s0"), and
      register 2 is reachable only as "x2". */
  lemma StackPointerRebound()
    ensures "sp" in RegistersDir && RegistersDir["sp"] == 8
    ensures "s0" in RegistersDir && RegistersDir["s0"] == 8
    ensures forall name | name in RegistersDir && RegistersDir[name] == 2 :: name == "x2"
  {
    SpIsEight();
    S0IsEight();
    OnlyX2IsTwo();
  }

  lemma SpIsEight()
    ensures "sp" in RegistersDir && RegistersDir["sp"] == 8
  {
    AbiLookup("sp");
  }

  lemma S0IsEight()
    ensures "s0" in RegistersDir && RegistersDir["s0"] == 8
  {
    AbiLookup("s0");
  }

  /** Register 2 has the one name "x2". */
  lemma OnlyX2IsTwo()
    ensures forall name | name in RegistersDir && RegistersDir[name] == 2 :: name == "x2"
  {
    forall name | name in RegistersDir && RegistersDir[name] == 2
      ensures name == "x2"
    {
      if name in NumericNames {
        NumericTwo();
      } else {
        AbiNeverTwo();
      }
    }
  }

  lemma AbiPrefix()
    ensures forall name | name in AbiNames :: |name| >= 2 && name[0] != 'x'
  {
  }

  /** No ABI name is shadowed by a numeric name: each resolves to its ABI number. */
  lemma AbiNamesResolve()
    ensures forall name | name in AbiNames :: name in RegistersDir && RegistersDir[name] == AbiNames[name]
  {
    AbiPrefix();
    forall name | name in AbiNames
      ensures name in RegistersDir && RegistersDir[name] == AbiNames[name]
    {
      AbiLookup(name);
    }
  }

  /** The names used when the register file is built from keywords:
      "t5" is register 30 and "s6" is register 22. */
  lemma AbiExamples()
    ensures "t5" in RegistersDir && RegistersDir["t5"] == 30
    ensures "s6" in RegistersDir && RegistersDir["s6"] == 22
  {
    AbiLookup("t5");
    AbiLookup("s6");
  }
}
