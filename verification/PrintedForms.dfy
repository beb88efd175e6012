/** The printed text of every instruction, letter by letter. */
module PrintedForms {
  import opened Basics
  import opened Codec
  import opened Text
  import opened Assembly
  import opened Disassembly
  import Container
  import Spellings

  // --- Numbers ---

  /** Digits are lower-case, of the radix, without leading zeros, and as many as needed. */
  lemma {:induction false} DigitsMean(n: nat, radix: Radix)
    ensures var d := Digits(n, radix);
            && d != "" && (n == 0 <==> d[0] == '0') && (n == 0 ==> d == "0")
            && (forall i :: 0 <= i < |d| ==> d[i] in "0123456789abcdef"[..radix])
    decreases n
  {
    DigitLetter(n % radix, radix);
    if n >= radix {
      DivideSmaller(n, radix);
      DigitsMean(n / radix, radix);
    }
  }

  /** Fewer digits than the power of the radix that bounds the number. */
  lemma {:induction false} DigitCount(n: nat, radix: Radix, k: nat)
    requires k > 0 && n < Spellings.Power(radix, k)
    ensures |Digits(n, radix)| <= k
    decreases n
  {
    if n >= radix {
      DivideSmaller(n, radix);
      assert k > 1 by {
        assert Spellings.Power(radix, 1) == Spellings.Power(radix, 0) * radix;
      }
      QuotientBelow(n, radix, Spellings.Power(radix, k - 1));
      DigitCount(n / radix, radix, k - 1);
    }
  }

  lemma QuotientBelow(n: nat, radix: Radix, p: nat)
    requires n < p * radix
    ensures n / radix < p
  {
    if radix == 10 {
      assert n < p * 10;
    } else {
      assert radix == 16 && n < p * 16;
    }
  }

  lemma DigitLetter(d: nat, radix: Radix)
    requires d < radix
    ensures DigitChar(d) in "0123456789abcdef"[..radix] && (DigitChar(d) == '0' <==> d == 0)
  {
    assert DigitChar(d) == "0123456789abcdef"[..radix][d];
  }

  /** Hexadecimal: "0x", and zeros only to fill up to the width. */
  lemma HexMeans(n: nat, width: nat)
    ensures var s, d := Hex(n, width), Digits(n, 16);
            && |s| == 2 + (if |d| < width then width else |d|)
            && s[..2] == "0x" && s[|s| - |d|..] == d
            && forall i :: 2 <= i < |s| - |d| ==> s[i] == '0'
  {
  }

  /** Decimals: the digits, after a minus where negative. */
  lemma DecimalMeans(n: int)
    requires n >= 0
    ensures Decimal(n) == Digits(n, 10) && SignedDecimal(n) == Digits(n, 10)
    ensures n > 0 ==> SignedDecimal(-n) == "-" + Digits(n, 10)
  {
  }

  /** A decimal point is added exactly where the display form has neither point nor exponent. */
  lemma FloatForm(f: FloatText, bits: u64)
    ensures var s := f.display(bits);
            FormatFloat(f, bits) == if '.' !in s && 'e' !in s && 'E' !in s then s + ".0" else s
  {
  }

  // --- Instructions ---

  lemma NoOperand(f: FloatText, i: Instruction)
    requires Operands(f, i) == []
    ensures PrintInstruction(f, i) == Mnemonic(i)
  {
    assert [Mnemonic(i)] + [] == [Mnemonic(i)];
  }

  lemma OneOperandForm(f: FloatText, i: Instruction, op: string)
    requires Operands(f, i) == [op]
    ensures PrintInstruction(f, i) == Mnemonic(i) + " " + op
  {
    SpacedTwo(Mnemonic(i), op);
    assert [Mnemonic(i)] + [op] == [Mnemonic(i), op];
  }

  lemma SpacedTwo(a: string, b: string)
    ensures Spaced([a, b]) == a + " " + b
  {
    assert [a, b][1..] == [b];
  }

  lemma BareForms(f: FloatText)
    ensures PrintInstruction(f, Pop) == "pop" && PrintInstruction(f, Dup) == "dup"
    ensures PrintInstruction(f, Swap) == "swap" && PrintInstruction(f, Return) == "return"
    ensures PrintInstruction(f, Halt) == "halt"
  {
    NoOperand(f, Pop);
    NoOperand(f, Dup);
    NoOperand(f, Swap);
    NoOperand(f, Return);
    NoOperand(f, Halt);
  }

  lemma BareDeviceForms(f: FloatText)
    ensures PrintInstruction(f, GlobalR) == "global_r"
    ensures PrintInstruction(f, GlobalRz) == "global_rz" && PrintInstruction(f, CZ) == "cz"
    ensures PrintInstruction(f, AwaitMeasure) == "await_measure"
    ensures PrintInstruction(f, SetDetector) == "set_detector"
    ensures PrintInstruction(f, SetObservable) == "set_observable"
  {
    NoOperand(f, GlobalR);
    NoOperand(f, GlobalRz);
    NoOperand(f, CZ);
    NoOperand(f, AwaitMeasure);
    NoOperand(f, SetDetector);
    NoOperand(f, SetObservable);
  }

  lemma ConstantForms(f: FloatText, bits: u64, n: i64, v: u64, d0: u32, d1: u32)
    ensures PrintInstruction(f, ConstFloat(bits)) == "const_float" + " " + FormatFloat(f, bits)
    ensures PrintInstruction(f, ConstInt(n)) == "const_int" + " " + SignedDecimal(n)
    ensures PrintInstruction(f, ConstLoc(v)) == "const_loc" + " " + Hex(v, 8)
    ensures PrintInstruction(f, ConstLane(d0, d1)) == "const_lane" + " " + Hex(d0 + d1 * 0x1_0000_0000, 16)
    ensures PrintInstruction(f, ConstZone(d0)) == "const_zone" + " " + Hex(d0, 8)
  {
    OneOperandForm(f, ConstFloat(bits), FormatFloat(f, bits));
    OneOperandForm(f, ConstInt(n), SignedDecimal(n));
    OneOperandForm(f, ConstLoc(v), Hex(v, 8));
    OneOperandForm(f, ConstLane(d0, d1), Hex(Join(d0, d1), 16));
    OneOperandForm(f, ConstZone(d0), Hex(d0, 8));
  }

  lemma ArityForms(f: FloatText, n: u32)
    ensures PrintInstruction(f, InitialFill(n)) == "initial_fill" + " " + Decimal(n)
    ensures PrintInstruction(f, Fill(n)) == "fill" + " " + Decimal(n)
    ensures PrintInstruction(f, MoveAtoms(n)) == "move" + " " + Decimal(n)
    ensures PrintInstruction(f, LocalR(n)) == "local_r" + " " + Decimal(n)
    ensures PrintInstruction(f, LocalRz(n)) == "local_rz" + " " + Decimal(n)
    ensures PrintInstruction(f, Measure(n)) == "measure" + " " + Decimal(n)
  {
    OneOperandForm(f, InitialFill(n), Decimal(n));
    OneOperandForm(f, Fill(n), Decimal(n));
    OneOperandForm(f, MoveAtoms(n), Decimal(n));
    OneOperandForm(f, LocalR(n), Decimal(n));
    OneOperandForm(f, LocalRz(n), Decimal(n));
    OneOperandForm(f, Measure(n), Decimal(n));
  }

  /** A zero second dimension is not printed. */
  lemma ArrayForms(f: FloatText, tag: u8, dim0: u16, dim1: u16)
    ensures PrintInstruction(f, NewArray(tag, dim0, 0)) == "new_array" + " " + (Decimal(tag) + " " + Decimal(dim0))
    ensures dim1 != 0 ==>
              PrintInstruction(f, NewArray(tag, dim0, dim1))
              == "new_array" + " " + (Decimal(tag) + " " + (Decimal(dim0) + " " + Decimal(dim1)))
    ensures PrintInstruction(f, GetItem(dim0)) == "get_item" + " " + Decimal(dim0)
  {
    OneOperandForm(f, GetItem(dim0), Decimal(dim0));
    SpacedThree("new_array", Decimal(tag), Decimal(dim0));
    SpacedFour("new_array", Decimal(tag), Decimal(dim0), Decimal(dim1));
  }

  lemma SpacedThree(a: string, b: string, c: string)
    ensures Spaced([a] + [b, c]) == a + " " + (b + " " + c)
  {
    SpacedTwo(b, c);
    SpacedCons(a, [b, c]);
  }

  lemma SpacedCons(a: string, rest: seq<string>)
    requires rest != []
    ensures Spaced([a] + rest) == a + " " + Spaced(rest)
  {
    assert ([a] + rest)[1..] == rest;
  }

  lemma SpacedFour(a: string, b: string, c: string, d: string)
    ensures Spaced([a] + [b, c, d]) == a + " " + (b + " " + (c + " " + d))
  {
    SpacedTwo(c, d);
    SpacedCons(b, [c, d]);
    SpacedCons(a, [b, c, d]);
    assert [b] + [c, d] == [b, c, d];
  }

  /** A program starts with its version line. */
  lemma VersionForm(f: FloatText, p: Container.Program)
    ensures ".version " + Decimal(p.version.major) + "." + Decimal(p.version.minor) + "\n" <= Print(f, p)
  {
    var lines := [PrintVersion(p.version)] + InstructionLines(f, p.instructions);
    FirstPrinted(lines);
    assert PrintVersion(p.version) == ".version " + Decimal(p.version.major) + "." + Decimal(p.version.minor);
  }

  lemma {:induction false} FirstPrinted(lines: seq<string>)
    requires lines != []
    ensures lines[0] + "\n" <= TextOf(lines)
  {
    var n := |lines| - 1;
    if n > 0 {
      FirstPrinted(lines[..n]);
    } else {
      assert TextOf(lines[..0]) == "";
      assert "" + lines[0] + "\n" == lines[0] + "\n";
    }
  }
}
