/** What the coursework's instructions compute. */
module LegacyArithmetic {
  import opened Words
  import opened Bits
  import opened Machine
  import opened Legacy

  // ---------------------------------------------------------------------------------------
  // What an instruction may change
  // ---------------------------------------------------------------------------------------

  /** The program exits on a division by zero and on nothing else. */
  lemma ExitsIff(op: Op, c: Cpu)
    ensures Exec(op, c) == None <==> op.Divi? && c.registers[op.rt] == 0
  {
  }

  /** An instruction writes one register or both of hi and low, and a dump, snapshot or MIGRATE nothing. */
  lemma WritesAlone(op: Op, c: Cpu, r: RegIndex)
    requires Exec(op, c).Some?
    ensures var after := Exec(op, c).value;
            match op
            case LoadImm(rd, val) =>
              after.hi == c.hi && after.low == c.low && after.registers[r] == if r == rd then val else c.registers[r]
            case Arith(_, rd, _, _) =>
              after.hi == c.hi && after.low == c.low && (r != rd ==> after.registers[r] == c.registers[r])
            case ArithImm(_, rt, _, _) =>
              after.hi == c.hi && after.low == c.low && (r != rt ==> after.registers[r] == c.registers[r])
            case ShiftLeft(rd, _, _) =>
              after.hi == c.hi && after.low == c.low && (r != rd ==> after.registers[r] == c.registers[r])
            case ShiftRight(rd, _, _) =>
              after.hi == c.hi && after.low == c.low && (r != rd ==> after.registers[r] == c.registers[r])
            case Mult(_, _) => after.registers == c.registers
            case Divi(_, _) => after.registers == c.registers
            case _ => after == c
  {
    hide Evaluate, TruncDiv, TruncRem, Pow2;
  }

  // ---------------------------------------------------------------------------------------
  // Sums, differences and products
  // ---------------------------------------------------------------------------------------

  /** Subtracting a register and adding it back gives the first operand again, wrapped or not. */
  lemma SubThenAdd(rd: RegIndex, rs: RegIndex, rt: RegIndex, c: Cpu)
    requires rd != rt
    ensures var subbed := Exec(Arith(Minus, rd, rs, rt), c);
            && subbed.Some? && Exec(Arith(Plus, rd, rd, rt), subbed.value).Some?
            && Exec(Arith(Plus, rd, rd, rt), subbed.value).value.registers[rd] == c.registers[rs]
  {
    var x: int, y: int := c.registers[rs], c.registers[rt];
    var d: int := Wrap32(x - y);
    WrapModulo(x - y);
    WrapModulo(d + y);
    MultiplesAdd(Wrap32(d + y) - (d + y), d - (x - y));
    assert (Wrap32(d + y) - x) % TWO_32 == 0;
  }

  /** The lines that compute on registers alone, over whole numbers. */
  predicate Arithmetical(line: Line) {
    match line
    case Blank => true
    case Code(LoadImm(_, _)) => true
    case Code(Arith(fn, _, _, _)) => !fn.Logic?
    case Code(ArithImm(fn, _, _, _)) => !fn.Logic?
    case _ => false
  }

  function ExactResult(fn: ArithFn, x: int, y: int): int
    requires !fn.Logic?
  {
    match fn
    case Plus => x + y
    case Minus => x - y
    case Times => x * y
  }

  /** A line over integers of any size. */
  function ExactLine(line: Line, regs: seq<int>): (r: seq<int>)
    requires |regs| == 32 && Arithmetical(line)
    ensures |r| == 32
  {
    match line
    case Blank => regs
    case Code(LoadImm(rd, val)) => regs[rd := val]
    case Code(Arith(fn, rd, rs, rt)) => regs[rd := ExactResult(fn, regs[rs], regs[rt])]
    case Code(ArithImm(fn, rt, rs, imm)) => regs[rt := ExactResult(fn, regs[rs], imm)]
  }

  function ExactLines(lines: seq<Line>, regs: seq<int>): (r: seq<int>)
    requires |regs| == 32 && forall k | 0 <= k < |lines| :: Arithmetical(lines[k])
    ensures |r| == 32
    decreases |lines|
  {
    if lines == [] then regs else ExactLines(lines[1..], ExactLine(lines[0], regs))
  }

  lemma ResultIsCongruent(fn: ArithFn, x: int, y: int, a: int, b: int)
    requires !fn.Logic? && (x - a) % TWO_32 == 0 && (y - b) % TWO_32 == 0
    ensures (Evaluate(fn, x, y) - ExactResult(fn, a, b)) % TWO_32 == 0
  {
    var exact := ExactResult(fn, x, y);
    WrapModulo(exact);
    match fn {
      case Plus => CongruentSum(x, y, a, b);
      case Minus => CongruentSum(x, y, a, b);
      case Times => CongruentProduct(x, y, a, b);
    }
    MultiplesAdd(Wrap32(exact) - exact, exact - ExactResult(fn, a, b));
  }

  lemma LineIsCongruent(op: Op, c: Cpu, exact: seq<int>)
    requires Arithmetical(Code(op)) && |exact| == 32 && Congruent(c.registers, exact)
    ensures Exec(op, c).Some? && Congruent(Exec(op, c).value.registers, ExactLine(Code(op), exact))
  {
    hide Evaluate, ExactResult;
    match op {
      case LoadImm(_, _) =>
      case Arith(fn, rd, rs, rt) =>
        ResultIsCongruent(fn, c.registers[rs], c.registers[rt], exact[rs], exact[rt]);
      case ArithImm(fn, rt, rs, imm) =>
        ResultIsCongruent(fn, c.registers[rs], imm, exact[rs], imm);
    }
  }

  lemma {:induction false} LinesAreCongruent(lines: seq<Line>, c: Cpu, exact: seq<int>)
    requires forall k | 0 <= k < |lines| :: Arithmetical(lines[k])
    requires |exact| == 32 && Congruent(c.registers, exact)
    ensures RunLines(lines, c).Some?
    ensures Congruent(RunLines(lines, c).value.registers, ExactLines(lines, exact))
    decreases |lines|
  {
    hide Exec, Congruent;
    if lines != [] {
      match lines[0] {
        case Blank => LinesAreCongruent(lines[1..], c, exact);
        case Code(op) =>
          LineIsCongruent(op, c, exact);
          LinesAreCongruent(lines[1..], Exec(op, c).value, ExactLine(lines[0], exact));
      }
    }
  }

  /** A program of li, add, addi, sub, subu, mul and blank lines runs through, and leaves in a register
      what unbounded arithmetic leaves there if and only if that fits in 32 bits. */
  lemma LinesExactIff(lines: seq<Line>, c: Cpu, r: RegIndex)
    requires forall k | 0 <= k < |lines| :: Arithmetical(lines[k])
    ensures RunLines(lines, c).Some?
    ensures var exact := ExactLines(lines, c.registers)[r];
            RunLines(lines, c).value.registers[r] == exact <==> -0x8000_0000 <= exact < 0x8000_0000
  {
    hide ExactLines, RunLines;
    LinesAreCongruent(lines, c, c.registers);
  }

  // ---------------------------------------------------------------------------------------
  // Bits
  // ---------------------------------------------------------------------------------------

  lemma LogicBits(f: BitFn, x: int32, y: int32, k: nat)
    requires k < 32
    ensures Bit(Evaluate(Logic(f), x, y), k) <==>
              match f
              case BitAnd => Bit(x, k) && Bit(y, k)
              case BitOr => Bit(x, k) || Bit(y, k)
              case BitXor => Bit(x, k) != Bit(y, k)
  {
    hide Bit, Bitwise;
    WrapKeepsBits(x, k);
    WrapKeepsBits(y, k);
    BitwiseActsOnBits(f, ToUint32(x), ToUint32(y), 32, k);
    WrapKeepsBits(Bitwise(f, ToUint32(x), ToUint32(y), 32), k);
  }

  /** and, or and xor, with a register or an immediate, work bit by bit on two's complement. */
  lemma LogicActsOnBits(f: BitFn, rd: RegIndex, rs: RegIndex, rt: RegIndex, imm: int32, c: Cpu, k: nat)
    requires k < 32
    ensures var both, one := Exec(Arith(Logic(f), rd, rs, rt), c), Exec(ArithImm(Logic(f), rd, rs, imm), c);
            && both.Some? && one.Some?
            && var r, i := both.value.registers[rd], one.value.registers[rd];
               var x, y := c.registers[rs], c.registers[rt];
               match f
               case BitAnd => (Bit(r, k) <==> Bit(x, k) && Bit(y, k)) && (Bit(i, k) <==> Bit(x, k) && Bit(imm, k))
               case BitOr => (Bit(r, k) <==> Bit(x, k) || Bit(y, k)) && (Bit(i, k) <==> Bit(x, k) || Bit(imm, k))
               case BitXor => (Bit(r, k) <==> Bit(x, k) != Bit(y, k)) && (Bit(i, k) <==> Bit(x, k) != Bit(imm, k))
  {
    hide Bit, Evaluate;
    LogicBits(f, c.registers[rs], c.registers[rt], k);
    LogicBits(f, c.registers[rs], imm, k);
  }

  /** sll moves the bits up and zeros in; srl moves them down and, on a signed register, repeats the sign. */
  lemma ShiftsMoveBits(rd: RegIndex, rt: RegIndex, bits: Shift, c: Cpu, k: nat)
    requires k < 32
    ensures var x := c.registers[rt];
            var left, right := Exec(ShiftLeft(rd, rt, bits), c), Exec(ShiftRight(rd, rt, bits), c);
            && left.Some? && right.Some?
            && (Bit(left.value.registers[rd], k) <==> k >= bits && Bit(x, k - bits))
            && (Bit(right.value.registers[rd], k) <==> if k + bits < 32 then Bit(x, k + bits) else x < 0)
  {
    hide Bit, Pow2;
    var x := c.registers[rt];
    WrapKeepsBits(x * Pow2(bits), k);
    ProductMovesBits(x, bits, k);
    WrapKeepsBits(x / Pow2(bits), k);
    DivisionMovesBits(x, bits, k);
    if k + bits >= 32 {
      HighBits(x, k + bits);
    }
  }

  // ---------------------------------------------------------------------------------------
  // hi and low
  // ---------------------------------------------------------------------------------------

  lemma ProductSize(x: int, y: int)
    requires -0x8000_0000 <= x <= 0x8000_0000 && -0x8000_0000 <= y <= 0x8000_0000
    ensures -0x4000_0000_0000_0000 <= x * y <= 0x4000_0000_0000_0000
  {
    AbsProduct(x, y);
    MulMonotone(Abs(x), 0x8000_0000, Abs(y));
    MulMonotone(Abs(y), 0x8000_0000, 0x8000_0000);
  }

  lemma AbsProduct(x: int, y: int)
    ensures Abs(x * y) == Abs(x) * Abs(y)
  {
    MulSigns(x, y);
    MulSigns(-x, y);
    if x < 0 && y < 0 {
      assert Abs(x) * Abs(y) == -x * -y;
      MulSigns(-x, y);
    }
    SignOfProduct(x, y);
  }

  lemma SignOfProduct(x: int, y: int)
    ensures (x >= 0 && y >= 0) || (x <= 0 && y <= 0) ==> x * y >= 0
    ensures (x >= 0 && y <= 0) || (x <= 0 && y >= 0) ==> x * y <= 0
  {
  }

  lemma HalvesRecombine(product: int)
    requires -0x4000_0000_0000_0000 <= product <= 0x4000_0000_0000_0000
    ensures Wrap32(product / TWO_32) * TWO_32 + Wrap32(product) % TWO_32 == product
  {
    assert product == product / TWO_32 * TWO_32 + product % TWO_32;
    WrapFits(product / TWO_32);
    UnwrapRoundTrip(ToUint32(product));
    assert Wrap32(product) == Wrap32(ToUint32(product));
  }

  /** mult leaves the exact 64-bit product: hi is the upper half, low the lower. */
  lemma MultIsExact(rs: RegIndex, rt: RegIndex, c: Cpu)
    ensures var after := Exec(Mult(rs, rt), c);
            var x: int, y: int := c.registers[rs], c.registers[rt];
            after.Some? && after.value.hi * 0x1_0000_0000 + after.value.low % 0x1_0000_0000 == x * y
  {
    hide Wrap32;
    var x: int, y: int := c.registers[rs], c.registers[rt];
    ProductSize(x, y);
    HalvesRecombine(x * y);
  }

  /** div leaves a quotient in low and a remainder in hi that recombine to the dividend, the remainder
      smaller than the divisor and with the dividend's sign, for all operands but the one pair whose
      quotient does not fit. */
  lemma DivRecombines(rs: RegIndex, rt: RegIndex, c: Cpu)
    requires c.registers[rt] != 0 && !(c.registers[rs] == -0x8000_0000 && c.registers[rt] == -1)
    ensures var after := Exec(Divi(rs, rt), c);
            && after.Some?
            && var x: int, y: int, q: int, r: int := c.registers[rs], c.registers[rt], after.value.low, after.value.hi;
               x == y * q + r && Abs(r) < Abs(y) && (r != 0 ==> (r < 0 <==> x < 0))
  {
    TruncDivision(c.registers[rs], c.registers[rt]);
    QuotientFits(c.registers[rs], c.registers[rt]);
  }
}
