/** The coursework's live migration: a client that runs a program up to its MIGRATE line, a decimal
    message, and a server that skips the lines already run and runs the rest. */
module Legacy {
  import opened Words
  import opened Machine
  import opened Decimals
  import opened TextSnapshot

  type Shift = x: int | 0 <= x < 32

  /** add, addu, addi, addiu; sub, subu; mul; and, andi, or, xor. */
  datatype ArithFn = Plus | Minus | Times | Logic(f: BitFn)

  /** A parsed instruction. MIGRATE carries an address, which plays no part here. */
  datatype Op =
    | LoadImm(rd: RegIndex, val: int32)
    | Arith(fn: ArithFn, rd: RegIndex, rs: RegIndex, rt: RegIndex)
    | ArithImm(fn: ArithFn, rt: RegIndex, rs: RegIndex, imm: int32)
    | ShiftLeft(rd: RegIndex, rt: RegIndex, bits: Shift)
    | ShiftRight(rd: RegIndex, rt: RegIndex, bits: Shift)
    | Mult(rs: RegIndex, rt: RegIndex)
    | Divi(rs: RegIndex, rt: RegIndex)
    | DumpState
    | SnapshotTo
    | MigrateTo

  /** A line of the program file. */
  datatype Line = Blank | Code(op: Op)

  datatype Cpu = Cpu(registers: RegisterFile, hi: int32, low: int32)

  // ---------------------------------------------------------------------------------------
  // One instruction
  // ---------------------------------------------------------------------------------------

  function Evaluate(fn: ArithFn, x: int, y: int): int32 {
    match fn
    case Plus => Wrap32(x + y)
    case Minus => Wrap32(x - y)
    case Times => Wrap32(x * y)
    case Logic(f) => Wrap32(Bitwise(f, ToUint32(x), ToUint32(y), 32))
  }

  /** None is the exit on a division by zero. MIGRATE does nothing by itself. */
  function Exec(op: Op, c: Cpu): Option<Cpu> {
    var r := c.registers;
    match op
    case LoadImm(rd, val) => Some(c.(registers := r[rd := val]))
    case Arith(fn, rd, rs, rt) => Some(c.(registers := r[rd := Evaluate(fn, r[rs], r[rt])]))
    case ArithImm(fn, rt, rs, imm) => Some(c.(registers := r[rt := Evaluate(fn, r[rs], imm)]))
    case ShiftLeft(rd, rt, bits) => Some(c.(registers := r[rd := Wrap32(r[rt] * Pow2(bits))]))
    case ShiftRight(rd, rt, bits) => Some(c.(registers := r[rd := Wrap32(r[rt] / Pow2(bits))]))
    case Mult(rs, rt) =>
      var x: int, y: int := r[rs], r[rt];
      var product := x * y;
      Some(c.(hi := Wrap32(product / TWO_32), low := Wrap32(product)))
    case Divi(rs, rt) =>
      if r[rt] == 0 then None
      else Some(c.(low := Wrap32(TruncDiv(r[rs], r[rt])), hi := Wrap32(TruncRem(r[rs], r[rt]))))
    case DumpState => Some(c)
    case SnapshotTo => Some(c)
    case MigrateTo => Some(c)
  }

  /** Running lines one after the other, blank ones skipped, a MIGRATE doing nothing. */
  function RunLines(lines: seq<Line>, c: Cpu): Option<Cpu> {
    if lines == [] then Some(c)
    else
      match lines[0]
      case Blank => RunLines(lines[1..], c)
      case Code(op) =>
        (match Exec(op, c)
         case None => None
         case Some(next) => RunLines(lines[1..], next))
  }

  // ---------------------------------------------------------------------------------------
  // The two programs
  // ---------------------------------------------------------------------------------------

  /** What the client sends: the registers, its instruction count and the name of the program file. */
  function MessageOf(registers: RegisterFile, pc: nat, file: Text): Text {
    Spaced(registers) + Decimal(pc) + [SPACE] + file + [SPACE]
  }

  datatype Outcome = Finished(cpu: Cpu) | Aborted | Sent(message: Text)

  /** Whether the connection made by the n-th instruction succeeds; a MIGRATE that cannot connect
      returns and the next line is run. */
  type Network = nat -> bool

  function ClientRun(lines: seq<Line>, c: Cpu, pc: nat, network: Network, file: Text): Outcome
    decreases |lines|
  {
    if lines == [] then Finished(c)
    else
      match lines[0]
      case Blank => ClientRun(lines[1..], c, pc, network, file)
      case Code(op) =>
        if op == MigrateTo && network(pc + 1) then Sent(MessageOf(c.registers, pc + 1, file))
        else
          (match Exec(op, c)
           case None => Aborted
           case Some(next) => ClientRun(lines[1..], next, pc + 1, network, file))
  }

  function ZeroRegisters(): (r: RegisterFile)
    ensures forall k | 0 <= k < 32 :: r[k] == 0
  {
    seq(32, _ => 0)
  }

  /** `in >> word`. */
  function Token(input: Stream): Text {
    var text := SkipSpaces(input.rest);
    if input.good then text[..TokenLength(text)] else []
  }

  datatype Request = Request(registers: RegisterFile, pc: int, file: Text)

  function ParseMessage(message: Text): Request {
    var registers := ExtractAll(Stream(message, true), ZeroRegisters());
    var pc := Extract(registers.input, INT_MIN, INT_MAX, 0);
    Request(registers.values, pc.value, Token(pc.input))
  }

  /** The lines left after skipping n of them. */
  function SkipLines(lines: seq<Line>, n: int): seq<Line> {
    if n <= 0 then lines else if n >= |lines| then [] else lines[n..]
  }

  function ServerRun(message: Text, files: Text -> seq<Line>): Option<Cpu> {
    var request := ParseMessage(message);
    RunLines(SkipLines(files(request.file), request.pc), Cpu(request.registers, 0, 0))
  }

  class VmClass {
    const registers: array<int32>
    var hi: int32
    var low: int32
    var pc: int

    ghost predicate Valid() {
      registers.Length == 32
    }

    function State(): Cpu
      requires Valid()
      reads this, registers
    {
      Cpu(registers[..], hi, low)
    }

    constructor ()
      ensures Valid() && fresh(registers)
      ensures State() == Cpu(ZeroRegisters(), 0, 0) && pc == 0
    {
      registers := new int32[32](_ => 0);
      hi, low, pc := 0, 0, 0;
    }

    /** Executes one instruction; false stands for exit(1). */
    method Execute(op: Op) returns (ok: bool)
      requires Valid()
      modifies this`hi, this`low, registers
      ensures match Exec(op, old(State()))
              case None => !ok
              case Some(c) => ok && State() == c
    {
      hide Evaluate, TruncDiv, TruncRem, Pow2;
      match op {
        case LoadImm(rd, val) =>
          registers[rd] := val;
        case Arith(fn, rd, rs, rt) =>
          registers[rd] := Evaluate(fn, registers[rs], registers[rt]);
        case ArithImm(fn, rt, rs, imm) =>
          registers[rt] := Evaluate(fn, registers[rs], imm);
        case ShiftLeft(rd, rt, bits) =>
          registers[rd] := Wrap32(registers[rt] * Pow2(bits));
        case ShiftRight(rd, rt, bits) =>
          registers[rd] := Wrap32(registers[rt] / Pow2(bits));
        case Mult(rs, rt) =>
          var x: int, y: int := registers[rs], registers[rt];
          var product := x * y;
          hi := Wrap32(product / TWO_32);
          low := Wrap32(product);
        case Divi(rs, rt) =>
          if registers[rt] == 0 {
            return false;
          }
          low := Wrap32(TruncDiv(registers[rs], registers[rt]));
          hi := Wrap32(TruncRem(registers[rs], registers[rt]));
        case DumpState =>
        case SnapshotTo =>
        case MigrateTo =>
      }
      return true;
    }

    /** The client's line processing: it counts the instruction, and sends the machine away at a MIGRATE. */
    method Solve(op: Op, network: Network, file: Text) returns (exit: Option<Outcome>)
      requires Valid() && pc >= 0
      modifies this, registers
      ensures pc == old(pc) + 1
      ensures if op == MigrateTo && network(old(pc) + 1)
              then exit == Some(Sent(MessageOf(old(State()).registers, old(pc) + 1, file)))
              else match Exec(op, old(State()))
                   case None => exit == Some(Aborted)
                   case Some(c) => exit == None && State() == c
    {
      pc := pc + 1;
      if op == MigrateTo && network(pc) {
        var ss: Text := [];
        for i := 0 to 32
          invariant ss == Spaced(registers[..][..i])
          invariant pc == old(pc) + 1 && State() == old(State())
        {
          SpacedExtends(registers[..], i);
          ss := ss + (Decimal(registers[i]) + [SPACE]);
        }
        assert registers[..][..32] == registers[..];
        ss := ss + Decimal(pc) + [SPACE];
        ss := ss + file + [SPACE];
        return Some(Sent(ss));
      }
      var ok := Execute(op);
      return if ok then None else Some(Aborted);
    }
  }

  /** The client's main loop. */
  method RunClient(vm: VmClass, lines: seq<Line>, network: Network, file: Text) returns (outcome: Outcome)
    requires vm.Valid() && vm.pc >= 0
    modifies vm, vm.registers
    ensures outcome == ClientRun(lines, old(vm.State()), old(vm.pc), network, file)
  {
    hide Exec, MessageOf;
    var i := 0;
    while i < |lines|
      invariant 0 <= i <= |lines| && vm.pc >= 0
      invariant ClientRun(lines[i..], vm.State(), vm.pc, network, file)
             == ClientRun(lines, old(vm.State()), old(vm.pc), network, file)
    {
      assert lines[i..][0] == lines[i] && lines[i..][1..] == lines[i + 1..];
      if lines[i] != Blank {
        var exit := vm.Solve(lines[i].op, network, file);
        if exit.Some? {
          return exit.value;
        }
      }
      i := i + 1;
    }
    return Finished(vm.State());
  }

  /** The server's register loop. */
  method ReadRegistersInto(vm: VmClass, start: Stream) returns (input: Stream)
    requires vm.Valid() && forall k | 0 <= k < 32 :: vm.registers[k] == 0
    modifies vm.registers
    ensures Ints(vm.registers[..], input) == ExtractAll(start, ZeroRegisters())
  {
    hide Extract, ExtractAll, ZeroRegisters;
    ghost var zeros := ZeroRegisters();
    ghost var done: seq<int> := [];
    input := start;
    for i := 0 to 32
      invariant forall k | i <= k < 32 :: vm.registers[k] == 0
      invariant |done| == i && forall k | 0 <= k < i :: vm.registers[k] == done[k]
      invariant ExtractAll(start, zeros)
             == Ints(done + ExtractAll(input, zeros[i..]).values, ExtractAll(input, zeros[i..]).input)
    {
      ExtractAllStep(input, zeros[i..]);
      assert zeros[i..][1..] == zeros[i + 1..];
      var reg := Extract(input, INT_MIN, INT_MAX, vm.registers[i]);
      vm.registers[i] := reg.value;
      input := reg.input;
      ghost var rest := ExtractAll(input, zeros[i + 1..]);
      assert done + ([reg.value] + rest.values) == done + [reg.value] + rest.values;
      done := done + [reg.value];
    }
    ExtractAllStep(input, zeros[32..]);
    assert done + [] == done == vm.registers[..];
  }

  /** The server's execution loop. */
  method RunRest(vm: VmClass, lines: seq<Line>) returns (ok: bool)
    requires vm.Valid()
    modifies vm, vm.registers
    ensures match RunLines(lines, old(vm.State()))
            case None => !ok
            case Some(c) => ok && vm.State() == c
  {
    hide Exec;
    var i := 0;
    while i < |lines|
      invariant 0 <= i <= |lines|
      invariant RunLines(lines[i..], vm.State()) == RunLines(lines, old(vm.State()))
    {
      assert lines[i..][0] == lines[i] && lines[i..][1..] == lines[i + 1..];
      if lines[i] != Blank {
        ok := vm.Execute(lines[i].op);
        if !ok {
          return;
        }
      }
      i := i + 1;
    }
    return true;
  }

  /** The server: it reads the message into a new machine, skips pc lines of the named file, and runs
      the rest. */
  method RunServer(message: Text, files: Text -> seq<Line>) returns (vm: VmClass, ok: bool)
    ensures vm.Valid() && fresh(vm) && fresh(vm.registers)
    ensures match ServerRun(message, files)
            case None => !ok
            case Some(c) => ok && vm.State() == c
  {
    hide Extract, ExtractAll, RunLines, Token;
    vm := new VmClass();
    var input := ReadRegistersInto(vm, Stream(message, true));
    var pc := Extract(input, INT_MIN, INT_MAX, 0);
    vm.pc := pc.value;
    var lines := files(Token(pc.input));
    var skipped := 0;
    while skipped < vm.pc && lines != []
      invariant lines == SkipLines(files(Token(pc.input)), skipped)
      invariant 0 <= skipped && (skipped <= vm.pc || skipped == 0)
      invariant vm.State() == Cpu(ExtractAll(Stream(message, true), ZeroRegisters()).values, 0, 0)
      decreases |lines|
    {
      lines := lines[1..];
      skipped := skipped + 1;
    }
    assert lines == SkipLines(files(Token(pc.input)), vm.pc);
    ok := RunRest(vm, lines);
  }

  // ---------------------------------------------------------------------------------------
  // The message
  // ---------------------------------------------------------------------------------------

  /** A file name the server can read back, whatever follows the message: one word. */
  predicate OneWord(file: Text) {
    file != [] && NoSpaces(file)
  }

  lemma {:induction false} TokenHasNoSpaces(t: Text)
    ensures NoSpaces(t[..TokenLength(t)])
  {
    if t != [] && !IsSpace(t[0]) {
      TokenHasNoSpaces(t[1..]);
      assert t[..TokenLength(t)] == [t[0]] + t[1..][..TokenLength(t[1..])];
    }
  }

  lemma {:induction false} SkipSpacesEmpty(t: Text)
    ensures SkipSpaces(t) == [] <==> Spaces(t)
    ensures SkipSpaces(t) != [] ==> !IsSpace(SkipSpaces(t)[0])
  {
    if t != [] && IsSpace(t[0]) {
      SkipSpacesEmpty(t[1..]);
      assert t == [t[0]] + t[1..];
    }
  }

  /** What the server takes for the file name: the name itself if and only if it holds no space, and is
      not empty unless only spaces follow. */
  lemma FileNameReadsBackIff(file: Text, junk: Text)
    ensures var input := Stream([SPACE] + file + [SPACE] + junk, true);
            Token(input) == file <==> NoSpaces(file) && (file == [] ==> Spaces(junk))
  {
    var after := [SPACE] + junk;
    var input := Stream([SPACE] + file + [SPACE] + junk, true);
    assert input.rest == [SPACE] + (file + after);
    TokenHasNoSpaces(SkipSpaces(input.rest));
    if OneWord(file) {
      SkipSpacesIs([SPACE], file + after);
      TokenLengthIs(file, after);
    } else if file == [] {
      assert input.rest == [SPACE, SPACE] + junk;
      assert Spaces(input.rest) <==> Spaces(junk) by {
        assert forall k | 0 <= k < |junk| :: input.rest[k + 2] == junk[k];
      }
      SkipSpacesEmpty(input.rest);
    }
  }

  /** Whatever the name, the server reads the registers and the count as they were sent. */
  lemma NumbersReadBack(registers: RegisterFile, pc: nat, rest: Text)
    requires pc <= INT_MAX
    ensures var r := ExtractAll(Stream(Spaced(registers) + Decimal(pc) + [SPACE] + rest, true), ZeroRegisters());
            r.values == registers
            && Extract(r.input, INT_MIN, INT_MAX, 0) == Extracted(pc, Stream([SPACE] + rest, true))
  {
    hide Extract, ExtractAll, Spaced, Decimal;
    var afterPc := [SPACE] + rest;
    var tail := Decimal(pc) + afterPc;
    assert Spaced(registers) + Decimal(pc) + [SPACE] + rest == [] + Spaced(registers) + tail;
    SpacedReadsBack([], registers, tail, ZeroRegisters());
    assert [SPACE] + tail == [SPACE] + Decimal(pc) + afterPc;
    ExtractDecimal([SPACE], pc, afterPc, INT_MIN, INT_MAX, 0);
  }

  /** Whatever the name and whatever else the receive buffer holds, the server reads the registers and
      the count as they were sent. It reads the name as sent if and only if that holds no space, and is
      not empty unless only spaces follow the message. */
  lemma MessageReadsBack(registers: RegisterFile, pc: nat, file: Text, junk: Text)
    requires pc <= INT_MAX
    ensures var r := ParseMessage(MessageOf(registers, pc, file) + junk);
            && r.registers == registers && r.pc == pc
            && (r.file == file <==> NoSpaces(file) && (file == [] ==> Spaces(junk)))
  {
    hide Extract, ExtractAll, Spaced, Decimal, Token;
    var rest := file + [SPACE] + junk;
    assert MessageOf(registers, pc, file) + junk == Spaced(registers) + Decimal(pc) + [SPACE] + rest;
    NumbersReadBack(registers, pc, rest);
    FileNameReadsBackIff(file, junk);
    assert [SPACE] + rest == [SPACE] + file + [SPACE] + junk;
  }

  lemma MessageParts(registers: RegisterFile, pc: nat, file: Text)
    ensures MessageOf(registers, pc, file) == Spaced(registers) + (Decimal(pc) + [SPACE] + (file + [SPACE]))
  {
    hide Spaced, Decimal;
    var a, b := Spaced(registers), Decimal(pc);
    assert a + b + [SPACE] + file + [SPACE] == a + (b + [SPACE] + (file + [SPACE]));
  }

  /** The message by its words: the 32 registers in order, the count, and the words of the file name. */
  lemma MessageWords(registers: RegisterFile, pc: nat, file: Text)
    ensures WordsOf(MessageOf(registers, pc, file)) ==
              InDecimal(registers) + ([Decimal(pc)] + WordsOf(file + [SPACE]))
  {
    hide WordsOf, Decimal, InDecimal, Spaced, MessageOf;
    var rest := file + [SPACE];
    MessageParts(registers, pc, file);
    SpacedWords(registers, Decimal(pc) + [SPACE] + rest);
    NumberWord(pc, SPACE, rest);
  }

  // ---------------------------------------------------------------------------------------
  // Resuming
  // ---------------------------------------------------------------------------------------

  /** The lines that are not blank: what the client counts. */
  function CodeLines(lines: seq<Line>): (n: nat)
    ensures n <= |lines|
  {
    if lines == [] then 0 else (if lines[0] == Blank then 0 else 1) + CodeLines(lines[1..])
  }

  lemma {:induction false} CodeLinesFull(lines: seq<Line>)
    ensures CodeLines(lines) == |lines| <==> Blank !in lines
  {
    if lines != [] {
      assert lines == [lines[0]] + lines[1..];
      CodeLinesFull(lines[1..]);
    }
  }

  lemma {:induction false} RunSplit(a: seq<Line>, b: seq<Line>, c: Cpu)
    ensures RunLines(a + b, c) ==
              match RunLines(a, c) case None => None case Some(mid) => RunLines(b, mid)
    decreases |a|
  {
    if a == [] {
      assert a + b == b;
    } else {
      assert (a + b)[1..] == a[1..] + b;
      match a[0] {
        case Blank => RunSplit(a[1..], b, c);
        case Code(op) =>
          if Exec(op, c).Some? {
            RunSplit(a[1..], b, Exec(op, c).value);
          }
      }
    }
  }

  /** Equal registers; hi and low are not sent, and no instruction reads them. */
  predicate SameRegisters(a: Option<Cpu>, b: Option<Cpu>) {
    match (a, b)
    case (None, None) => true
    case (Some(c), Some(d)) => c.registers == d.registers
    case _ => false
  }

  lemma {:induction false} RegistersDecide(lines: seq<Line>, c: Cpu, d: Cpu)
    requires c.registers == d.registers
    ensures SameRegisters(RunLines(lines, c), RunLines(lines, d))
    decreases |lines|
  {
    if lines != [] {
      match lines[0] {
        case Blank => RegistersDecide(lines[1..], c, d);
        case Code(op) =>
          assert SameRegisters(Exec(op, c), Exec(op, d));
          if Exec(op, c).Some? {
            RegistersDecide(lines[1..], Exec(op, c).value, Exec(op, d).value);
          }
      }
    }
  }

  /** The client that sends its machine away does so at a MIGRATE line t, in the state the lines before t
      produce, with the count of the code lines up to and including t. */
  lemma {:induction false} WhereItStops(lines: seq<Line>, c: Cpu, pc: nat, network: Network, file: Text)
    returns (t: nat, mid: Cpu)
    requires ClientRun(lines, c, pc, network, file).Sent?
    ensures t < |lines| && lines[t] == Code(MigrateTo)
    ensures RunLines(lines[..t], c) == Some(mid)
    ensures ClientRun(lines, c, pc, network, file)
         == Sent(MessageOf(mid.registers, pc + CodeLines(lines[..t + 1]), file))
    decreases |lines|
  {
    hide Exec, MessageOf;
    if lines[0].Code? && lines[0].op == MigrateTo && network(pc + 1) {
      t, mid := 0, c;
      assert lines[..1][1..] == [];
    } else {
      var next, count := c, pc;
      if lines[0].Code? {
        next, count := Exec(lines[0].op, c).value, pc + 1;
      }
      t, mid := WhereItStops(lines[1..], next, count, network, file);
      t := t + 1;
      assert lines[..t][1..] == lines[1..][..t - 1];
      assert lines[..t + 1][1..] == lines[1..][..t];
    }
  }

  /** The line the server resumes at: as many lines down as the client counted instructions. */
  function ResumeLine(lines: seq<Line>, t: nat): (n: nat)
    requires t < |lines|
    ensures n <= t + 1
  {
    CodeLines(lines[..t + 1])
  }

  /** The server resumes right after the MIGRATE if and only if no line before it is blank. */
  lemma ResumesAfterMigrateIff(lines: seq<Line>, t: nat)
    requires t < |lines| && lines[t] == Code(MigrateTo)
    ensures ResumeLine(lines, t) == t + 1 <==> Blank !in lines[..t]
  {
    CodeLinesFull(lines[..t + 1]);
    assert lines[..t + 1] == lines[..t] + [lines[t]];
  }

  /** What migrating at line t amounts to: the lines from the resume line on are run, on the registers
      the lines before t produced. */
  predicate MigrationKeeps(lines: seq<Line>, c: Cpu, t: nat)
    requires t < |lines|
  {
    match RunLines(lines[..t], c)
    case None => true
    case Some(mid) =>
      SameRegisters(RunLines(lines[ResumeLine(lines, t)..], Cpu(mid.registers, 0, 0)), RunLines(lines, c))
  }

  /** A migration by message, for any network and any junk after the message: the registers end as if the
      program had run in one place with its MIGRATEs doing nothing, exactly if MigrationKeeps says so. */
  lemma MigrationByMessage(
    lines: seq<Line>, c: Cpu, network: Network, file: Text, files: Text -> seq<Line>, junk: Text)
    returns (t: nat)
    requires |lines| <= INT_MAX && OneWord(file) && files(file) == lines
    requires ClientRun(lines, c, 0, network, file).Sent?
    ensures t < |lines| && lines[t] == Code(MigrateTo)
    ensures var message := ClientRun(lines, c, 0, network, file).message + junk;
            SameRegisters(ServerRun(message, files), RunLines(lines, c)) <==> MigrationKeeps(lines, c, t)
  {
    hide ClientRun, RunLines, ServerRun, MessageOf;
    var mid;
    t, mid := WhereItStops(lines, c, 0, network, file);
    ServerResumes(mid.registers, lines, t, file, files, junk);
  }

  lemma ServerResumes(
    registers: RegisterFile, lines: seq<Line>, t: nat, file: Text, files: Text -> seq<Line>, junk: Text)
    requires t < |lines| <= INT_MAX && OneWord(file) && files(file) == lines
    ensures ServerRun(MessageOf(registers, ResumeLine(lines, t), file) + junk, files)
         == RunLines(lines[ResumeLine(lines, t)..], Cpu(registers, 0, 0))
  {
    hide RunLines, MessageOf, ParseMessage;
    var n := ResumeLine(lines, t);
    MessageReadsBack(registers, n, file, junk);
    assert SkipLines(lines, n) == lines[n..];
  }

  /** A program without blank lines before its MIGRATE migrates faithfully. */
  lemma NoBlankLineKeeps(lines: seq<Line>, c: Cpu, t: nat)
    requires t < |lines| && lines[t] == Code(MigrateTo) && Blank !in lines[..t]
    ensures MigrationKeeps(lines, c, t)
  {
    ResumesAfterMigrateIff(lines, t);
    RepeatingBlanksKeeps(lines, c, t);
  }

  /** End to end: if no blank line comes before any MIGRATE, then whenever the client sends its machine
      away, the server that gets the message ends with the registers of running the whole program in one
      place. */
  lemma MigrationIsFaithful(
    lines: seq<Line>, c: Cpu, network: Network, file: Text, files: Text -> seq<Line>, junk: Text)
    requires |lines| <= INT_MAX && OneWord(file) && files(file) == lines
    requires forall t: nat | t < |lines| && lines[t] == Code(MigrateTo) :: Blank !in lines[..t]
    requires ClientRun(lines, c, 0, network, file).Sent?
    ensures var message := ClientRun(lines, c, 0, network, file).message + junk;
            SameRegisters(ServerRun(message, files), RunLines(lines, c))
  {
    hide ClientRun, RunLines, ServerRun, MigrationKeeps;
    var t := MigrationByMessage(lines, c, network, file, files, junk);
    NoBlankLineKeeps(lines, c, t);
  }

  /** So does one whose lines that are run twice are all blank. */
  lemma RepeatingBlanksKeeps(lines: seq<Line>, c: Cpu, t: nat)
    requires t < |lines| && lines[t] == Code(MigrateTo)
    requires forall q | ResumeLine(lines, t) <= q < t :: lines[q] == Blank
    ensures MigrationKeeps(lines, c, t)
  {
    var n := ResumeLine(lines, t);
    assert lines == lines[..t] + lines[t..];
    RunSplit(lines[..t], lines[t..], c);
    if RunLines(lines[..t], c).Some? {
      var mid := RunLines(lines[..t], c).value;
      var resumed := Cpu(mid.registers, 0, 0);
      if n <= t {
        assert lines[n..] == lines[n..t] + lines[t..];
        RunSplit(lines[n..t], lines[t..], resumed);
        BlanksDoNothing(lines[n..t], resumed);
      } else {
        assert lines[t..][1..] == lines[n..];
        assert RunLines(lines[t..], resumed) == RunLines(lines[n..], resumed);
      }
      RegistersDecide(lines[t..], resumed, mid);
    }
  }

  lemma {:induction false} BlanksDoNothing(lines: seq<Line>, c: Cpu)
    requires forall q | 0 <= q < |lines| :: lines[q] == Blank
    ensures RunLines(lines, c) == Some(c)
    decreases |lines|
  {
    if lines != [] {
      BlanksDoNothing(lines[1..], c);
    }
  }

  // ---------------------------------------------------------------------------------------
  // Exactly which layouts are safe
  // ---------------------------------------------------------------------------------------

  /** The program has the given layout: which of its lines are blank. */
  ghost predicate HasLayout(lines: seq<Line>, blank: seq<bool>) {
    |lines| == |blank| && forall q | 0 <= q < |blank| :: (lines[q] == Blank <==> blank[q])
  }

  function CodeCount(blank: seq<bool>): (n: nat)
    ensures n <= |blank|
  {
    if blank == [] then 0 else (if blank[0] then 0 else 1) + CodeCount(blank[1..])
  }

  lemma {:induction false} CodeCountIs(lines: seq<Line>, blank: seq<bool>)
    requires HasLayout(lines, blank)
    ensures CodeLines(lines) == CodeCount(blank)
    decreases |lines|
  {
    if lines != [] {
      assert forall q | 0 <= q < |blank| - 1 :: lines[1..][q] == lines[q + 1] && blank[1..][q] == blank[q + 1];
      CodeCountIs(lines[1..], blank[1..]);
    }
  }

  /** A program of that layout in which line q increments register 1, line t migrates, and nothing else
      does anything. */
  function Witness(blank: seq<bool>, t: nat, q: nat): (lines: seq<Line>)
    requires q < t < |blank| && !blank[t] && !blank[q]
    ensures HasLayout(lines, blank) && lines[t] == Code(MigrateTo)
  {
    seq(|blank|, i requires 0 <= i < |blank| =>
      if blank[i] then Blank
      else if i == t then Code(MigrateTo)
      else if i == q then Code(ArithImm(Plus, 1, 1, 1))
      else Code(DumpState))
  }

  /** A line of the witness that leaves the machine alone. */
  predicate Idle(line: Line) {
    line == Blank || line == Code(MigrateTo) || line == Code(DumpState)
  }

  lemma {:induction false} IdleLines(lines: seq<Line>, c: Cpu)
    requires forall k | 0 <= k < |lines| :: Idle(lines[k])
    ensures RunLines(lines, c) == Some(c)
    decreases |lines|
  {
    if lines != [] {
      assert Idle(lines[0]);
      IdleLines(lines[1..], c);
    }
  }

  function Incremented(c: Cpu): Cpu {
    c.(registers := c.registers[1 := Evaluate(Plus, c.registers[1], 1)])
  }

  /** A stretch of the witness without line q does nothing. */
  lemma IdleStretch(blank: seq<bool>, t: nat, q: nat, from: nat, upto: nat, c: Cpu)
    requires q < t < |blank| && !blank[t] && !blank[q] && from <= upto <= |blank|
    requires q < from || upto <= q
    ensures RunLines(Witness(blank, t, q)[from..upto], c) == Some(c)
  {
    var lines := Witness(blank, t, q)[from..upto];
    forall k | 0 <= k < |lines|
      ensures Idle(lines[k])
    {
      assert lines[k] == Witness(blank, t, q)[from + k];
    }
    IdleLines(lines, c);
  }

  /** Running any stretch of the witness that contains line q increments register 1 once. */
  lemma WitnessStretch(blank: seq<bool>, t: nat, q: nat, from: nat, upto: nat, c: Cpu)
    requires q < t < |blank| && !blank[t] && !blank[q] && from <= q < upto <= |blank|
    ensures RunLines(Witness(blank, t, q)[from..upto], c) == Some(Incremented(c))
  {
    var lines := Witness(blank, t, q);
    var after := lines[q..upto];
    assert lines[from..upto] == lines[from..q] + after;
    RunSplit(lines[from..q], after, c);
    IdleStretch(blank, t, q, from, q, c);
    assert after[0] == Code(ArithImm(Plus, 1, 1, 1)) && after[1..] == lines[q + 1..upto];
    IdleStretch(blank, t, q, q + 1, upto, Incremented(c));
  }

  /** Migration at line t keeps the registers of every program of a layout if and only if every line from
      the resume line up to the MIGRATE is blank: counting code lines but skipping file lines is safe for
      no other layout. */
  lemma SafeLayoutIff(blank: seq<bool>, t: nat)
    requires t < |blank| && !blank[t]
    ensures (forall lines: seq<Line>, c: Cpu | HasLayout(lines, blank) && lines[t] == Code(MigrateTo) ::
               MigrationKeeps(lines, c, t))
            <==> (forall q | CodeCount(blank[..t + 1]) <= q < t :: blank[q])
  {
    var n := CodeCount(blank[..t + 1]);
    forall lines: seq<Line> | HasLayout(lines, blank)
      ensures ResumeLine(lines, t) == n
    {
      CodeCountIs(lines[..t + 1], blank[..t + 1]);
    }
    if forall q | n <= q < t :: blank[q] {
      forall lines: seq<Line>, c: Cpu | HasLayout(lines, blank) && lines[t] == Code(MigrateTo)
        ensures MigrationKeeps(lines, c, t)
      {
        RepeatingBlanksKeeps(lines, c, t);
      }
    } else {
      var q: nat :| n <= q < t && !blank[q];
      UnsafeWitness(blank, t, q, n);
    }
  }

  lemma UnsafeWitness(blank: seq<bool>, t: nat, q: nat, n: nat)
    requires q < t < |blank| && !blank[t] && !blank[q] && n <= q
    requires ResumeLine(Witness(blank, t, q), t) == n
    ensures !MigrationKeeps(Witness(blank, t, q), Cpu(ZeroRegisters(), 0, 0), t)
  {
    var lines, c := Witness(blank, t, q), Cpu(ZeroRegisters(), 0, 0);
    var mid := Incremented(c);
    WitnessStretch(blank, t, q, 0, t, c);
    WitnessStretch(blank, t, q, 0, |blank|, c);
    WitnessStretch(blank, t, q, n, |blank|, Cpu(mid.registers, 0, 0));
    assert lines[0..t] == lines[..t] && lines[0..|blank|] == lines && lines[n..|blank|] == lines[n..];
    assert mid.registers[1] == 1 && Incremented(mid).registers[1] == 2;
  }
}
