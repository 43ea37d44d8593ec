/** The text snapshot file: what Save writes and what Load makes of any text. */
module TextSnapshot {
  import opened Words
  import opened Machine
  import opened Serializer
  import opened Decimals

  const INT_MIN: int := -0x8000_0000
  const INT_MAX: int := 0x7FFF_FFFF
  const SIZE_MAX: int := TWO_64 - 1

  // ---------------------------------------------------------------------------------------
  // Save
  // ---------------------------------------------------------------------------------------

  /** The numbers in decimal, each followed by a space. */
  function Spaced(xs: seq<int>): Text {
    if xs == [] then [] else Decimal(xs[0]) + [SPACE] + Spaced(xs[1..])
  }

  function CpuLine(cpu: CpuState): Text {
    Decimal(cpu.pc) + [SPACE] + Decimal(cpu.hi) + [SPACE] + Decimal(cpu.lo) + [NEWLINE]
  }

  /** Everything after the name. */
  function Body(s: VmSnapshot): Text {
    CpuLine(s.cpu) + Spaced(s.cpu.regs) + [NEWLINE]
    + Decimal(|s.memory|) + [NEWLINE] + Spaced(s.memory) + [NEWLINE]
  }

  /** The text of a snapshot. */
  function SavedText(s: VmSnapshot): Text {
    s.name + [NEWLINE] + Body(s)
  }

  lemma {:induction false} SpacedExtends(xs: seq<int>, n: nat)
    requires n < |xs|
    ensures Spaced(xs[..n + 1]) == Spaced(xs[..n]) + Decimal(xs[n]) + [SPACE]
    decreases n
  {
    hide Decimal;
    if n == 0 {
      assert xs[..1][1..] == [];
    } else {
      SpacedExtends(xs[1..], n - 1);
      assert xs[..n + 1][1..] == xs[1..][..n] && xs[..n][1..] == xs[1..][..n - 1];
    }
  }

  lemma SpacedNone()
    ensures Spaced([]) == []
  {
  }

  /** The parts of the text, in the order they are written. */
  lemma SavedTextFlat(s: VmSnapshot)
    ensures SavedText(s) ==
              s.name + [NEWLINE]
              + (Decimal(s.cpu.pc) + [SPACE] + Decimal(s.cpu.hi) + [SPACE] + Decimal(s.cpu.lo) + [NEWLINE])
              + Spaced(s.cpu.regs) + [NEWLINE]
              + (Decimal(|s.memory|) + [NEWLINE]) + Spaced(s.memory) + [NEWLINE]
  {
    hide Decimal, Spaced;
  }

  /** The text Save writes, if the file can be opened. */
  method Save(s: VmSnapshot, opens: bool) returns (file: Option<Text>)
    ensures file == if opens then Some(SavedText(s)) else None
  {
    hide Decimal, Spaced;
    if !opens {
      return None;
    }
    SpacedNone();
    var out := s.name + [NEWLINE];
    out := out + (Decimal(s.cpu.pc) + [SPACE] + Decimal(s.cpu.hi) + [SPACE] + Decimal(s.cpu.lo) + [NEWLINE]);
    ghost var head := out;
    for i := 0 to 32
      invariant out == head + Spaced(s.cpu.regs[..i])
    {
      SpacedExtends(s.cpu.regs, i);
      out := out + (Decimal(s.cpu.regs[i]) + [SPACE]);
    }
    assert s.cpu.regs[..32] == s.cpu.regs;
    out := out + [NEWLINE];
    out := out + (Decimal(|s.memory|) + [NEWLINE]);
    ghost var before := out;
    for i := 0 to |s.memory|
      invariant out == before + Spaced(s.memory[..i])
    {
      SpacedExtends(s.memory, i);
      out := out + (Decimal(s.memory[i]) + [SPACE]);
    }
    assert s.memory[..|s.memory|] == s.memory;
    out := out + [NEWLINE];
    SavedTextFlat(s);
    return Some(out);
  }

  // ---------------------------------------------------------------------------------------
  // Load
  // ---------------------------------------------------------------------------------------

  datatype Ints = Ints(values: seq<int>, input: Stream)

  /** One signed number per variable, from its initial value. */
  function ExtractAll(input: Stream, initial: seq<int>): (r: Ints)
    requires forall k | 0 <= k < |initial| :: INT_MIN <= initial[k] <= INT_MAX
    ensures |r.values| == |initial|
    ensures forall k | 0 <= k < |r.values| :: INT_MIN <= r.values[k] <= INT_MAX
    decreases |initial|
  {
    if initial == [] then Ints([], input)
    else
      var first := Extract(input, INT_MIN, INT_MAX, initial[0]);
      var rest := ExtractAll(first.input, initial[1..]);
      Ints([first.value] + rest.values, rest.input)
  }

  lemma ExtractAllStep(input: Stream, initial: seq<int>)
    requires forall k | 0 <= k < |initial| :: INT_MIN <= initial[k] <= INT_MAX
    ensures initial == [] ==> ExtractAll(input, initial) == Ints([], input)
    ensures initial != [] ==>
              var first := Extract(input, INT_MIN, INT_MAX, initial[0]);
              var rest := ExtractAll(first.input, initial[1..]);
              ExtractAll(input, initial) == Ints([first.value] + rest.values, rest.input)
  {
  }

  /** n numbers, each into a fresh int, each cut to a byte. */
  function ExtractBytes(input: Stream, n: nat): (r: seq<byte>)
    ensures |r| == n
    decreases n
  {
    if n == 0 then []
    else
      var first := Extract(input, INT_MIN, INT_MAX, 0);
      [first.value % 0x100] + ExtractBytes(first.input, n - 1)
  }

  /** What Load makes of a text, starting from the given snapshot. */
  function LoadedFrom(text: Text, initial: VmSnapshot): VmSnapshot {
    var name := GetLine(Stream(text, true), initial.name);
    var pc := Extract(name.input, 0, SIZE_MAX, initial.cpu.pc);
    var hi := Extract(pc.input, INT_MIN, INT_MAX, initial.cpu.hi);
    var lo := Extract(hi.input, INT_MIN, INT_MAX, initial.cpu.lo);
    var regs := ExtractAll(lo.input, initial.cpu.regs);
    var size := Extract(regs.input, 0, SIZE_MAX, 0);
    VmSnapshot(name.text, CpuState(regs.values, hi.value, lo.value, pc.value), initial.pageTable,
               ExtractBytes(size.input, size.value))
  }

  method LoadRegisters(start: Stream, initial: RegisterFile) returns (regs: RegisterFile, input: Stream)
    ensures Ints(regs, input) == ExtractAll(start, initial)
  {
    hide Extract, ExtractAll;
    regs := initial;
    input := start;
    ghost var done: seq<int> := [];
    for i := 0 to 32
      invariant |done| == i && forall k | 0 <= k < 32 :: regs[k] == if k < i then done[k] else initial[k]
      invariant ExtractAll(start, initial)
             == Ints(done + ExtractAll(input, initial[i..]).values, ExtractAll(input, initial[i..]).input)
    {
      ExtractAllStep(input, initial[i..]);
      assert initial[i..][1..] == initial[i + 1..];
      var reg := Extract(input, INT_MIN, INT_MAX, regs[i]);
      regs := regs[i := reg.value];
      input := reg.input;
      ghost var rest := ExtractAll(input, initial[i + 1..]);
      assert done + ([reg.value] + rest.values) == done + [reg.value] + rest.values;
      done := done + [reg.value];
    }
    ExtractAllStep(input, initial[32..]);
    assert done + [] == done == regs;
  }

  method LoadMemory(start: Stream, size: nat) returns (memory: seq<byte>)
    ensures memory == ExtractBytes(start, size)
  {
    hide Extract;
    memory := seq(size, _ => 0);
    var input := start;
    for i := 0 to size
      invariant |memory| == size
      invariant ExtractBytes(start, size) == memory[..i] + ExtractBytes(input, size - i)
    {
      var val := Extract(input, INT_MIN, INT_MAX, 0);
      ghost var done := memory[..i];
      memory := memory[i := val.value % 0x100];
      assert memory[..i + 1] == done + [val.value % 0x100];
      input := val.input;
    }
    assert memory[..size] == memory;
  }

  const CANNOT_OPEN := "failed to open snapshot file for read"

  method Load(file: Option<Text>, initial: VmSnapshot) returns (r: Received)
    ensures file == None ==> r == Rejected(CANNOT_OPEN)
    ensures file.Some? ==> r == Accepted(LoadedFrom(file.value, initial))
  {
    if file == None {
      return Rejected(CANNOT_OPEN);
    }
    var s := initial;
    var name := GetLine(Stream(file.value, true), s.name);
    s := s.(name := name.text);
    var pc := Extract(name.input, 0, SIZE_MAX, s.cpu.pc);
    var hi := Extract(pc.input, INT_MIN, INT_MAX, s.cpu.hi);
    var lo := Extract(hi.input, INT_MIN, INT_MAX, s.cpu.lo);
    var regs, input := LoadRegisters(lo.input, s.cpu.regs);
    s := s.(cpu := CpuState(regs, hi.value, lo.value, pc.value));
    var size := Extract(input, 0, SIZE_MAX, 0);
    var memory := LoadMemory(size.input, size.value);
    s := s.(memory := memory);
    return Accepted(s);
  }

  // ---------------------------------------------------------------------------------------
  // Round trip
  // ---------------------------------------------------------------------------------------

  /** Spaced numbers read back one by one; what follows starts with the space after the last. */
  lemma {:induction false} SpacedReadsBack(spaces: Text, xs: seq<int>, tail: Text, initial: seq<int>)
    requires |initial| == |xs| > 0 && Spaces(spaces)
    requires forall k | 0 <= k < |xs| :: INT_MIN <= xs[k] <= INT_MAX && INT_MIN <= initial[k] <= INT_MAX
    ensures ExtractAll(Stream(spaces + Spaced(xs) + tail, true), initial)
         == Ints(xs, Stream([SPACE] + tail, true))
    decreases |xs|
  {
    hide Extract, Decimal;
    var after := [SPACE] + (Spaced(xs[1..]) + tail);
    assert spaces + Spaced(xs) + tail == spaces + Decimal(xs[0]) + after;
    ExtractDecimal(spaces, xs[0], after, INT_MIN, INT_MAX, initial[0]);
    if |xs| == 1 {
      assert after == [SPACE] + tail;
      assert xs == [xs[0]] + xs[1..];
    } else {
      assert after == [SPACE] + Spaced(xs[1..]) + tail;
      SpacedReadsBack([SPACE], xs[1..], tail, initial[1..]);
    }
  }

  lemma {:induction false} BytesReadBack(spaces: Text, bytes: seq<byte>, tail: Text)
    requires Spaces(spaces)
    ensures ExtractBytes(Stream(spaces + Spaced(bytes) + tail, true), |bytes|) == bytes
    decreases |bytes|
  {
    hide Extract, Decimal, ExtractBytes;
    if bytes != [] {
      var after := [SPACE] + (Spaced(bytes[1..]) + tail);
      assert spaces + Spaced(bytes) + tail == spaces + Decimal(bytes[0]) + after;
      ExtractDecimal(spaces, bytes[0], after, INT_MIN, INT_MAX, 0);
      assert after == [SPACE] + Spaced(bytes[1..]) + tail;
      BytesReadBack([SPACE], bytes[1..], tail);
      FirstByteReadsBack(Stream(spaces + Spaced(bytes) + tail, true), bytes, Stream(after, true));
    }
  }

  lemma FirstByteReadsBack(input: Stream, bytes: seq<byte>, after: Stream)
    requires bytes != [] && Extract(input, INT_MIN, INT_MAX, 0) == Extracted(bytes[0], after)
    requires ExtractBytes(after, |bytes| - 1) == bytes[1..]
    ensures ExtractBytes(input, |bytes|) == bytes
  {
    hide Extract;
    assert bytes == [bytes[0]] + bytes[1..];
  }

  /** The three numbers of the cpu line. */
  lemma CpuLineReadsBack(cpu: CpuState, tail: Text, initial: CpuState)
    requires cpu.pc < TWO_64
    ensures var pc := Extract(Stream(CpuLine(cpu) + tail, true), 0, SIZE_MAX, initial.pc);
            var hi := Extract(pc.input, INT_MIN, INT_MAX, initial.hi);
            var lo := Extract(hi.input, INT_MIN, INT_MAX, initial.lo);
            && pc.value == cpu.pc && hi.value == cpu.hi
            && lo == Extracted(cpu.lo, Stream([NEWLINE] + tail, true))
  {
    var afterLo := [NEWLINE] + tail;
    var afterHi := [SPACE] + Decimal(cpu.lo) + afterLo;
    var afterPc := [SPACE] + Decimal(cpu.hi) + afterHi;
    assert CpuLine(cpu) + tail == [] + Decimal(cpu.pc) + afterPc;
    ExtractDecimal([], cpu.pc, afterPc, 0, SIZE_MAX, initial.pc);
    ExtractDecimal([SPACE], cpu.hi, afterHi, INT_MIN, INT_MAX, initial.hi);
    ExtractDecimal([SPACE], cpu.lo, afterLo, INT_MIN, INT_MAX, initial.lo);
  }

  /** Everything after the name reads back. */
  lemma BodyReadsBack(s: VmSnapshot, name: Text, initial: VmSnapshot)
    requires s.cpu.pc < TWO_64 && |s.memory| < TWO_64 && NEWLINE !in name
    ensures LoadedFrom(name + [NEWLINE] + Body(s), initial)
         == VmSnapshot(name, s.cpu, initial.pageTable, s.memory)
  {
    hide Extract, ExtractAll, ExtractBytes, Decimal, Spaced, GetLine, CpuLine;
    var tail := Spaced(s.memory) + [NEWLINE];
    var afterRegs := [NEWLINE] + Decimal(|s.memory|) + [NEWLINE] + tail;
    var afterCpu := Spaced(s.cpu.regs) + afterRegs;
    assert Body(s) == CpuLine(s.cpu) + afterCpu;
    GetLineIs(name, Body(s), initial.name);
    CpuLineReadsBack(s.cpu, afterCpu, initial.cpu);
    assert [NEWLINE] + afterCpu == [NEWLINE] + Spaced(s.cpu.regs) + afterRegs;
    SpacedReadsBack([NEWLINE], s.cpu.regs, afterRegs, initial.cpu.regs);
    assert [SPACE] + afterRegs == [SPACE, NEWLINE] + Decimal(|s.memory|) + ([NEWLINE] + tail);
    ExtractDecimal([SPACE, NEWLINE], |s.memory|, [NEWLINE] + tail, 0, SIZE_MAX, 0);
    assert [NEWLINE] + tail == [NEWLINE] + Spaced(s.memory) + [NEWLINE];
    BytesReadBack([NEWLINE], s.memory, [NEWLINE]);
  }

  /** Loading what was saved restores name, cpu and every memory byte if and only if the name holds no
      newline. The page table is not in the file: the loaded snapshot keeps the one it started with. */
  lemma TextRoundTripIff(s: VmSnapshot, initial: VmSnapshot)
    requires s.cpu.pc < TWO_64 && |s.memory| < TWO_64
    ensures SameCarried(LoadedFrom(SavedText(s), initial), s) <==> NEWLINE !in s.name
    ensures LoadedFrom(SavedText(s), initial).pageTable == initial.pageTable
  {
    GetLineIs(s.name, Body(s), initial.name);
    if NEWLINE !in s.name {
      BodyReadsBack(s, s.name, initial);
    }
  }

  // ---------------------------------------------------------------------------------------
  // The text by its words
  // ---------------------------------------------------------------------------------------

  lemma {:induction false} SpacedWords(xs: seq<int>, tail: Text)
    ensures WordsOf(Spaced(xs) + tail) == InDecimal(xs) + WordsOf(tail)
    decreases |xs|
  {
    hide WordsOf, Decimal;
    if xs == [] {
      assert Spaced(xs) + tail == tail;
    } else {
      assert Spaced(xs) + tail == Decimal(xs[0]) + [SPACE] + (Spaced(xs[1..]) + tail);
      NumberWord(xs[0], SPACE, Spaced(xs[1..]) + tail);
      SpacedWords(xs[1..], tail);
      assert InDecimal(xs) == [Decimal(xs[0])] + InDecimal(xs[1..]);
    }
  }

  /** After the name line the saved text is, word by word, pc, hi, lo, the 32 registers in order, the
      memory size and the memory bytes. */
  lemma SavedWords(s: VmSnapshot)
    ensures |SavedText(s)| > |s.name| && SavedText(s)[..|s.name| + 1] == s.name + [NEWLINE]
    ensures WordsOf(SavedText(s)[|s.name| + 1..]) ==
              [Decimal(s.cpu.pc), Decimal(s.cpu.hi), Decimal(s.cpu.lo)]
              + InDecimal(s.cpu.regs) + [Decimal(|s.memory|)] + InDecimal(s.memory)
  {
    hide WordsOf, Decimal, InDecimal, Spaced;
    assert SavedText(s)[|s.name| + 1..] == Body(s);
    var afterSize := Spaced(s.memory) + [NEWLINE];
    var afterRegs := Decimal(|s.memory|) + [NEWLINE] + afterSize;
    var afterLo := Spaced(s.cpu.regs) + ([NEWLINE] + afterRegs);
    var afterHi := Decimal(s.cpu.lo) + [NEWLINE] + afterLo;
    var afterPc := Decimal(s.cpu.hi) + [SPACE] + afterHi;
    assert Body(s) == Decimal(s.cpu.pc) + [SPACE] + afterPc;
    NumberWord(s.cpu.pc, SPACE, afterPc);
    NumberWord(s.cpu.hi, SPACE, afterHi);
    NumberWord(s.cpu.lo, NEWLINE, afterLo);
    SpacedWords(s.cpu.regs, [NEWLINE] + afterRegs);
    LeadingSpace(NEWLINE, afterRegs);
    NumberWord(|s.memory|, NEWLINE, afterSize);
    SpacedWords(s.memory, [NEWLINE]);
    assert [NEWLINE] + [] == [NEWLINE];
    LeadingSpace(NEWLINE, []);
    NoWords();
  }

  lemma NoWords()
    ensures WordsOf([]) == []
  {
  }

  // ---------------------------------------------------------------------------------------
  // Other texts
  // ---------------------------------------------------------------------------------------

  /** A memory number outside 0..255 is cut to a byte. */
  lemma LoadedByteIsCut(spaces: Text, x: int, rest: Text)
    requires Spaces(spaces) && INT_MIN <= x <= INT_MAX && (rest == [] || !IsDigit(rest[0]))
    ensures ExtractBytes(Stream(spaces + Decimal(x) + rest, true), 1) == [x % 0x100]
  {
    hide Extract, Decimal;
    ExtractAnyNumber(spaces, x, rest, INT_MIN, INT_MAX, 0);
    var after := Extract(Stream(spaces + Decimal(x) + rest, true), INT_MIN, INT_MAX, 0).input;
    assert ExtractBytes(after, 0) == [];
  }

  lemma {:induction false} StoppedStream(input: Stream, initial: seq<int>)
    requires !input.good
    requires forall k | 0 <= k < |initial| :: INT_MIN <= initial[k] <= INT_MAX
    ensures ExtractAll(input, initial) == Ints(initial, input)
    decreases |initial|
  {
    if initial != [] {
      StoppedStream(input, initial[1..]);
      assert initial == [initial[0]] + initial[1..];
    }
  }

  /** A file that goes on with something else than a number after its first line is not rejected: the
      name is taken, pc becomes 0 and the memory empty, and the rest of the snapshot stays. */
  lemma LoadsAnyFile(name: Text, junk: Text, initial: VmSnapshot)
    requires NEWLINE !in name
    requires junk != [] && !IsSpace(junk[0]) && !IsDigit(junk[0]) && junk[0] != PLUS && junk[0] != MINUS
    ensures LoadedFrom(name + [NEWLINE] + junk, initial)
         == initial.(name := name, cpu := initial.cpu.(pc := 0), memory := [])
  {
    hide SkipSpaces, GetLine;
    GetLineIs(name, junk, initial.name);
    assert [] + junk == junk;
    ExtractNoNumber([], junk, 0, SIZE_MAX, initial.cpu.pc);
    ExtractNoNumber([], junk, INT_MIN, INT_MAX, initial.cpu.hi);
    StoppedStream(Stream(junk, false), initial.cpu.regs);
  }
}
