/** Paged virtual memory: a page table over one byte buffer, with a TLB in front of it. */
module Memory {
  import opened Words

  datatype FaultType = NoFault | IllegalOpcode | DivideByZero | PageFault | AddressOutOfRange

  datatype VmFault = VmFault(kind: FaultType, message: string)

  const NO_FAULT := VmFault(NoFault, "")
  const PAGE_FAULT := VmFault(PageFault, "virtual page not mapped")
  const OUT_OF_RANGE := VmFault(AddressOutOfRange, "address outside VM memory")

  /** The result of a memory access: a value, or the fault it raised. */
  datatype Access<+T> = Granted(value: T) | Trapped(fault: VmFault)

  const PAGE_SIZE: int := 4096

  type PageTable = map<uint32, uint32>

  // ---------------------------------------------------------------------------------------
  // The reference: a memory that only has a page table.
  // ---------------------------------------------------------------------------------------

  datatype PagedMemory = PagedMemory(bytes: seq<byte>, pageTable: PageTable)

  /** uint32 arithmetic: the frame number times the page size wraps. */
  function FrameAddress(frame: uint32, offset: int): uint32 {
    (frame * PAGE_SIZE + offset) % TWO_32
  }

  function Translate(m: PagedMemory, va: uint32): Access<uint32> {
    var page := va / PAGE_SIZE;
    if page !in m.pageTable then Trapped(PAGE_FAULT)
    else
      var pa := FrameAddress(m.pageTable[page], va % PAGE_SIZE);
      if pa + 4 > |m.bytes| then Trapped(OUT_OF_RANGE) else Granted(pa)
  }

  function Patch(bytes: seq<byte>, at: nat, word: seq<byte>): (r: seq<byte>)
    requires at + |word| <= |bytes|
    ensures |r| == |bytes|
    ensures forall k | 0 <= k < |bytes| ::
              r[k] == if at <= k < at + |word| then word[k - at] else bytes[k]
  {
    bytes[..at] + word + bytes[at + |word|..]
  }

  function LoadWord(m: PagedMemory, va: uint32): Access<int32> {
    match Translate(m, va)
    case Trapped(fault) => Trapped(fault)
    case Granted(pa) => Granted(BytesWord(m.bytes[pa..pa + 4]))
  }

  function StoreWord(m: PagedMemory, va: uint32, word: int32): Access<PagedMemory> {
    match Translate(m, va)
    case Trapped(fault) => Trapped(fault)
    case Granted(pa) => Granted(m.(bytes := Patch(m.bytes, pa, WordBytes(word))))
  }

  /** The number of pages the constructor maps: the rounded-up count, cut to 32 bits. */
  function PageCount(size: nat): uint32 {
    ToUint32((size + PAGE_SIZE - 1) / PAGE_SIZE)
  }

  function IdentityTable(count: uint32): (table: PageTable)
    ensures forall p: uint32 :: p in table <==> p < count
    ensures forall p | p in table :: table[p] == p
  {
    if count == 0 then map[] else IdentityTable(count - 1)[count - 1 := count - 1]
  }

  /** What the constructor builds. */
  function FreshMemory(size: nat): PagedMemory {
    PagedMemory(seq(size, _ => 0), IdentityTable(PageCount(size)))
  }

  // ---------------------------------------------------------------------------------------
  // The implementation, with its TLB.
  // ---------------------------------------------------------------------------------------

  class VirtualMemory {
    var bytes: seq<byte>
    var pageTable: PageTable
    var tlb: PageTable

    /** TLB coherence: every cached translation agrees with the page table. */
    ghost predicate Valid()
      reads this
    {
      forall page | page in tlb :: page in pageTable && tlb[page] == pageTable[page]
    }

    /** The memory seen without its TLB. */
    ghost function Contents(): PagedMemory
      reads this
    {
      PagedMemory(bytes, pageTable)
    }

    constructor (size: nat)
      ensures Valid() && tlb == map[]
      ensures Contents() == FreshMemory(size)
      ensures |bytes| == size && forall k | 0 <= k < size :: bytes[k] == 0
    {
      bytes := seq(size, _ => 0);
      tlb := map[];
      pageTable := map[];
      new;
      var pageCount := PageCount(size);
      var i := 0;
      while i < pageCount
        invariant 0 <= i <= pageCount
        invariant pageTable == IdentityTable(i)
        invariant tlb == map[] && bytes == seq(size, _ => 0)
      {
        pageTable := pageTable[i := i];
        i := i + 1;
      }
    }

    method MapPage(virtualPage: uint32, physicalPage: uint32)
      requires Valid()
      modifies this
      ensures Valid()
      ensures Contents() == old(Contents()).(pageTable := old(pageTable)[virtualPage := physicalPage])
    {
      pageTable := pageTable[virtualPage := physicalPage];
      tlb := tlb[virtualPage := physicalPage];
    }

    method TranslateCached(va: uint32) returns (r: Access<uint32>)
      requires Valid()
      modifies this`tlb
      ensures Valid()
      ensures r == Translate(Contents(), va)
    {
      var page := va / PAGE_SIZE;
      var offset := va % PAGE_SIZE;
      var frame: uint32 := 0;
      if page in tlb {
        frame := tlb[page];
      } else {
        if page !in pageTable {
          return Trapped(PAGE_FAULT);
        }
        frame := pageTable[page];
        tlb := tlb[page := frame];
      }
      var pa := FrameAddress(frame, offset);
      if pa + 4 > |bytes| {
        return Trapped(OUT_OF_RANGE);
      }
      return Granted(pa);
    }

    method ReadWord(va: uint32) returns (r: Access<int32>)
      requires Valid()
      modifies this`tlb
      ensures Valid()
      ensures r == LoadWord(Contents(), va)
    {
      var t := TranslateCached(va);
      if t.Trapped? {
        return Trapped(t.fault);
      }
      return Granted(BytesWord(bytes[t.value..t.value + 4]));
    }

    method WriteWord(va: uint32, word: int32) returns (r: Access<()>)
      requires Valid()
      modifies this`tlb, this`bytes
      ensures Valid()
      ensures match StoreWord(old(Contents()), va, word)
              case Granted(m) => r == Granted(()) && Contents() == m
              case Trapped(fault) => r == Trapped(fault) && Contents() == old(Contents())
    {
      var t := TranslateCached(va);
      if t.Trapped? {
        return Trapped(t.fault);
      }
      bytes := Patch(bytes, t.value, WordBytes(word));
      return Granted(());
    }

    method RestorePageTable(table: PageTable)
      modifies this`pageTable, this`tlb
      ensures Valid()
      ensures Contents() == old(Contents()).(pageTable := table)
    {
      pageTable := table;
      tlb := map[];
    }
  }

  // ---------------------------------------------------------------------------------------
  // Any sequence of operations, with and without a TLB.
  // ---------------------------------------------------------------------------------------

  datatype Operation =
    | Read(va: uint32)
    | Write(va: uint32, word: int32)
    | MapTo(page: uint32, frame: uint32)
    | Replace(table: PageTable)

  datatype Answer = Word(read: Access<int32>) | Stored(written: Access<()>) | Nothing

  /** The page-table-only memory after an operation; an access that faults changes nothing. */
  function AfterOne(m: PagedMemory, op: Operation): PagedMemory {
    match op
    case Read(_) => m
    case Write(va, word) => (match StoreWord(m, va, word) case Granted(after) => after case Trapped(_) => m)
    case MapTo(page, frame) => m.(pageTable := m.pageTable[page := frame])
    case Replace(table) => m.(pageTable := table)
  }

  function AnswerTo(m: PagedMemory, op: Operation): Answer {
    match op
    case Read(va) => Word(LoadWord(m, va))
    case Write(va, word) =>
      (match StoreWord(m, va, word) case Granted(_) => Stored(Granted(())) case Trapped(f) => Stored(Trapped(f)))
    case _ => Nothing
  }

  function After(m: PagedMemory, operations: seq<Operation>): PagedMemory
    decreases |operations|
  {
    if operations == [] then m else After(AfterOne(m, operations[0]), operations[1..])
  }

  /** The words and faults a page-table-only memory answers with. */
  function Answers(m: PagedMemory, operations: seq<Operation>): seq<Answer>
    decreases |operations|
  {
    if operations == [] then []
    else [AnswerTo(m, operations[0])] + Answers(AfterOne(m, operations[0]), operations[1..])
  }

  method ServeOne(memory: VirtualMemory, op: Operation) returns (answer: Answer)
    requires memory.Valid()
    modifies memory
    ensures memory.Valid()
    ensures answer == AnswerTo(old(memory.Contents()), op)
    ensures memory.Contents() == AfterOne(old(memory.Contents()), op)
  {
    match op {
      case Read(va) =>
        var read := memory.ReadWord(va);
        return Word(read);
      case Write(va, word) =>
        var written := memory.WriteWord(va, word);
        return Stored(written);
      case MapTo(page, frame) =>
        memory.MapPage(page, frame);
      case Replace(table) =>
        memory.RestorePageTable(table);
    }
    return Nothing;
  }

  /** The TLB is invisible over any sequence of operations: whatever it holds at the start, every word,
      every fault and the final contents are those of the memory that only has a page table. */
  method Serve(memory: VirtualMemory, operations: seq<Operation>) returns (answers: seq<Answer>)
    requires memory.Valid()
    modifies memory
    ensures memory.Valid()
    ensures answers == Answers(old(memory.Contents()), operations)
    ensures memory.Contents() == After(old(memory.Contents()), operations)
  {
    hide AfterOne, AnswerTo;
    answers := [];
    for i := 0 to |operations|
      invariant memory.Valid()
      invariant After(memory.Contents(), operations[i..]) == After(old(memory.Contents()), operations)
      invariant answers + Answers(memory.Contents(), operations[i..])
             == Answers(old(memory.Contents()), operations)
    {
      assert operations[i..][0] == operations[i] && operations[i..][1..] == operations[i + 1..];
      ghost var rest := Answers(AfterOne(memory.Contents(), operations[i]), operations[i + 1..]);
      var answer := ServeOne(memory, operations[i]);
      assert answers + ([answer] + rest) == answers + [answer] + rest;
      answers := answers + [answer];
    }
  }

  // ---------------------------------------------------------------------------------------
  // Fault classification of a memory whose page table is the one it was built with.
  // ---------------------------------------------------------------------------------------

  /** A memory the constructor could have built, whatever has been written to it since. */
  ghost predicate BuiltWith(m: PagedMemory, size: nat) {
    |m.bytes| == size && m.pageTable == IdentityTable(PageCount(size))
  }

  lemma {:induction false} AccessesKeepShape(m: PagedMemory, operations: seq<Operation>, size: nat)
    requires BuiltWith(m, size) && AccessesOnly(operations)
    ensures BuiltWith(After(m, operations), size)
    decreases |operations|
  {
    if operations != [] {
      assert operations[0].Read? || operations[0].Write?;
      AccessesKeepShape(AfterOne(m, operations[0]), operations[1..], size);
    }
  }

  predicate AccessesOnly(operations: seq<Operation>) {
    forall k | 0 <= k < |operations| :: operations[k].Read? || operations[k].Write?
  }

  /** Exactly which fault an access raises, after any run of reads and writes. */
  lemma FaultClassification(size: nat, operations: seq<Operation>, va: uint32)
    requires AccessesOnly(operations)
    ensures var r := LoadWord(After(FreshMemory(size), operations), va);
            && (r.Granted? <==> va / PAGE_SIZE < PageCount(size) && va + 4 <= size)
            && (r == Trapped(PAGE_FAULT) <==> va / PAGE_SIZE >= PageCount(size))
            && (r == Trapped(OUT_OF_RANGE) <==> va / PAGE_SIZE < PageCount(size) && va + 4 > size)
  {
    AccessesKeepShape(FreshMemory(size), operations, size);
    var m := After(FreshMemory(size), operations);
    var page := va / PAGE_SIZE;
    if page in m.pageTable {
      assert m.pageTable[page] == page;
      assert FrameAddress(page, va % PAGE_SIZE) == va;
    }
  }

  /** The size in bytes alone decides every access (granted below it, a page fault from the first whole
      page past it) exactly when the page count either was not cut to 32 bits or still covers the whole
      32-bit address space. */
  lemma SizeDecidesFaultsIff(size: nat)
    ensures var pages := (size + PAGE_SIZE - 1) / PAGE_SIZE;
            (forall va: uint32 ::
               (LoadWord(FreshMemory(size), va).Granted? <==> va + 4 <= size)
               && (LoadWord(FreshMemory(size), va) == Trapped(PAGE_FAULT) <==> va / PAGE_SIZE >= pages))
            <==> (pages < TWO_32 || PageCount(size) >= 0x10_0000)
  {
    hide LoadWord, FreshMemory;
    var pages := (size + PAGE_SIZE - 1) / PAGE_SIZE;
    var m := FreshMemory(size);
    forall va: uint32
      ensures LoadWord(m, va).Granted? <==> va / PAGE_SIZE < PageCount(size) && va + 4 <= size
      ensures LoadWord(m, va) == Trapped(PAGE_FAULT) <==> va / PAGE_SIZE >= PageCount(size)
    {
      FaultClassification(size, [], va);
    }
    if pages >= TWO_32 && PageCount(size) < 0x10_0000 {
      var va: uint32 := PageCount(size) * PAGE_SIZE;
      assert LoadWord(m, va) == Trapped(PAGE_FAULT);
    }
  }

  // ---------------------------------------------------------------------------------------
  // Paged memory refines a flat byte store.
  // ---------------------------------------------------------------------------------------

  /** The physical address behind a virtual one, if its page is mapped. */
  function Physical(m: PagedMemory, va: uint32): Option<uint32> {
    var page := va / PAGE_SIZE;
    if page in m.pageTable then Some(FrameAddress(m.pageTable[page], va % PAGE_SIZE)) else None
  }

  /** The flat store: the byte a virtual address holds, if it is backed at all. */
  function ByteAt(m: PagedMemory, va: uint32): Option<byte> {
    match Physical(m, va)
    case Some(pa) => if pa < |m.bytes| then Some(m.bytes[pa]) else None
    case None => None
  }

  /** Frames 2^20 apart address the same bytes, because frame addresses wrap at 2^32. */
  function Frame(m: PagedMemory, page: uint32): int
    requires page in m.pageTable
  {
    m.pageTable[page] % 0x10_0000
  }

  /** No two virtual pages share a frame. */
  ghost predicate FramesDistinct(m: PagedMemory) {
    forall p, q | p in m.pageTable && q in m.pageTable && p != q :: Frame(m, p) != Frame(m, q)
  }

  /** The word at va lies in one page, or in two pages that sit in adjacent frames. */
  ghost predicate Contiguous(m: PagedMemory, va: uint32) {
    var page := va / PAGE_SIZE;
    && page in m.pageTable
    && (|| va % PAGE_SIZE <= PAGE_SIZE - 4
        || (&& va + 4 <= TWO_32
            && page + 1 in m.pageTable
            && Frame(m, page + 1) == Frame(m, page) + 1))
  }

  lemma FrameAddressIs(frame: uint32, offset: int)
    requires 0 <= offset < PAGE_SIZE
    ensures FrameAddress(frame, offset) == frame % 0x10_0000 * PAGE_SIZE + offset
  {
    var low, high := frame % 0x10_0000, frame / 0x10_0000;
    assert frame * PAGE_SIZE + offset == high * TWO_32 + (low * PAGE_SIZE + offset);
  }

  /** The physical address of the k-th byte of a contiguous word. */
  lemma WordAddress(m: PagedMemory, va: uint32, k: nat)
    requires Contiguous(m, va) && Translate(m, va).Granted? && k < 4
    ensures va + k < TWO_32
    ensures Physical(m, va + k) == Some(Translate(m, va).value + k)
  {
    var page := va / PAGE_SIZE;
    FrameAddressIs(m.pageTable[page], va % PAGE_SIZE);
    if va % PAGE_SIZE + k < PAGE_SIZE {
      assert (va + k) / PAGE_SIZE == page && (va + k) % PAGE_SIZE == va % PAGE_SIZE + k;
      FrameAddressIs(m.pageTable[page], va % PAGE_SIZE + k);
    } else {
      assert (va + k) / PAGE_SIZE == page + 1;
      FrameAddressIs(m.pageTable[page + 1], (va + k) % PAGE_SIZE);
    }
  }

  /** Under distinct frames, two virtual addresses never share a physical byte. */
  lemma BackingIsInjective(m: PagedMemory, a: uint32, b: uint32)
    requires FramesDistinct(m)
    requires Physical(m, a).Some? && Physical(m, a) == Physical(m, b)
    ensures a == b
  {
    FrameAddressIs(m.pageTable[a / PAGE_SIZE], a % PAGE_SIZE);
    FrameAddressIs(m.pageTable[b / PAGE_SIZE], b % PAGE_SIZE);
    assert Frame(m, a / PAGE_SIZE) == Frame(m, b / PAGE_SIZE);
  }

  /** A mapped address outside a contiguous word is backed outside the word's physical bytes. */
  lemma OtherAddress(m: PagedMemory, va: uint32, x: uint32)
    requires FramesDistinct(m) && Contiguous(m, va) && Translate(m, va).Granted?
    requires Physical(m, x).Some? && !(va <= x < va + 4)
    ensures !(Translate(m, va).value <= Physical(m, x).value < Translate(m, va).value + 4)
  {
    var k := Physical(m, x).value - Translate(m, va).value;
    if 0 <= k < 4 {
      WordAddress(m, va, k);
      BackingIsInjective(m, x, va + k);
      assert false;
    }
  }

  /** A successful write of a contiguous word changes exactly its own four bytes of the flat store. */
  lemma WriteIsFlat(m: PagedMemory, va: uint32, word: int32, x: uint32)
    requires FramesDistinct(m) && Contiguous(m, va)
    requires StoreWord(m, va, word).Granted?
    ensures var after := StoreWord(m, va, word).value;
            ByteAt(after, x) == if va <= x < va + 4 then Some(WordBytes(word)[x - va]) else ByteAt(m, x)
  {
    var after := StoreWord(m, va, word).value;
    assert Physical(after, x) == Physical(m, x);
    if va <= x < va + 4 {
      WordAddress(m, va, x - va);
    } else if Physical(m, x).Some? {
      OtherAddress(m, va, x);
    }
  }

  /** A granted read of a contiguous word returns the four bytes of the flat store at its address. */
  lemma ReadIsFlat(m: PagedMemory, va: uint32, k: nat)
    requires Contiguous(m, va) && LoadWord(m, va).Granted? && k < 4
    ensures va + k < TWO_32
    ensures ByteAt(m, va + k) == Some(WordBytes(LoadWord(m, va).value)[k])
  {
    var pa := Translate(m, va).value;
    BytesWordRoundTrip(m.bytes[pa..pa + 4]);
    WordAddress(m, va, k);
  }

  /** Storing at a leaves every physical byte of a word away from a unchanged. */
  lemma UntouchedWord(m: PagedMemory, a: uint32, word: int32, b: uint32)
    requires FramesDistinct(m) && Contiguous(m, a) && Contiguous(m, b)
    requires StoreWord(m, a, word).Granted? && Translate(m, b).Granted?
    requires b + 4 <= a || a + 4 <= b
    ensures var pb := Translate(m, b).value;
            StoreWord(m, a, word).value.bytes[pb..pb + 4] == m.bytes[pb..pb + 4]
  {
    hide Contiguous, FramesDistinct, WordBytes;
    WordAddress(m, b, 0); OtherAddress(m, a, b);
    WordAddress(m, b, 1); OtherAddress(m, a, b + 1);
    WordAddress(m, b, 2); OtherAddress(m, a, b + 2);
    WordAddress(m, b, 3); OtherAddress(m, a, b + 3);
  }

  /** A successful write reads back, and leaves every read of a non-overlapping word unchanged. */
  lemma ReadOverWrite(m: PagedMemory, a: uint32, word: int32, b: uint32)
    requires FramesDistinct(m) && Contiguous(m, a) && Contiguous(m, b)
    requires StoreWord(m, a, word).Granted?
    ensures LoadWord(StoreWord(m, a, word).value, a) == Granted(word)
    ensures b + 4 <= a || a + 4 <= b ==>
              LoadWord(StoreWord(m, a, word).value, b) == LoadWord(m, b)
  {
    var pa := Translate(m, a).value;
    assert StoreWord(m, a, word).value.bytes[pa..pa + 4] == WordBytes(word);
    WordBytesRoundTrip(word);
    if (b + 4 <= a || a + 4 <= b) && Translate(m, b).Granted? {
      UntouchedWord(m, a, word, b);
    }
  }

  /** With the identity table of the constructor every granted access is contiguous, straddling or not. */
  lemma BuiltMemoryIsFlat(m: PagedMemory, size: nat, va: uint32)
    requires BuiltWith(m, size) && size <= TWO_32 && Translate(m, va).Granted?
    ensures FramesDistinct(m) && Contiguous(m, va)
  {
    PageCountCovers(size, va);
    GrantedIsBacked(m, size, va);
    assert forall p: uint32 | p in m.pageTable :: Frame(m, p) == p;
  }

  lemma PageCountCovers(size: nat, va: uint32)
    requires size <= TWO_32
    ensures PageCount(size) <= 0x10_0000
    ensures va + 4 <= size && va % PAGE_SIZE > PAGE_SIZE - 4 ==> va / PAGE_SIZE + 1 < PageCount(size)
  {
    assert PageCount(size) == (size + PAGE_SIZE - 1) / PAGE_SIZE;
  }

  lemma GrantedIsBacked(m: PagedMemory, size: nat, va: uint32)
    requires BuiltWith(m, size) && Translate(m, va).Granted?
    ensures va + 4 <= size
  {
    assert m.pageTable[va / PAGE_SIZE] == va / PAGE_SIZE;
    assert FrameAddress(va / PAGE_SIZE, va % PAGE_SIZE) == va;
  }

  /** Storing the word at va leaves its k-th byte at the k-th address. */
  ghost predicate LandsAt(m: PagedMemory, va: uint32, word: int32, k: nat)
    requires StoreWord(m, va, word).Granted? && k < 4
  {
    va + k < TWO_32 && ByteAt(StoreWord(m, va, word).value, va + k) == Some(WordBytes(word)[k])
  }

  /** A word that is not contiguous is not stored at its first address on the second page. */
  lemma TornAddress(m: PagedMemory, va: uint32) returns (k: nat)
    requires Translate(m, va).Granted? && !Contiguous(m, va)
    ensures k < 4
    ensures va + k < TWO_32 && Physical(m, va + k).Some? ==>
              !(Translate(m, va).value <= Physical(m, va + k).value < Translate(m, va).value + 4)
  {
    k := PAGE_SIZE - va % PAGE_SIZE;
    var page := va / PAGE_SIZE;
    if va + k < TWO_32 && page + 1 in m.pageTable {
      assert (va + k) / PAGE_SIZE == page + 1 && (va + k) % PAGE_SIZE == 0;
      assert va + 4 <= TWO_32;
      FrameAddressIs(m.pageTable[page], va % PAGE_SIZE);
      FrameAddressIs(m.pageTable[page + 1], 0);
    }
  }

  /** Contiguity is exactly what a store needs: every word lands at its own four addresses if and
      only if the word at va lies in one page or in two pages with adjacent frames. */
  lemma FlatIffContiguous(m: PagedMemory, va: uint32)
    requires Translate(m, va).Granted?
    ensures (forall word: int32, k: nat | k < 4 :: LandsAt(m, va, word, k)) <==> Contiguous(m, va)
  {
    if Contiguous(m, va) {
      forall word: int32, k: nat | k < 4
        ensures LandsAt(m, va, word, k)
      {
        WordAddress(StoreWord(m, va, word).value, va, k);
      }
    } else {
      var k := TornAddress(m, va);
      ExtremeWords(k);
      assert !LandsAt(m, va, 0, k) || !LandsAt(m, va, -1, k) by {
        if va + k < TWO_32 {
          MissedByte(m, va, 0, k);
          MissedByte(m, va, -1, k);
        }
      }
    }
  }

  lemma MissedByte(m: PagedMemory, va: uint32, word: int32, k: nat)
    requires Translate(m, va).Granted? && k < 4 && va + k < TWO_32
    requires Physical(m, va + k).Some? ==>
               !(Translate(m, va).value <= Physical(m, va + k).value < Translate(m, va).value + 4)
    ensures ByteAt(StoreWord(m, va, word).value, va + k) == ByteAt(m, va + k)
  {
    assert Physical(StoreWord(m, va, word).value, va + k) == Physical(m, va + k);
  }

  lemma ExtremeWords(k: nat)
    requires k < 4
    ensures WordBytes(0)[k] == 0 && WordBytes(-1)[k] == 255
  {
    assert LittleEndian(0, 4) == [0] + LittleEndian(0, 3) && LittleEndian(0, 2) == [0] + LittleEndian(0, 1);
    assert LittleEndian(0xFFFF_FFFF, 4) == [255] + LittleEndian(0xFF_FFFF, 3);
    assert LittleEndian(0xFFFF, 2) == [255] + LittleEndian(0xFF, 1);
  }

  /** A concrete torn word: two bytes meant for page 1 land in page 2. */
  lemma StraddlingWordTears()
    ensures var m := PagedMemory(seq(12288, _ => 0), map[0 := 0, 1 := 2, 2 := 1]);
            && FramesDistinct(m)
            && StoreWord(m, 4094, -1).Granted?
            && ByteAt(m, 8192) == Some(0)
            && ByteAt(StoreWord(m, 4094, -1).value, 8192) == Some(255)
  {
    var m := PagedMemory(seq(12288, _ => 0), map[0 := 0, 1 := 2, 2 := 1]);
    assert FrameAddress(0, 4094) == 4094 && FrameAddress(1, 0) == 4096;
    assert Translate(m, 4094) == Granted(4094);
    ExtremeWords(2);
    assert 8192 / PAGE_SIZE == 2 && 8192 % PAGE_SIZE == 0;
  }
}
