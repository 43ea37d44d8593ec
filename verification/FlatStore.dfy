/** What a memory holds after any run of accesses: the last write to each byte, and zero before it. */
module FlatStore {
  import opened Words
  import opened Bits
  import opened Memory

  // ---------------------------------------------------------------------------------------
  // A new memory
  // ---------------------------------------------------------------------------------------

  lemma ZeroWord(s: seq<byte>)
    requires s == [0, 0, 0, 0]
    ensures BytesWord(s) == 0
  {
    BytesWordIs(s);
  }

  /** Every word of a new memory is zero, whatever its size. */
  lemma NewMemoryReadsZero(size: nat, va: uint32)
    ensures LoadWord(FreshMemory(size), va).Granted? ==> LoadWord(FreshMemory(size), va).value == 0
  {
    var m := FreshMemory(size);
    if Translate(m, va).Granted? {
      var pa := Translate(m, va).value;
      ZeroWord(m.bytes[pa..pa + 4]);
    }
  }

  // ---------------------------------------------------------------------------------------
  // After any run of reads and writes
  // ---------------------------------------------------------------------------------------

  /** A store of plain bytes, zero at first: byte x is that of the last write in range that covers it. */
  function FlatByte(size: nat, operations: seq<Operation>, x: nat): byte
    decreases |operations|
  {
    if operations == [] then 0
    else
      var last := operations[|operations| - 1];
      if last.Write? && last.va + 4 <= size && last.va <= x < last.va + 4
      then WordBytes(last.word)[x - last.va]
      else FlatByte(size, operations[..|operations| - 1], x)
  }

  lemma {:induction false} AfterLast(m: PagedMemory, operations: seq<Operation>, last: Operation)
    ensures After(m, operations + [last]) == AfterOne(After(m, operations), last)
    decreases |operations|
  {
    hide AfterOne;
    var all := operations + [last];
    if operations == [] {
      assert all[1..] == [];
    } else {
      assert all[1..] == operations[1..] + [last];
      AfterLast(AfterOne(m, operations[0]), operations[1..], last);
    }
  }

  /** In a memory with the constructor's page table an address is backed by itself. */
  lemma BuiltIsIdentity(m: PagedMemory, size: nat, x: uint32)
    requires BuiltWith(m, size) && size <= TWO_32
    ensures x < size ==> Physical(m, x) == Some(x)
    ensures x >= size ==> ByteAt(m, x) == None
    ensures StoreWord(m, x, 0).Granted? <==> x + 4 <= size
    ensures Translate(m, x).Granted? <==> x + 4 <= size
  {
    assert PageCount(size) == (size + PAGE_SIZE - 1) / PAGE_SIZE;
    if x / PAGE_SIZE in m.pageTable {
      assert m.pageTable[x / PAGE_SIZE] == x / PAGE_SIZE;
      assert FrameAddress(x / PAGE_SIZE, x % PAGE_SIZE) == x;
    }
  }

  lemma BuiltWithAfter(size: nat, operations: seq<Operation>)
    requires AccessesOnly(operations)
    ensures BuiltWith(After(FreshMemory(size), operations), size)
  {
    AccessesKeepShape(FreshMemory(size), operations, size);
  }

  /** Paged memory is that store of plain bytes, after any run of reads and writes. */
  lemma {:induction false} MemoryIsFlat(size: nat, operations: seq<Operation>, x: uint32)
    requires size <= TWO_32 && AccessesOnly(operations)
    ensures ByteAt(After(FreshMemory(size), operations), x) ==
              if x < size then Some(FlatByte(size, operations, x)) else None
    decreases |operations|
  {
    hide AfterOne, FrameAddress, WordBytes;
    var m := After(FreshMemory(size), operations);
    BuiltWithAfter(size, operations);
    BuiltIsIdentity(m, size, x);
    if operations != [] && x < size {
      var front, last := operations[..|operations| - 1], operations[|operations| - 1];
      assert operations == front + [last];
      assert AccessesOnly(front);
      AfterLast(FreshMemory(size), front, last);
      MemoryIsFlat(size, front, x);
      AccessIsFlat(After(FreshMemory(size), front), size, front, last, x);
    }
  }

  lemma AccessIsFlat(m: PagedMemory, size: nat, front: seq<Operation>, last: Operation, x: uint32)
    requires size <= TWO_32 && x < size && AccessesOnly(front) && m == After(FreshMemory(size), front)
    requires last.Read? || last.Write?
    ensures ByteAt(AfterOne(m, last), x) ==
              if last.Write? && last.va + 4 <= size && last.va <= x < last.va + 4
              then Some(WordBytes(last.word)[x - last.va]) else ByteAt(m, x)
  {
    hide ByteAt, WordBytes, Patch, After;
    BuiltWithAfter(size, front);
    if last.Write? {
      BuiltIsIdentity(m, size, last.va);
      if last.va + 4 <= size {
        BuiltMemoryIsFlat(m, size, last.va);
        WriteIsFlat(m, last.va, last.word, x);
      }
    }
  }

  /** And so are its answers: a read in range returns the four bytes of the store at that point, a write
      in range succeeds, and an access that leaves the memory is refused. */
  lemma AnswersAreFlat(size: nat, operations: seq<Operation>, k: nat)
    requires size <= TWO_32 && AccessesOnly(operations) && k < |operations|
    ensures var op := operations[k];
            var answers := Answers(FreshMemory(size), operations);
            && |answers| == |operations|
            && match op
               case Read(va) =>
                 && answers[k].Word? && (answers[k].read.Granted? <==> va + 4 <= size)
                 && (va + 4 <= size ==>
                       forall j: nat | j < 4 ::
                         WordBytes(answers[k].read.value)[j] == FlatByte(size, operations[..k], va + j))
               case Write(va, _) =>
                 answers[k].Stored? && (answers[k].written.Granted? <==> va + 4 <= size)
               case _ => true
  {
    hide FlatByte, AfterOne, WordBytes, FrameAddress, ByteAt, Translate;
    var op, front := operations[k], operations[..k];
    var m := After(FreshMemory(size), front);
    AnswerAt(FreshMemory(size), operations, k);
    assert AccessesOnly(front);
    BuiltWithAfter(size, front);
    if op.Read? {
      BuiltIsIdentity(m, size, op.va);
      if op.va + 4 <= size {
        BuiltMemoryIsFlat(m, size, op.va);
        forall j: nat | j < 4
          ensures WordBytes(LoadWord(m, op.va).value)[j] == FlatByte(size, front, op.va + j)
        {
          ReadIsFlat(m, op.va, j);
          MemoryIsFlat(size, front, op.va + j);
        }
      }
    } else if op.Write? {
      BuiltIsIdentity(m, size, op.va);
    }
  }

  lemma {:induction false} AnswerAt(m: PagedMemory, operations: seq<Operation>, k: nat)
    requires k < |operations|
    ensures |Answers(m, operations)| == |operations|
    ensures Answers(m, operations)[k] == AnswerTo(After(m, operations[..k]), operations[k])
    decreases |operations|
  {
    hide AfterOne, AnswerTo;
    var next := AfterOne(m, operations[0]);
    if |operations| > 1 {
      AnswerAt(next, operations[1..], if k == 0 then 0 else k - 1);
    }
    if k > 0 {
      assert operations[..k][1..] == operations[1..][..k - 1];
    }
  }

  // ---------------------------------------------------------------------------------------
  // After a change of the page table
  // ---------------------------------------------------------------------------------------

  /** A mapping moves one page to the given frame, a replacement moves every page, and the bytes stay. */
  lemma RemappingMovesPages(m: PagedMemory, page: uint32, frame: uint32, table: PageTable, va: uint32)
    ensures var mapped, replaced := After(m, [MapTo(page, frame)]), After(m, [Replace(table)]);
            && mapped.bytes == m.bytes && replaced.bytes == m.bytes
            && Physical(mapped, va) == (if va / PAGE_SIZE == page
                                        then Some((frame * PAGE_SIZE + va % PAGE_SIZE) % TWO_32)
                                        else Physical(m, va))
            && Physical(replaced, va) == Physical(PagedMemory(m.bytes, table), va)
  {
    AfterLast(m, [], MapTo(page, frame));
    AfterLast(m, [], Replace(table));
    assert [] + [MapTo(page, frame)] == [MapTo(page, frame)] && [] + [Replace(table)] == [Replace(table)];
  }
}
