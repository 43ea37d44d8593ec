/** The migration packet: its byte layout, its checksum, and what the receiver accepts. */
module Serializer {
  import opened Words
  import opened Bits
  import opened Machine

  datatype MigrationPacket = MigrationPacket(version: uint32, checksum: uint32, payload: seq<byte>)

  const FNV_OFFSET: uint32 := 2166136261
  const FNV_PRIME: uint32 := 16777619
  /** The inverse of FNV_PRIME modulo 2^32. */
  const FNV_INVERSE: uint32 := 899433627

  // ---------------------------------------------------------------------------------------
  // The checksum
  // ---------------------------------------------------------------------------------------

  function HashStep(hash: uint32, b: byte): uint32 {
    Pow2Word();
    Bitwise(BitXor, hash, b, 32) * FNV_PRIME % TWO_32
  }

  function HashFrom(hash: uint32, bytes: seq<byte>): uint32
    decreases |bytes|
  {
    if bytes == [] then hash else HashFrom(HashStep(hash, bytes[0]), bytes[1..])
  }

  function Checksum(bytes: seq<byte>): uint32 {
    HashFrom(FNV_OFFSET, bytes)
  }

  method ComputeChecksum(bytes: seq<byte>) returns (hash: uint32)
    ensures hash == Checksum(bytes)
  {
    hash := FNV_OFFSET;
    for i := 0 to |bytes|
      invariant HashFrom(hash, bytes[i..]) == Checksum(bytes)
    {
      assert bytes[i..][0] == bytes[i] && bytes[i..][1..] == bytes[i + 1..];
      hash := HashStep(hash, bytes[i]);
    }
    assert bytes[|bytes|..] == [];
  }

  /** The hash is FNV-1a: it starts at 2166136261, and each byte is first combined with the hash bit by
      bit by exclusive or, and the result x then multiplied by 16777619 modulo 2^32. */
  lemma ChecksumStep(bytes: seq<byte>, b: byte) returns (x: uint32)
    ensures Checksum([]) == 2166136261
    ensures forall k: nat | k < 32 :: Bit(x, k) <==> Bit(Checksum(bytes), k) != Bit(b, k)
    ensures Checksum(bytes + [b]) == x * 16777619 % 0x1_0000_0000
  {
    Pow2Word();
    HashSplit(FNV_OFFSET, bytes, [b]);
    x := Bitwise(BitXor, Checksum(bytes), b, 32);
    forall k: nat | k < 32
      ensures Bit(x, k) <==> Bit(Checksum(bytes), k) != Bit(b, k)
    {
      BitwiseActsOnBits(BitXor, Checksum(bytes), b, 32, k);
    }
    assert [b][1..] == [] && HashFrom(Checksum(bytes), [b]) == HashStep(Checksum(bytes), b);
  }

  lemma PrimeIsInvertible(x: uint32, y: uint32)
    requires x * FNV_PRIME % TWO_32 == y * FNV_PRIME % TWO_32
    ensures x == y
  {
    var kx, ky := x * FNV_PRIME / TWO_32, y * FNV_PRIME / TWO_32;
    assert x * FNV_PRIME == kx * TWO_32 + x * FNV_PRIME % TWO_32;
    assert y * FNV_PRIME == ky * TWO_32 + y * FNV_PRIME % TWO_32;
    NoCommonFactor(x - y, kx - ky);
  }

  /** A small multiple of the prime is a multiple of 2^32 only if it is zero. */
  lemma NoCommonFactor(d: int, k: int)
    requires d * FNV_PRIME == k * TWO_32 && -TWO_32 < d < TWO_32
    ensures d == 0
  {
    assert FNV_PRIME * FNV_INVERSE == 3513497 * TWO_32 + 1;
    assert d == (k * FNV_INVERSE - d * 3513497) * TWO_32;
  }

  /** A step loses nothing: neither of the hash nor of the byte. */
  lemma HashStepInjective(h1: uint32, h2: uint32, b1: byte, b2: byte)
    requires HashStep(h1, b1) == HashStep(h2, b2)
    ensures b1 == b2 ==> h1 == h2
    ensures h1 == h2 ==> b1 == b2
  {
    Pow2Word();
    PrimeIsInvertible(Bitwise(BitXor, h1, b1, 32), Bitwise(BitXor, h2, b2, 32));
    if b1 == b2 {
      XorCancels(h1, b1, 32);
      XorCancels(h2, b1, 32);
    }
    if h1 == h2 {
      XorInjective(h1, b1, b2, 32);
    }
  }

  lemma {:induction false} HashInjective(h1: uint32, h2: uint32, bytes: seq<byte>)
    requires HashFrom(h1, bytes) == HashFrom(h2, bytes)
    ensures h1 == h2
    decreases |bytes|
  {
    if bytes != [] {
      HashInjective(HashStep(h1, bytes[0]), HashStep(h2, bytes[0]), bytes[1..]);
      HashStepInjective(h1, h2, bytes[0], bytes[0]);
    }
  }

  lemma {:induction false} HashSplit(hash: uint32, a: seq<byte>, b: seq<byte>)
    ensures HashFrom(hash, a + b) == HashFrom(HashFrom(hash, a), b)
    decreases |a|
  {
    if a == [] {
      assert a + b == b;
    } else {
      assert (a + b)[0] == a[0] && (a + b)[1..] == a[1..] + b;
      HashSplit(HashStep(hash, a[0]), a[1..], b);
    }
  }

  /** Changing exactly one byte of a payload always changes its checksum. */
  lemma OneByteChangesChecksum(bytes: seq<byte>, at: nat, b: byte)
    requires at < |bytes| && b != bytes[at]
    ensures Checksum(bytes[at := b]) != Checksum(bytes)
  {
    hide HashStep;
    var head, tail := bytes[..at], bytes[at + 1..];
    var hash := HashFrom(FNV_OFFSET, head);
    assert bytes == head + ([bytes[at]] + tail);
    assert bytes[at := b] == head + ([b] + tail);
    HashSplit(FNV_OFFSET, head, [bytes[at]] + tail);
    HashSplit(FNV_OFFSET, head, [b] + tail);
    assert ([bytes[at]] + tail)[1..] == tail && ([b] + tail)[1..] == tail;
    if Checksum(bytes[at := b]) == Checksum(bytes) {
      HashInjective(HashStep(hash, bytes[at]), HashStep(hash, b), tail);
      HashStepInjective(hash, hash, bytes[at], b);
    }
  }

  // ---------------------------------------------------------------------------------------
  // The layout
  // ---------------------------------------------------------------------------------------

  function RegisterBytes(regs: seq<int32>): (s: seq<byte>)
    ensures |s| == 4 * |regs|
  {
    if regs == [] then [] else RegisterBytes(regs[..|regs| - 1]) + WordBytes(regs[|regs| - 1])
  }

  /** A length field: static_cast<uint32_t> of a size. */
  function LengthBytes(size: nat): (s: seq<byte>)
    ensures |s| == 4
  {
    LittleEndian(ToUint32(size), 4)
  }

  function CpuBytes(cpu: CpuState): (s: seq<byte>)
    ensures |s| == 144
  {
    LittleEndian(cpu.pc, 8) + WordBytes(cpu.hi) + WordBytes(cpu.lo) + RegisterBytes(cpu.regs)
  }

  function Payload(s: VmSnapshot): (p: seq<byte>)
    ensures |p| == 152 + |s.name| + |s.memory|
  {
    LengthBytes(|s.name|) + s.name + CpuBytes(s.cpu) + LengthBytes(|s.memory|) + s.memory
  }

  /** The packet the sender builds. */
  function PacketOf(s: VmSnapshot): MigrationPacket {
    MigrationPacket(1, Checksum(Payload(s)), Payload(s))
  }

  /** The layout, position by position: name length, name, pc, hi, lo, the 32 registers in order, memory
      size, memory. Lengths are cut to 32 bits. */
  predicate LaidOut(p: seq<byte>, s: VmSnapshot) {
    var at := 4 + |s.name|;
    && |p| >= at + 148 + |s.memory|
    && FromLittleEndian(p[0..4]) == |s.name| % TWO_32
    && p[4..at] == s.name
    && FromLittleEndian(p[at..at + 8]) == s.cpu.pc
    && BytesWord(p[at + 8..at + 12]) == s.cpu.hi
    && BytesWord(p[at + 12..at + 16]) == s.cpu.lo
    && (forall k: RegIndex :: BytesWord(p[at + 16 + 4 * k..at + 20 + 4 * k]) == s.cpu.regs[k])
    && FromLittleEndian(p[at + 144..at + 148]) == |s.memory| % TWO_32
    && p[at + 148..at + 148 + |s.memory|] == s.memory
  }

  lemma {:induction false} RegisterBytesAt(regs: seq<int32>, k: nat)
    requires k < |regs|
    ensures RegisterBytes(regs)[4 * k..4 * k + 4] == WordBytes(regs[k])
    decreases |regs|
  {
    var n := |regs| - 1;
    var front := RegisterBytes(regs[..n]);
    if k < n {
      RegisterBytesAt(regs[..n], k);
      assert RegisterBytes(regs)[..4 * n] == front;
      assert RegisterBytes(regs)[4 * k..4 * k + 4] == front[4 * k..4 * k + 4];
    }
  }

  lemma CpuBytesAt(cpu: CpuState)
    requires cpu.pc < TWO_64
    ensures var c := CpuBytes(cpu);
            && FromLittleEndian(c[0..8]) == cpu.pc
            && BytesWord(c[8..12]) == cpu.hi && BytesWord(c[12..16]) == cpu.lo
            && forall k: RegIndex :: BytesWord(c[16 + 4 * k..20 + 4 * k]) == cpu.regs[k]
  {
    hide LittleEndian, FromLittleEndian, RegisterBytes, BytesWord, WordBytes;
    var c := CpuBytes(cpu);
    WordSizes();
    EncodeDecode(cpu.pc, 8);
    assert c[0..8] == LittleEndian(cpu.pc, 8);
    assert c[8..12] == WordBytes(cpu.hi) && c[12..16] == WordBytes(cpu.lo);
    WordBytesRoundTrip(cpu.hi);
    WordBytesRoundTrip(cpu.lo);
    forall k: RegIndex
      ensures BytesWord(c[16 + 4 * k..20 + 4 * k]) == cpu.regs[k]
    {
      RegisterBytesAt(cpu.regs, k);
      assert c[16 + 4 * k..20 + 4 * k] == RegisterBytes(cpu.regs)[4 * k..4 * k + 4];
      WordBytesRoundTrip(cpu.regs[k]);
    }
  }

  lemma LengthBytesAre(n: nat)
    ensures FromLittleEndian(LengthBytes(n)) == n % TWO_32
  {
    hide LittleEndian, FromLittleEndian, Pow256;
    WordSizes();
    EncodeDecode(ToUint32(n), 4);
  }

  lemma SliceOfSlice(p: seq<byte>, a: nat, b: nat, i: nat, j: nat)
    requires a <= b <= |p| && i <= j <= b - a
    ensures p[a..b][i..j] == p[a + i..a + j]
  {
    var x, y := p[a..b][i..j], p[a + i..a + j];
    assert |x| == |y| && forall k | 0 <= k < |x| :: x[k] == p[a + i + k] == y[k];
  }

  /** Where a stretch of the payload holds the encoded cpu, it has its fields. */
  lemma CpuAt(p: seq<byte>, at: nat, cpu: CpuState)
    requires cpu.pc < TWO_64 && at + 144 <= |p| && p[at..at + 144] == CpuBytes(cpu)
    ensures FromLittleEndian(p[at..at + 8]) == cpu.pc
    ensures BytesWord(p[at + 8..at + 12]) == cpu.hi && BytesWord(p[at + 12..at + 16]) == cpu.lo
    ensures forall k: RegIndex :: BytesWord(p[at + 16 + 4 * k..at + 20 + 4 * k]) == cpu.regs[k]
  {
    hide FromLittleEndian, BytesWord, CpuBytes;
    CpuBytesAt(cpu);
    SliceOfSlice(p, at, at + 144, 0, 8);
    SliceOfSlice(p, at, at + 144, 8, 12);
    SliceOfSlice(p, at, at + 144, 12, 16);
    forall k: RegIndex
      ensures BytesWord(p[at + 16 + 4 * k..at + 20 + 4 * k]) == cpu.regs[k]
    {
      SliceOfSlice(p, at, at + 144, 16 + 4 * k, 20 + 4 * k);
    }
  }

  /** What the sender builds is laid out so, and holds nothing more. */
  lemma PayloadLaidOut(s: VmSnapshot)
    requires s.cpu.pc < TWO_64
    ensures LaidOut(Payload(s), s) && |Payload(s)| == 152 + |s.name| + |s.memory|
  {
    hide FromLittleEndian, BytesWord, CpuBytes, LengthBytes;
    var p, at := Payload(s), 4 + |s.name|;
    LengthBytesAre(|s.name|);
    LengthBytesAre(|s.memory|);
    assert p[0..4] == LengthBytes(|s.name|);
    assert p[at..at + 144] == CpuBytes(s.cpu);
    assert p[at + 144..at + 148] == LengthBytes(|s.memory|);
    CpuAt(p, at, s.cpu);
  }

  method Serialize(s: VmSnapshot) returns (packet: MigrationPacket)
    ensures packet == PacketOf(s)
    ensures packet.version == 1 && packet.checksum == Checksum(packet.payload)
    ensures s.cpu.pc < TWO_64 ==> LaidOut(packet.payload, s)
  {
    hide LaidOut, Checksum;
    var payload := LengthBytes(|s.name|);
    payload := payload + s.name;
    ghost var front := payload;
    payload := payload + LittleEndian(s.cpu.pc, 8);
    payload := payload + WordBytes(s.cpu.hi);
    payload := payload + WordBytes(s.cpu.lo);
    ghost var fixed := LittleEndian(s.cpu.pc, 8) + WordBytes(s.cpu.hi) + WordBytes(s.cpu.lo);
    assert payload == front + fixed;
    for i := 0 to 32
      invariant payload == front + fixed + RegisterBytes(s.cpu.regs[..i])
    {
      assert s.cpu.regs[..i + 1][..i] == s.cpu.regs[..i];
      payload := payload + WordBytes(s.cpu.regs[i]);
    }
    assert s.cpu.regs[..32] == s.cpu.regs;
    assert payload == front + CpuBytes(s.cpu);
    payload := payload + LengthBytes(|s.memory|);
    payload := payload + s.memory;
    assert payload == Payload(s);
    var checksum := ComputeChecksum(payload);
    packet := MigrationPacket(1, checksum, payload);
    if s.cpu.pc < TWO_64 {
      PayloadLaidOut(s);
    }
  }

  // ---------------------------------------------------------------------------------------
  // The receiver
  // ---------------------------------------------------------------------------------------

  /** The length field at an offset of the payload. */
  function FieldAt(payload: seq<byte>, offset: nat): nat
    requires offset + 4 <= |payload|
  {
    FromLittleEndian(payload[offset..offset + 4])
  }

  /** The payload is long enough for the two length fields it contains: the receiver reads no further. */
  predicate WellSized(payload: seq<byte>) {
    && 4 <= |payload|
    && var nameLen := FieldAt(payload, 0);
    && 152 + nameLen <= |payload|
    && 152 + nameLen + FieldAt(payload, 148 + nameLen) <= |payload|
  }

  datatype Received = Accepted(snapshot: VmSnapshot) | Rejected(error: string)

  const BAD_VERSION := "unsupported migration version"
  const BAD_CHECKSUM := "migration checksum mismatch"

  predicate Genuine(packet: MigrationPacket) {
    packet.version == 1 && packet.checksum == Checksum(packet.payload)
  }

  /** The register loop of the receiver. */
  method ReadRegisters(p: seq<byte>, start: nat, initial: RegisterFile) returns (regs: RegisterFile)
    requires start + 128 <= |p|
    ensures RegisterBytes(regs) == p[start..start + 128]
  {
    regs := initial;
    var offset := start;
    for i := 0 to 32
      invariant offset == start + 4 * i
      invariant RegisterBytes(regs[..i]) == p[start..offset]
    {
      var word := BytesWord(p[offset..offset + 4]);
      BytesWordRoundTrip(p[offset..offset + 4]);
      ghost var done := regs[..i];
      regs := regs[i := word];
      assert regs[..i + 1][..i] == done;
      offset := offset + 4;
      assert p[start..offset] == p[start..offset - 4] + p[offset - 4..offset];
    }
    assert regs[..32] == regs;
  }

  /** The receiver reads a genuine packet back into the one snapshot whose encoding starts the payload,
      and does not touch the page table of the snapshot it was given. */
  method Deserialize(packet: MigrationPacket, initial: VmSnapshot) returns (r: Received)
    requires Genuine(packet) ==> WellSized(packet.payload)
    ensures packet.version != 1 ==> r == Rejected(BAD_VERSION)
    ensures packet.version == 1 && packet.checksum != Checksum(packet.payload) ==> r == Rejected(BAD_CHECKSUM)
    ensures Genuine(packet) ==> r.Accepted? && Decodes(packet.payload, r.snapshot)
                                && r.snapshot.pageTable == initial.pageTable
                                && LaidOut(packet.payload, r.snapshot)
  {
    hide Payload, RegisterBytes, FromLittleEndian, BytesWord, Checksum, LaidOut;
    if packet.version != 1 {
      return Rejected(BAD_VERSION);
    }
    var checksum := ComputeChecksum(packet.payload);
    if packet.checksum != checksum {
      return Rejected(BAD_CHECKSUM);
    }
    var p := packet.payload;
    var offset := 0;
    var nameLen := FieldAt(p, offset);
    offset := offset + 4;
    var name := p[offset..offset + nameLen];
    offset := offset + nameLen;
    var pc := FromLittleEndian(p[offset..offset + 8]);
    offset := offset + 8;
    var hi := BytesWord(p[offset..offset + 4]);
    offset := offset + 4;
    var lo := BytesWord(p[offset..offset + 4]);
    offset := offset + 4;
    var regs := ReadRegisters(p, offset, initial.cpu.regs);
    offset := offset + 128;
    var memSize := FieldAt(p, offset);
    offset := offset + 4;
    var memory := p[offset..offset + memSize];
    var s := initial.(name := name, cpu := CpuState(regs, hi, lo, pc), memory := memory);
    CpuSegment(p, 4 + nameLen, s.cpu);
    WholePayload(p, s);
    DecodesLaidOut(p, s);
    return Accepted(s);
  }

  /** s is what the receiver reads off payload: its encoding is how the payload starts. */
  predicate Decodes(payload: seq<byte>, s: VmSnapshot) {
    |s.name| < TWO_32 && |s.memory| < TWO_32 && s.cpu.pc < TWO_64 && Payload(s) <= payload
  }

  lemma CpuSegment(p: seq<byte>, at: nat, cpu: CpuState)
    requires at + 144 <= |p|
    requires cpu.pc == FromLittleEndian(p[at..at + 8])
    requires cpu.hi == BytesWord(p[at + 8..at + 12]) && cpu.lo == BytesWord(p[at + 12..at + 16])
    requires RegisterBytes(cpu.regs) == p[at + 16..at + 144]
    ensures CpuBytes(cpu) == p[at..at + 144] && cpu.pc < TWO_64
  {
    hide LittleEndian, FromLittleEndian, RegisterBytes, BytesWord, WordBytes;
    WordSizes();
    DecodeEncode(p[at..at + 8]);
    BytesWordRoundTrip(p[at + 8..at + 12]);
    BytesWordRoundTrip(p[at + 12..at + 16]);
  }

  lemma LengthRoundTrip(p: seq<byte>, offset: nat)
    requires offset + 4 <= |p|
    ensures FieldAt(p, offset) < TWO_32
    ensures LengthBytes(FieldAt(p, offset)) == p[offset..offset + 4]
  {
    hide LittleEndian, FromLittleEndian, Pow256;
    WordSizes();
    DecodeEncode(p[offset..offset + 4]);
  }

  lemma WholePayload(p: seq<byte>, s: VmSnapshot)
    requires WellSized(p)
    requires |s.name| == FieldAt(p, 0) && s.name == p[4..4 + |s.name|]
    requires var at := 4 + |s.name|;
             && CpuBytes(s.cpu) == p[at..at + 144] && s.cpu.pc < TWO_64
             && |s.memory| == FieldAt(p, at + 144) && s.memory == p[at + 148..at + 148 + |s.memory|]
    ensures Decodes(p, s)
  {
    var at := 4 + |s.name|;
    LengthRoundTrip(p, 0);
    LengthRoundTrip(p, at + 144);
    Pieces(p, 4, at, at + 144, at + 148, at + 148 + |s.memory|);
  }

  lemma Pieces(p: seq<byte>, a: nat, b: nat, c: nat, d: nat, e: nat)
    requires a <= b <= c <= d <= e <= |p|
    ensures p[0..a] + p[a..b] + p[b..c] + p[c..d] + p[d..e] <= p
  {
    assert p[0..a] + p[a..b] == p[..b];
    assert p[..b] + p[b..c] == p[..c];
    assert p[..c] + p[c..d] == p[..d];
    assert p[..d] + p[d..e] == p[..e];
  }

  // ---------------------------------------------------------------------------------------
  // Round trips
  // ---------------------------------------------------------------------------------------

  /** Everything of a snapshot the packet carries. */
  predicate SameCarried(s: VmSnapshot, t: VmSnapshot) {
    s.name == t.name && s.cpu == t.cpu && s.memory == t.memory
  }

  /** A snapshot whose sizes and pc fit the fields of the packet. */
  predicate Fits(s: VmSnapshot) {
    |s.name| < TWO_32 && |s.memory| < TWO_32 && s.cpu.pc < TWO_64
  }

  lemma {:induction false} RegisterBytesInjective(a: seq<int32>, b: seq<int32>)
    requires |a| == |b| && RegisterBytes(a) == RegisterBytes(b)
    ensures a == b
    decreases |a|
  {
    if a != [] {
      var n := |a| - 1;
      assert RegisterBytes(a)[..4 * n] == RegisterBytes(a[..n]) && RegisterBytes(b)[..4 * n] == RegisterBytes(b[..n]);
      assert RegisterBytes(a)[4 * n..] == WordBytes(a[n]) && RegisterBytes(b)[4 * n..] == WordBytes(b[n]);
      RegisterBytesInjective(a[..n], b[..n]);
      WordBytesRoundTrip(a[n]);
      WordBytesRoundTrip(b[n]);
      assert a == a[..n] + [a[n]] && b == b[..n] + [b[n]];
    }
  }

  lemma CpuBytesInjective(a: CpuState, b: CpuState)
    requires a.pc < TWO_64 && b.pc < TWO_64
    requires CpuBytes(a) == CpuBytes(b)
    ensures a == b
  {
    var x, y := CpuBytes(a), CpuBytes(b);
    assert x[..8] == LittleEndian(a.pc, 8) && y[..8] == LittleEndian(b.pc, 8);
    assert x[8..12] == WordBytes(a.hi) && y[8..12] == WordBytes(b.hi);
    assert x[12..16] == WordBytes(a.lo) && y[12..16] == WordBytes(b.lo);
    assert x[16..] == RegisterBytes(a.regs) && y[16..] == RegisterBytes(b.regs);
    WordSizes();
    EncodeDecode(a.pc, 8);
    EncodeDecode(b.pc, 8);
    WordBytesRoundTrip(a.hi);
    WordBytesRoundTrip(b.hi);
    WordBytesRoundTrip(a.lo);
    WordBytesRoundTrip(b.lo);
    RegisterBytesInjective(a.regs, b.regs);
  }

  lemma LengthReadsBack(n: nat)
    requires n < TWO_32
    ensures FromLittleEndian(LengthBytes(n)) == n
  {
    hide LittleEndian, FromLittleEndian, Pow256;
    WordSizes();
    EncodeDecode(n, 4);
  }

  /** Where the parts of an encoded snapshot lie in the payload. */
  lemma Segments(p: seq<byte>, s: VmSnapshot)
    requires Decodes(p, s)
    ensures FieldAt(p, 0) == |s.name|
    ensures var at := 4 + |s.name|;
            && |p| >= at + 148 + |s.memory|
            && p[4..at] == s.name
            && p[at..at + 144] == CpuBytes(s.cpu)
            && FieldAt(p, at + 144) == |s.memory|
            && p[at + 148..at + 148 + |s.memory|] == s.memory
  {
    var at := 4 + |s.name|;
    var q := Payload(s);
    assert p[..|q|] == q;
    assert p[0..4] == q[0..4] == LengthBytes(|s.name|);
    LengthReadsBack(|s.name|);
    assert p[at..at + 144] == q[at..at + 144] == CpuBytes(s.cpu);
    assert p[at + 144..at + 148] == q[at + 144..at + 148] == LengthBytes(|s.memory|);
    LengthReadsBack(|s.memory|);
    assert p[at + 148..|q|] == q[at + 148..] == s.memory;
  }

  /** What is read off a payload stands in it position by position. */
  lemma DecodesLaidOut(p: seq<byte>, s: VmSnapshot)
    requires Decodes(p, s)
    ensures LaidOut(p, s)
  {
    hide FromLittleEndian, BytesWord, CpuBytes, Payload;
    Segments(p, s);
    CpuAt(p, 4 + |s.name|, s.cpu);
  }

  lemma {:induction false} RegistersStand(p: seq<byte>, start: nat, regs: seq<int32>)
    requires start + 4 * |regs| <= |p|
    requires forall k | 0 <= k < |regs| :: BytesWord(p[start + 4 * k..start + 4 * k + 4]) == regs[k]
    ensures RegisterBytes(regs) == p[start..start + 4 * |regs|]
    decreases |regs|
  {
    hide BytesWord, WordBytes;
    if regs != [] {
      var n := |regs| - 1;
      RegistersStand(p, start, regs[..n]);
      BytesWordRoundTrip(p[start + 4 * n..start + 4 * n + 4]);
      assert p[start..start + 4 * n + 4] == p[start..start + 4 * n] + p[start + 4 * n..start + 4 * n + 4];
    }
  }

  /** The layout by position and the encoding as a whole say the same. */
  lemma DecodesIffLaidOut(p: seq<byte>, s: VmSnapshot)
    requires Fits(s)
    ensures Decodes(p, s) <==> LaidOut(p, s)
  {
    hide FromLittleEndian, BytesWord, CpuBytes, Payload, RegisterBytes;
    if Decodes(p, s) {
      DecodesLaidOut(p, s);
    }
    if LaidOut(p, s) {
      var at := 4 + |s.name|;
      assert forall k: RegIndex ::
          p[at + 16 + 4 * k..at + 16 + 4 * k + 4] == p[at + 16 + 4 * k..at + 20 + 4 * k];
      RegistersStand(p, at + 16, s.cpu.regs);
      CpuSegment(p, at, s.cpu);
      WholePayload(p, s);
    }
  }

  /** The encoding is prefix-free: one payload starts with the encoding of at most one snapshot. */
  lemma DecodesUnique(payload: seq<byte>, s: VmSnapshot, t: VmSnapshot)
    requires Decodes(payload, s) && Decodes(payload, t)
    ensures SameCarried(s, t)
  {
    Segments(payload, s);
    Segments(payload, t);
    CpuBytesInjective(s.cpu, t.cpu);
  }

  /** What the sender encodes is well sized, so the receiver never reads past it. */
  lemma PayloadWellSized(s: VmSnapshot)
    requires Fits(s)
    ensures WellSized(Payload(s)) && Decodes(Payload(s), s)
  {
    Segments(Payload(s), s);
  }

  /** Round trip: the receiver accepts the sender's packet, and whatever it reads from it carries the
      same name, cpu and memory. */
  lemma PacketRoundTrip(s: VmSnapshot, r: VmSnapshot)
    requires Fits(s) && Decodes(PacketOf(s).payload, r)
    ensures Genuine(PacketOf(s)) && SameCarried(r, s)
  {
    PayloadWellSized(s);
    DecodesUnique(Payload(s), r, s);
  }

  /** The size limit is exact: a packet that can be read back at all carries name and memory
      faithfully if and only if both sizes fit in 32 bits. */
  lemma RoundTripIffFits(s: VmSnapshot, r: VmSnapshot)
    requires s.cpu.pc < TWO_64 && Decodes(Payload(s), r)
    ensures SameCarried(r, s) <==> |s.name| < TWO_32 && |s.memory| < TWO_32
  {
    if |s.name| < TWO_32 && |s.memory| < TWO_32 {
      PacketRoundTrip(s, r);
    }
  }

  ghost predicate Zeros(bytes: seq<byte>) {
    forall k | 0 <= k < |bytes| :: bytes[k] == 0
  }

  lemma {:induction false} ZeroLittleEndian(n: nat)
    ensures Zeros(LittleEndian(0, n))
  {
    if n > 0 {
      ZeroLittleEndian(n - 1);
    }
  }

  lemma ZeroLength()
    ensures LengthBytes(TWO_32) == LengthBytes(0) && Zeros(LengthBytes(0))
  {
    ZeroLittleEndian(4);
  }

  lemma {:induction false} ZeroRegisterBytes(regs: seq<int32>)
    requires forall k | 0 <= k < |regs| :: regs[k] == 0
    ensures Zeros(RegisterBytes(regs))
    decreases |regs|
  {
    hide LittleEndian;
    if regs != [] {
      ZeroLittleEndian(4);
      ZeroRegisterBytes(regs[..|regs| - 1]);
    }
  }

  lemma ZeroCpu(cpu: CpuState)
    requires cpu == CpuState(seq(32, _ => 0), 0, 0, 0)
    ensures Zeros(CpuBytes(cpu))
  {
    hide LittleEndian, RegisterBytes;
    ZeroLittleEndian(8);
    ZeroLittleEndian(4);
    ZeroRegisterBytes(cpu.regs);
  }

  /** A sender beyond the limit: the length of a name of 2^32 zero bytes is cut to 0, so the receiver
      reads an empty name and zeroes after it. */
  lemma HugeNameIsLost(s: VmSnapshot, r: VmSnapshot)
    requires s == VmSnapshot(seq(TWO_32, _ => 0), CpuState(seq(32, _ => 0), 0, 0, 0), map[], [])
    requires r == s.(name := [])
    ensures Decodes(Payload(s), r) && !SameCarried(r, s)
  {
    hide LittleEndian, WordBytes, RegisterBytes, LengthBytes;
    var tail := CpuBytes(r.cpu) + LengthBytes(0);
    ZeroCpu(r.cpu);
    ZeroLength();
    assert Payload(r) == LengthBytes(0) + tail;
    assert tail == s.name[..148];
    assert Payload(s) == LengthBytes(0) + s.name + (CpuBytes(s.cpu) + LengthBytes(0));
    assert Payload(s)[..152] == LengthBytes(0) + s.name[..148];
  }

  /** Round trip the other way: encoding what the receiver read from an exactly sized genuine packet
      gives the same packet. */
  lemma ReserializeSamePacket(packet: MigrationPacket, r: VmSnapshot)
    requires Genuine(packet) && Decodes(packet.payload, r)
    requires |packet.payload| == 152 + |r.name| + |r.memory|
    ensures PacketOf(r) == packet
  {
    assert Payload(r) == packet.payload[..|Payload(r)|] == packet.payload;
  }

  /** A packet whose payload had one byte altered in transit is never genuine, so it is rejected. */
  lemma CorruptPacketRejected(packet: MigrationPacket, at: nat, b: byte)
    requires Genuine(packet) && at < |packet.payload| && b != packet.payload[at]
    ensures !Genuine(packet.(payload := packet.payload[at := b]))
  {
    OneByteChangesChecksum(packet.payload, at, b);
  }
}
