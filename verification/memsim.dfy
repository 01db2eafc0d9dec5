/** The paged memory simulator: 16-bit virtual addresses translated through a page table whose
    entries carry a page number and attribute bits, for the 8/8 and the 6/10 address split.
    `MemSim` is the program; the flat map of `Flat()` is what it must look like from outside. */
module MemSimulator {
  import opened Common

  /** REP_8_8: 256 pages of 256 bytes; otherwise 64 pages of 1024 bytes. */
  datatype Split = Rep88 | Rep610

  type uint16 = x: int | 0 <= x < 0x1_0000

  const R_PATTERN: uint16 := 1
  const W_PATTERN: uint16 := 2
  const X_PATTERN: uint16 := 3

  type FlatMemory = map<uint16, uint8>

  // ----- addresses and entries -----
  // The bit operators are written as arithmetic on 16-bit values: a shift by PAGE_NUM_SHIFT
  // multiplies or divides by the page size, masking the low bits takes the remainder, and `|=`
  // with a one-bit constant is SetBit.

  function PageSize(s: Split): int {
    if s == Rep88 then 256 else 1024
  }

  function PageCount(s: Split): int {
    if s == Rep88 then 256 else 64
  }

  function PageNum(s: Split, x: uint16): uint16 {
    x / PageSize(s)
  }

  function Offset(s: Split, v: uint16): uint16 {
    v % PageSize(s)
  }

  /** x << PAGE_NUM_SHIFT, cut to 16 bits. */
  function Shifted(s: Split, x: int): uint16 {
    (x * PageSize(s)) % 0x1_0000
  }

  /** e | bit, for a bit that is a power of two. */
  function SetBit(e: uint16, bit: uint16): (r: int)
    requires bit == 1 || bit == 2
    ensures 0 <= r < 0x1_0000
  {
    if (e / bit) % 2 == 0 then e + bit else e
  }

  /** SetBit sets that bit and keeps all the bits above and below it. */
  lemma SetBitMeaning(e: uint16, bit: uint16)
    requires bit == 1 || bit == 2
    ensures (SetBit(e, bit) / bit) % 2 == 1
    ensures SetBit(e, bit) / (2 * bit) == e / (2 * bit) && SetBit(e, bit) % bit == e % bit
  {
    if bit == 2 {
      assert e / 4 == (e / 2) / 2;
    }
  }

  /** pte & VALID_BIT */
  function ValidBit(pte: uint16): int {
    pte % 2
  }

  /** (pte & RWX_BITS) >> RWX_POS */
  function RwxBits(pte: uint16): int {
    (pte / 2) % 4
  }

  lemma AddressBits(s: Split, v: uint16)
    ensures 0 <= PageNum(s, v) < PageCount(s) && 0 <= Offset(s, v) < PageSize(s)
    ensures v == Shifted(s, PageNum(s, v)) + Offset(s, v)
  {
  }

  lemma ComposedAddress(s: Split, p: int, o: int)
    requires 0 <= p < PageCount(s) && 0 <= o < PageSize(s)
    ensures Shifted(s, p) == p * PageSize(s)
    ensures 0 <= Shifted(s, p) + o < 0x1_0000
    ensures PageNum(s, Shifted(s, p) + o) == p && Offset(s, Shifted(s, p) + o) == o
  {
  }

  predicate EntryReadable(attributes: bool, pte: uint16) {
    attributes ==> ValidBit(pte) != 0 && RwxBits(pte) != W_PATTERN
  }

  predicate EntryWritable(attributes: bool, pte: uint16) {
    attributes ==> ValidBit(pte) != 0 && RwxBits(pte) != R_PATTERN && RwxBits(pte) != X_PATTERN
  }

  /** The entry that initialisation writes for virtual page i: physical pages in reverse order. */
  function InitEntry(s: Split, attributes: bool, i: int): uint16 {
    var e := Shifted(s, PageCount(s) - 1 - i);
    if !attributes then e
    else
      var e1 := if 10 <= i <= 12 then SetBit(e, R_PATTERN * 2) else e;
      if 5 <= i <= 8 then e1 else SetBit(e1, 1)
  }

  // ----- the memory as seen from outside -----

  predicate Invalid(s: Split, attributes: bool, v: uint16) {
    attributes && 5 <= PageNum(s, v) <= 8
  }

  predicate ReadOnly(s: Split, attributes: bool, v: uint16) {
    attributes && 10 <= PageNum(s, v) <= 12
  }

  predicate Writable(s: Split, attributes: bool, v: uint16) {
    !Invalid(s, attributes, v) && !ReadOnly(s, attributes, v)
  }

  /** The attribute part of an initial entry. */
  function AttributeBits(attributes: bool, i: int): int {
    if !attributes then 0 else (if 10 <= i <= 12 then 2 else 0) + (if 5 <= i <= 8 then 0 else 1)
  }

  lemma EntrySum(s: Split, attributes: bool, i: int)
    requires 0 <= i < PageCount(s)
    ensures InitEntry(s, attributes, i) == (PageCount(s) - 1 - i) * PageSize(s) + AttributeBits(attributes, i)
  {
    var e := Shifted(s, PageCount(s) - 1 - i);
    ComposedAddress(s, PageCount(s) - 1 - i, 0);
    assert e % 4 == 0;
  }

  lemma SumBits(s: Split, p: int, a: int)
    requires 0 <= p < PageCount(s) && 0 <= a < 4
    ensures var e := p * PageSize(s) + a;
            && 0 <= e < 0x1_0000 && PageNum(s, e) == p
            && ValidBit(e) == a % 2 && RwxBits(e) == a / 2
  {
    var k := if s == Rep88 then 32 * p else 128 * p;
    var e := p * PageSize(s) + a;
    assert e == 8 * k + a && e / 2 == 4 * k + a / 2;
  }

  /** The attribute bits never disturb the page number, and they grant what the page ranges say. */
  lemma EntryMeaning(s: Split, attributes: bool, v: uint16)
    ensures var e := InitEntry(s, attributes, PageNum(s, v));
            && PageNum(s, e) == PageCount(s) - 1 - PageNum(s, v)
            && 0 <= PageNum(s, e) < PageCount(s)
            && (EntryReadable(attributes, e) <==> !Invalid(s, attributes, v))
            && (EntryWritable(attributes, e) <==> Writable(s, attributes, v))
  {
    var i := PageNum(s, v);
    AddressBits(s, v);
    EntrySum(s, attributes, i);
    SumBits(s, PageCount(s) - 1 - i, AttributeBits(attributes, i));
  }

  /** Translation through the initial table is injective: no two virtual addresses share a byte. */
  lemma TranslationInjective(s: Split, attributes: bool, v: uint16, w: uint16)
    requires PageNum(s, InitEntry(s, attributes, PageNum(s, v))) == PageNum(s, InitEntry(s, attributes, PageNum(s, w)))
    requires Offset(s, v) == Offset(s, w)
    ensures v == w
  {
    EntryMeaning(s, attributes, v);
    EntryMeaning(s, attributes, w);
    AddressBits(s, v);
    AddressBits(s, w);
  }

  datatype Op = Read(addr: uint16) | Write(addr: uint16, byte: uint8)
  datatype Reply = Value(byte: uint8) | Stored | Fault

  ghost predicate Total(flat: FlatMemory) {
    forall v: uint16 :: v in flat
  }

  ghost function FlatStep(s: Split, attributes: bool, flat: FlatMemory, op: Op): FlatMemory {
    if op.Write? && Writable(s, attributes, op.addr) then flat[op.addr := op.byte] else flat
  }

  ghost function FlatReply(s: Split, attributes: bool, flat: FlatMemory, op: Op): Reply
    requires Total(flat)
  {
    if op.Read? then (if Invalid(s, attributes, op.addr) then Fault else Value(flat[op.addr]))
    else if Writable(s, attributes, op.addr) then Stored else Fault
  }

  ghost function FlatRun(s: Split, attributes: bool, flat: FlatMemory, ops: seq<Op>): FlatMemory {
    if ops == [] then flat
    else FlatStep(s, attributes, FlatRun(s, attributes, flat, ops[..|ops| - 1]), ops[|ops| - 1])
  }

  ghost function FlatReplies(s: Split, attributes: bool, flat: FlatMemory, ops: seq<Op>): seq<Reply>
    requires Total(flat)
  {
    if ops == [] then []
    else
      var front := ops[..|ops| - 1];
      RunTotal(s, attributes, flat, front);
      FlatReplies(s, attributes, flat, front)
      + [FlatReply(s, attributes, FlatRun(s, attributes, flat, front), ops[|ops| - 1])]
  }

  lemma {:induction false} RunTotal(s: Split, attributes: bool, flat: FlatMemory, ops: seq<Op>)
    requires Total(flat)
    ensures Total(FlatRun(s, attributes, flat, ops))
  {
    if ops != [] {
      RunTotal(s, attributes, flat, ops[..|ops| - 1]);
    }
  }

  /** The last byte that some operation successfully stored at v. */
  ghost predicate LastStored(s: Split, attributes: bool, ops: seq<Op>, v: uint16, k: nat) {
    && k < |ops| && ops[k].Write? && ops[k].addr == v && Writable(s, attributes, v)
    && forall j :: k < j < |ops| ==> !(ops[j].Write? && ops[j].addr == v)
  }

  /** After any operations, an address holds the last byte successfully stored there, and the
      initial byte if there was none. */
  lemma {:induction false} ReadsLastStore(s: Split, attributes: bool, flat: FlatMemory, ops: seq<Op>, v: uint16)
    requires Total(flat)
    ensures Total(FlatRun(s, attributes, flat, ops))
    ensures forall k: nat :: LastStored(s, attributes, ops, v, k) ==>
              FlatRun(s, attributes, flat, ops)[v] == ops[k].byte
    ensures (forall k: nat :: !LastStored(s, attributes, ops, v, k)) ==>
              FlatRun(s, attributes, flat, ops)[v] == flat[v]
  {
    if ops != [] {
      var n := |ops| - 1;
      var front, op := ops[..n], ops[n];
      ReadsLastStore(s, attributes, flat, front, v);
      if op.Write? && op.addr == v {
        if Writable(s, attributes, v) {
          assert LastStored(s, attributes, ops, v, n);
        } else {
          assert forall k: nat :: !LastStored(s, attributes, ops, v, k);
        }
      } else {
        assert forall k: nat :: LastStored(s, attributes, front, v, k) ==> LastStored(s, attributes, ops, v, k);
        forall k: nat | LastStored(s, attributes, ops, v, k)
          ensures LastStored(s, attributes, front, v, k) && front[k] == ops[k]
        {
        }
      }
    }
  }

  /** Pages 10 to 12, and 5 to 8, keep their initial bytes for ever. */
  lemma {:induction false} ProtectedForever(s: Split, flat: FlatMemory, ops: seq<Op>, v: uint16)
    requires Total(flat)
    requires ReadOnly(s, true, v) || Invalid(s, true, v)
    ensures Total(FlatRun(s, true, flat, ops)) && FlatRun(s, true, flat, ops)[v] == flat[v]
  {
    ReadsLastStore(s, true, flat, ops, v);
    assert forall k: nat :: !LastStored(s, true, ops, v, k);
  }

  /** Reply k is the reply of the memory after the first k operations. */
  lemma {:induction false} RepliesAt(s: Split, attributes: bool, flat: FlatMemory, ops: seq<Op>, k: nat)
    requires Total(flat) && k < |ops|
    ensures |FlatReplies(s, attributes, flat, ops)| == |ops|
    ensures Total(FlatRun(s, attributes, flat, ops[..k]))
    ensures FlatReplies(s, attributes, flat, ops)[k] ==
            FlatReply(s, attributes, FlatRun(s, attributes, flat, ops[..k]), ops[k])
  {
    var n := |ops| - 1;
    RunTotal(s, attributes, flat, ops[..k]);
    if k < n {
      RepliesAt(s, attributes, flat, ops[..n], k);
      assert ops[..n][..k] == ops[..k];
    } else if n > 0 {
      RepliesAt(s, attributes, flat, ops[..n], 0);
    }
  }

  /** What operation k is answered: a read the last byte successfully stored at its address before, or
      the initial byte; a store whether it was allowed. */
  ghost predicate RightReply(s: Split, attributes: bool, flat: FlatMemory, ops: seq<Op>, k: nat, reply: Reply)
    requires Total(flat) && k < |ops|
  {
    var v := ops[k].addr;
    match ops[k]
    case Read(_) =>
      if attributes && 5 <= PageNum(s, v) <= 8 then reply == Fault
      else
        && (forall j: nat :: LastStored(s, attributes, ops[..k], v, j) ==> reply == Value(ops[j].byte))
        && ((forall j: nat :: !LastStored(s, attributes, ops[..k], v, j)) ==> reply == Value(flat[v]))
    case Write(_, _) =>
      reply == if attributes && (5 <= PageNum(s, v) <= 8 || 10 <= PageNum(s, v) <= 12) then Fault else Stored
  }

  lemma RepliesMeaning(s: Split, attributes: bool, flat: FlatMemory, ops: seq<Op>, k: nat)
    requires Total(flat) && k < |ops|
    ensures |FlatReplies(s, attributes, flat, ops)| == |ops|
    ensures RightReply(s, attributes, flat, ops, k, FlatReplies(s, attributes, flat, ops)[k])
  {
    RepliesAt(s, attributes, flat, ops, k);
    ReadsLastStore(s, attributes, flat, ops[..k], ops[k].addr);
    assert forall j: nat :: j < k ==> ops[..k][j] == ops[j];
  }

  // ----- the simulator -----

  class MemSim {
    const split: Split
    const attributes: bool
    const pageTable: array<uint16>
    const mainMem: array2<uint8>

    ghost predicate Valid() {
      && pageTable.Length == PageCount(split)
      && mainMem.Length0 == PageCount(split) && mainMem.Length1 == PageSize(split)
    }

    /** The page table is the one that initialisation builds. */
    ghost predicate Initialized()
      requires Valid()
      reads pageTable
    {
      forall i :: 0 <= i < PageCount(split) ==> pageTable[i] == InitEntry(split, attributes, i)
    }

    ghost function EntryOf(v: uint16): uint16
      requires Valid()
      reads pageTable
    {
      AddressBits(split, v);
      pageTable[(PageNum(split, v))]
    }

    /** The memory byte an address is translated to, whatever the page table holds. */
    ghost function ByteAt(v: uint16): uint8
      requires Valid()
      reads pageTable, mainMem
    {
      AddressBits(split, v);
      AddressBits(split, EntryOf(v));
      mainMem[(PageNum(split, EntryOf(v))), (Offset(split, v))]
    }

    ghost function Flat(): (flat: FlatMemory)
      requires Valid()
      reads pageTable, mainMem
      ensures Total(flat)
    {
      map v: uint16 | 0 <= v < 0x1_0000 :: ByteAt(v)
    }

    constructor (split: Split, attributes: bool)
      ensures Valid() && this.split == split && this.attributes == attributes
      ensures fresh(pageTable) && fresh(mainMem)
      ensures Initialized() && forall v: uint16 :: Flat()[v] == 0
    {
      this.split := split;
      this.attributes := attributes;
      pageTable := new uint16[PageCount(split)](_ => 0);
      mainMem := new uint8[PageCount(split), PageSize(split)]((_, _) => 0);
      new;
      InitPageTable();
    }

    method InitPageTable()
      requires Valid()
      modifies pageTable
      ensures Initialized()
    {
      for i := 0 to PageCount(split)
        invariant forall j :: 0 <= j < i ==> pageTable[j] == InitEntry(split, attributes, j)
      {
        pageTable[i] := Shifted(split, PageCount(split) - 1 - i);
        if attributes {
          if i >= 10 && i <= 12 {
            pageTable[i] := SetBit(pageTable[i], R_PATTERN * 2);
          }
          if !(i >= 5 && i <= 8) {
            pageTable[i] := SetBit(pageTable[i], 1);
          }
        }
      }
    }

    /** None when the page number is out of range. */
    method VirtToPte(vaddr: uint16) returns (pte: Option<uint16>)
      requires Valid()
      ensures pte == Some(EntryOf(vaddr))
    {
      AddressBits(split, vaddr);
      var pageNum := PageNum(split, vaddr);
      if pageNum >= PageCount(split) {
        return None;
      }
      return Some(pageTable[pageNum]);
    }

    method GetByte(vaddr: uint16) returns (r: Option<uint8>)
      requires Valid()
      ensures r == if EntryReadable(attributes, EntryOf(vaddr)) then Some(Flat()[vaddr]) else None
      ensures r.None? <==> attributes && (EntryOf(vaddr) % 2 == 0 || EntryOf(vaddr) / 2 % 4 == 2)
      ensures Initialized() ==> (r.None? <==> Invalid(split, attributes, vaddr))
    {
      EntryMeaning(split, attributes, vaddr);
      AddressBits(split, vaddr);
      AddressBits(split, EntryOf(vaddr));
      var entry := VirtToPte(vaddr);
      if entry.None? {
        return None;
      }
      var pte := entry.value;
      if attributes {
        if ValidBit(pte) == 0 {
          return None;
        }
        if RwxBits(pte) == W_PATTERN {
          return None;
        }
      }
      r := Some(mainMem[(PageNum(split, pte)), (Offset(split, vaddr))]);
    }

    method StoreByte(vaddr: uint16, byte: uint8) returns (ok: bool)
      requires Valid()
      modifies mainMem
      ensures ok <==> EntryWritable(attributes, EntryOf(vaddr))
      ensures !ok <==> attributes && (EntryOf(vaddr) % 2 == 0 || EntryOf(vaddr) / 2 % 4 in {1, 3})
      ensures !ok ==> forall i, j :: 0 <= i < mainMem.Length0 && 0 <= j < mainMem.Length1 ==>
                        mainMem[i, j] == old(mainMem[i, j])
      ensures Initialized() ==>
                && (ok <==> Writable(split, attributes, vaddr))
                && Flat() == if ok then old(Flat())[vaddr := byte] else old(Flat())
    {
      EntryMeaning(split, attributes, vaddr);
      AddressBits(split, vaddr);
      AddressBits(split, EntryOf(vaddr));
      var entry := VirtToPte(vaddr);
      if entry.None? {
        return false;
      }
      var pte := entry.value;
      if attributes {
        if ValidBit(pte) == 0 {
          return false;
        }
        var ptrn := RwxBits(pte);
        if ptrn == R_PATTERN {
          return false;
        }
        if ptrn == X_PATTERN {
          return false;
        }
      }
      mainMem[(PageNum(split, pte)), (Offset(split, vaddr))] := byte;
      ok := true;
      if Initialized() {
        StoredByte(vaddr);
      }
    }

    /** No other address is translated to the byte of vaddr. */
    lemma StoredByte(vaddr: uint16)
      requires Valid() && Initialized()
      ensures forall w: uint16 :: w != vaddr ==>
                (PageNum(split, EntryOf(w))) != (PageNum(split, EntryOf(vaddr)))
                || (Offset(split, w)) != (Offset(split, vaddr))
    {
      AddressBits(split, vaddr);
      forall w: uint16 | w != vaddr
        ensures (PageNum(split, EntryOf(w))) != (PageNum(split, EntryOf(vaddr)))
                || (Offset(split, w)) != (Offset(split, vaddr))
      {
        AddressBits(split, w);
        if PageNum(split, EntryOf(w)) == PageNum(split, EntryOf(vaddr)) && Offset(split, w) == Offset(split, vaddr) {
          TranslationInjective(split, attributes, vaddr, w);
        }
      }
    }

    /** Any sequence of reads and writes answers and ends as the flat memory does. */
    method RunOps(ops: seq<Op>) returns (replies: seq<Reply>)
      requires Valid() && Initialized()
      modifies mainMem
      ensures Initialized() && Flat() == FlatRun(split, attributes, old(Flat()), ops)
      ensures replies == FlatReplies(split, attributes, old(Flat()), ops)
      ensures |replies| == |ops|
      ensures forall k: nat :: k < |ops| ==> RightReply(split, attributes, old(Flat()), ops, k, replies[k])
      ensures attributes ==> forall v: uint16 :: ReadOnly(split, true, v) || Invalid(split, true, v) ==>
                               Flat()[v] == old(Flat())[v]
    {
      replies := [];
      for k := 0 to |ops|
        invariant Initialized() && Flat() == FlatRun(split, attributes, old(Flat()), ops[..k])
        invariant replies == FlatReplies(split, attributes, old(Flat()), ops[..k])
      {
        assert ops[..k + 1][..k] == ops[..k];
        var reply := RunOp(ops[k]);
        replies := replies + [reply];
      }
      assert ops[..|ops|] == ops;
      if ops != [] {
        RepliesMeaning(split, attributes, old(Flat()), ops, 0);
      }
      forall k: nat | k < |ops|
        ensures RightReply(split, attributes, old(Flat()), ops, k, replies[k])
      {
        RepliesMeaning(split, attributes, old(Flat()), ops, k);
      }
      forall v: uint16 | attributes && (ReadOnly(split, true, v) || Invalid(split, true, v))
        ensures Flat()[v] == old(Flat())[v]
      {
        ProtectedForever(split, old(Flat()), ops, v);
      }
    }

    method RunOp(op: Op) returns (reply: Reply)
      requires Valid() && Initialized()
      modifies mainMem
      ensures Initialized() && Flat() == FlatStep(split, attributes, old(Flat()), op)
      ensures reply == FlatReply(split, attributes, old(Flat()), op)
    {
      match op {
        case Read(v) =>
          var r := GetByte(v);
          reply := if r.Some? then Value(r.value) else Fault;
        case Write(v, b) =>
          var ok := StoreByte(v, b);
          reply := if ok then Stored else Fault;
      }
    }

    // ----- the program's self-tests -----

    /** The fill loop of the main program. */
    method Fill()
      requires Valid() && Initialized() && !attributes
      modifies mainMem
      ensures Initialized() && forall v: uint16 :: Flat()[v] == v % 0x100
    {
      for vaddr := 0 to PageCount(split) * PageSize(split)
        invariant Initialized() && forall v: uint16 :: v < vaddr ==> Flat()[v] == v % 0x100
      {
        var ok := StoreByte(vaddr, vaddr % 0x100);
      }
    }

    /** 0 when every byte equals the low byte of its address. */
    method TestMem() returns (r: int)
      requires Valid() && Initialized()
      ensures r == 0 <==>
                forall v: uint16 :: !Invalid(split, attributes, v) && Flat()[v] == v % 0x100
    {
      var errorCount := 0;
      for vaddr := 0 to PageCount(split) * PageSize(split)
        invariant errorCount >= 0
        invariant forall v: uint16 :: v < vaddr ==> !Invalid(split, attributes, v)
        invariant errorCount == 0 <==> forall v: uint16 :: v < vaddr ==> Flat()[v] == v % 0x100
      {
        var byte := GetByte(vaddr);
        if byte.None? {
          return -1;
        }
        if byte.value != vaddr % 0x100 {
          errorCount := errorCount + 1;
        }
      }
      return if errorCount > 0 then -1 else 0;
    }

    /** Every writable byte below n holds 1, every other byte is as before. */
    ghost predicate OnesBelow(before: FlatMemory, n: int)
      requires Valid() && Total(before)
      reads pageTable, mainMem
    {
      forall v: uint16 :: Flat()[v] == if v < n && Writable(split, true, v) then 1 else before[v]
    }

    /** The read-only and valid-bit test. With attributes on it passes, whatever the memory holds,
        and leaves 1 in every writable byte. */
    method TestMem2() returns (r: int)
      requires Valid() && Initialized() && attributes
      modifies mainMem
      ensures r == 0
      ensures Initialized() && OnesBelow(old(Flat()), 0x1_0000)
    {
      ghost var before := Flat();
      for i := 0 to PageCount(split)
        invariant Initialized() && OnesBelow(before, i * PageSize(split))
      {
        for j := 0 to PageSize(split)
          invariant Initialized() && OnesBelow(before, i * PageSize(split) + j)
        {
          r := TestAddress(i, j, before);
          if r != 0 {
            return -1;
          }
        }
      }
      return 0;
    }

    /** One address of the test: the body of its inner loop. */
    method TestAddress(i: int, j: int, ghost before: FlatMemory) returns (r: int)
      requires Valid() && Initialized() && attributes && Total(before)
      requires 0 <= i < PageCount(split) && 0 <= j < PageSize(split)
      requires OnesBelow(before, i * PageSize(split) + j)
      modifies mainMem
      ensures r == 0 && Initialized() && OnesBelow(before, i * PageSize(split) + j + 1)
    {
      ComposedAddress(split, i, j);
      var vaddr := Shifted(split, i) + j;
      assert PageNum(split, vaddr) == i && vaddr == i * PageSize(split) + j;
      if i == 10 || i == 11 || i == 12 {
        r := TestReadOnly(vaddr);
      } else if i == 5 || i == 6 || i == 7 || i == 8 {
        r := TestInvalid(vaddr);
      } else {
        r := TestWritable(vaddr);
      }
    }

    method TestReadOnly(vaddr: uint16) returns (r: int)
      requires Valid() && Initialized()
      modifies mainMem
      ensures r == 0 <==> !Invalid(split, attributes, vaddr) && !Writable(split, attributes, vaddr)
      ensures r == 0 ==> Flat() == old(Flat())
    {
      var byte := GetByte(vaddr);
      if byte.None? {
        return -1;
      }
      var ok := StoreByte(vaddr, 1);
      return if ok then -1 else 0;
    }

    method TestInvalid(vaddr: uint16) returns (r: int)
      requires Valid() && Initialized()
      ensures r == 0 <==> Invalid(split, attributes, vaddr)
    {
      var byte := GetByte(vaddr);
      return if byte.Some? then -1 else 0;
    }

    method TestWritable(vaddr: uint16) returns (r: int)
      requires Valid() && Initialized()
      modifies mainMem
      ensures r == 0 <==> Writable(split, attributes, vaddr)
      ensures r == 0 ==> Flat() == old(Flat())[vaddr := 1]
    {
      var byte := GetByte(vaddr);
      if byte.None? {
        return -1;
      }
      var ok := StoreByte(vaddr, 1);
      return if ok then 0 else -1;
    }
  }

  /** From the start, whatever is read and stored: pages 10 to 12 stay zero and are read as zero, and
      pages 5 to 8 cannot be accessed. */
  method RunFromStart(split: Split, ops: seq<Op>) returns (m: MemSim, replies: seq<Reply>)
    ensures m.Valid() && m.split == split && m.attributes && |replies| == |ops|
    ensures forall v: uint16 :: ReadOnly(split, true, v) || Invalid(split, true, v) ==> m.Flat()[v] == 0
    ensures forall k :: 0 <= k < |ops| && ReadOnly(split, true, ops[k].addr) ==>
                          replies[k] == if ops[k].Read? then Value(0) else Fault
    ensures forall k :: 0 <= k < |ops| && Invalid(split, true, ops[k].addr) ==> replies[k] == Fault
  {
    m := new MemSim(split, true);
    ghost var flat := m.Flat();
    replies := m.RunOps(ops);
    if ops == [] {
      return;
    }
    RepliesAt(split, true, flat, ops, 0);
    forall k | 0 <= k < |ops| && (ReadOnly(split, true, ops[k].addr) || Invalid(split, true, ops[k].addr))
      ensures replies[k] == if ReadOnly(split, true, ops[k].addr) && ops[k].Read? then Value(0) else Fault
    {
      RepliesAt(split, true, flat, ops, k);
      ProtectedForever(split, flat, ops[..k], ops[k].addr);
    }
  }

  /** The main program, without and with attributes: the self-test finds no error. */
  method RunSelfTest(split: Split, attributes: bool) returns (r: int)
    ensures r == 0
  {
    var m := new MemSim(split, attributes);
    if attributes {
      r := m.TestMem2();
    } else {
      m.Fill();
      r := m.TestMem();
    }
  }
}
