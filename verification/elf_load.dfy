/** Loading an ELF image: for every loadable segment, every supported section inside it is copied
    from the file to its virtual address. */
module ElfLoad {
  import opened Common

  /** unsigned long of the 32-bit target */
  type word = x: int | 0 <= x < 0x1_0000_0000

  const PT_LOAD: word := 1
  const SHT_NOBITS: word := 8
  const SUPPORTED_SECTION_NAMES: seq<string> := [".text", ".rodata", ".data", ".sbss", ".bss", ".scommon"]

  datatype Segment = Segment(pType: word, pOffset: word, pMemsz: word)
  datatype Section = Section(name: string, shType: word, shOffset: word, shSize: word, shAddr: word)

  function End(start: word, size: word): word {
    (start + size) % 0x1_0000_0000
  }

  predicate Inside(seg: Segment, sec: Section) {
    sec.shOffset >= seg.pOffset && End(sec.shOffset, sec.shSize) <= End(seg.pOffset, seg.pMemsz)
  }

  /** The section is copied when this segment is treated. */
  predicate Qualifies(seg: Segment, sec: Section) {
    && seg.pType == PT_LOAD
    && Inside(seg, sec)
    && sec.name in SUPPORTED_SECTION_NAMES
    && sec.shType != SHT_NOBITS
  }

  ghost predicate Loaded(segs: seq<Segment>, sec: Section) {
    exists i :: 0 <= i < |segs| && Qualifies(segs[i], sec)
  }

  ghost predicate Fits(sec: Section, file: seq<byte>, memSize: int) {
    sec.shOffset + sec.shSize <= |file| && sec.shAddr + sec.shSize <= memSize
  }

  /** Every section that is copied lies in the file and in the memory. */
  ghost predicate ImageFits(segs: seq<Segment>, secs: seq<Section>, file: seq<byte>, memSize: int) {
    forall i, j :: 0 <= i < |segs| && 0 <= j < |secs| && Qualifies(segs[i], secs[j]) ==>
      Fits(secs[j], file, memSize)
  }

  // ----- the copies, in the order the loops make them -----

  ghost function SegmentCopies(seg: Segment, secs: seq<Section>): seq<Section> {
    if secs == [] then []
    else
      var last := secs[|secs| - 1];
      SegmentCopies(seg, secs[..|secs| - 1]) + if Qualifies(seg, last) then [last] else []
  }

  ghost function Copies(segs: seq<Segment>, secs: seq<Section>): seq<Section> {
    if segs == [] then []
    else Copies(segs[..|segs| - 1], secs) + SegmentCopies(segs[|segs| - 1], secs)
  }

  ghost function Copied(mem: seq<byte>, file: seq<byte>, sec: Section): (r: seq<byte>)
    requires Fits(sec, file, |mem|)
    ensures |r| == |mem|
  {
    mem[..sec.shAddr] + file[sec.shOffset..sec.shOffset + sec.shSize] + mem[sec.shAddr + sec.shSize..]
  }

  ghost predicate AllFit(copies: seq<Section>, file: seq<byte>, memSize: int) {
    forall c :: c in copies ==> Fits(c, file, memSize)
  }

  ghost function AllCopied(mem: seq<byte>, file: seq<byte>, copies: seq<Section>): (r: seq<byte>)
    requires AllFit(copies, file, |mem|)
    ensures |r| == |mem|
  {
    if copies == [] then mem
    else
      var front := copies[..|copies| - 1];
      Copied(AllCopied(mem, file, front), file, copies[|copies| - 1])
  }

  lemma {:induction false} SegmentCopiesAre(seg: Segment, secs: seq<Section>)
    ensures forall c :: c in SegmentCopies(seg, secs) <==> c in secs && Qualifies(seg, c)
  {
    if secs != [] {
      var front := secs[..|secs| - 1];
      SegmentCopiesAre(seg, front);
      assert secs == front + [secs[|secs| - 1]];
    }
  }

  lemma {:induction false} CopiesAre(segs: seq<Segment>, secs: seq<Section>)
    ensures forall c :: c in Copies(segs, secs) <==> c in secs && Loaded(segs, c)
  {
    if segs != [] {
      var front, last := segs[..|segs| - 1], segs[|segs| - 1];
      CopiesAre(front, secs);
      SegmentCopiesAre(last, secs);
      forall c
        ensures Loaded(segs, c) <==> Loaded(front, c) || Qualifies(last, c)
      {
        if Loaded(front, c) {
          var i :| 0 <= i < |front| && Qualifies(front[i], c);
          assert Qualifies(segs[i], c);
        }
        if Qualifies(last, c) {
          assert Qualifies(segs[|segs| - 1], c);
        }
        if Loaded(segs, c) {
          var i :| 0 <= i < |segs| && Qualifies(segs[i], c);
          assert i < |front| ==> Qualifies(front[i], c);
        }
      }
    }
  }

  lemma CopiesFit(segs: seq<Segment>, secs: seq<Section>, file: seq<byte>, memSize: int)
    requires ImageFits(segs, secs, file, memSize)
    ensures AllFit(Copies(segs, secs), file, memSize)
  {
    CopiesAre(segs, secs);
    forall c | c in Copies(segs, secs)
      ensures Fits(c, file, memSize)
    {
      var j :| 0 <= j < |secs| && secs[j] == c;
      var i :| 0 <= i < |segs| && Qualifies(segs[i], c);
      assert Qualifies(segs[i], secs[j]);
    }
  }

  // ----- what memory holds afterwards -----

  ghost predicate Covers(sec: Section, a: int) {
    sec.shAddr <= a < sec.shAddr + sec.shSize
  }

  ghost function ByteOf(sec: Section, file: seq<byte>, a: int): byte
    requires Covers(sec, a) && sec.shOffset + sec.shSize <= |file|
  {
    file[sec.shOffset + (a - sec.shAddr)]
  }

  lemma CopiedAt(mem: seq<byte>, file: seq<byte>, sec: Section, a: int)
    requires Fits(sec, file, |mem|) && 0 <= a < |mem|
    ensures Copied(mem, file, sec)[a] == if Covers(sec, a) then ByteOf(sec, file, a) else mem[a]
  {
  }

  /** The last copy that covers an address decides its byte. */
  lemma {:induction false} LastCopyWins(mem: seq<byte>, file: seq<byte>, copies: seq<Section>, a: int, k: nat)
    requires AllFit(copies, file, |mem|) && k < |copies| && Covers(copies[k], a)
    requires forall l :: k < l < |copies| ==> !Covers(copies[l], a)
    ensures 0 <= a < |mem| && Fits(copies[k], file, |mem|)
    ensures AllCopied(mem, file, copies)[a] == ByteOf(copies[k], file, a)
  {
    var front, last := copies[..|copies| - 1], copies[|copies| - 1];
    assert Fits(copies[k], file, |mem|);
    CopiedAt(AllCopied(mem, file, front), file, last, a);
    if k < |copies| - 1 {
      LastCopyWins(mem, file, front, a, k);
    }
  }

  lemma {:induction false} UncoveredUnchanged(mem: seq<byte>, file: seq<byte>, copies: seq<Section>, a: int)
    requires AllFit(copies, file, |mem|) && 0 <= a < |mem|
    requires forall c :: c in copies ==> !Covers(c, a)
    ensures AllCopied(mem, file, copies)[a] == mem[a]
  {
    if copies != [] {
      var front, last := copies[..|copies| - 1], copies[|copies| - 1];
      UncoveredUnchanged(mem, file, front, a);
      CopiedAt(AllCopied(mem, file, front), file, last, a);
    }
  }

  /** Where two copied sections share an address they bring the same byte; true in particular when
      their destinations do not overlap. */
  ghost predicate Compatible(segs: seq<Segment>, secs: seq<Section>, file: seq<byte>, memSize: int)
    requires ImageFits(segs, secs, file, memSize)
  {
    forall c, d, a | c in secs && Loaded(segs, c) && d in secs && Loaded(segs, d) && Covers(c, a) && Covers(d, a) ::
      LoadedFits(segs, secs, file, memSize, c);
      LoadedFits(segs, secs, file, memSize, d);
      ByteOf(c, file, a) == ByteOf(d, file, a)
  }

  lemma LoadedFits(segs: seq<Segment>, secs: seq<Section>, file: seq<byte>, memSize: int, c: Section)
    requires ImageFits(segs, secs, file, memSize) && c in secs && Loaded(segs, c)
    ensures Fits(c, file, memSize)
  {
    CopiesFit(segs, secs, file, memSize);
    CopiesAre(segs, secs);
  }

  /** The memory that loading leaves. */
  ghost function Image(mem: seq<byte>, file: seq<byte>, segs: seq<Segment>, secs: seq<Section>): (r: seq<byte>)
    requires ImageFits(segs, secs, file, |mem|)
    ensures |r| == |mem|
  {
    CopiesFit(segs, secs, file, |mem|);
    AllCopied(mem, file, Copies(segs, secs))
  }

  /** Every supported section with contents inside some loadable segment is in memory, byte for byte,
      and everything else is as it was, in whatever order and however often sections were copied. */
  lemma ImageMeaning(mem: seq<byte>, file: seq<byte>, segs: seq<Segment>, secs: seq<Section>)
    requires ImageFits(segs, secs, file, |mem|) && Compatible(segs, secs, file, |mem|)
    ensures forall c, a :: c in secs && Loaded(segs, c) && Covers(c, a) ==>
              && Fits(c, file, |mem|) && 0 <= a < |mem|
              && Image(mem, file, segs, secs)[a] == ByteOf(c, file, a)
    ensures forall a :: 0 <= a < |mem| && (forall c :: c in secs && Loaded(segs, c) ==> !Covers(c, a)) ==>
              Image(mem, file, segs, secs)[a] == mem[a]
  {
    var copies := Copies(segs, secs);
    CopiesFit(segs, secs, file, |mem|);
    CopiesAre(segs, secs);
    forall c, a | c in secs && Loaded(segs, c) && Covers(c, a)
      ensures Fits(c, file, |mem|) && 0 <= a < |mem|
      ensures Image(mem, file, segs, secs)[a] == ByteOf(c, file, a)
    {
      assert c in copies;
      LoadedFits(segs, secs, file, |mem|, c);
      var k := LastCover(copies, c, a);
      LastCopyWins(mem, file, copies, a, k);
      assert copies[k] in copies;
    }
    forall a | 0 <= a < |mem| && (forall c :: c in secs && Loaded(segs, c) ==> !Covers(c, a))
      ensures Image(mem, file, segs, secs)[a] == mem[a]
    {
      UncoveredUnchanged(mem, file, copies, a);
    }
  }

  lemma {:induction false} LastCover(copies: seq<Section>, c: Section, a: int) returns (k: nat)
    requires c in copies && Covers(c, a)
    ensures k < |copies| && Covers(copies[k], a)
    ensures forall l :: k < l < |copies| ==> !Covers(copies[l], a)
  {
    k := |copies| - 1;
    if !Covers(copies[k], a) {
      k := LastCover(copies[..|copies| - 1], c, a);
    }
  }

  /** Two images with the same loaded sections give the same memory, whatever the order of their
      segments and sections and whichever segments hold the sections. */
  lemma OrderIrrelevant(mem: seq<byte>, file: seq<byte>, segs: seq<Segment>, secs: seq<Section>,
                        segs': seq<Segment>, secs': seq<Section>)
    requires ImageFits(segs, secs, file, |mem|) && Compatible(segs, secs, file, |mem|)
    requires forall c :: c in secs && Loaded(segs, c) <==> c in secs' && Loaded(segs', c)
    ensures ImageFits(segs', secs', file, |mem|)
    ensures Image(mem, file, segs', secs') == Image(mem, file, segs, secs)
  {
    forall i, j | 0 <= i < |segs'| && 0 <= j < |secs'| && Qualifies(segs'[i], secs'[j])
      ensures Fits(secs'[j], file, |mem|)
    {
      LoadedFits(segs, secs, file, |mem|, secs'[j]);
    }
    assert Compatible(segs', secs', file, |mem|);
    ImageMeaning(mem, file, segs, secs);
    ImageMeaning(mem, file, segs', secs');
    forall a | 0 <= a < |mem|
      ensures Image(mem, file, segs', secs')[a] == Image(mem, file, segs, secs)[a]
    {
      if c :| c in secs && Loaded(segs, c) && Covers(c, a) {
        assert c in secs' && Loaded(segs', c);
      } else {
        assert forall c :: c in secs' && Loaded(segs', c) ==> !Covers(c, a);
      }
    }
  }

  // ----- the same in the terms of the file format -----

  /** The bytes of the section lie in those of a loadable segment (type 1), the section has contents in
      the file (not type 8), and its name is supported. */
  ghost predicate BelongsTo(seg: Segment, sec: Section) {
    && seg.pType == 1 && sec.shType != 8
    && seg.pOffset <= sec.shOffset && sec.shOffset + sec.shSize <= seg.pOffset + seg.pMemsz
    && (sec.name == ".text" || sec.name == ".rodata" || sec.name == ".data" || sec.name == ".sbss"
        || sec.name == ".bss" || sec.name == ".scommon")
  }

  ghost predicate Belongs(segs: seq<Segment>, sec: Section) {
    exists seg :: seg in segs && BelongsTo(seg, sec)
  }

  /** No segment and no section of the file ends beyond 32-bit offsets. */
  ghost predicate NoWrap(segs: seq<Segment>, secs: seq<Section>) {
    && (forall seg :: seg in segs ==> seg.pOffset + seg.pMemsz < 0x1_0000_0000)
    && (forall sec :: sec in secs ==> sec.shOffset + sec.shSize < 0x1_0000_0000)
  }

  lemma LoadedBelongs(segs: seq<Segment>, secs: seq<Section>, sec: Section)
    requires NoWrap(segs, secs) && sec in secs
    ensures Loaded(segs, sec) <==> Belongs(segs, sec)
  {
    if Loaded(segs, sec) {
      var i :| 0 <= i < |segs| && Qualifies(segs[i], sec);
      assert segs[i] in segs && BelongsTo(segs[i], sec);
    }
    if Belongs(segs, sec) {
      var seg :| seg in segs && BelongsTo(seg, sec);
      var i :| 0 <= i < |segs| && segs[i] == seg;
      assert Qualifies(segs[i], sec);
    }
  }

  /** Sections that belong to the image lie in the file and in the memory, and where two of them share an
      address they bring the same byte. */
  ghost predicate WellFormed(segs: seq<Segment>, secs: seq<Section>, file: seq<byte>, memSize: int) {
    && (forall c :: c in secs && Belongs(segs, c) ==>
          c.shOffset + c.shSize <= |file| && c.shAddr + c.shSize <= memSize)
    && (forall c, d, a ::
          (c in secs && Belongs(segs, c) && d in secs && Belongs(segs, d) && Covers(c, a) && Covers(d, a)) ==>
            ByteOf(c, file, a) == ByteOf(d, file, a))
  }

  /** Exactly the sections that belong to the image are in memory, byte for byte. */
  ghost predicate HoldsImage(mem: seq<byte>, before: seq<byte>, file: seq<byte>,
                             segs: seq<Segment>, secs: seq<Section>)
    requires WellFormed(segs, secs, file, |before|) && |mem| == |before|
  {
    && (forall c, a :: c in secs && Belongs(segs, c) && c.shAddr <= a < c.shAddr + c.shSize ==>
          mem[a] == file[c.shOffset + (a - c.shAddr)])
    && (forall a | 0 <= a < |mem| ::
          (forall c :: c in secs && Belongs(segs, c) ==> !(c.shAddr <= a < c.shAddr + c.shSize)) ==>
            mem[a] == before[a])
  }

  lemma WellFormedFits(segs: seq<Segment>, secs: seq<Section>, file: seq<byte>, memSize: int)
    requires NoWrap(segs, secs) && WellFormed(segs, secs, file, memSize)
    ensures ImageFits(segs, secs, file, memSize) && Compatible(segs, secs, file, memSize)
  {
    forall i, j | 0 <= i < |segs| && 0 <= j < |secs| && Qualifies(segs[i], secs[j])
      ensures Fits(secs[j], file, memSize)
    {
      LoadedBelongs(segs, secs, secs[j]);
    }
    forall c, d, a | c in secs && Loaded(segs, c) && d in secs && Loaded(segs, d) && Covers(c, a) && Covers(d, a)
      ensures Fits(c, file, memSize) && Fits(d, file, memSize) && ByteOf(c, file, a) == ByteOf(d, file, a)
    {
      LoadedBelongs(segs, secs, c);
      LoadedBelongs(segs, secs, d);
    }
  }

  /** What loading leaves, stated of the file alone. */
  lemma LoadMeaning(mem: seq<byte>, file: seq<byte>, segs: seq<Segment>, secs: seq<Section>)
    requires NoWrap(segs, secs) && WellFormed(segs, secs, file, |mem|)
    ensures ImageFits(segs, secs, file, |mem|)
    ensures HoldsImage(Image(mem, file, segs, secs), mem, file, segs, secs)
  {
    WellFormedFits(segs, secs, file, |mem|);
    ImageMeaning(mem, file, segs, secs);
    var r := Image(mem, file, segs, secs);
    forall c, a | c in secs && Belongs(segs, c) && c.shAddr <= a < c.shAddr + c.shSize
      ensures r[a] == file[c.shOffset + (a - c.shAddr)]
    {
      LoadedBelongs(segs, secs, c);
      assert Covers(c, a);
    }
    forall a | 0 <= a < |mem|
      && (forall c :: c in secs && Belongs(segs, c) ==> !(c.shAddr <= a < c.shAddr + c.shSize))
      ensures r[a] == mem[a]
    {
      forall c | c in secs && Loaded(segs, c)
        ensures !Covers(c, a)
      {
        LoadedBelongs(segs, secs, c);
      }
    }
  }

  // ----- the loops -----

  method Supported(name: string) returns (supported: bool)
    ensures supported <==> name in SUPPORTED_SECTION_NAMES
  {
    supported := false;
    for k := 0 to |SUPPORTED_SECTION_NAMES|
      invariant supported <==> name in SUPPORTED_SECTION_NAMES[..k]
    {
      if name == SUPPORTED_SECTION_NAMES[k] {
        supported := true;
        break;
      }
    }
  }

  method MemCpy(mem: array<byte>, file: seq<byte>, sec: Section)
    requires Fits(sec, file, mem.Length)
    modifies mem
    ensures mem[..] == Copied(old(mem[..]), file, sec)
  {
    for k := 0 to sec.shSize
      invariant forall a :: 0 <= a < mem.Length ==>
        mem[a] == if sec.shAddr <= a < sec.shAddr + k then file[sec.shOffset + (a - sec.shAddr)] else old(mem[a])
    {
      mem[sec.shAddr + k] := file[sec.shOffset + k];
    }
    assert mem[..] == Copied(old(mem[..]), file, sec);
  }

  /** The body of the section loop, for a loadable segment. */
  method LoadSection(mem: array<byte>, file: seq<byte>, seg: Segment, sec: Section)
    requires seg.pType == PT_LOAD
    requires Qualifies(seg, sec) ==> Fits(sec, file, mem.Length)
    modifies mem
    ensures mem[..] == if Qualifies(seg, sec) then Copied(old(mem[..]), file, sec) else old(mem[..])
  {
    var segmentStart := seg.pOffset;
    var segmentEnd := End(segmentStart, seg.pMemsz);
    var sectionStart := sec.shOffset;
    var sectionEnd := End(sectionStart, sec.shSize);
    if sectionStart < segmentStart || sectionEnd > segmentEnd {
      return;
    }
    var sectionSupported := Supported(sec.name);
    if !sectionSupported {
      return;
    }
    if sec.shType == SHT_NOBITS {
      return;
    }
    MemCpy(mem, file, sec);
  }

  method LoadProcess(mem: array<byte>, file: seq<byte>, segs: seq<Segment>, secs: seq<Section>)
    requires ImageFits(segs, secs, file, mem.Length)
    modifies mem
    ensures mem[..] == Image(old(mem[..]), file, segs, secs)
    ensures NoWrap(segs, secs) && WellFormed(segs, secs, file, mem.Length) ==>
              HoldsImage(mem[..], old(mem[..]), file, segs, secs)
  {
    ghost var m0 := mem[..];
    CopiesFit(segs, secs, file, mem.Length);
    for i := 0 to |segs|
      invariant Done(mem[..], m0, file, Copies(segs[..i], secs))
    {
      assert segs[..i + 1][..i] == segs[..i];
      if segs[i].pType != PT_LOAD {
        NoCopies(segs[i], secs);
        assert Copies(segs[..i], secs) + [] == Copies(segs[..i], secs);
      } else {
        LoadSegment(mem, file, segs[i], secs, m0, Copies(segs[..i], secs));
      }
    }
    assert segs[..|segs|] == segs;
    if NoWrap(segs, secs) && WellFormed(segs, secs, file, mem.Length) {
      LoadMeaning(m0, file, segs, secs);
    }
  }

  ghost predicate Done(mem: seq<byte>, m0: seq<byte>, file: seq<byte>, copies: seq<Section>) {
    AllFit(copies, file, |m0|) && mem == AllCopied(m0, file, copies)
  }

  lemma DoneStep(mem: seq<byte>, m0: seq<byte>, file: seq<byte>, done: seq<Section>,
                 seg: Segment, secs: seq<Section>, j: nat)
    requires j < |secs|
    requires Qualifies(seg, secs[j]) ==> Fits(secs[j], file, |m0|)
    requires Done(mem, m0, file, done + SegmentCopies(seg, secs[..j]))
    ensures |mem| == |m0|
    ensures Done(if Qualifies(seg, secs[j]) then Copied(mem, file, secs[j]) else mem,
                 m0, file, done + SegmentCopies(seg, secs[..j + 1]))
  {
    assert secs[..j + 1][..j] == secs[..j];
    var copies, next := done + SegmentCopies(seg, secs[..j]), done + SegmentCopies(seg, secs[..j + 1]);
    if Qualifies(seg, secs[j]) {
      assert next == copies + [secs[j]];
      assert next[..|next| - 1] == copies;
    } else {
      assert next == copies;
    }
  }

  /** The section loop, for a loadable segment. */
  method LoadSegment(mem: array<byte>, file: seq<byte>, seg: Segment, secs: seq<Section>,
                     ghost m0: seq<byte>, ghost done: seq<Section>)
    requires seg.pType == PT_LOAD && mem.Length == |m0|
    requires forall j :: 0 <= j < |secs| && Qualifies(seg, secs[j]) ==> Fits(secs[j], file, mem.Length)
    requires Done(mem[..], m0, file, done)
    modifies mem
    ensures Done(mem[..], m0, file, done + SegmentCopies(seg, secs))
  {
    assert done + [] == done;
    for j := 0 to |secs|
      invariant Done(mem[..], m0, file, done + SegmentCopies(seg, secs[..j]))
    {
      DoneStep(mem[..], m0, file, done, seg, secs, j);
      LoadSection(mem, file, seg, secs[j]);
    }
    assert secs[..|secs|] == secs;
  }

  lemma {:induction false} NoCopies(seg: Segment, secs: seq<Section>)
    requires seg.pType != PT_LOAD
    ensures SegmentCopies(seg, secs) == []
  {
    if secs != [] {
      NoCopies(seg, secs[..|secs| - 1]);
    }
  }
}
