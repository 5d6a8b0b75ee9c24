/** What a relocated call does when the guest runs it from memory. */
module LinkedExecution {
  import opened Bits
  import opened MemoryImage
  import opened RpxImage
  import opened BranchEncoding
  import opened Trampolines
  import opened RpxLinker
  import opened Placement
  import opened RpxLoader

  /** One interpreter step from memory; an unmapped fetch stops the machine. */
  ghost function FetchExecute(m: Memory, cpu: Cpu): (after: Cpu)
    requires WellFormed(m) && ValidCpu(cpu)
    ensures ValidCpu(after)
  {
    if MappedRange(m, cpu.cia, 4) then Execute(Decode(WordAt(m, cpu.cia)), cpu) else cpu
  }

  ghost function Steps(m: Memory, cpu: Cpu, n: nat): (after: Cpu)
    requires WellFormed(m) && ValidCpu(cpu)
    ensures ValidCpu(after)
  {
    if n == 0 then cpu else FetchExecute(m, Steps(m, cpu, n - 1))
  }

  /** A word inside a placed block is what memory holds there. */
  lemma BlockWord(m: Memory, s: LoadedSection, a: nat, v: nat)
    requires WellFormed(m) && ReadsBack(m, s)
    requires s.address <= a && a + 4 <= s.address + |s.contents| && v < ADDRESS_SPACE_END
    requires s.contents[a - s.address..a - s.address + 4] == BytesOf(v, 4)
    ensures MappedRange(m, a, 4) && WordAt(m, a) == v
  {
    hide WellFormed, BytesOf, BigEndian, LoadBytes, ReadsBack, MappedRange, Pow2;
    BlockBytes(m, s, a);
    BytesRoundTrip(v, 4);
    WidthPowers();
  }

  lemma BlockBytes(m: Memory, s: LoadedSection, a: nat)
    requires WellFormed(m) && ReadsBack(m, s) && s.address <= a && a + 4 <= s.address + |s.contents|
    ensures MappedRange(m, a, 4) && LoadBytes(m, a, 4) == s.contents[a - s.address..a - s.address + 4]
  {
    hide WellFormed, Mapped, ByteAt;
    var o := a - s.address;
    var whole := LoadBytes(m, s.address, |s.contents|);
    forall k | 0 <= k < 4 ensures LoadBytes(m, a, 4)[k] == s.contents[o..o + 4][k] {
      assert whole[o + k] == ByteAt(m, s.address + (o + k));
    }
    assert LoadBytes(m, a, 4) == s.contents[o..o + 4];
  }

  lemma Quarters(a: seq<Byte>, b: seq<Byte>, c: seq<Byte>, d: seq<Byte>)
    requires |a| == |b| == |c| == |d| == 4
    ensures var s := a + b + c + d;
            |s| == 16 && s[0..4] == a && s[4..8] == b && s[8..12] == c && s[12..16] == d
  {
  }

  lemma TrampolineQuarter(target: Word, i: nat)
    requires i < 4
    ensures |TrampolineBytes(target)| == 16
    ensures TrampolineBytes(target)[4 * i..4 * i + 4] == BytesOf(TrampolineWord(target, i), 4)
  {
    hide BytesOf, TrampolineWord;
    Quarters(BytesOf(TrampolineWord(target, 0), 4), BytesOf(TrampolineWord(target, 1), 4),
             BytesOf(TrampolineWord(target, 2), 4), BytesOf(TrampolineWord(target, 3), 4));
  }

  lemma TrampolineWordAt(m: Memory, s: LoadedSection, target: Word, i: nat)
    requires WellFormed(m) && ReadsBack(m, s) && s.contents == TrampolineBytes(target) && i < 4
    ensures MappedRange(m, s.address + 4 * i, 4) && WordAt(m, s.address + 4 * i) == TrampolineWord(target, i)
  {
    hide WellFormed, BytesOf, ReadsBack, TrampolineWord, Decode, TrampolineBytes, WordAt, MappedRange;
    TrampolineDecodes(target);
    TrampolineQuarter(target, i);
    BlockWord(m, s, s.address + 4 * i, TrampolineWord(target, i));
  }

  /** Fetching the next trampoline word is executing it. */
  lemma TrampolineStep(m: Memory, s: LoadedSection, target: Word, i: nat, start: Cpu, cpu: Cpu)
    requires WellFormed(m) && ReadsBack(m, s) && s.contents == TrampolineBytes(target) && i < 4
    requires ValidCpu(start) && ValidCpu(cpu) && cpu.cia == s.address + 4 * i
    requires Steps(m, start, i) == cpu
    requires TrampolineWord(target, i) < ADDRESS_SPACE_END
    ensures Steps(m, start, i + 1) == Execute(Decode(TrampolineWord(target, i)), cpu)
  {
    hide WellFormed, ReadsBack, TrampolineBytes, TrampolineWord, Decode, Execute, WordAt, MappedRange;
    TrampolineWordAt(m, s, target, i);
  }

  lemma TrampolineAdvances(target: Word, cpu: Cpu)
    requires ValidCpu(cpu) && cpu.cia + 16 <= ADDRESS_SPACE_END
    ensures forall i :: 0 <= i < 4 ==> TrampolineWord(target, i) < ADDRESS_SPACE_END
    ensures var a := Execute(Decode(TrampolineWord(target, 0)), cpu);
            var b := Execute(Decode(TrampolineWord(target, 1)), a);
            var c := Execute(Decode(TrampolineWord(target, 2)), b);
            a.cia == cpu.cia + 4 && b.cia == cpu.cia + 8 && c.cia == cpu.cia + 12
  {
    TrampolineDecodes(target);
    hide TrampolineWord, Decode, SignExtend, Or;
  }

  /** Entering a placed trampoline leads to its target in four steps, through CTR and r11 only. */
  lemma TrampolineRuns(m: Memory, s: LoadedSection, target: Word, cpu: Cpu)
    requires WellFormed(m) && ReadsBack(m, s) && s.contents == TrampolineBytes(target)
    requires ValidCpu(cpu) && cpu.cia == s.address && target % 4 == 0
    requires s.address + 16 <= ADDRESS_SPACE_END
    ensures Steps(m, cpu, 4) == cpu.(gpr := cpu.gpr[11 := target], ctr := target, cia := target)
  {
    hide WellFormed, TrampolineWord, Decode, ReadsBack, TrampolineBytes, Execute, FetchExecute;
    TrampolineJumps(target, cpu);
    TrampolineAdvances(target, cpu);
    var a := Execute(Decode(TrampolineWord(target, 0)), cpu);
    var b := Execute(Decode(TrampolineWord(target, 1)), a);
    var c := Execute(Decode(TrampolineWord(target, 2)), b);
    TrampolineStep(m, s, target, 0, cpu, cpu);
    TrampolineStep(m, s, target, 1, cpu, a);
    TrampolineStep(m, s, target, 2, cpu, b);
    TrampolineStep(m, s, target, 3, cpu, c);
  }

  /** The relocated site holds the branch that was there with a displacement that leads to S + A. */
  ghost predicate BranchSite(r: Relocation, was: seq<Byte>, loaded: seq<LoadedSection>,
                             trampolines: seq<LoadedSection>)
  {
    && r.kind.Relative24? && InSection(loaded, r)
    && Encodes(r, was, BytesAt(loaded, r), trampolines)
    && IsBranch(BigEndianWord(was)) && And(BigEndianWord(was), 2) == 0
  }

  /**
   * Linking preserves branch meaning: running the relocated b or bl reaches S + A, in one step or
   * through a trampoline in five; LR is the return address exactly when the original branch links,
   * and a trampoline touches only r11 and CTR besides.
   */
  lemma RelocatedBranchArrives(m: Memory, was: seq<Byte>, loaded: seq<LoadedSection>,
                               trampolines: seq<LoadedSection>, r: Relocation, cpu: Cpu)
    requires WellFormed(m) && ValidCpu(cpu) && cpu.cia == r.site
    requires BranchSite(r, was, loaded, trampolines) && ReadsBack(m, loaded[r.section])
    requires forall j :: 0 <= j < |trampolines| ==>
               (ReadsBack(m, trampolines[j]) && trampolines[j].address + 16 <= ADDRESS_SPACE_END)
    ensures var links := And(BigEndianWord(was), 1) != 0;
            var arrived := cpu.(lr := if links then ToWord(r.site + 4) else cpu.lr, cia := r.value);
            || Steps(m, cpu, 1) == arrived
            || Steps(m, cpu, 5) == arrived.(gpr := cpu.gpr[11 := r.value], ctr := r.value)
  {
    hide WellFormed, Decode, PatchBranch, BytesOf, And, ReadsBack, TrampolineBytes, BigEndianWord, IsBranch,
         InSection, BytesAt, Steps;
    var instruction := BigEndianWord(was);
    var d := SiteEncodes(m, was, loaded, trampolines, r);
    FirstStep(m, cpu, instruction, d);
    if r.site + d != r.value {
      var j :| 0 <= j < |trampolines| && trampolines[j].address == r.site + d &&
               trampolines[j].contents == TrampolineBytes(r.value);
      TrampolineRuns(m, trampolines[j], r.value, Steps(m, cpu, 1));
      StepsCompose(m, cpu, 4);
    }
  }

  /** The displacement behind the encoding, and the word memory holds at the site. */
  lemma SiteEncodes(m: Memory, was: seq<Byte>, loaded: seq<LoadedSection>,
                    trampolines: seq<LoadedSection>, r: Relocation) returns (d: int)
    requires WellFormed(m) && BranchSite(r, was, loaded, trampolines) && ReadsBack(m, loaded[r.section])
    ensures Leads(r, d, trampolines) && r.value % 4 == 0 && MappedRange(m, r.site, 4)
    ensures WordAt(m, r.site) == PatchBranch(BigEndianWord(was), d)
    ensures 0 <= r.site + d < ADDRESS_SPACE_END
  {
    hide WellFormed, Decode, PatchBranch, BytesOf, And, ReadsBack, BigEndianWord, IsBranch;
    var instruction := BigEndianWord(was);
    d :| Leads(r, d, trampolines) && BytesAt(loaded, r) == BytesOf(PatchBranch(instruction, d), 4);
    DecodePatched(instruction, d);
    BlockWord(m, loaded[r.section], r.site, PatchBranch(instruction, d));
  }

  lemma FirstStep(m: Memory, cpu: Cpu, instruction: Word, d: int)
    requires WellFormed(m) && ValidCpu(cpu) && MappedRange(m, cpu.cia, 4)
    requires InRel24Range(d) && IsBranch(instruction) && And(instruction, 2) == 0
    requires 0 <= cpu.cia + d < ADDRESS_SPACE_END && WordAt(m, cpu.cia) == PatchBranch(instruction, d)
    ensures Steps(m, cpu, 1) ==
            cpu.(lr := if And(instruction, 1) != 0 then ToWord(cpu.cia + 4) else cpu.lr, cia := cpu.cia + d)
  {
    OneStep(m, cpu);
    BranchStep(instruction, d, cpu);
    hide *;
  }

  lemma OneStep(m: Memory, cpu: Cpu)
    requires WellFormed(m) && ValidCpu(cpu) && MappedRange(m, cpu.cia, 4)
    ensures Steps(m, cpu, 1) == Execute(Decode(WordAt(m, cpu.cia)), cpu)
  {
    hide WellFormed, Decode, WordAt, MappedRange, Execute;
    assert Steps(m, cpu, 0) == cpu;
  }

  lemma BranchStep(instruction: Word, d: int, cpu: Cpu)
    requires InRel24Range(d) && IsBranch(instruction) && ValidCpu(cpu) && And(instruction, 2) == 0
    requires 0 <= cpu.cia + d < ADDRESS_SPACE_END
    ensures PatchBranch(instruction, d) < ADDRESS_SPACE_END
    ensures Execute(Decode(PatchBranch(instruction, d)), cpu) ==
            cpu.(lr := if And(instruction, 1) != 0 then ToWord(cpu.cia + 4) else cpu.lr, cia := cpu.cia + d)
  {
    hide Decode, PatchBranch, And, IsBranch, Execute, InRel24Range;
    PatchedBranchTarget(instruction, d, cpu);
    RelativeRuns(cpu, d, And(instruction, 1) != 0);
  }

  lemma RelativeRuns(cpu: Cpu, d: int, links: bool)
    requires ValidCpu(cpu) && 0 <= cpu.cia + d < ADDRESS_SPACE_END
    ensures Execute(Branch(d, false, links), cpu) ==
            cpu.(lr := if links then ToWord(cpu.cia + 4) else cpu.lr, cia := cpu.cia + d)
  {
  }

  lemma {:induction false} StepsCompose(m: Memory, cpu: Cpu, n: nat)
    requires WellFormed(m) && ValidCpu(cpu)
    ensures Steps(m, cpu, n + 1) == Steps(m, Steps(m, cpu, 1), n)
  {
    hide WellFormed, FetchExecute;
    if n > 0 {
      StepsCompose(m, cpu, n - 1);
    }
  }

  /** Every nonempty block of a placed image reads back. */
  lemma {:induction false} BlockReadsBack(m: Memory, before: seq<LoadedSection>, blocks: seq<LoadedSection>,
                                          after: seq<LoadedSection>, k: nat)
    requires Holds(m, before + Nonempty(blocks) + after) && k < |blocks| && blocks[k].contents != []
    ensures WellFormed(m) && ReadsBack(m, blocks[k])
  {
    hide Holds, ReadsBack, WellFormed, Nonempty;
    NonemptySplit(blocks, k + 1);
    NonemptyStep(blocks, k);
    var head, tail := Nonempty(blocks[..k]), Nonempty(blocks[k + 1..]);
    var all := before + Nonempty(blocks) + after;
    assert Nonempty(blocks) == head + [blocks[k]] + tail;
    assert all[|before| + |head|] == blocks[k];
    HeldBlock(m, all, |before| + |head|);
  }

  lemma PlacedFit(loaded: seq<LoadedSection>, trampolines: seq<LoadedSection>, windows: Windows,
                  reservation: Range)
    requires WindowsOrdered(windows) && TrampolinesPlaced(loaded, trampolines, windows, reservation)
    ensures forall j :: 0 <= j < |trampolines| ==>
              (trampolines[j].contents != [] && trampolines[j].address + 16 <= ADDRESS_SPACE_END)
  {
  }

  lemma HeldBlock(m: Memory, placed: seq<LoadedSection>, i: nat)
    requires Holds(m, placed) && i < |placed|
    ensures WellFormed(m) && ReadsBack(m, placed[i])
  {
  }

  /** The word that the `i`-th relocation of the file finds at its site. */
  ghost function WordBefore(info: FileInfo, original: seq<LoadedSection>, dataBegin: Word, rs: seq<Relocation>,
                            i: nat): Word
    requires i < |rs|
  {
    BigEndianWord(BytesBefore(Start(info, original), WindowsAt(dataBegin), rs, i))
  }

  /**
   * End to end: after a successful load, every relocated branch that no later relocation patches over
   * arrives at S + A when the guest fetches it from memory.
   */
  lemma LoadedBranchArrives(m: Memory, exports: seq<LoadedSection>, original: seq<LoadedSection>,
                            result: LoadResult, rs: seq<Relocation>, dataBegin: Word, info: FileInfo,
                            i: nat, cpu: Cpu)
    requires LoadedImage(m, exports, original, result, rs, dataBegin, info) && i < |rs| && LastPatch(rs, i)
    requires rs[i].kind.Relative24? && InSection(original, rs[i]) && ValidCpu(cpu) && cpu.cia == rs[i].site
    requires IsBranch(WordBefore(info, original, dataBegin, rs, i))
    requires And(WordBefore(info, original, dataBegin, rs, i), 2) == 0
    ensures WellFormed(m)
    ensures var links := And(WordBefore(info, original, dataBegin, rs, i), 1) != 0;
            var arrived := cpu.(lr := if links then ToWord(rs[i].site + 4) else cpu.lr, cia := rs[i].value);
            || Steps(m, cpu, 1) == arrived
            || Steps(m, cpu, 5) == arrived.(gpr := cpu.gpr[11 := rs[i].value], ctr := rs[i].value)
  {
    hide *;
    var reservation := LoadedParts(m, exports, original, result, rs, dataBegin, info);
    var r, was := rs[i], BytesBefore(Start(info, original), WindowsAt(dataBegin), rs, i);
    EncodedSite(info, original, dataBegin, rs, i, result.sections, result.trampolines);
    PlacedFit(result.sections, result.trampolines, WindowsAt(dataBegin), reservation);
    SectionNotEmpty(result.sections, r);
    BlockReadsBack(m, exports, result.sections, Nonempty(result.trampolines), r.section);
    forall j | 0 <= j < |result.trampolines| ensures ReadsBack(m, result.trampolines[j]) {
      assert exports + Nonempty(result.sections) + Nonempty(result.trampolines) ==
             (exports + Nonempty(result.sections)) + Nonempty(result.trampolines) + [];
      BlockReadsBack(m, exports + Nonempty(result.sections), result.trampolines, [], j);
    }
    RelocatedBranchArrives(m, was, result.sections, result.trampolines, r, cpu);
  }

  lemma LoadedParts(m: Memory, exports: seq<LoadedSection>, original: seq<LoadedSection>, result: LoadResult,
                    rs: seq<Relocation>, dataBegin: Word, info: FileInfo) returns (reservation: Range)
    requires LoadedImage(m, exports, original, result, rs, dataBegin, info)
    ensures result.Loaded? && Holds(m, exports + Nonempty(result.sections) + Nonempty(result.trampolines))
    ensures WindowsOrdered(WindowsAt(dataBegin))
    ensures AllEncoded(Start(info, original), WindowsAt(dataBegin), rs, result.sections, result.trampolines)
    ensures TrampolinesPlaced(result.sections, result.trampolines, WindowsAt(dataBegin), reservation)
  {
    hide Holds, AllEncoded, TrampolinesPlaced, LinkedBy, OthersUntouched, Start, InReservation, AllApart, Backed;
    reservation :| TrampolinesPlaced(result.sections, result.trampolines, WindowsAt(dataBegin), reservation);
  }

  lemma EncodedSite(info: FileInfo, original: seq<LoadedSection>, dataBegin: Word, rs: seq<Relocation>, i: nat,
                    loaded: seq<LoadedSection>, trampolines: seq<LoadedSection>)
    requires AllEncoded(Start(info, original), WindowsAt(dataBegin), rs, loaded, trampolines)
    requires i < |rs| && LastPatch(rs, i) && InSection(original, rs[i]) && rs[i].kind.Relative24?
    requires IsBranch(WordBefore(info, original, dataBegin, rs, i))
    requires And(WordBefore(info, original, dataBegin, rs, i), 2) == 0
    ensures var was := BytesBefore(Start(info, original), WindowsAt(dataBegin), rs, i);
            && InSection(loaded, rs[i]) && BranchSite(rs[i], was, loaded, trampolines)
            && BigEndianWord(was) == WordBefore(info, original, dataBegin, rs, i)
  {
    hide LastPatch, InSection, Encodes, IsBranch, And, BigEndianWord, BytesBefore, BytesAt, ReservedSlots;
    assert EntryEncoded(Start(info, original), WindowsAt(dataBegin), rs, i, loaded, trampolines);
  }

  lemma SectionNotEmpty(loaded: seq<LoadedSection>, r: Relocation)
    requires InSection(loaded, r)
    ensures r.section < |loaded| && loaded[r.section].contents != []
  {
  }

  // An absolute branch that the linker accepts and that misses its target

  /** The word of `ba 0`, in a section of its own. */
  const ABSOLUTE_BRANCH: Word := 0x4800_0002

  function AbsoluteSection(): LoadedSection { LoadedSection(0x1000, true, [0x48, 0, 0, 2]) }

  /** A REL24 entry for it, with S + A in reach. */
  const ABSOLUTE_ENTRY: Relocation := Relocation(0, 0x1000, Relative24, 0x1010)

  lemma AbsoluteWord()
    ensures InSection([AbsoluteSection()], ABSOLUTE_ENTRY)
    ensures BytesAt([AbsoluteSection()], ABSOLUTE_ENTRY) == [0x48, 0, 0, 2]
    ensures BigEndianWord([0x48, 0, 0, 2]) == ABSOLUTE_BRANCH
  {
    NextBigEndian([], 0x48);
    NextBigEndian([0x48], 0);
    NextBigEndian([0x48, 0], 0);
    NextBigEndian([0x48, 0, 0], 2);
    assert [] + [0x48] == [0x48] && [0x48] + [0] == [0x48, 0] && [0x48, 0] + [0] == [0x48, 0, 0];
    assert [0x48, 0, 0] + [2] == [0x48, 0, 0, 2];
  }

  lemma NextBigEndian(bs: seq<Byte>, b: Byte)
    ensures BigEndian(bs + [b]) == BigEndian(bs) * 0x100 + b && BigEndian([]) == 0
  {
    assert (bs + [b])[..|bs|] == bs;
  }

  lemma AbsoluteApplied(st: LinkState, windows: Windows)
    requires WindowsOrdered(windows) && st.loaded == [AbsoluteSection()]
    ensures InSection(st.loaded, ABSOLUTE_ENTRY)
    ensures var next := AppliedBranch(st, windows, ABSOLUTE_ENTRY);
            && next.Some? && InSection(next.value.loaded, ABSOLUTE_ENTRY)
            && BytesAt(next.value.loaded, ABSOLUTE_ENTRY) == BytesOf(PatchBranch(ABSOLUTE_BRANCH, 0x10), 4)
  {
    AbsoluteWord();
    hide BytesOf, PatchBranch, BigEndianWord;
  }

  /** The entry is accepted, and patched as if the branch were relative. */
  method LinkAbsoluteBranch(info: FileInfo, windows: Windows) returns (ok: bool, loaded: seq<LoadedSection>)
    requires WindowsOrdered(windows)
    ensures ok && InSection(loaded, ABSOLUTE_ENTRY)
    ensures BytesAt(loaded, ABSOLUTE_ENTRY) == BytesOf(PatchBranch(ABSOLUTE_BRANCH, 0x10), 4)
  {
    AbsoluteWord();
    AbsoluteApplied(Start(info, [AbsoluteSection()]), windows);
    hide BytesOf, PatchBranch, BigEndianWord, BytesAt, Ready, ReservedSlots, AppliedBranch, EntryApplied;
    var linker := new RpxLinker(info, [AbsoluteSection()], windows);
    ok := linker.PatchRelative24(ABSOLUTE_ENTRY);
    loaded := linker.loaded;
  }

  /** The patched branch, run where it stands, goes to 0x10 and not to S + A. */
  lemma AbsoluteBranchMisses(word: Word, d: int, cpu: Cpu)
    requires word == ABSOLUTE_BRANCH && d == ABSOLUTE_ENTRY.value - ABSOLUTE_ENTRY.site
    requires ValidCpu(cpu) && cpu.cia == ABSOLUTE_ENTRY.site
    ensures PatchBranch(word, d) < ADDRESS_SPACE_END
    ensures Execute(Decode(PatchBranch(word, d)), cpu).cia != ABSOLUTE_ENTRY.value
  {
    assert d == 0x10 && cpu.cia + d == ABSOLUTE_ENTRY.value == 0x1010 < ADDRESS_SPACE_END;
    hide *;
    AbsoluteFields(word, d);
    AbsoluteMisses(word, d, cpu);
  }

  lemma AbsoluteMisses(instruction: Word, d: int, cpu: Cpu)
    requires InRel24Range(d) && IsBranch(instruction) && And(instruction, 2) != 0 && ValidCpu(cpu)
    requires cpu.cia != 0 && 0 <= cpu.cia + d < ADDRESS_SPACE_END
    ensures PatchBranch(instruction, d) < ADDRESS_SPACE_END
    ensures Execute(Decode(PatchBranch(instruction, d)), cpu).cia != cpu.cia + d
  {
    PatchedBranchTarget(instruction, d, cpu);
    hide *;
  }

  lemma AbsoluteFields(word: Word, d: int)
    requires word == ABSOLUTE_BRANCH && d == 0x10
    ensures IsBranch(word) && And(word, 2) != 0 && InRel24Range(d)
  {
    hide And, Shr;
    FieldMasks(word);
    FieldMasks(Shr(word, 26));
    Shifts(word);
  }
}
