/** A file that is rejected although a slot that FILEINFO reserves is free and in reach of the rejected branch. */
module LostSlot {
  import opened Bits
  import opened MemoryImage
  import opened GuestMemoryModel
  import opened RpxImage
  import opened BranchEncoding
  import opened Trampolines
  import opened RpxLinker
  import opened HleDispatcherModel
  import opened RpxLoader

  const TEXT_BEGIN: Word := 0x500_0000
  const TEXT_END: Word := 0x700_0010
  const FIRST_SLOT: Word := 0x4FF_FFF0
  const LAST_SLOT: Word := TEXT_END
  const TARGET: Word := 0xA00_0000

  /** A text of 32 MiB and 16 bytes, with one reserved slot before it and one behind it. */
  function LongText(): LoadedSection { LoadedSection(TEXT_BEGIN, true, seq<Byte>(0x200_0010, _ => 0)) }

  const LONG_INFO: FileInfo := FileInfo(0x200_0030, 0x10)
  const RESERVED: Slots := Slots(FIRST_SLOT, 0x700_0020, TEXT_BEGIN, 1, LAST_SLOT, 1)

  /** What is left when both cursors have moved past their slot. */
  const NONE_LEFT: Slots := Slots(FIRST_SLOT, 0x700_0020, FIRST_SLOT, 0, 0x700_0020, 0)

  /** Two calls from the text to a far target. */
  const EARLY: Relocation := Relocation(0, TEXT_BEGIN, Relative24, TARGET)
  const LATE: Relocation := Relocation(0, 0x500_0100, Relative24, TARGET)

  function Calls(): seq<Entry> {
    [Entry(0, EARLY.site, Relative24, Defined(TARGET), 0), Entry(0, LATE.site, Relative24, Defined(TARGET), 0)]
  }

  const CLEAR_WINDOWS: Windows := WindowsAt(FIRST_DATA_ADDRESS)

  lemma LongTextHull(sections: seq<LoadedSection>)
    requires sections == [LongText()]
    ensures TextHull(sections, TEXT_BEGIN, TEXT_END) && SectionsFit(sections)
    ensures ReservationFits(LONG_INFO, TEXT_BEGIN, TEXT_END)
    ensures SectionsDisjoint(sections) && WindowsClear(sections, FIRST_DATA_ADDRESS)
    ensures InSection(sections, EARLY) && InSection(sections, LATE)
  {
    assert IsText(sections[0]) && sections[0].address + |sections[0].contents| == TEXT_END;
  }

  lemma LongSlots(sections: seq<LoadedSection>)
    requires sections == [LongText()]
    ensures ReservedSlots(LONG_INFO, sections) == RESERVED
  {
    LongTextHull(sections);
    ReservedBeside(LONG_INFO, sections, TEXT_BEGIN, TEXT_END);
    hide TextHull, LongText, ReservedSlots, AlignDown, AlignUp;
    Align16(TEXT_BEGIN);
    Align16(TEXT_END);
    Unaligned(TEXT_BEGIN, AlignDown(TEXT_BEGIN, 16), AlignUp(TEXT_BEGIN, 16));
    Unaligned(TEXT_END, AlignDown(TEXT_END, 16), AlignUp(TEXT_END, 16));
  }

  lemma Unaligned(v: nat, down: nat, up: nat)
    requires v % 16 == 0 && RoundsDown(v, 16, down) && RoundsUp(v, 16, up)
    ensures down == v && up == v
  {
    Trampolines.MultiplesApart(v, down);
    Trampolines.MultiplesApart(up, v);
  }

  /** The first call passes the slot behind the text, which it cannot reach, and takes the one before it. */
  lemma EarlyTakes(sections: seq<LoadedSection>)
    requires sections == [LongText()]
    ensures WindowsOrdered(CLEAR_WINDOWS)
    ensures Take(RESERVED, EARLY.site, sections, [], CLEAR_WINDOWS) == Grant(NONE_LEFT, Some(FIRST_SLOT))
  {
    assert |LongText().contents| == 0x200_0010;
    assert SlotAvailable(FIRST_SLOT, sections, [], CLEAR_WINDOWS);
    assert !InRel24Range(LAST_SLOT - EARLY.site) && InRel24Range(FIRST_SLOT - EARLY.site);
    hide SlotAvailable, InRel24Range, LongText;
  }

  lemma {:induction false} Zeros(bs: seq<Byte>)
    requires forall i :: 0 <= i < |bs| ==> bs[i] == 0
    ensures BigEndian(bs) == 0
  {
    if bs != [] { Zeros(bs[..|bs| - 1]); }
  }

  lemma EarlyWord(sections: seq<LoadedSection>)
    requires sections == [LongText()]
    ensures InSection(sections, EARLY) && And(BigEndianWord(BytesAt(sections, EARLY)), 2) == 0
  {
    LongTextHull(sections);
    Zeros(BytesAt(sections, EARLY));
  }

  /** The first call is linked; the trampoline it is given is the only one the second leaves room for. */
  lemma EarlyApplied(st: LinkState) returns (next: LinkState)
    requires st == LinkState([LongText()], [], RESERVED)
    ensures WindowsOrdered(CLEAR_WINDOWS) && Applied(st, CLEAR_WINDOWS, EARLY) == Some(next)
    ensures next.slots == NONE_LEFT && SameExtents(st.loaded, next.loaded)
    ensures |next.trampolines| == 1 && next.trampolines[0].address == FIRST_SLOT
    ensures |next.trampolines[0].contents| == TRAMPOLINE_SIZE
  {
    hide *;
    EarlyWord(st.loaded);
    EarlyTakes(st.loaded);
    EarlyIsFar();
    BranchApplied(st, CLEAR_WINDOWS, EARLY);
    BranchUnfolds(st, CLEAR_WINDOWS, EARLY);
    ThroughIs(st, EARLY, Grant(NONE_LEFT, Some(FIRST_SLOT)));
    BranchKeepsExtents(st.loaded, EARLY, FIRST_SLOT - EARLY.site);
    TrampolineLength(EARLY.value);
    next := Applied(st, CLEAR_WINDOWS, EARLY).value;
  }

  lemma EarlyIsFar()
    ensures EARLY.kind.Relative24? && EARLY.site % 4 == 0 && EARLY.value % 4 == 0
    ensures !InRel24Range(EARLY.value - EARLY.site)
  {
  }

  lemma BranchApplied(st: LinkState, windows: Windows, r: Relocation)
    requires WindowsOrdered(windows) && InSection(st.loaded, r) && r.kind.Relative24?
    ensures Applied(st, windows, r) == AppliedBranch(st, windows, r)
  {
    hide AppliedBranch;
  }

  lemma BranchKeepsExtents(loaded: seq<LoadedSection>, r: Relocation, d: int)
    requires InSection(loaded, r) && r.kind.Relative24?
    ensures SameExtents(loaded, BranchPatched(loaded, r, d))
  {
    hide BytesOf, PatchBranch, BigEndianWord, BytesAt;
  }

  lemma TrampolineLength(target: Word)
    ensures |TrampolineBytes(target)| == TRAMPOLINE_SIZE
  {
    hide BytesOf, TrampolineWord;
  }

  /** The slot behind the text is still free, and the second call could reach it. */
  lemma SlotIsFree(now: LinkState)
    requires SameExtents([LongText()], now.loaded)
    requires |now.trampolines| == 1 && now.trampolines[0].address == FIRST_SLOT
    requires |now.trampolines[0].contents| == TRAMPOLINE_SIZE
    ensures WindowsOrdered(CLEAR_WINDOWS)
    ensures Serves(LAST_SLOT, LATE.site, now.loaded, now.trampolines, CLEAR_WINDOWS)
  {
    assert [LongText()][0] == LongText() && |LongText().contents| == 0x200_0010;
    hide LongText;
  }

  /** But it was passed. */
  lemma LateRejected(now: LinkState)
    requires SameExtents([LongText()], now.loaded) && now.slots == NONE_LEFT
    ensures WindowsOrdered(CLEAR_WINDOWS) && EntryRejected(now, CLEAR_WINDOWS, LATE)
  {
    LongTextHull([LongText()]);
    InExtents([LongText()], now.loaded, LATE);
    assert !InRel24Range(LATE.value - LATE.site);
    assert forall a: nat :: !SlotAbove(NONE_LEFT, a) && !SlotBelow(NONE_LEFT, a);
    hide LongText, InSection, SlotAvailable, ReachFrom, SlotAbove, SlotBelow, InRel24Range, BytesAt, And, BigEndianWord;
    assert Trampolines.Exhausted(now.slots, LATE.site, now.loaded, now.trampolines, CLEAR_WINDOWS);
  }

  /** The relocations of the two calls, whatever is bound. */
  lemma CallsRelocate(b: Bindings, sections: seq<LoadedSection>)
    requires sections == [LongText()]
    ensures !PassedOver(sections, Calls()[1]) && SlotPresent(sections, Calls()[1].symbol)
    ensures SlotsPresent(sections, Live(sections, Calls()[..1]))
    ensures AllRelocated(b, Live(sections, Calls()[..1]), [EARLY])
    ensures IsBound(b, Calls()[1].symbol) && EntryRelocations(b, Calls()[1]) == [LATE]
  {
    assert |LongText().contents| == 0x200_0010;
    hide LongText;
    var e := Calls()[0];
    LiveNext(sections, Calls(), 0);
    assert Calls()[..0] == [] && Live(sections, []) == [];
    assert Live(sections, Calls()[..1]) == [] + [e];
    RelocationsStep(b, [], e);
    assert EntryRelocations(b, e) == [] + [EARLY] && EntryRelocations(b, Calls()[1]) == [] + [LATE];
    assert RelocationsOf(b, []) == [] && RelocationsOf(b, [] + [e]) == [] + ([] + [EARLY]);
  }

  /**
   * The relocation loop stops at the second call, in a state in which the slot behind the text is free and
   * in reach of that call. The first call passed it without being able to reach it.
   */
  lemma CallsStop(b: Bindings, sections: seq<LoadedSection>) returns (p: Progress)
    requires sections == [LongText()]
    ensures WindowsOrdered(CLEAR_WINDOWS)
    ensures StopsAt(b, Start(LONG_INFO, sections), CLEAR_WINDOWS, Calls(), p)
    ensures p.at < |p.own| && p.own[p.at] == LATE
    ensures Serves(LAST_SLOT, LATE.site, p.state.loaded, p.state.trampolines, CLEAR_WINDOWS)
    ensures SlotAbove(ReservedSlots(LONG_INFO, sections), LAST_SLOT)
  {
    hide LongText, ReservedSlots, Applied, EntryRejected, AllRelocated, SlotsPresent, Live, PassedOver, SlotPresent,
         IsBound, EntryRelocations, Serves, SameExtents, ToWord;
    LongSlots(sections);
    var first := Start(LONG_INFO, sections);
    var now := EarlyApplied(first);
    SlotIsFree(now);
    LateRejected(now);
    CallsRelocate(b, sections);
    LinkedStep(first, CLEAR_WINDOWS, [], EARLY);
    assert [] + [EARLY] == [EARLY] && [EARLY] + [LATE][..0] == [EARLY];
    p := Progress(1, [EARLY], [LATE], 0, now);
  }

  /** A file with this text and these two calls is rejected, for its second call, while the slot is free. */
  method RejectLongFile(hle: HleDispatcher, memory: GuestMemory) returns (result: LoadResult, ghost p: Progress)
    requires hle.Fresh() && memory.Valid() && memory.regions == [] && memory.aliases == []
    requires hle.dataBegin == FIRST_DATA_ADDRESS
    modifies hle, memory, memory.bytes, memory.flatGenerations
    ensures result == Rejected(BadRelocation) && WindowsOrdered(WindowsAt(hle.dataBegin))
    ensures StopsAt(BindingsOf(hle), Start(LONG_INFO, [LongText()]), WindowsAt(hle.dataBegin), Calls(), p)
    ensures p.at < |p.own| && p.own[p.at] == LATE && SlotAbove(ReservedSlots(LONG_INFO, [LongText()]), LAST_SLOT)
    ensures Serves(LAST_SLOT, LATE.site, p.state.loaded, p.state.trampolines, WindowsAt(hle.dataBegin))
  {
    hide *;
    var sections := [LongText()];
    LongTextHull(sections);
    var swept;
    ghost var top;
    result, swept, p, top := LoadRpx(hle, memory, sections, Calls(), LONG_INFO);
    WindowsStay(sections, memory.bytes.Length, FIRST_DATA_ADDRESS, hle.dataBegin);
    p := CallsStop(BindingsOf(hle), sections);
  }

  lemma WindowsStay(sections: seq<LoadedSection>, memorySize: nat, before: nat, after: nat)
    requires WindowsChosen(sections, memorySize, before, after) && WindowsClear(sections, before)
    ensures after == before && CLEAR_WINDOWS == WindowsAt(FIRST_DATA_ADDRESS)
  {
    hide WindowsClear, BestWindow;
  }
}
