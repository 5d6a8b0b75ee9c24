/** Relocation of the loaded sections, with trampolines for out-of-range branches. */
module RpxLinker {
  import opened Bits
  import opened MemoryImage
  import opened RpxImage
  import opened BranchEncoding
  import opened Trampolines

  datatype Kind = Address32 | AddressLow | AddressHigh | AddressHighAdjusted | Relative24

  /** A relocation whose symbol is resolved: `value` is S + A. */
  datatype Relocation = Relocation(section: nat, site: Word, kind: Kind, value: Word)

  /** `addend_value`. */
  function AddendValue(symbol: Word, addend: int): Word { ToWord(symbol + addend) }

  function Width(k: Kind): nat { if k.Address32? || k.Relative24? then 4 else 2 }

  /** The patched bytes lie inside the nonempty target section. */
  predicate InSection(loaded: seq<LoadedSection>, r: Relocation) {
    && r.section < |loaded| && loaded[r.section].contents != []
    && loaded[r.section].address <= r.site
    && r.site + Width(r.kind) <= loaded[r.section].address + |loaded[r.section].contents|
  }

  function BytesAt(loaded: seq<LoadedSection>, r: Relocation): seq<Byte>
    requires InSection(loaded, r)
  {
    var o := r.site - loaded[r.section].address;
    loaded[r.section].contents[o..o + Width(r.kind)]
  }

  function Replace(contents: seq<Byte>, o: nat, bytes: seq<Byte>): (c: seq<Byte>)
    requires o + |bytes| <= |contents|
    ensures |c| == |contents| && c[o..o + |bytes|] == bytes
    ensures forall i :: 0 <= i < |c| && !(o <= i < o + |bytes|) ==> c[i] == contents[i]
  {
    contents[..o] + bytes + contents[o + |bytes|..]
  }

  /** The section table with the bytes of one relocation replaced. */
  function Patched(loaded: seq<LoadedSection>, r: Relocation, bytes: seq<Byte>): seq<LoadedSection>
    requires r.section < |loaded| && loaded[r.section].address <= r.site
    requires r.site + |bytes| <= loaded[r.section].address + |loaded[r.section].contents|
  {
    var s := loaded[r.section];
    loaded[r.section := s.(contents := Replace(s.contents, r.site - s.address, bytes))]
  }

  function TrampolineBytes(target: Word): seq<Byte> {
    BytesOf(TrampolineWord(target, 0), 4) + BytesOf(TrampolineWord(target, 1), 4) +
    BytesOf(TrampolineWord(target, 2), 4) + BytesOf(TrampolineWord(target, 3), 4)
  }

  ghost predicate TrampolineAt(trampolines: seq<LoadedSection>, a: int, target: Word) {
    exists j :: 0 <= j < |trampolines| && trampolines[j].address == a &&
                trampolines[j].contents == TrampolineBytes(target)
  }

  /** A displacement that leads from the site to the value, directly or through a trampoline. */
  ghost predicate Leads(r: Relocation, d: int, trampolines: seq<LoadedSection>) {
    InRel24Range(d) && (r.site + d == r.value || TrampolineAt(trampolines, r.site + d, r.value))
  }

  /** The bytes a relocation leaves, given the bytes that were there. */
  ghost predicate Encodes(r: Relocation, original: seq<Byte>, now: seq<Byte>, trampolines: seq<LoadedSection>) {
    match r.kind
    case Address32 => now == BytesOf(r.value, 4)
    case AddressLow => now == BytesOf(r.value % 0x1_0000, 2)
    case AddressHigh => now == BytesOf(r.value / 0x1_0000, 2)
    case AddressHighAdjusted => now == BytesOf(ToWord(r.value + 0x8000) / 0x1_0000, 2)
    case Relative24 =>
      r.site % 4 == 0 && r.value % 4 == 0 &&
      exists d: int :: Leads(r, d, trampolines) && now == BytesOf(PatchBranch(BigEndianWord(original), d), 4)
  }

  function BigEndianWord(bs: seq<Byte>): Word { BigEndian(bs) % ADDRESS_SPACE_END }

  ghost predicate SameExtents(a: seq<LoadedSection>, b: seq<LoadedSection>) {
    |a| == |b| && forall i :: 0 <= i < |a| ==>
      a[i].address == b[i].address && a[i].executable == b[i].executable &&
      |a[i].contents| == |b[i].contents|
  }

  ghost predicate Covers(r: Relocation, section: nat, address: nat) {
    r.section == section && r.site <= address < r.site + Width(r.kind)
  }

  ghost predicate Apart(p: Relocation, q: Relocation) {
    p.section != q.section || p.site + Width(p.kind) <= q.site || q.site + Width(q.kind) <= p.site
  }

  /** Filling an import slot again with the same address. */
  ghost predicate Repeats(p: Relocation, q: Relocation) { p == q && p.kind.Address32? }

  /** Every trampoline is a 16-byte aligned block inside the reservation, clear of everything else. */
  ghost predicate TrampolinesPlaced(loaded: seq<LoadedSection>, trampolines: seq<LoadedSection>,
                                    windows: Windows, reservation: Range)
    requires WindowsOrdered(windows)
  {
    forall j :: 0 <= j < |trampolines| ==>
      && |trampolines[j].contents| == TRAMPOLINE_SIZE
      && trampolines[j].address % TRAMPOLINE_SIZE == 0
      && reservation.begin <= trampolines[j].address
      && trampolines[j].address + TRAMPOLINE_SIZE <= reservation.end
      && SlotAvailable(trampolines[j].address, loaded, trampolines[..j], windows)
  }

  /** Bytes no relocation covers are untouched. */
  ghost predicate OthersUntouched(original: seq<LoadedSection>, loaded: seq<LoadedSection>, rs: seq<Relocation>) {
    && SameExtents(original, loaded)
    && forall s: nat, k: nat ::
         (s < |original| && k < |original[s].contents| &&
          forall i :: 0 <= i < |rs| ==> !Covers(rs[i], s, original[s].address + k)) ==>
           loaded[s].contents[k] == original[s].contents[k]
  }

  /** One accepted entry: only its own bytes change, and they encode it. */
  ghost predicate Relocated(before: seq<LoadedSection>, after: seq<LoadedSection>, r: Relocation,
                            trampolines: seq<LoadedSection>)
  {
    && InSection(before, r) && InSection(after, r)
    && after == Patched(before, r, BytesAt(after, r))
    && Encodes(r, BytesAt(before, r), BytesAt(after, r), trampolines)
  }

  /** The bytes written by the word and half-word relocations. */
  function PlainBytes(r: Relocation): (bs: seq<Byte>)
    requires !r.kind.Relative24?
    ensures |bs| == Width(r.kind)
  {
    if r.kind.Address32? then BytesOf(r.value, 4)
    else
      var adjusted := if r.kind.AddressHighAdjusted? then ToWord(r.value + 0x8000) else r.value;
      BytesOf(Shr(adjusted, if r.kind.AddressLow? then 0 else 16) % 0x1_0000, 2)
  }

  lemma PlainEncodes(r: Relocation, was: seq<Byte>, trampolines: seq<LoadedSection>)
    requires !r.kind.Relative24?
    ensures Encodes(r, was, PlainBytes(r), trampolines)
  {
    hide BytesOf, Shr;
    Shifts(r.value);
    Shifts(ToWord(r.value + 0x8000));
  }

  lemma PlainRelocated(before: seq<LoadedSection>, r: Relocation, trampolines: seq<LoadedSection>)
    requires InSection(before, r) && !r.kind.Relative24?
    ensures Relocated(before, Patched(before, r, PlainBytes(r)), r, trampolines)
    ensures SameExtents(before, Patched(before, r, PlainBytes(r)))
  {
    hide BytesOf, Shr, PlainBytes, Encodes;
    PlainEncodes(r, BytesAt(before, r), trampolines);
  }

  lemma BranchRelocated(before: seq<LoadedSection>, r: Relocation, d: int, trampolines: seq<LoadedSection>)
    requires InSection(before, r) && r.kind.Relative24? && r.site % 4 == 0 && r.value % 4 == 0
    requires Leads(r, d, trampolines)
    ensures var bs := BytesOf(PatchBranch(BigEndianWord(BytesAt(before, r)), d), 4);
            Relocated(before, Patched(before, r, bs), r, trampolines) &&
            SameExtents(before, Patched(before, r, bs))
  {
    hide BytesOf, PatchBranch, BigEndianWord, Leads;
  }

  /** Every entry names a section, and one with contents holds all the bytes to patch. */
  ghost predicate EntriesAccepted(original: seq<LoadedSection>, rs: seq<Relocation>) {
    forall i :: 0 <= i < |rs| ==>
      (rs[i].section < |original| &&
       (original[rs[i].section].contents != [] ==> InSection(original, rs[i])))
  }

  // The relocation loop as a function of the state

  /** What has been linked so far, and the slots still to be tried. */
  datatype LinkState = LinkState(loaded: seq<LoadedSection>, trampolines: seq<LoadedSection>, slots: Slots)

  /** The file before its first entry: no trampoline, and the slots that FILEINFO reserves beside the text. */
  ghost function Start(info: FileInfo, sections: seq<LoadedSection>): LinkState {
    LinkState(sections, [], ReservedSlots(info, sections))
  }

  ghost predicate Ready(st: LinkState, windows: Windows)
    requires WindowsOrdered(windows)
  {
    && SlotsValid(st.slots)
    && TrampolinesPlaced(st.loaded, st.trampolines, windows, Range(st.slots.low, st.slots.high))
  }

  /** The trampolines stay clear of everything when slots are passed. */
  lemma StillReady(st: LinkState, windows: Windows, slots: Slots)
    requires WindowsOrdered(windows) && Ready(st, windows) && SlotsValid(slots)
    requires slots.low == st.slots.low && slots.high == st.slots.high
    ensures Ready(st.(slots := slots), windows)
  {
    hide TrampolinesPlaced;
  }

  /** The sections with the branch at the site patched. */
  function BranchPatched(loaded: seq<LoadedSection>, r: Relocation, displacement: int): seq<LoadedSection>
    requires InSection(loaded, r) && r.kind.Relative24?
  {
    Patched(loaded, r, BytesOf(PatchBranch(BigEndianWord(BytesAt(loaded, r)), displacement), 4))
  }

  /** The branch linked through a new trampoline in the slot that it was given. */
  ghost function ThroughTrampoline(st: LinkState, r: Relocation, g: Grant): Option<LinkState>
    requires InSection(st.loaded, r) && r.kind.Relative24?
  {
    if g.slot.None? then None
    else
      Some(LinkState(BranchPatched(st.loaded, r, g.slot.value - r.site),
                     st.trampolines + [LoadedSection(g.slot.value, true, TrampolineBytes(r.value))], g.rest))
  }

  /** The REL24 case; a branch out of reach goes through a trampoline of its own. */
  ghost function AppliedBranch(st: LinkState, windows: Windows, r: Relocation): Option<LinkState>
    requires InSection(st.loaded, r) && r.kind.Relative24? && WindowsOrdered(windows)
  {
    if r.site % 4 != 0 || r.value % 4 != 0 then None
    else if InRel24Range(r.value - r.site) then
      Some(st.(loaded := BranchPatched(st.loaded, r, r.value - r.site)))
    else if And(BigEndianWord(BytesAt(st.loaded, r)), 2) != 0 then None
    else ThroughTrampoline(st, r, Take(st.slots, r.site, st.loaded, st.trampolines, windows))
  }

  /** One entry; nothing where the loader rejects the file. */
  ghost function Applied(st: LinkState, windows: Windows, r: Relocation): Option<LinkState>
    requires WindowsOrdered(windows)
  {
    if r.section >= |st.loaded| then None
    else if st.loaded[r.section].contents == [] then Some(st)
    else if !InSection(st.loaded, r) then None
    else if r.kind.Relative24? then AppliedBranch(st, windows, r)
    else Some(st.(loaded := Patched(st.loaded, r, PlainBytes(r))))
  }

  /** The entries in order, each on the state the ones before it left. */
  ghost function LinkedBy(st: LinkState, windows: Windows, rs: seq<Relocation>): Option<LinkState>
    requires WindowsOrdered(windows)
  {
    if rs == [] then Some(st)
    else
      var before := LinkedBy(st, windows, rs[..|rs| - 1]);
      if before.None? then None else Applied(before.value, windows, rs[|rs| - 1])
  }

  // What one entry does

  /** The rejections of the REL24 case: unaligned, or out of reach with AA set or with no slot left. */
  ghost predicate BranchRejected(st: LinkState, windows: Windows, r: Relocation)
    requires InSection(st.loaded, r) && WindowsOrdered(windows)
  {
    || r.site % 4 != 0 || r.value % 4 != 0
    || (&& !InRel24Range(r.value - r.site)
        && (And(BigEndianWord(BytesAt(st.loaded, r)), 2) != 0 ||
            Exhausted(st.slots, r.site, st.loaded, st.trampolines, windows)))
  }

  /** An entry the loader rejects. */
  ghost predicate EntryRejected(st: LinkState, windows: Windows, r: Relocation)
    requires WindowsOrdered(windows)
  {
    || r.section >= |st.loaded|
    || (st.loaded[r.section].contents != [] && !InSection(st.loaded, r))
    || (InSection(st.loaded, r) && r.kind.Relative24? && BranchRejected(st, windows, r))
  }

  /** A branch out of reach of S + A; entries for empty sections are passed over. */
  ghost predicate NeedsTrampoline(loaded: seq<LoadedSection>, r: Relocation) {
    InSection(loaded, r) && r.kind.Relative24? && !InRel24Range(r.value - r.site)
  }

  /** One more trampoline to S + A, in the slot that the cursors give. */
  ghost predicate TrampolineAdded(st: LinkState, next: LinkState, windows: Windows, r: Relocation)
    requires WindowsOrdered(windows)
  {
    && |next.trampolines| == |st.trampolines| + 1
    && var t := next.trampolines[|st.trampolines|];
    && next.trampolines == st.trampolines + [t] && t.contents == TrampolineBytes(r.value)
    && Taken(st.slots, Grant(next.slots, Some(t.address)), r.site, st.loaded, st.trampolines, windows)
  }

  /**
   * An accepted entry: only its own bytes change, and they encode it. A branch out of reach takes the
   * nearest free slot; every other entry leaves trampolines and slots alone.
   */
  ghost predicate EntryApplied(st: LinkState, next: LinkState, windows: Windows, r: Relocation)
    requires WindowsOrdered(windows)
  {
    && r.section < |st.loaded|
    && (if st.loaded[r.section].contents == [] then next.loaded == st.loaded
        else Relocated(st.loaded, next.loaded, r, next.trampolines))
    && (if NeedsTrampoline(st.loaded, r) then TrampolineAdded(st, next, windows, r)
        else next.trampolines == st.trampolines && next.slots == st.slots)
  }

  lemma AlignedRange(site: Word, value: Word)
    requires site % 4 == 0 && value % 4 == 0
    ensures InRel24Range(value - site) <==> REL24_MIN <= value - site <= REL24_MAX
  {
  }

  lemma BranchCases(st: LinkState, windows: Windows, r: Relocation)
    requires InSection(st.loaded, r) && r.kind.Relative24? && WindowsOrdered(windows)
    ensures r.site % 4 != 0 || r.value % 4 != 0 ==> AppliedBranch(st, windows, r).None?
    ensures r.site % 4 == 0 && r.value % 4 == 0 ==>
              AppliedBranch(st, windows, r) ==
              if REL24_MIN <= r.value - r.site <= REL24_MAX then
                Some(st.(loaded := BranchPatched(st.loaded, r, r.value - r.site)))
              else if And(BigEndianWord(BytesAt(st.loaded, r)), 2) != 0 then None
              else ThroughTrampoline(st, r, Take(st.slots, r.site, st.loaded, st.trampolines, windows))
  {
    hide *;
    if r.site % 4 == 0 && r.value % 4 == 0 { AlignedRange(r.site, r.value); }
    BranchUnfolds(st, windows, r);
  }

  lemma BranchUnfolds(st: LinkState, windows: Windows, r: Relocation)
    requires InSection(st.loaded, r) && r.kind.Relative24? && WindowsOrdered(windows)
    ensures AppliedBranch(st, windows, r) ==
            if r.site % 4 != 0 || r.value % 4 != 0 then None
            else if InRel24Range(r.value - r.site) then
              Some(st.(loaded := BranchPatched(st.loaded, r, r.value - r.site)))
            else if And(BigEndianWord(BytesAt(st.loaded, r)), 2) != 0 then None
            else ThroughTrampoline(st, r, Take(st.slots, r.site, st.loaded, st.trampolines, windows))
  {
    hide BranchPatched, BigEndianWord, BytesAt, And, Take, InSection, InRel24Range, ThroughTrampoline;
  }

  lemma BranchMeans(st: LinkState, windows: Windows, r: Relocation)
    requires WindowsOrdered(windows) && Ready(st, windows) && InSection(st.loaded, r) && r.kind.Relative24?
    ensures AppliedBranch(st, windows, r).None? <==> BranchRejected(st, windows, r)
    ensures var next := AppliedBranch(st, windows, r);
            next.Some? ==> Ready(next.value, windows) && EntryApplied(st, next.value, windows, r)
  {
    hide BytesOf, PatchBranch, BigEndianWord, TrampolinesPlaced, And, Relocated, TrampolineBytes, Exhausted, Take,
         Taken, SlotAvailable, Consumed, SlotsValid;
    if r.site % 4 != 0 || r.value % 4 != 0 { return; }
    if InRel24Range(r.value - r.site) {
      BranchLinked(st, windows, r, r.value - r.site, st.trampolines);
    } else if And(BigEndianWord(BytesAt(st.loaded, r)), 2) == 0 {
      TrampolineMeans(st, windows, r);
    }
  }

  lemma TrampolineMeans(st: LinkState, windows: Windows, r: Relocation)
    requires WindowsOrdered(windows) && Ready(st, windows) && NeedsTrampoline(st.loaded, r)
    requires r.site % 4 == 0 && r.value % 4 == 0 && And(BigEndianWord(BytesAt(st.loaded, r)), 2) == 0
    ensures AppliedBranch(st, windows, r).None? <==>
            Exhausted(st.slots, r.site, st.loaded, st.trampolines, windows)
    ensures var next := AppliedBranch(st, windows, r);
            next.Some? ==> Ready(next.value, windows) && EntryApplied(st, next.value, windows, r)
  {
    hide *;
    NeedsParts(st.loaded, r);
    BranchUnfolds(st, windows, r);
    ReadyParts(st, windows);
    TakeMeans(st.slots, r.site, st.loaded, st.trampolines, windows);
    var g := Take(st.slots, r.site, st.loaded, st.trampolines, windows);
    ThroughIs(st, r, g);
    TakenParts(st.slots, g, r.site, st.loaded, st.trampolines, windows);
    if g.slot.Some? {
      var t := LoadedSection(g.slot.value, true, TrampolineBytes(r.value));
      AddedTrampoline(st.loaded, st.trampolines, windows, Range(st.slots.low, st.slots.high), g.slot.value, r.value);
      LeadsThrough(r, g.slot.value - r.site, st.trampolines + [t]);
      BranchLinked(st, windows, r, g.slot.value - r.site, st.trampolines + [t]);
      var next := LinkState(BranchPatched(st.loaded, r, g.slot.value - r.site), st.trampolines + [t], g.rest);
      ReadyIs(next, windows);
      ThroughApplied(st, next, windows, r, t);
    }
  }

  lemma NeedsParts(loaded: seq<LoadedSection>, r: Relocation)
    requires NeedsTrampoline(loaded, r)
    ensures InSection(loaded, r) && r.kind.Relative24? && !InRel24Range(r.value - r.site)
  {
    hide InSection, InRel24Range;
  }

  lemma ReadyParts(st: LinkState, windows: Windows)
    requires WindowsOrdered(windows) && Ready(st, windows)
    ensures SlotsValid(st.slots)
    ensures TrampolinesPlaced(st.loaded, st.trampolines, windows, Range(st.slots.low, st.slots.high))
  {
    hide SlotsValid, TrampolinesPlaced;
  }

  lemma ReadyIs(st: LinkState, windows: Windows)
    requires WindowsOrdered(windows) && SlotsValid(st.slots)
    requires TrampolinesPlaced(st.loaded, st.trampolines, windows, Range(st.slots.low, st.slots.high))
    ensures Ready(st, windows)
  {
    hide SlotsValid, TrampolinesPlaced;
  }

  lemma ThroughIs(st: LinkState, r: Relocation, g: Grant)
    requires InSection(st.loaded, r) && r.kind.Relative24?
    ensures ThroughTrampoline(st, r, g) ==
            if g.slot.None? then None
            else Some(LinkState(BranchPatched(st.loaded, r, g.slot.value - r.site),
                                st.trampolines + [LoadedSection(g.slot.value, true, TrampolineBytes(r.value))],
                                g.rest))
  {
    hide BranchPatched, TrampolineBytes, InSection;
  }

  lemma TakenParts(s: Slots, g: Grant, site: Word, loaded: seq<LoadedSection>, trampolines: seq<LoadedSection>,
                   windows: Windows)
    requires WindowsOrdered(windows) && Taken(s, g, site, loaded, trampolines, windows)
    ensures g.slot.None? <==> Exhausted(s, site, loaded, trampolines, windows)
    ensures g.rest.low == s.low && g.rest.high == s.high
    ensures g.slot.Some? ==>
              && g.slot.value % TRAMPOLINE_SIZE == 0 && s.low <= g.slot.value
              && g.slot.value + TRAMPOLINE_SIZE <= s.high && InRel24Range(g.slot.value - site)
              && SlotAvailable(g.slot.value, loaded, trampolines, windows)
  {
    hide Exhausted, NoSlot, NoneAbove, SlotAvailable, InRel24Range, ReachFrom, SlotAbove, SlotBelow;
  }

  lemma LeadsThrough(r: Relocation, d: int, trampolines: seq<LoadedSection>)
    requires InRel24Range(d) && TrampolineAt(trampolines, r.site + d, r.value)
    ensures Leads(r, d, trampolines)
  {
    hide TrampolineAt, InRel24Range;
  }

  lemma ThroughApplied(st: LinkState, next: LinkState, windows: Windows, r: Relocation, t: LoadedSection)
    requires WindowsOrdered(windows) && NeedsTrampoline(st.loaded, r) && InSection(st.loaded, r)
    requires next.trampolines == st.trampolines + [t] && t.contents == TrampolineBytes(r.value)
    requires Taken(st.slots, Grant(next.slots, Some(t.address)), r.site, st.loaded, st.trampolines, windows)
    requires Relocated(st.loaded, next.loaded, r, next.trampolines)
    ensures EntryApplied(st, next, windows, r)
  {
    hide Taken, Relocated, TrampolineBytes, NeedsTrampoline;
  }

  /** Patching the branch itself, with the trampolines in place. */
  lemma BranchLinked(st: LinkState, windows: Windows, r: Relocation, d: int, trampolines: seq<LoadedSection>)
    requires WindowsOrdered(windows) && InSection(st.loaded, r) && r.kind.Relative24?
    requires r.site % 4 == 0 && r.value % 4 == 0 && Leads(r, d, trampolines)
    requires TrampolinesPlaced(st.loaded, trampolines, windows, Range(st.slots.low, st.slots.high))
    ensures Relocated(st.loaded, BranchPatched(st.loaded, r, d), r, trampolines)
    ensures TrampolinesPlaced(BranchPatched(st.loaded, r, d), trampolines, windows,
                              Range(st.slots.low, st.slots.high))
  {
    hide *;
    BranchIsPatched(st.loaded, r, d);
    BranchRelocated(st.loaded, r, d, trampolines);
    PlacedIgnoresBytes(st.loaded, BranchPatched(st.loaded, r, d), trampolines, windows,
                       Range(st.slots.low, st.slots.high));
  }

  lemma BranchIsPatched(loaded: seq<LoadedSection>, r: Relocation, d: int)
    requires InSection(loaded, r) && r.kind.Relative24?
    ensures BranchPatched(loaded, r, d) ==
            Patched(loaded, r, BytesOf(PatchBranch(BigEndianWord(BytesAt(loaded, r)), d), 4))
  {
    hide BytesOf, PatchBranch, BigEndianWord, BytesAt;
  }

  /** An entry is rejected exactly for these reasons, and an accepted one does exactly this. */
  lemma AppliedMeans(st: LinkState, windows: Windows, r: Relocation)
    requires WindowsOrdered(windows) && Ready(st, windows)
    ensures Applied(st, windows, r).None? <==> EntryRejected(st, windows, r)
    ensures var next := Applied(st, windows, r);
            next.Some? ==> Ready(next.value, windows) && EntryApplied(st, next.value, windows, r)
  {
    hide TrampolinesPlaced, PlainBytes, Relocated, AppliedBranch, BranchRejected, TrampolineAdded, SlotsValid;
    if InSection(st.loaded, r) {
      if r.kind.Relative24? {
        BranchMeans(st, windows, r);
      } else {
        PlainRelocated(st.loaded, r, st.trampolines);
        PlacedIgnoresBytes(st.loaded, Patched(st.loaded, r, PlainBytes(r)), st.trampolines, windows,
                           Range(st.slots.low, st.slots.high));
      }
    }
  }

  /** The trampolines so far stay, and the cursors move away from the text. */
  lemma AppliedGrows(st: LinkState, next: LinkState, windows: Windows, r: Relocation)
    requires WindowsOrdered(windows) && EntryApplied(st, next, windows, r)
    ensures st.trampolines <= next.trampolines && Consumed(st.slots, next.slots)
    ensures SameExtents(st.loaded, next.loaded)
  {
    hide NoSlot, NoneAbove, Exhausted, SlotAvailable, Encodes, InRel24Range, TrampolineBytes, BytesAt;
  }

  /** The reasons for an aligned branch inside its section. */
  lemma RejectedCases(st: LinkState, windows: Windows, r: Relocation)
    requires WindowsOrdered(windows) && InSection(st.loaded, r) && r.kind.Relative24?
    requires r.site % 4 == 0 && r.value % 4 == 0
    ensures EntryRejected(st, windows, r) <==>
            && !InRel24Range(r.value - r.site)
            && (And(BigEndianWord(BytesAt(st.loaded, r)), 2) != 0 ||
                Exhausted(st.slots, r.site, st.loaded, st.trampolines, windows))
  {
    hide Exhausted, And, BigEndianWord, BytesAt, InRel24Range;
  }

  // What a run of entries does

  lemma LinkedStep(st: LinkState, windows: Windows, rs: seq<Relocation>, r: Relocation)
    requires WindowsOrdered(windows)
    ensures LinkedBy(st, windows, rs + [r]) ==
            if LinkedBy(st, windows, rs).None? then None
            else Applied(LinkedBy(st, windows, rs).value, windows, r)
  {
    hide Applied;
    assert (rs + [r])[..|rs|] == rs;
  }

  /** Entries linked in two parts are linked in one. */
  lemma {:induction false} LinkedMore(st: LinkState, windows: Windows, a: seq<Relocation>, b: seq<Relocation>)
    requires WindowsOrdered(windows)
    ensures LinkedBy(st, windows, a + b) ==
            if LinkedBy(st, windows, a).None? then None
            else LinkedBy(LinkedBy(st, windows, a).value, windows, b)
    decreases |b|
  {
    hide Applied;
    if b == [] {
      assert a + b == a;
    } else {
      var last := |b| - 1;
      LinkedMore(st, windows, a, b[..last]);
      assert (a + b)[..|a| + last] == a + b[..last];
    }
  }

  /** The run stops at entry `j`, in the state that the entries before it left. */
  ghost predicate RefusedAt(st: LinkState, windows: Windows, rs: seq<Relocation>, j: nat, left: LinkState)
    requires WindowsOrdered(windows)
  {
    && j < |rs| && LinkedBy(st, windows, rs[..j]) == Some(left)
    && EntryRejected(left, windows, rs[j])
  }

  /** Linking fails exactly when some entry is rejected in the state that the entries before it left. */
  lemma {:induction false} LinkFails(st: LinkState, windows: Windows, rs: seq<Relocation>)
    requires WindowsOrdered(windows) && Ready(st, windows)
    ensures LinkedBy(st, windows, rs).None? <==>
            exists j: nat, left: LinkState :: RefusedAt(st, windows, rs, j, left)
    decreases |rs|
  {
    hide Applied, EntryRejected, EntryApplied, TrampolinesPlaced, SlotsValid;
    forall j: nat, left: LinkState | RefusedAt(st, windows, rs, j, left)
      ensures LinkedBy(st, windows, rs).None?
    {
      RefusedFails(st, windows, rs, j, left);
    }
    if rs != [] && LinkedBy(st, windows, rs).None? {
      var last := |rs| - 1;
      var before := LinkedBy(st, windows, rs[..last]);
      if before.None? {
        LinkFails(st, windows, rs[..last]);
        var j: nat, left: LinkState :| RefusedAt(st, windows, rs[..last], j, left);
        assert rs[..last][..j] == rs[..j];
        assert RefusedAt(st, windows, rs, j, left);
      } else {
        LinkedKeeps(st, windows, rs[..last]);
        AppliedMeans(before.value, windows, rs[last]);
        assert RefusedAt(st, windows, rs, last, before.value);
      }
    }
  }

  lemma RefusedFails(st: LinkState, windows: Windows, rs: seq<Relocation>, j: nat, left: LinkState)
    requires WindowsOrdered(windows) && Ready(st, windows) && RefusedAt(st, windows, rs, j, left)
    ensures LinkedBy(st, windows, rs).None?
  {
    hide Applied, EntryRejected, EntryApplied, Ready;
    LinkedKeeps(st, windows, rs[..j]);
    AppliedMeans(left, windows, rs[j]);
    LinkedStep(st, windows, rs[..j], rs[j]);
    LinkedMore(st, windows, rs[..j] + [rs[j]], rs[j + 1..]);
    assert rs[..j] + [rs[j]] + rs[j + 1..] == rs;
  }

  /** What every run keeps. */
  ghost predicate Follows(st: LinkState, now: LinkState, windows: Windows)
    requires WindowsOrdered(windows)
  {
    && Ready(now, windows) && SameExtents(st.loaded, now.loaded)
    && Consumed(st.slots, now.slots) && st.trampolines <= now.trampolines
  }

  lemma {:induction false} LinkedKeeps(st: LinkState, windows: Windows, rs: seq<Relocation>)
    requires WindowsOrdered(windows) && Ready(st, windows)
    ensures var now := LinkedBy(st, windows, rs);
            now.Some? ==> Follows(st, now.value, windows)
    decreases |rs|
  {
    hide Applied, EntryRejected, EntryApplied, Ready;
    if rs != [] && LinkedBy(st, windows, rs).Some? {
      var last := |rs| - 1;
      LinkedKeeps(st, windows, rs[..last]);
      var before := LinkedBy(st, windows, rs[..last]).value;
      AppliedMeans(before, windows, rs[last]);
      AppliedGrows(before, LinkedBy(st, windows, rs).value, windows, rs[last]);
    }
  }

  lemma AddedTrampoline(loaded: seq<LoadedSection>, trampolines: seq<LoadedSection>, windows: Windows,
                        reservation: Range, slot: Word, target: Word)
    requires WindowsOrdered(windows) && TrampolinesPlaced(loaded, trampolines, windows, reservation)
    requires slot % TRAMPOLINE_SIZE == 0
    requires reservation.begin <= slot && slot + TRAMPOLINE_SIZE <= reservation.end
    requires SlotAvailable(slot, loaded, trampolines, windows)
    ensures TrampolinesPlaced(loaded, trampolines + [LoadedSection(slot, true, TrampolineBytes(target))],
                              windows, reservation)
    ensures TrampolineAt(trampolines + [LoadedSection(slot, true, TrampolineBytes(target))], slot, target)
  {
    hide SlotAvailable;
    var more := trampolines + [LoadedSection(slot, true, TrampolineBytes(target))];
    assert more[|trampolines|].address == slot;
    assert |TrampolineBytes(target)| == 16;
    forall j | 0 <= j < |more|
      ensures more[..j] == if j < |trampolines| then trampolines[..j] else trampolines
    {
    }
  }

  lemma PlacedIgnoresBytes(a: seq<LoadedSection>, b: seq<LoadedSection>, trampolines: seq<LoadedSection>,
                           windows: Windows, reservation: Range)
    requires WindowsOrdered(windows) && TrampolinesPlaced(a, trampolines, windows, reservation)
    requires SameExtents(a, b)
    ensures TrampolinesPlaced(b, trampolines, windows, reservation)
  {
    forall j | 0 <= j < |trampolines|
      ensures FreeOfSections(b, trampolines[j].address, TRAMPOLINE_SIZE)
    {
      assert FreeOfSections(a, trampolines[j].address, TRAMPOLINE_SIZE);
      forall i | 0 <= i < |b| ensures !SectionOverlaps(b[i], trampolines[j].address, TRAMPOLINE_SIZE) {
        assert !SectionOverlaps(a[i], trampolines[j].address, TRAMPOLINE_SIZE);
      }
    }
  }

  /** More trampolines never break a link. */
  lemma EncodesGrows(r: Relocation, original: seq<Byte>, now: seq<Byte>, few: seq<LoadedSection>,
                     many: seq<LoadedSection>)
    requires Encodes(r, original, now, few) && few <= many
    ensures Encodes(r, original, now, many)
  {
    if r.kind.Relative24? {
      var d :| Leads(r, d, few) && now == BytesOf(PatchBranch(BigEndianWord(original), d), 4);
      assert TrampolineAt(few, r.site + d, r.value) ==> TrampolineAt(many, r.site + d, r.value) by {
        if TrampolineAt(few, r.site + d, r.value) {
          var j :| 0 <= j < |few| && few[j].address == r.site + d &&
                   few[j].contents == TrampolineBytes(r.value);
          assert many[j] == few[j];
        }
      }
      assert Leads(r, d, many);
    }
  }

  /** No later entry patches common bytes, except that a slot may be filled repeatedly. */
  ghost predicate LastPatch(rs: seq<Relocation>, i: nat)
    requires i < |rs|
  {
    forall j :: i < j < |rs| ==> Apart(rs[i], rs[j]) || Repeats(rs[i], rs[j])
  }

  /** No earlier entry patches common bytes. */
  ghost predicate FirstPatch(rs: seq<Relocation>, i: nat)
    requires i < |rs|
  {
    forall j :: 0 <= j < i ==> Apart(rs[j], rs[i])
  }

  /** The bytes that entry `i` finds at its site. */
  ghost function BytesBefore(st: LinkState, windows: Windows, rs: seq<Relocation>, i: nat): seq<Byte>
    requires i < |rs| && WindowsOrdered(windows)
  {
    var before := LinkedBy(st, windows, rs[..i]);
    if before.Some? && InSection(before.value.loaded, rs[i]) then BytesAt(before.value.loaded, rs[i]) else []
  }

  /** Entry `i` is encoded in the image, given the bytes that it found. */
  ghost predicate EntryEncoded(st: LinkState, windows: Windows, rs: seq<Relocation>, i: nat,
                               loaded: seq<LoadedSection>, trampolines: seq<LoadedSection>)
    requires i < |rs| && WindowsOrdered(windows)
  {
    InSection(loaded, rs[i]) && Encodes(rs[i], BytesBefore(st, windows, rs, i), BytesAt(loaded, rs[i]), trampolines)
  }

  /** Every entry that nothing patches over is encoded in the image. */
  ghost predicate AllEncoded(st: LinkState, windows: Windows, rs: seq<Relocation>, loaded: seq<LoadedSection>,
                             trampolines: seq<LoadedSection>)
    requires WindowsOrdered(windows)
  {
    forall i: nat :: i < |rs| && InSection(st.loaded, rs[i]) && LastPatch(rs, i) ==>
      EntryEncoded(st, windows, rs, i, loaded, trampolines)
  }

  /** Nothing else changes, and the entries are encoded. */
  lemma {:induction false} LinkedMeans(st: LinkState, windows: Windows, rs: seq<Relocation>)
    requires WindowsOrdered(windows) && Ready(st, windows)
    ensures var now := LinkedBy(st, windows, rs);
            now.Some? ==>
              && OthersUntouched(st.loaded, now.value.loaded, rs) && EntriesAccepted(st.loaded, rs)
              && AllEncoded(st, windows, rs, now.value.loaded, now.value.trampolines)
    decreases |rs|
  {
    hide *;
    LinkedNothing(st, windows);
    if rs != [] && LinkedBy(st, windows, rs).Some? {
      var done, r := rs[..|rs| - 1], rs[|rs| - 1];
      assert rs == done + [r];
      LinkedStep(st, windows, done, r);
      LinkedMeans(st, windows, done);
      LinkedKeeps(st, windows, done);
      var before, now := LinkedBy(st, windows, done).value, LinkedBy(st, windows, rs).value;
      FollowsParts(st, before, windows);
      AppliedMeans(before, windows, r);
      AppliedGrows(before, now, windows, r);
      AppliedParts(before, now, windows, r);
      AcceptedStep(st.loaded, before.loaded, done, r);
      if before.loaded[r.section].contents == [] {
        SkippedUntouched(st.loaded, before.loaded, done, r);
      } else {
        UntouchedStep(st.loaded, before.loaded, now.loaded, done, r);
      }
      forall i: nat | i < |rs| && InSection(st.loaded, rs[i]) && LastPatch(rs, i)
        ensures EntryEncoded(st, windows, rs, i, now.loaded, now.trampolines)
      {
        if i < |done| {
          EarlierEncoded(st, before, now, windows, done, r, i);
        } else {
          OwnEncoded(st, before, now, windows, done, r);
        }
      }
      AllAreEncoded(st, windows, rs, now.loaded, now.trampolines);
    } else if rs == [] {
      AtStart(st, windows);
    }
  }

  lemma LinkedNothing(st: LinkState, windows: Windows)
    requires WindowsOrdered(windows)
    ensures LinkedBy(st, windows, []) == Some(st)
  {
  }

  lemma FollowsParts(st: LinkState, now: LinkState, windows: Windows)
    requires WindowsOrdered(windows) && Follows(st, now, windows)
    ensures Ready(now, windows) && SameExtents(st.loaded, now.loaded)
    ensures Consumed(st.slots, now.slots) && st.trampolines <= now.trampolines
  {
    hide Ready, SameExtents, Consumed;
  }

  lemma AppliedParts(st: LinkState, next: LinkState, windows: Windows, r: Relocation)
    requires WindowsOrdered(windows) && EntryApplied(st, next, windows, r)
    ensures r.section < |st.loaded|
    ensures st.loaded[r.section].contents == [] ==> next.loaded == st.loaded
    ensures st.loaded[r.section].contents != [] ==>
              && InSection(st.loaded, r) && InSection(next.loaded, r)
              && next.loaded == Patched(st.loaded, r, BytesAt(next.loaded, r))
              && Encodes(r, BytesAt(st.loaded, r), BytesAt(next.loaded, r), next.trampolines)
  {
    hide TrampolineAdded, NeedsTrampoline, Encodes, InSection, Patched, BytesAt;
  }

  lemma AllAreEncoded(st: LinkState, windows: Windows, rs: seq<Relocation>, loaded: seq<LoadedSection>,
                      trampolines: seq<LoadedSection>)
    requires WindowsOrdered(windows)
    requires forall i: nat :: i < |rs| && InSection(st.loaded, rs[i]) && LastPatch(rs, i) ==>
               EntryEncoded(st, windows, rs, i, loaded, trampolines)
    ensures AllEncoded(st, windows, rs, loaded, trampolines)
  {
    hide InSection, LastPatch, EntryEncoded;
  }

  lemma AcceptedStep(original: seq<LoadedSection>, before: seq<LoadedSection>, rs: seq<Relocation>, r: Relocation)
    requires SameExtents(original, before) && EntriesAccepted(original, rs) && r.section < |before|
    requires before[r.section].contents != [] ==> InSection(before, r)
    ensures EntriesAccepted(original, rs + [r]) && (InSection(original, r) ==> before[r.section].contents != [])
  {
  }

  lemma SkippedUntouched(original: seq<LoadedSection>, loaded: seq<LoadedSection>, rs: seq<Relocation>, r: Relocation)
    requires OthersUntouched(original, loaded, rs)
    ensures OthersUntouched(original, loaded, rs + [r])
  {
    forall s: nat, k: nat | s < |original| && k < |original[s].contents| &&
        (forall i :: 0 <= i < |rs + [r]| ==> !Covers((rs + [r])[i], s, original[s].address + k))
      ensures loaded[s].contents[k] == original[s].contents[k]
    {
      forall i | 0 <= i < |rs| ensures !Covers(rs[i], s, original[s].address + k) {
        assert rs[i] == (rs + [r])[i];
      }
    }
  }

  lemma AtStart(st: LinkState, windows: Windows)
    requires WindowsOrdered(windows)
    ensures OthersUntouched(st.loaded, st.loaded, []) && EntriesAccepted(st.loaded, [])
    ensures AllEncoded(st, windows, [], st.loaded, st.trampolines)
  {
  }

  /** The bytes an entry finds do not depend on the entries after it. */
  lemma SameBefore(st: LinkState, windows: Windows, rs: seq<Relocation>, r: Relocation, i: nat)
    requires WindowsOrdered(windows) && i < |rs|
    ensures (rs + [r])[i] == rs[i] && BytesBefore(st, windows, rs + [r], i) == BytesBefore(st, windows, rs, i)
    ensures LastPatch(rs + [r], i) ==> LastPatch(rs, i) && (Apart(rs[i], r) || Repeats(rs[i], r))
  {
    hide LinkedBy, InSection, BytesAt, Apart, Repeats;
    var more := rs + [r];
    assert more[..i] == rs[..i] && more[|rs|] == r;
    assert forall j :: 0 <= j < |rs| ==> more[j] == rs[j];
  }

  lemma EarlierEncoded(st: LinkState, before: LinkState, now: LinkState, windows: Windows, done: seq<Relocation>,
                       r: Relocation, i: nat)
    requires WindowsOrdered(windows) && i < |done| && EntryApplied(before, now, windows, r)
    requires AllEncoded(st, windows, done, before.loaded, before.trampolines)
    requires InSection(st.loaded, (done + [r])[i]) && LastPatch(done + [r], i)
    ensures EntryEncoded(st, windows, done + [r], i, now.loaded, now.trampolines)
  {
    SameBefore(st, windows, done, r, i);
    AppliedParts(before, now, windows, r);
    AppliedGrows(before, now, windows, r);
    hide LastPatch, BytesBefore, EntryApplied, Encodes, SameExtents, Consumed, WindowsOrdered;
    assert EntryEncoded(st, windows, done, i, before.loaded, before.trampolines);
    StaysEncoded(before, now, done[i], r, BytesBefore(st, windows, done, i));
  }

  /** A later entry that patches other bytes, or fills the same slot again, leaves an encoded entry encoded. */
  lemma StaysEncoded(before: LinkState, now: LinkState, p: Relocation, r: Relocation, was: seq<Byte>)
    requires InSection(before.loaded, p) && before.trampolines <= now.trampolines
    requires Encodes(p, was, BytesAt(before.loaded, p), before.trampolines)
    requires Apart(p, r) || Repeats(p, r)
    requires r.section < |before.loaded|
    requires if before.loaded[r.section].contents == [] then now.loaded == before.loaded
             else && InSection(before.loaded, r) && InSection(now.loaded, r)
                  && now.loaded == Patched(before.loaded, r, BytesAt(now.loaded, r))
                  && Encodes(r, BytesAt(before.loaded, r), BytesAt(now.loaded, r), now.trampolines)
    ensures InSection(now.loaded, p) && Encodes(p, was, BytesAt(now.loaded, p), now.trampolines)
  {
    hide Encodes, Patched, Apart;
    if before.loaded[r.section].contents == [] || Apart(p, r) {
      if before.loaded[r.section].contents != [] { ApartBytes(before.loaded, r, BytesAt(now.loaded, r), p); }
      EncodesGrows(p, was, BytesAt(before.loaded, p), before.trampolines, now.trampolines);
    } else {
      AddressIgnoresOriginal(r, BytesAt(before.loaded, r), was, BytesAt(now.loaded, r), now.trampolines);
    }
  }

  lemma ApartBytes(loaded: seq<LoadedSection>, r: Relocation, bytes: seq<Byte>, p: Relocation)
    requires InSection(loaded, p) && InSection(loaded, r) && |bytes| == Width(r.kind) && Apart(p, r)
    ensures InSection(Patched(loaded, r, bytes), p) && BytesAt(Patched(loaded, r, bytes), p) == BytesAt(loaded, p)
  {
    var s := loaded[r.section];
    var c := Replace(s.contents, r.site - s.address, bytes);
    if p.section == r.section {
      var o := p.site - s.address;
      assert c[o..o + Width(p.kind)] == s.contents[o..o + Width(p.kind)];
    }
  }

  lemma OwnEncoded(st: LinkState, before: LinkState, now: LinkState, windows: Windows, done: seq<Relocation>,
                   r: Relocation)
    requires WindowsOrdered(windows) && LinkedBy(st, windows, done) == Some(before)
    requires InSection(before.loaded, r) && InSection(now.loaded, r)
    requires Encodes(r, BytesAt(before.loaded, r), BytesAt(now.loaded, r), now.trampolines)
    ensures EntryEncoded(st, windows, done + [r], |done|, now.loaded, now.trampolines)
  {
    hide Encodes, LinkedBy, InSection, BytesAt;
    assert (done + [r])[..|done|] == done && (done + [r])[|done|] == r;
  }

  /** The first entry at a place finds the bytes of the file. */
  lemma FirstFindsFile(st: LinkState, windows: Windows, rs: seq<Relocation>, i: nat)
    requires WindowsOrdered(windows) && Ready(st, windows) && i < |rs| && LinkedBy(st, windows, rs).Some?
    requires InSection(st.loaded, rs[i]) && FirstPatch(rs, i)
    ensures BytesBefore(st, windows, rs, i) == BytesAt(st.loaded, rs[i])
  {
    hide *;
    var head := rs[..i];
    LinkedMore(st, windows, head, rs[i..]);
    assert head + rs[i..] == rs;
    LinkedKeeps(st, windows, head);
    LinkedMeans(st, windows, head);
    FollowsParts(st, LinkedBy(st, windows, head).value, windows);
    FoundBytes(st, LinkedBy(st, windows, head).value, windows, rs, i);
  }

  lemma FoundBytes(st: LinkState, before: LinkState, windows: Windows, rs: seq<Relocation>, i: nat)
    requires WindowsOrdered(windows) && i < |rs| && LinkedBy(st, windows, rs[..i]) == Some(before)
    requires SameExtents(st.loaded, before.loaded) && OthersUntouched(st.loaded, before.loaded, rs[..i])
    requires InSection(st.loaded, rs[i]) && FirstPatch(rs, i)
    ensures BytesBefore(st, windows, rs, i) == BytesAt(st.loaded, rs[i])
  {
    InExtents(st.loaded, before.loaded, rs[i]);
    hide LinkedBy, OthersUntouched, InSection, SameExtents, BytesAt, Apart;
    UntouchedBytes(st.loaded, before.loaded, rs[..i], rs[i]);
  }

  lemma InExtents(a: seq<LoadedSection>, b: seq<LoadedSection>, r: Relocation)
    requires SameExtents(a, b)
    ensures InSection(a, r) <==> InSection(b, r)
  {
  }

  lemma UntouchedStep(original: seq<LoadedSection>, before: seq<LoadedSection>, after: seq<LoadedSection>,
                      rs: seq<Relocation>, r: Relocation)
    requires OthersUntouched(original, before, rs) && InSection(before, r) && InSection(after, r)
    requires after == Patched(before, r, BytesAt(after, r))
    ensures OthersUntouched(original, after, rs + [r]) && InSection(original, r)
  {
    forall s: nat, k: nat | s < |original| && k < |original[s].contents| &&
        (forall i :: 0 <= i < |rs + [r]| ==> !Covers((rs + [r])[i], s, original[s].address + k))
      ensures after[s].contents[k] == original[s].contents[k]
    {
      forall i | 0 <= i < |rs| ensures !Covers(rs[i], s, original[s].address + k) {
        assert rs[i] == (rs + [r])[i];
      }
      assert (rs + [r])[|rs|] == r;
      assert before[s].contents[k] == original[s].contents[k];
    }
  }

  /** A whole word is replaced whatever it was. */
  lemma AddressIgnoresOriginal(r: Relocation, a: seq<Byte>, b: seq<Byte>, now: seq<Byte>,
                               trampolines: seq<LoadedSection>)
    requires r.kind.Address32? && Encodes(r, a, now, trampolines)
    ensures Encodes(r, b, now, trampolines)
  {
  }

  lemma UntouchedBytes(original: seq<LoadedSection>, before: seq<LoadedSection>, rs: seq<Relocation>, r: Relocation)
    requires OthersUntouched(original, before, rs) && InSection(before, r)
    requires forall i :: 0 <= i < |rs| ==> Apart(rs[i], r)
    ensures InSection(original, r) && BytesAt(original, r) == BytesAt(before, r)
  {
    var a := original[r.section].address;
    var o := r.site - a;
    forall k | o <= k < o + Width(r.kind)
      ensures before[r.section].contents[k] == original[r.section].contents[k]
    {
      forall i | 0 <= i < |rs| ensures !Covers(rs[i], r.section, a + k) {
        assert Apart(rs[i], r);
      }
    }
  }

  lemma LinkerParts(linker: RpxLinker)
    requires linker.Valid()
    ensures WindowsOrdered(linker.windows) && linker.allocator.Valid() && Ready(linker.State(), linker.windows)
    ensures linker.State() == LinkState(linker.loaded, linker.trampolines, linker.allocator.Remaining())
  {
    hide Ready, SlotsValid;
  }

  lemma LinkerIs(linker: RpxLinker)
    requires WindowsOrdered(linker.windows) && linker.allocator.Valid()
    requires Ready(LinkState(linker.loaded, linker.trampolines, linker.allocator.Remaining()), linker.windows)
    ensures linker.Valid()
    ensures linker.State() == LinkState(linker.loaded, linker.trampolines, linker.allocator.Remaining())
  {
    hide Ready, SlotsValid;
  }

  class RpxLinker {
    var loaded: seq<LoadedSection>
    var trampolines: seq<LoadedSection>
    const allocator: TrampolineAllocator
    const windows: Windows

    ghost predicate Valid()
      reads this, allocator
    {
      allocator.Valid() && WindowsOrdered(windows) && Ready(State(), windows)
    }

    ghost function State(): LinkState
      reads this, allocator
    {
      LinkState(loaded, trampolines, allocator.Remaining())
    }

    constructor (info: FileInfo, loaded: seq<LoadedSection>, windows: Windows)
      requires SectionsFit(loaded) && WindowsOrdered(windows)
      ensures Valid() && fresh(allocator) && State() == Start(info, loaded) && this.windows == windows
    {
      hide SlotsValid, ReservedSlots;
      this.loaded, trampolines, this.windows := loaded, [], windows;
      allocator := new TrampolineAllocator(info, loaded);
    }

    /**
     * The REL24 case: patch the branch, through one new trampoline exactly when the value is out
     * of reach. A rejected entry changes no section and adds no trampoline.
     */
    method PatchRelative24(r: Relocation) returns (ok: bool)
      requires Valid() && InSection(loaded, r) && r.kind.Relative24?
      modifies this, allocator
      ensures Valid()
      ensures AppliedBranch(old(State()), windows, r) == if ok then Some(State()) else None
      ensures if ok then EntryApplied(old(State()), State(), windows, r)
              else BranchRejected(old(State()), windows, r)
      ensures !ok ==> loaded == old(loaded) && trampolines == old(trampolines)
    {
      hide *;
      ghost var before := State();
      LinkerParts(this);
      BranchMeans(before, windows, r);
      BranchCases(before, windows, r);
      if r.site % 4 != 0 || r.value % 4 != 0 { return false; }
      var instruction := BigEndianWord(BytesAt(loaded, r));
      var displacement := r.value - r.site;
      if displacement < REL24_MIN || displacement > REL24_MAX {
        if And(instruction, 2) != 0 { return false; }
        ok, displacement := AddTrampoline(r);
        ThroughIs(before, r, Take(before.slots, r.site, loaded, before.trampolines, windows));
        if !ok {
          StillReady(before, windows, allocator.Remaining());
          LinkerIs(this);
          return;
        }
      }
      loaded := BranchPatched(loaded, r, displacement);
      LinkerIs(this);
      return true;
    }

    /** The new trampoline for a branch out of reach, and the displacement that leads to it. */
    method AddTrampoline(r: Relocation) returns (ok: bool, displacement: int)
      requires Valid()
      modifies this`trampolines, allocator
      ensures allocator.Valid() && SlotsValid(allocator.Remaining())
      ensures var g := Take(old(State()).slots, r.site, loaded, old(trampolines), windows);
              && allocator.Remaining() == g.rest && ok == g.slot.Some?
              && (ok ==> displacement == g.slot.value - r.site)
              && trampolines == if ok then old(trampolines) +
                                [LoadedSection(g.slot.value, true, TrampolineBytes(r.value))] else old(trampolines)
      ensures allocator.Remaining().low == old(allocator.Remaining()).low
      ensures allocator.Remaining().high == old(allocator.Remaining()).high
    {
      hide Take, Taken, TrampolineBytes, Ready, SlotsValid;
      var slot := allocator.Allocate(r.site, loaded, trampolines, windows);
      if slot.None? { return false, 0; }
      trampolines := trampolines + [LoadedSection(slot.value, true, TrampolineBytes(r.value))];
      return true, slot.value - r.site;
    }

    /** One relocation entry; false where the loader rejects the file. */
    method Apply(r: Relocation) returns (ok: bool)
      requires Valid()
      modifies this, allocator
      ensures Valid()
      ensures Applied(old(State()), windows, r) == if ok then Some(State()) else None
      ensures if ok then EntryApplied(old(State()), State(), windows, r)
              else EntryRejected(old(State()), windows, r)
      ensures !ok ==> loaded == old(loaded) && trampolines == old(trampolines)
    {
      AppliedMeans(State(), windows, r);
      hide Ready, PlainBytes, EntryApplied, AppliedBranch, SlotsValid, EntryRejected, Patched;
      if r.section >= |loaded| { return false; }
      var s := loaded[r.section];
      if s.contents == [] { return true; }
      if r.site < s.address || r.site - s.address > |s.contents| ||
         Width(r.kind) > |s.contents| - (r.site - s.address) {
        return false;
      }
      if r.kind.Relative24? {
        ok := PatchRelative24(r);
        return;
      }
      loaded := Patched(loaded, r, PlainBytes(r));
      return true;
    }

    /**
     * More entries, in order, up to the first that is rejected: that one is rejected in the state
     * which the entries before it left.
     */
    method ApplyRelocations(rs: seq<Relocation>) returns (ok: bool, ghost j: nat, ghost left: LinkState)
      requires Valid()
      modifies this, allocator
      ensures Valid()
      ensures ok ==> LinkedBy(old(State()), windows, rs) == Some(State())
      ensures !ok ==> RefusedAt(old(State()), windows, rs, j, left)
      ensures ok <==> LinkedBy(old(State()), windows, rs).Some?
    {
      hide Ready, Applied, EntryApplied, SlotsValid, EntryRejected;
      assert rs[..0] == [];
      for k := 0 to |rs|
        invariant Valid() && LinkedBy(old(State()), windows, rs[..k]) == Some(State())
      {
        left, j := State(), k;
        var accepted := Apply(rs[k]);
        LinkedStep(old(State()), windows, rs[..k], rs[k]);
        assert rs[..k] + [rs[k]] == rs[..k + 1];
        if !accepted {
          RefusedFails(old(State()), windows, rs, j, left);
          return false, j, left;
        }
      }
      assert rs[..|rs|] == rs;
      return true, |rs|, State();
    }
  }
}
