/** The two-ended trampoline allocator over the FILEINFO text reservation. */
module Trampolines {
  import opened Bits
  import opened RpxImage
  import opened BranchEncoding

  const TRAMPOLINE_SIZE: nat := 16

  datatype FileInfo = FileInfo(textSize: Word, trampAdjust: Word)
  datatype Option<T> = None | Some(value: T)

  /** The two HLE windows a trampoline must stay clear of. */
  datatype Windows = Windows(data: Range, imports: Range)

  /** `trampoline_slot_available`. */
  ghost predicate SlotAvailable(address: nat, loaded: seq<LoadedSection>, trampolines: seq<LoadedSection>,
                                windows: Windows)
    requires WindowsOrdered(windows)
  {
    && address + TRAMPOLINE_SIZE <= ADDRESS_SPACE_END
    && !RangesOverlap(address, TRAMPOLINE_SIZE, windows.data.begin, windows.data.end - windows.data.begin)
    && !RangesOverlap(address, TRAMPOLINE_SIZE, windows.imports.begin,
                      windows.imports.end - windows.imports.begin)
    && FreeOfSections(loaded, address, TRAMPOLINE_SIZE)
    && FreeOfSections(trampolines, address, TRAMPOLINE_SIZE)
  }

  /** A slot is available exactly when none of its sixteen addresses is taken, and all are below 2^32. */
  lemma AvailableMeans(a: nat, loaded: seq<LoadedSection>, trampolines: seq<LoadedSection>, windows: Windows)
    requires windows.data.begin < windows.data.end && windows.imports.begin < windows.imports.end
    ensures SlotAvailable(a, loaded, trampolines, windows) <==>
            && a + 16 <= 0x1_0000_0000
            && (forall x: nat :: Between(x, a, 16) ==> !InWindow(x, windows.data) && !InWindow(x, windows.imports))
            && (forall i, x: nat :: 0 <= i < |loaded| && Between(x, a, 16) ==> !Contains(loaded[i], x))
            && (forall i, x: nat :: 0 <= i < |trampolines| && Between(x, a, 16) ==> !Contains(trampolines[i], x))
  {
    FreeMeans(loaded, a, 16);
    FreeMeans(trampolines, a, 16);
    WindowMeans(a, windows.data);
    WindowMeans(a, windows.imports);
    hide FreeOfSections, RangesOverlap, Contains, Between, InWindow;
  }

  predicate InWindow(x: nat, window: Range) { window.begin <= x < window.end }

  lemma WindowMeans(a: nat, window: Range)
    requires window.begin < window.end
    ensures RangesOverlap(a, 16, window.begin, window.end - window.begin) <==>
            exists x: nat :: Between(x, a, 16) && InWindow(x, window)
  {
    OverlapMeans(a, 16, window.begin, window.end - window.begin);
    if x: nat :| Between(x, a, 16) && Between(x, window.begin, window.end - window.begin) {
      assert InWindow(x, window);
    }
    if x: nat :| Between(x, a, 16) && InWindow(x, window) {
      assert Between(x, window.begin, window.end - window.begin);
    }
  }

  predicate WindowsOrdered(windows: Windows) {
    windows.data.begin <= windows.data.end && windows.imports.begin <= windows.imports.end
  }

  /** No free slot between the two addresses. */
  ghost predicate NoSlot(low: nat, high: int, loaded: seq<LoadedSection>, trampolines: seq<LoadedSection>,
                         windows: Windows)
    requires WindowsOrdered(windows)
  {
    forall a: nat :: low <= a && a + TRAMPOLINE_SIZE <= high && a % TRAMPOLINE_SIZE == 0 ==>
      !SlotAvailable(a, loaded, trampolines, windows)
  }

  method CheckSlot(address: nat, loaded: seq<LoadedSection>, trampolines: seq<LoadedSection>, windows: Windows)
    returns (ok: bool)
    requires WindowsOrdered(windows)
    ensures ok <==> SlotAvailable(address, loaded, trampolines, windows)
  {
    if address + TRAMPOLINE_SIZE > ADDRESS_SPACE_END ||
       RangesOverlap(address, TRAMPOLINE_SIZE, windows.data.begin, windows.data.end - windows.data.begin) ||
       RangesOverlap(address, TRAMPOLINE_SIZE, windows.imports.begin,
                     windows.imports.end - windows.imports.begin) {
      return false;
    }
    var onSection := AnySectionOverlaps(loaded, address, TRAMPOLINE_SIZE);
    var onTrampoline := AnySectionOverlaps(trampolines, address, TRAMPOLINE_SIZE);
    return !onSection && !onTrampoline;
  }

  predicate IsText(s: LoadedSection) {
    s.contents != [] && s.executable && s.address < METADATA_BASE
  }

  ghost predicate TextWithin(loaded: seq<LoadedSection>, begin: nat, end: nat) {
    forall i :: 0 <= i < |loaded| && IsText(loaded[i]) ==>
      begin <= loaded[i].address && loaded[i].address + |loaded[i].contents| <= end
  }

  /** The smallest range that contains all the text. */
  ghost predicate TextHull(loaded: seq<LoadedSection>, begin: nat, end: nat) {
    && TextWithin(loaded, begin, end)
    && (exists i :: 0 <= i < |loaded| && IsText(loaded[i]) && loaded[i].address == begin)
    && (exists i :: 0 <= i < |loaded| && IsText(loaded[i]) &&
                    loaded[i].address + |loaded[i].contents| == end)
  }

  ghost predicate NoText(loaded: seq<LoadedSection>) {
    forall i :: 0 <= i < |loaded| ==> !IsText(loaded[i])
  }

  /** The FILEINFO reservation exists and contains the text. */
  predicate ReservationFits(info: FileInfo, begin: nat, end: nat) {
    && info.trampAdjust <= begin && info.trampAdjust <= info.textSize
    && end <= begin - info.trampAdjust + info.textSize <= ADDRESS_SPACE_END
  }

  lemma HullUnique(loaded: seq<LoadedSection>, b: nat, e: nat, c: nat, d: nat)
    requires TextHull(loaded, b, e) && TextHull(loaded, c, d)
    ensures b == c && e == d
  {
  }

  lemma HasHull(loaded: seq<LoadedSection>, b: nat, e: nat)
    requires TextHull(loaded, b, e)
    ensures !NoText(loaded)
    ensures forall c: nat, d: nat :: TextHull(loaded, c, d) ==> c == b && d == e
  {
    forall c: nat, d: nat | TextHull(loaded, c, d)
      ensures c == b && d == e
    {
      HullUnique(loaded, b, e, c, d);
    }
  }

  lemma HullStep(loaded: seq<LoadedSection>, s: LoadedSection, b: nat, e: nat)
    requires IsText(s)
    ensures NoText(loaded) ==> TextHull(loaded + [s], s.address, s.address + |s.contents|)
    ensures TextHull(loaded, b, e) ==>
              TextHull(loaded + [s], Min(b, s.address), Max(e, s.address + |s.contents|))
  {
    var more := loaded + [s];
    assert more[|loaded|] == s;
    if TextHull(loaded, b, e) {
      var i :| 0 <= i < |loaded| && IsText(loaded[i]) && loaded[i].address == b;
      var j :| 0 <= j < |loaded| && IsText(loaded[j]) && loaded[j].address + |loaded[j].contents| == e;
      assert more[i] == loaded[i] && more[j] == loaded[j];
    }
  }

  lemma HullSkips(loaded: seq<LoadedSection>, s: LoadedSection, b: nat, e: nat)
    requires !IsText(s)
    ensures NoText(loaded) ==> NoText(loaded + [s])
    ensures TextHull(loaded, b, e) ==> TextHull(loaded + [s], b, e)
  {
    var more := loaded + [s];
    if TextHull(loaded, b, e) {
      var i :| 0 <= i < |loaded| && IsText(loaded[i]) && loaded[i].address == b;
      var j :| 0 <= j < |loaded| && IsText(loaded[j]) && loaded[j].address + |loaded[j].contents| == e;
      assert more[i] == loaded[i] && more[j] == loaded[j];
    }
  }

  /** Counting whole slots from the text outwards misses none. */
  lemma SlotsCover(low: nat, high: nat, inner: nat, a: nat)
    requires inner % 16 == 0 && a % 16 == 0
    ensures inner <= a && a + 16 <= high ==> a + 16 <= inner + 16 * ((high - inner) / 16)
    ensures low <= a && a + 16 <= inner ==> inner - 16 * ((inner - low) / 16) <= a
  {
  }

  /** The span of the text, or an empty range at the end of the address space. */
  method FindText(loaded: seq<LoadedSection>) returns (textBegin: nat, textEnd: nat)
    requires SectionsFit(loaded)
    ensures textBegin <= ADDRESS_SPACE_END && textEnd <= ADDRESS_SPACE_END
    ensures if textBegin == ADDRESS_SPACE_END then NoText(loaded) else TextHull(loaded, textBegin, textEnd)
    ensures textBegin < ADDRESS_SPACE_END ==> textBegin <= textEnd
  {
    textBegin, textEnd := ADDRESS_SPACE_END, 0;
    for i := 0 to |loaded|
      invariant textBegin <= ADDRESS_SPACE_END && textEnd <= ADDRESS_SPACE_END
      invariant if textBegin == ADDRESS_SPACE_END then NoText(loaded[..i]) && textEnd == 0
                else TextHull(loaded[..i], textBegin, textEnd) && textBegin <= textEnd
    {
      hide TextHull, NoText;
      assert loaded[..i + 1] == loaded[..i] + [loaded[i]];
      if IsText(loaded[i]) {
        HullStep(loaded[..i], loaded[i], textBegin, textEnd);
        textBegin := Min(textBegin, loaded[i].address);
        textEnd := Max(textEnd, loaded[i].address + |loaded[i].contents|);
      } else {
        HullSkips(loaded[..i], loaded[i], textBegin, textEnd);
      }
    }
    assert loaded[..|loaded|] == loaded;
  }

  /** A slot among the `after` slots from `above` on, or the `before` slots that end at `below`. */
  predicate SlotAmong(a: nat, below: nat, before: nat, above: nat, after: nat) {
    || (above <= a && a + TRAMPOLINE_SIZE <= above + TRAMPOLINE_SIZE * after)
    || (below - TRAMPOLINE_SIZE * before <= a && a + TRAMPOLINE_SIZE <= below)
  }

  /** Every aligned slot of [low, high) beside the text [begin, end) is among them. */
  ghost predicate SlotsComplete(low: nat, high: nat, begin: nat, end: nat,
                                below: nat, before: nat, above: nat, after: nat)
  {
    forall a: nat ::
      (&& a % TRAMPOLINE_SIZE == 0 && low <= a && a + TRAMPOLINE_SIZE <= high
       && (a + TRAMPOLINE_SIZE <= begin || end <= a)) ==> SlotAmong(a, below, before, above, after)
  }

  lemma AllSlots(low: nat, high: nat, begin: nat, end: nat, below: nat, above: nat)
    requires RoundsDown(begin, 16, below) && RoundsUp(end, 16, above)
    ensures SlotsComplete(low, high, begin, end,
                          below, if below >= low then (below - low) / TRAMPOLINE_SIZE else 0,
                          above, if high >= above then (high - above) / TRAMPOLINE_SIZE else 0)
  {
    forall a: nat | a % 16 == 0 && low <= a && a + 16 <= high && (a + 16 <= begin || end <= a)
      ensures SlotAmong(a, below, if below >= low then (below - low) / 16 else 0,
                        above, if high >= above then (high - above) / 16 else 0)
    {
      if a + 16 <= begin {
        CoveredBelow(low, begin, below, a);
      } else {
        CoveredAbove(high, end, above, a);
      }
    }
  }

  lemma CoveredBelow(low: nat, begin: nat, below: nat, a: nat)
    requires RoundsDown(begin, 16, below) && a % 16 == 0 && low <= a && a + 16 <= begin
    ensures low <= below && a + 16 <= below && below - 16 * ((below - low) / 16) <= a
  {
    MultiplesApart(a + 16, below);
    SlotsCover(low, 0, below, a);
  }

  lemma CoveredAbove(high: nat, end: nat, above: nat, a: nat)
    requires RoundsUp(end, 16, above) && a % 16 == 0 && end <= a && a + 16 <= high
    ensures above <= high && above <= a && a + 16 <= above + 16 * ((high - above) / 16)
  {
    MultiplesApart(above, a);
    SlotsCover(0, high, above, a);
  }

  lemma MultiplesApart(x: int, y: int)
    requires x % 16 == 0 && y % 16 == 0 && x < y + 16
    ensures x <= y
  {
  }

  /** The slots still to be tried: `before` of them end at `below`, `after` of them start at `above`. */
  datatype Slots = Slots(low: nat, high: nat, below: nat, before: nat, above: nat, after: nat)

  const NO_SLOTS: Slots := Slots(0, 0, 0, 0, 0, 0)

  /** Both cursors are slot-aligned, and the low end never passes the high end. */
  ghost predicate SlotsValid(s: Slots) {
    && s.below % TRAMPOLINE_SIZE == 0 && s.above % TRAMPOLINE_SIZE == 0
    && s.below <= s.high <= ADDRESS_SPACE_END && (s.after > 0 ==> s.low <= s.above)
  }

  predicate SlotAbove(s: Slots, a: nat) {
    a % TRAMPOLINE_SIZE == 0 && s.above <= a && a + TRAMPOLINE_SIZE <= Min(s.high, s.above + TRAMPOLINE_SIZE * s.after)
  }

  predicate SlotBelow(s: Slots, a: nat) {
    a % TRAMPOLINE_SIZE == 0 && Max(s.low, s.below - TRAMPOLINE_SIZE * s.before) <= a && a + TRAMPOLINE_SIZE <= s.below
  }

  /** The slots are those of the FILEINFO reservation on either side of the text in [begin, end). */
  ghost predicate Reserves(s: Slots, info: FileInfo, begin: nat, end: nat) {
    && s.low == begin - info.trampAdjust && s.high == s.low + info.textSize
    && s.below <= begin && end <= s.above
    && SlotsComplete(s.low, s.high, begin, end, s.below, s.before, s.above, s.after)
  }

  /** The reservation starts `trampAdjust` below the text; its slots are counted from the text outwards. */
  function SlotsBeside(info: FileInfo, begin: nat, end: nat): Slots
    requires info.trampAdjust <= begin
  {
    var low := begin - info.trampAdjust;
    var high := low + info.textSize;
    var below, above := AlignDown(begin, 16), AlignUp(end, 16);
    Slots(low, high, below, if below >= low then (below - low) / TRAMPOLINE_SIZE else 0,
          above, if high >= above then (high - above) / TRAMPOLINE_SIZE else 0)
  }

  lemma BesideReserves(info: FileInfo, begin: nat, end: nat)
    requires ReservationFits(info, begin, end) && begin <= end
    ensures Reserves(SlotsBeside(info, begin, end), info, begin, end) && SlotsValid(SlotsBeside(info, begin, end))
  {
    Align16(begin);
    Align16(end);
    AllSlots(begin - info.trampAdjust, begin - info.trampAdjust + info.textSize, begin, end,
             AlignDown(begin, 16), AlignUp(end, 16));
    hide AlignDown, SlotsComplete;
  }

  /** What FILEINFO and the text of the file reserve: nothing without text, or if the text does not fit. */
  ghost function ReservedSlots(info: FileInfo, loaded: seq<LoadedSection>): Slots {
    if text: Range :| TextHull(loaded, text.begin, text.end) && ReservationFits(info, text.begin, text.end)
    then SlotsBeside(info, text.begin, text.end)
    else NO_SLOTS
  }

  /** The reserved slots are exactly the aligned ones of the reservation beside the text. */
  lemma ReservedMeans(info: FileInfo, loaded: seq<LoadedSection>, b: nat, e: nat)
    requires TextHull(loaded, b, e)
    ensures if ReservationFits(info, b, e) then Reserves(ReservedSlots(info, loaded), info, b, e)
            else ReservedSlots(info, loaded) == NO_SLOTS
  {
    hide TextHull, Reserves, SlotsBeside, SlotsValid;
    ReservedBeside(info, loaded, b, e);
    HullOrdered(loaded, b, e);
    if ReservationFits(info, b, e) { BesideReserves(info, b, e); }
  }

  lemma ReservedValid(info: FileInfo, loaded: seq<LoadedSection>)
    ensures SlotsValid(ReservedSlots(info, loaded))
    ensures NoText(loaded) ==> ReservedSlots(info, loaded) == NO_SLOTS
  {
    hide TextHull, NoText, Reserves, SlotsBeside;
    if text: Range :| TextHull(loaded, text.begin, text.end) && ReservationFits(info, text.begin, text.end) {
      ReservedBeside(info, loaded, text.begin, text.end);
      HullOrdered(loaded, text.begin, text.end);
      BesideReserves(info, text.begin, text.end);
      HasHull(loaded, text.begin, text.end);
    }
  }

  lemma ReservedBeside(info: FileInfo, loaded: seq<LoadedSection>, b: nat, e: nat)
    requires TextHull(loaded, b, e)
    ensures ReservedSlots(info, loaded) == if ReservationFits(info, b, e) then SlotsBeside(info, b, e) else NO_SLOTS
  {
    HasHull(loaded, b, e);
    hide TextHull, NoText, SlotsBeside;
    assert TextHull(loaded, Range(b, e).begin, Range(b, e).end);
  }

  lemma HullOrdered(loaded: seq<LoadedSection>, b: nat, e: nat)
    requires TextHull(loaded, b, e)
    ensures b <= e
  {
  }

  /** Later slots of the same reservation: both cursors only ever move away from the text. */
  ghost predicate Consumed(s: Slots, t: Slots) {
    && t.low == s.low && t.high == s.high && t.below <= s.below && s.above <= t.above
    && t.above + TRAMPOLINE_SIZE * t.after == s.above + TRAMPOLINE_SIZE * s.after
    && t.below - TRAMPOLINE_SIZE * t.before == s.below - TRAMPOLINE_SIZE * s.before
  }

  /** Slots that a scan passed are lost to all later sites; exactly the others remain. */
  lemma PassedSlotsAreLost(s: Slots, t: Slots, a: nat)
    requires Consumed(s, t)
    ensures SlotAbove(t, a) <==> SlotAbove(s, a) && t.above <= a
    ensures SlotBelow(t, a) <==> SlotBelow(s, a) && a + TRAMPOLINE_SIZE <= t.below
  {
  }

  /** Every slot on the way is in REL24 reach of the site. */
  ghost predicate ReachFrom(site: Word, from: nat, to: int) {
    forall c: nat :: c % TRAMPOLINE_SIZE == 0 && from <= c <= to ==> InRel24Range(c - site)
  }

  /** No slot above is free before the first one out of reach. */
  ghost predicate NoneAbove(s: Slots, site: Word, loaded: seq<LoadedSection>, trampolines: seq<LoadedSection>,
                            windows: Windows)
    requires WindowsOrdered(windows)
  {
    forall a: nat :: SlotAbove(s, a) && ReachFrom(site, s.above, a) ==>
      !SlotAvailable(a, loaded, trampolines, windows)
  }

  ghost predicate NoneBelow(s: Slots, site: Word, loaded: seq<LoadedSection>, trampolines: seq<LoadedSection>,
                            windows: Windows)
    requires WindowsOrdered(windows)
  {
    forall a: nat :: SlotBelow(s, a) && ReachFrom(site, a, s.below - TRAMPOLINE_SIZE) ==>
      !SlotAvailable(a, loaded, trampolines, windows)
  }

  /** What a refusal means, for any site. */
  ghost predicate Exhausted(s: Slots, site: Word, loaded: seq<LoadedSection>, trampolines: seq<LoadedSection>,
                            windows: Windows)
    requires WindowsOrdered(windows)
  {
    NoneAbove(s, site, loaded, trampolines, windows) && NoneBelow(s, site, loaded, trampolines, windows)
  }

  /** The slots that are left and the slot handed out. */
  datatype Grant = Grant(rest: Slots, slot: Option<Word>)

  /** The slots after the text, upwards: one that is out of reach or taken is passed, and ends the scan or not. */
  ghost function TakeAbove(s: Slots, site: Word, loaded: seq<LoadedSection>, trampolines: seq<LoadedSection>,
                           windows: Windows): Grant
    requires WindowsOrdered(windows)
    decreases s.after
  {
    if s.after == 0 then Grant(s, None)
    else
      var t := s.(above := s.above + TRAMPOLINE_SIZE, after := s.after - 1);
      if s.above + TRAMPOLINE_SIZE > s.high || s.above > WORD_MAX || !InRel24Range(s.above - site) then Grant(t, None)
      else if SlotAvailable(s.above, loaded, trampolines, windows) then Grant(t, Some(s.above))
      else TakeAbove(t, site, loaded, trampolines, windows)
  }

  /** The slots before the text, downwards. */
  ghost function TakeBelow(s: Slots, site: Word, loaded: seq<LoadedSection>, trampolines: seq<LoadedSection>,
                           windows: Windows): Grant
    requires WindowsOrdered(windows)
    decreases s.before
  {
    if s.before == 0 || s.below < s.low + TRAMPOLINE_SIZE then Grant(s, None)
    else
      var t := s.(below := s.below - TRAMPOLINE_SIZE, before := s.before - 1);
      if !InRel24Range(t.below - site) then Grant(t, None)
      else if SlotAvailable(t.below, loaded, trampolines, windows) then Grant(t, Some(t.below))
      else TakeBelow(t, site, loaded, trampolines, windows)
  }

  /** The slot a branch is given: after the text if there is one, otherwise before it. */
  ghost function Take(s: Slots, site: Word, loaded: seq<LoadedSection>, trampolines: seq<LoadedSection>,
                      windows: Windows): Grant
    requires WindowsOrdered(windows)
  {
    var g := TakeAbove(s, site, loaded, trampolines, windows);
    if g.slot.Some? then g else TakeBelow(g.rest, site, loaded, trampolines, windows)
  }

  /** What a slot handed out satisfies. */
  ghost predicate Granted(s: Slots, r: Word, site: Word, loaded: seq<LoadedSection>, trampolines: seq<LoadedSection>,
                          windows: Windows)
    requires WindowsOrdered(windows)
  {
    && r % TRAMPOLINE_SIZE == 0
    && s.low <= r && r + TRAMPOLINE_SIZE <= s.high
    && InRel24Range(r - site)
    && SlotAvailable(r, loaded, trampolines, windows)
  }

  /** The upward scan takes the first free slot and ends just behind it; it passes at least one slot. */
  ghost predicate TakenAbove(s: Slots, g: Grant, site: Word, loaded: seq<LoadedSection>,
                             trampolines: seq<LoadedSection>, windows: Windows)
    requires WindowsOrdered(windows)
  {
    && SlotsValid(g.rest) && Consumed(s, g.rest) && g.rest.below == s.below && g.rest.before == s.before
    && (s.after > 0 ==> s.above < g.rest.above)
    && if g.slot.None? then NoneAbove(s, site, loaded, trampolines, windows)
       else && Granted(s, g.slot.value, site, loaded, trampolines, windows) && SlotAbove(s, g.slot.value)
            && g.rest.above == g.slot.value + TRAMPOLINE_SIZE && ReachFrom(site, s.above, g.slot.value)
            && NoSlot(s.above, g.slot.value, loaded, trampolines, windows)
  }

  /** The downward scan takes the first free slot and ends at it. */
  ghost predicate TakenBelow(s: Slots, g: Grant, site: Word, loaded: seq<LoadedSection>,
                             trampolines: seq<LoadedSection>, windows: Windows)
    requires WindowsOrdered(windows)
  {
    && SlotsValid(g.rest) && Consumed(s, g.rest) && g.rest.above == s.above && g.rest.after == s.after
    && if g.slot.None? then NoneBelow(s, site, loaded, trampolines, windows)
       else && Granted(s, g.slot.value, site, loaded, trampolines, windows) && SlotBelow(s, g.slot.value)
            && g.rest.below == g.slot.value && ReachFrom(site, g.slot.value, s.below - TRAMPOLINE_SIZE)
            && NoSlot(g.slot.value + TRAMPOLINE_SIZE, s.below, loaded, trampolines, windows)
  }

  lemma {:induction false} TakeAboveMeans(s: Slots, site: Word, loaded: seq<LoadedSection>,
                                          trampolines: seq<LoadedSection>, windows: Windows)
    requires WindowsOrdered(windows) && SlotsValid(s)
    ensures TakenAbove(s, TakeAbove(s, site, loaded, trampolines, windows), site, loaded, trampolines, windows)
    decreases s.after
  {
    hide SlotAvailable, InRel24Range, NoneAbove, NoSlot;
    if s.after == 0 || s.above + TRAMPOLINE_SIZE > s.high || !InRel24Range(s.above - site) {
      StoppedAbove(s, site, loaded, trampolines, windows);
    } else if SlotAvailable(s.above, loaded, trampolines, windows) {
      NoSlotYet(s.above, loaded, trampolines, windows);
      ReachPassed(site, s.above);
    } else {
      var t := s.(above := s.above + TRAMPOLINE_SIZE, after := s.after - 1);
      TakeAboveMeans(t, site, loaded, trampolines, windows);
      PassedAbove(s, t, site, loaded, trampolines, windows);
      ReachPassed(site, s.above);
    }
  }

  lemma NoSlotYet(low: nat, loaded: seq<LoadedSection>, trampolines: seq<LoadedSection>, windows: Windows)
    requires WindowsOrdered(windows)
    ensures NoSlot(low, low, loaded, trampolines, windows)
  {
  }

  /** One slot in reach extends the slots in reach beside it. */
  lemma ReachPassed(site: Word, c: nat)
    requires c % TRAMPOLINE_SIZE == 0 && InRel24Range(c - site)
    ensures ReachFrom(site, c, c)
    ensures forall a: nat :: ReachFrom(site, c + TRAMPOLINE_SIZE, a) ==> ReachFrom(site, c, a)
    ensures forall a: nat :: ReachFrom(site, a, c - TRAMPOLINE_SIZE) ==> ReachFrom(site, a, c)
  {
    hide InRel24Range;
    forall d: nat | d % TRAMPOLINE_SIZE == 0 && d != c
      ensures c <= d ==> c + TRAMPOLINE_SIZE <= d
      ensures d <= c ==> d <= c - TRAMPOLINE_SIZE
    {
      if c <= d { MultiplesApart(c + TRAMPOLINE_SIZE, d); } else { MultiplesApart(d + TRAMPOLINE_SIZE, c); }
    }
  }

  /** No slot is left, or the next one is out of reach. */
  lemma StoppedAbove(s: Slots, site: Word, loaded: seq<LoadedSection>, trampolines: seq<LoadedSection>,
                     windows: Windows)
    requires WindowsOrdered(windows) && SlotsValid(s)
    requires s.after == 0 || s.above + TRAMPOLINE_SIZE > s.high || !InRel24Range(s.above - site)
    ensures NoneAbove(s, site, loaded, trampolines, windows)
  {
    hide SlotAvailable, InRel24Range, ReachFrom;
    forall a: nat | SlotAbove(s, a) ensures !ReachFrom(site, s.above, a) {
      if ReachFrom(site, s.above, a) { ReachedOnTheWay(site, s.above, a, s.above); }
    }
  }

  /** A taken slot can be passed: what follows decides. */
  lemma PassedAbove(s: Slots, t: Slots, site: Word, loaded: seq<LoadedSection>, trampolines: seq<LoadedSection>,
                    windows: Windows)
    requires WindowsOrdered(windows) && SlotsValid(s) && s.after > 0
    requires t == s.(above := s.above + TRAMPOLINE_SIZE, after := s.after - 1)
    requires !SlotAvailable(s.above, loaded, trampolines, windows)
    ensures NoneAbove(t, site, loaded, trampolines, windows) ==> NoneAbove(s, site, loaded, trampolines, windows)
    ensures forall a: nat :: NoSlot(t.above, a, loaded, trampolines, windows) ==>
                             NoSlot(s.above, a, loaded, trampolines, windows)
  {
    hide SlotAvailable, InRel24Range;
    forall a: nat | a % TRAMPOLINE_SIZE == 0 && s.above <= a && a != s.above ensures t.above <= a {
      MultiplesApart(t.above, a);
    }
    assert forall a: nat :: ReachFrom(site, s.above, a) ==> ReachFrom(site, t.above, a);
  }

  lemma {:induction false} TakeBelowMeans(s: Slots, site: Word, loaded: seq<LoadedSection>,
                                          trampolines: seq<LoadedSection>, windows: Windows)
    requires WindowsOrdered(windows) && SlotsValid(s)
    ensures TakenBelow(s, TakeBelow(s, site, loaded, trampolines, windows), site, loaded, trampolines, windows)
    decreases s.before
  {
    hide SlotAvailable, InRel24Range, NoneBelow, NoSlot;
    if s.before == 0 || s.below < s.low + TRAMPOLINE_SIZE || !InRel24Range(s.below - TRAMPOLINE_SIZE - site) {
      StoppedBelow(s, site, loaded, trampolines, windows);
    } else {
      var t := s.(below := s.below - TRAMPOLINE_SIZE, before := s.before - 1);
      if SlotAvailable(t.below, loaded, trampolines, windows) {
        NoSlotYet(s.below, loaded, trampolines, windows);
        ReachPassed(site, t.below);
      } else {
        TakeBelowMeans(t, site, loaded, trampolines, windows);
        PassedBelow(s, t, site, loaded, trampolines, windows);
        ReachPassed(site, t.below);
      }
    }
  }

  lemma StoppedBelow(s: Slots, site: Word, loaded: seq<LoadedSection>, trampolines: seq<LoadedSection>,
                     windows: Windows)
    requires WindowsOrdered(windows) && SlotsValid(s)
    requires s.before == 0 || s.below < s.low + TRAMPOLINE_SIZE || !InRel24Range(s.below - TRAMPOLINE_SIZE - site)
    ensures NoneBelow(s, site, loaded, trampolines, windows)
  {
    hide SlotAvailable, InRel24Range, ReachFrom;
    forall a: nat | SlotBelow(s, a) ensures !ReachFrom(site, a, s.below - TRAMPOLINE_SIZE) {
      if ReachFrom(site, a, s.below - TRAMPOLINE_SIZE) {
        ReachedOnTheWay(site, a, s.below - TRAMPOLINE_SIZE, s.below - TRAMPOLINE_SIZE);
      }
    }
  }

  lemma PassedBelow(s: Slots, t: Slots, site: Word, loaded: seq<LoadedSection>, trampolines: seq<LoadedSection>,
                    windows: Windows)
    requires WindowsOrdered(windows) && SlotsValid(s) && s.before > 0 && s.below >= s.low + TRAMPOLINE_SIZE
    requires t == s.(below := s.below - TRAMPOLINE_SIZE, before := s.before - 1)
    requires !SlotAvailable(t.below, loaded, trampolines, windows)
    ensures NoneBelow(t, site, loaded, trampolines, windows) ==> NoneBelow(s, site, loaded, trampolines, windows)
    ensures forall a: nat :: NoSlot(a, t.below, loaded, trampolines, windows) ==>
                             NoSlot(a, s.below, loaded, trampolines, windows)
  {
    hide SlotAvailable, InRel24Range, SlotBelow, ReachFrom, NoSlot, SlotsValid;
    forall a: nat | NoSlot(a, t.below, loaded, trampolines, windows)
      ensures NoSlot(a, s.below, loaded, trampolines, windows)
    {
      NoSlotFurther(a, s, t, loaded, trampolines, windows);
    }
    if NoneBelow(t, site, loaded, trampolines, windows) {
      forall a: nat | SlotBelow(s, a) && ReachFrom(site, a, s.below - TRAMPOLINE_SIZE)
        ensures !SlotAvailable(a, loaded, trampolines, windows)
      {
        BelowCases(s, t, a);
        ReachShorter(site, a, s.below - TRAMPOLINE_SIZE, t.below - TRAMPOLINE_SIZE);
      }
    }
  }

  lemma NoSlotFurther(a: nat, s: Slots, t: Slots, loaded: seq<LoadedSection>, trampolines: seq<LoadedSection>,
                      windows: Windows)
    requires WindowsOrdered(windows) && SlotsValid(s) && s.below == t.below + TRAMPOLINE_SIZE
    requires NoSlot(a, t.below, loaded, trampolines, windows) && !SlotAvailable(t.below, loaded, trampolines, windows)
    ensures NoSlot(a, s.below, loaded, trampolines, windows)
  {
    hide SlotAvailable;
    forall b: nat | a <= b && b + TRAMPOLINE_SIZE <= s.below && b % TRAMPOLINE_SIZE == 0
      ensures b == t.below || b + TRAMPOLINE_SIZE <= t.below
    {
      if b != t.below { MultiplesApart(b + TRAMPOLINE_SIZE, t.below); }
    }
  }

  lemma BelowCases(s: Slots, t: Slots, a: nat)
    requires SlotsValid(s) && SlotBelow(s, a) && s.before > 0
    requires s.below == t.below + TRAMPOLINE_SIZE && t == s.(below := t.below, before := s.before - 1)
    ensures a == t.below || SlotBelow(t, a)
  {
    if a != t.below { MultiplesApart(a + TRAMPOLINE_SIZE, t.below); }
  }

  lemma ReachShorter(site: Word, from: nat, to: int, less: int)
    requires ReachFrom(site, from, to) && less <= to
    ensures ReachFrom(site, from, less)
  {
    hide InRel24Range;
  }

  /**
   * A slot handed out is aligned, inside the reservation, within REL24 reach of the site and free; it
   * is the free slot nearest to the text on its side, and lies before the text only when no slot after
   * it can serve. The cursor of its side ends just past it. A branch is refused exactly when no slot is
   * free on the way to the first one out of reach, on either side.
   */
  ghost predicate Taken(s: Slots, g: Grant, site: Word, loaded: seq<LoadedSection>, trampolines: seq<LoadedSection>,
                        windows: Windows)
    requires WindowsOrdered(windows)
  {
    && Consumed(s, g.rest) && (s.after > 0 ==> s.above < g.rest.above)
    && (g.slot.None? <==> Exhausted(s, site, loaded, trampolines, windows))
    && (g.slot.Some? ==>
          && Granted(s, g.slot.value, site, loaded, trampolines, windows)
          && (|| (&& SlotAbove(s, g.slot.value) && NoSlot(s.above, g.slot.value, loaded, trampolines, windows)
                  && ReachFrom(site, s.above, g.slot.value)
                  && g.rest.above == g.slot.value + TRAMPOLINE_SIZE && g.rest.below == s.below)
              || (&& SlotBelow(s, g.slot.value) && ReachFrom(site, g.slot.value, s.below - TRAMPOLINE_SIZE)
                  && NoSlot(g.slot.value + TRAMPOLINE_SIZE, s.below, loaded, trampolines, windows)
                  && g.rest.below == g.slot.value && NoneAbove(s, site, loaded, trampolines, windows))))
  }

  lemma TakeMeans(s: Slots, site: Word, loaded: seq<LoadedSection>, trampolines: seq<LoadedSection>,
                  windows: Windows)
    requires WindowsOrdered(windows) && SlotsValid(s)
    ensures var g := Take(s, site, loaded, trampolines, windows);
            SlotsValid(g.rest) && Taken(s, g, site, loaded, trampolines, windows)
  {
    hide SlotAvailable, InRel24Range, NoSlot, ReachFrom, TakeAbove, TakeBelow;
    var g := TakeAbove(s, site, loaded, trampolines, windows);
    TakeAboveMeans(s, site, loaded, trampolines, windows);
    if g.slot.None? {
      TakeBelowMeans(g.rest, site, loaded, trampolines, windows);
      SameBelow(s, g.rest, site, loaded, trampolines, windows);
    }
  }

  lemma SameBelow(s: Slots, t: Slots, site: Word, loaded: seq<LoadedSection>, trampolines: seq<LoadedSection>,
                  windows: Windows)
    requires WindowsOrdered(windows) && Consumed(s, t) && t.below == s.below && t.before == s.before
    ensures forall a :: SlotBelow(t, a) <==> SlotBelow(s, a)
    ensures NoneBelow(t, site, loaded, trampolines, windows) <==> NoneBelow(s, site, loaded, trampolines, windows)
  {
    hide SlotAvailable, InRel24Range, ReachFrom;
  }

  /**
   * For a branch in the text, reach only shrinks along each scan: a refusal means that no remaining
   * slot of the reservation that is in REL24 reach of the branch is free.
   */
  lemma RefusalIsExact(s: Slots, site: Word, loaded: seq<LoadedSection>, trampolines: seq<LoadedSection>,
                       windows: Windows, a: nat)
    requires WindowsOrdered(windows) && site % 4 == 0 && s.below <= site <= s.above
    requires Exhausted(s, site, loaded, trampolines, windows)
    requires (SlotAbove(s, a) || SlotBelow(s, a)) && InRel24Range(a - site)
    ensures !SlotAvailable(a, loaded, trampolines, windows)
  {
    hide SlotAvailable, ReachFrom, InRel24Range;
    if SlotAbove(s, a) {
      ReachAbove(site, s.above, a);
    } else {
      ReachBelow(site, a, s.below - TRAMPOLINE_SIZE);
    }
  }

  /** A slot that could serve the branch. */
  ghost predicate Serves(a: nat, site: Word, loaded: seq<LoadedSection>, trampolines: seq<LoadedSection>,
                         windows: Windows)
    requires WindowsOrdered(windows)
  {
    InRel24Range(a - site) && SlotAvailable(a, loaded, trampolines, windows)
  }

  /**
   * An aligned branch in the text is refused exactly when no remaining slot can serve it. The slots that
   * remain are those the cursors have not passed.
   */
  lemma RefusedIffNoneServes(s: Slots, site: Word, loaded: seq<LoadedSection>, trampolines: seq<LoadedSection>,
                             windows: Windows)
    requires WindowsOrdered(windows) && SlotsValid(s) && site % 4 == 0 && s.below <= site <= s.above
    ensures Take(s, site, loaded, trampolines, windows).slot.None? <==>
              forall a: nat :: SlotAbove(s, a) || SlotBelow(s, a) ==> !Serves(a, site, loaded, trampolines, windows)
  {
    TakeMeans(s, site, loaded, trampolines, windows);
    hide SlotAvailable, InRel24Range, NoSlot, Take, SlotAbove, SlotBelow, Consumed, Exhausted, NoneAbove;
    if Take(s, site, loaded, trampolines, windows).slot.None? {
      forall a: nat | SlotAbove(s, a) || SlotBelow(s, a)
        ensures !Serves(a, site, loaded, trampolines, windows)
      {
        if InRel24Range(a - site) { RefusalIsExact(s, site, loaded, trampolines, windows, a); }
      }
    } else {
      var a := Take(s, site, loaded, trampolines, windows).slot.value;
      assert Serves(a, site, loaded, trampolines, windows);
    }
  }

  /** The slot lies on the text side of its cursor: an earlier scan went past it. */
  predicate Passed(s: Slots, now: Slots, a: nat) {
    (SlotAbove(s, a) ==> a < now.above) && (SlotBelow(s, a) ==> now.below < a + TRAMPOLINE_SIZE)
  }

  /**
   * When the reservation is at fault and when the cursors are: an aligned branch in the text is refused,
   * at any point of a run that started with the slots `s`, exactly when every reserved slot that could
   * serve it lies on the text side of its cursor.
   */
  lemma RefusedIffPassed(s: Slots, now: Slots, site: Word, loaded: seq<LoadedSection>,
                         trampolines: seq<LoadedSection>, windows: Windows)
    requires WindowsOrdered(windows) && SlotsValid(now) && Consumed(s, now)
    requires site % 4 == 0 && s.below <= site <= s.above
    ensures Take(now, site, loaded, trampolines, windows).slot.None? <==>
              forall a: nat ::
                (SlotAbove(s, a) || SlotBelow(s, a)) && Serves(a, site, loaded, trampolines, windows) ==>
                  Passed(s, now, a)
  {
    RefusedIffNoneServes(now, site, loaded, trampolines, windows);
    forall a: nat
      ensures (SlotAbove(s, a) || SlotBelow(s, a)) && !Passed(s, now, a) <==> SlotAbove(now, a) || SlotBelow(now, a)
    {
      PassedSlotsAreLost(s, now, a);
    }
    hide *;
  }

  lemma ReachAbove(site: Word, from: nat, a: nat)
    requires site % 4 == 0 && site <= from && InRel24Range(a - site)
    ensures ReachFrom(site, from, a)
  {
    forall c: nat | c % TRAMPOLINE_SIZE == 0 && from <= c <= a ensures InRel24Range(c - site) {
      SlotAligned(c, site);
    }
  }

  lemma ReachBelow(site: Word, a: nat, to: int)
    requires site % 4 == 0 && to <= site && InRel24Range(a - site)
    ensures ReachFrom(site, a, to)
  {
    forall c: nat | c % TRAMPOLINE_SIZE == 0 && a <= c <= to ensures InRel24Range(c - site) {
      SlotAligned(c, site);
    }
  }

  lemma SlotAligned(c: nat, site: nat)
    requires c % 16 == 0 && site % 4 == 0
    ensures (c - site) % 4 == 0
  {
  }

  lemma ReachedOnTheWay(site: Word, from: nat, to: int, c: nat)
    requires ReachFrom(site, from, to) && c % TRAMPOLINE_SIZE == 0 && from <= c <= to
    ensures InRel24Range(c - site)
  {
  }

  /**
   * The reservation starts `trampAdjust` below the text and must contain all of it; every aligned
   * slot of it beside the text can be handed out. Otherwise there is no slot.
   */
  method PlanSlots(info: FileInfo, loaded: seq<LoadedSection>) returns (s: Slots)
    requires SectionsFit(loaded)
    ensures s == ReservedSlots(info, loaded)
  {
    hide TextHull, NoText, AlignDown, AlignUp, SlotsValid, ReservedSlots;
    var textBegin, textEnd := FindText(loaded);
    if textBegin == ADDRESS_SPACE_END {
      ReservedValid(info, loaded);
      return NO_SLOTS;
    }
    ReservedBeside(info, loaded, textBegin, textEnd);
    if textBegin < info.trampAdjust { return NO_SLOTS; }
    var begin := textBegin - info.trampAdjust;
    var end := begin + info.textSize;
    if info.textSize < info.trampAdjust || end > ADDRESS_SPACE_END || textEnd > end { return NO_SLOTS; }
    var preEnd := AlignDown(textBegin, 16);
    var postBegin := AlignUp(textEnd, 16);
    var before, after := 0, 0;
    if preEnd >= begin { before := (preEnd - begin) / TRAMPOLINE_SIZE; }
    if end >= postBegin { after := (end - postBegin) / TRAMPOLINE_SIZE; }
    return Slots(begin, end, preEnd, before, postBegin, after);
  }

  class TrampolineAllocator {
    var preBegin: nat
    var preCursor: nat
    var preSlots: nat
    var postCursor: nat
    var postEnd: nat
    var postSlots: nat

    ghost predicate Valid()
      reads this
    {
      SlotsValid(Remaining())
    }

    ghost function Remaining(): Slots
      reads this
    {
      Slots(preBegin, postEnd, preCursor, preSlots, postCursor, postSlots)
    }

    /** The slots of the reservation, none of them handed out yet. */
    constructor (info: FileInfo, loaded: seq<LoadedSection>)
      requires SectionsFit(loaded)
      ensures Valid() && Remaining() == ReservedSlots(info, loaded)
    {
      hide ReservedSlots, SlotsValid, NoText;
      ReservedValid(info, loaded);
      var s := PlanSlots(info, loaded);
      preBegin, preCursor, preSlots := s.low, s.below, s.before;
      postCursor, postEnd, postSlots := s.above, s.high, s.after;
      new;
    }

    /** The loop over the slots after the text, upwards. */
    method ScanAfterText(site: Word, loaded: seq<LoadedSection>, trampolines: seq<LoadedSection>,
                         windows: Windows) returns (r: Option<Word>)
      requires Valid() && WindowsOrdered(windows)
      modifies this`postCursor, this`postSlots
      ensures Grant(Remaining(), r) == TakeAbove(old(Remaining()), site, loaded, trampolines, windows)
      ensures TakenAbove(old(Remaining()), Grant(Remaining(), r), site, loaded, trampolines, windows)
    {
      hide SlotAvailable, InRel24Range, TakenAbove;
      TakeAboveMeans(Remaining(), site, loaded, trampolines, windows);
      while postSlots != 0
        invariant TakeAbove(old(Remaining()), site, loaded, trampolines, windows) ==
                  TakeAbove(Remaining(), site, loaded, trampolines, windows)
      {
        var candidate := postCursor;
        postCursor := postCursor + TRAMPOLINE_SIZE;
        postSlots := postSlots - 1;
        if candidate + TRAMPOLINE_SIZE > postEnd || candidate > WORD_MAX ||
           !InRel24Range(candidate - site) {
          return None;
        }
        var free := CheckSlot(candidate, loaded, trampolines, windows);
        if free { return Some(candidate); }
      }
      return None;
    }

    /** The loop over the slots before the text, downwards. */
    method ScanBeforeText(site: Word, loaded: seq<LoadedSection>, trampolines: seq<LoadedSection>,
                          windows: Windows) returns (r: Option<Word>)
      requires Valid() && WindowsOrdered(windows)
      modifies this`preCursor, this`preSlots
      ensures Grant(Remaining(), r) == TakeBelow(old(Remaining()), site, loaded, trampolines, windows)
      ensures TakenBelow(old(Remaining()), Grant(Remaining(), r), site, loaded, trampolines, windows)
    {
      hide SlotAvailable, InRel24Range, TakenBelow;
      TakeBelowMeans(Remaining(), site, loaded, trampolines, windows);
      while preSlots != 0
        invariant preCursor <= ADDRESS_SPACE_END
        invariant TakeBelow(old(Remaining()), site, loaded, trampolines, windows) ==
                  TakeBelow(Remaining(), site, loaded, trampolines, windows)
      {
        if preCursor < preBegin + TRAMPOLINE_SIZE { return None; }
        preCursor := preCursor - TRAMPOLINE_SIZE;
        preSlots := preSlots - 1;
        var candidate := preCursor;
        if !InRel24Range(candidate - site) { return None; }
        var free := CheckSlot(candidate, loaded, trampolines, windows);
        if free { return Some(candidate); }
      }
      return None;
    }

    /**
     * `allocate_trampoline`: after the text first, then before it. The slots passed on the way are gone,
     * whether or not they could have served another site.
     */
    method Allocate(site: Word, loaded: seq<LoadedSection>, trampolines: seq<LoadedSection>, windows: Windows)
      returns (r: Option<Word>)
      requires Valid() && WindowsOrdered(windows)
      modifies this`preCursor, this`preSlots, this`postCursor, this`postSlots
      ensures Valid() && Grant(Remaining(), r) == Take(old(Remaining()), site, loaded, trampolines, windows)
      ensures Taken(old(Remaining()), Grant(Remaining(), r), site, loaded, trampolines, windows)
    {
      TakeMeans(Remaining(), site, loaded, trampolines, windows);
      TakeAboveMeans(Remaining(), site, loaded, trampolines, windows);
      hide TakeAbove, TakeBelow, Taken, NoSlot, SlotAvailable, InRel24Range, NoneAbove;
      r := ScanAfterText(site, loaded, trampolines, windows);
      if r.None? {
        r := ScanBeforeText(site, loaded, trampolines, windows);
      }
    }
  }
}
