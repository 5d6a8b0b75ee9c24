/** Blocks over any run: aligned, disjoint, clear of the image and the headers. */
module AllocationSafety {
  import opened Bits
  import opened MemoryImage
  import opened GuestObjects
  import opened DefaultHeaps
  import RpxLoader
  import RpxImage
  import ExpandedHeap
  import FrameHeap
  import GuestMemoryModel

  datatype Arena = Arena(heaps: Heaps, memory: Memory)

  datatype Block = Block(address: nat, size: nat, alignment: nat)

  /** A bump allocation, the initialisation, a request to the foreground frame heap, or other guest activity. */
  datatype Event =
    | BumpCall(size: Word, alignment: Word)
    | InitCall
    | FrameCall(requested: Word, signed: int)
    | GuestActivity

  /** One call and the block it returns. Other activity leaves the frame heap's header alone. */
  ghost predicate Steps(s: Arena, e: Event, t: Arena, b: seq<Block>)
    requires WellFormed(s.memory)
  {
    match e
    case BumpCall(size, alignment) =>
      var r := Bump(s.heaps.cursor, s.heaps.limit, size, alignment);
      if r.None? then t == s && b == []
      else t.memory == s.memory && t.heaps.limit == s.heaps.limit && t.heaps.layout == s.heaps.layout &&
           t.heaps.cursor == r.value + size && b == [Block(r.value, size, alignment)]
    case InitCall =>
      b == [] && HeapsInitialised(s.heaps, s.memory, Initialisation(s.heaps, s.memory).Some?, t.heaps, t.memory)
    case FrameCall(requested, signed) =>
      -(FrameHeap.SIGN as int) <= signed < FrameHeap.SIGN &&
      var heap := s.heaps.layout.foreground;
      if s.heaps.layout == NO_LAYOUT || !FrameHeap.Decide(s.memory, heap, requested, signed).At? then t == s && b == []
      else t.heaps == s.heaps && t.memory == FrameHeap.AfterAllocate(s.memory, heap, requested, signed) &&
           b == [Block(FrameHeap.Decide(s.memory, heap, requested, signed).start,
                       if requested == 0 then 1 else requested, if signed < 0 then -signed else signed)]
    case GuestActivity =>
      && b == [] && t.heaps == s.heaps && SameLayout(s.memory, t.memory)
      && (s.heaps.layout != NO_LAYOUT ==>
            SpanKept(s.memory, t.memory, s.heaps.layout.foreground, FrameHeap.HEADER_SIZE))
  }

  ghost predicate Apart(a: Block, b: Block) { a.address + a.size <= b.address || b.address + b.size <= a.address }

  ghost predicate AllApart(blocks: seq<Block>) {
    forall i, j :: 0 <= i < j < |blocks| ==> Apart(blocks[i], blocks[j])
  }

  /** An aligned block in the bump part below the cursor, or in the allocated ends of the frame heap. */
  ghost predicate Granted(b: Block, begin: nat, h: Heaps, f: FrameHeap.Heap) {
    && b.size >= 1 && b.alignment >= 1 && b.address % b.alignment == 0 && begin <= b.address
    && (b.address + b.size <= h.cursor ||
        (h.layout != NO_LAYOUT && f.dataStart <= b.address && b.address + b.size <= f.head) ||
        (h.layout != NO_LAYOUT && f.tail <= b.address && b.address + b.size <= f.dataEnd))
  }

  ghost predicate AllGranted(blocks: seq<Block>, begin: nat, h: Heaps, f: FrameHeap.Heap) {
    forall i :: 0 <= i < |blocks| ==> Granted(blocks[i], begin, h, f)
  }

  /** The frame heap as its header describes it, or a placeholder before there is one. */
  ghost function Frame(s: Arena): FrameHeap.Heap
    requires WellFormed(s.memory)
  {
    var f := FrameHeap.Validate(s.memory, s.heaps.layout.foreground);
    if s.heaps.layout != NO_LAYOUT && f.Some? then f.value else FrameHeap.Heap(0, 0, 0, 0, 0)
  }

  /** The heaps lie one above the other inside the configured heap, which is flat memory. */
  ghost predicate Ordered(s: Arena, begin: nat, end: nat) {
    && WellFormed(s.memory) && end <= |s.memory.flat| && begin <= s.heaps.cursor <= s.heaps.limit <= end
    && (s.heaps.layout != NO_LAYOUT ==>
          var l := s.heaps.layout;
          && s.heaps.limit == l.foreground && l.foreground != 0 && l.foreground + FrameHeap.HEADER_SIZE <= l.mem2
          && l.mem2 + MEM2_OBJECT <= l.end <= end
          && FrameHeap.Validate(s.memory, l.foreground).Some?
          && Frame(s).dataStart == l.foreground + FrameHeap.HEADER_SIZE && Frame(s).dataEnd == l.mem2)
  }

  ghost predicate Safe(s: Arena, begin: nat, end: nat, blocks: seq<Block>) {
    Ordered(s, begin, end) && AllGranted(blocks, begin, s.heaps, Frame(s)) && AllApart(blocks)
  }

  /** Disjoint flat ranges share no cell. */
  lemma FlatSeparate(m: Memory, a: nat, n: nat, b: nat, k: nat)
    requires WellFormed(m) && a + n <= |m.flat| && b + k <= |m.flat| && (a + n <= b || b + k <= a)
    ensures Separate(m, a, n, b, k) && MappedRange(m, a, n) && MappedRange(m, b, k)
  {
    GuestMemoryModel.FlatRangeMapped(m, a, n);
    GuestMemoryModel.FlatRangeMapped(m, b, k);
    hide WellFormed, CellOf;
  }

  lemma ValidFrame(s: Arena, begin: nat, end: nat)
    requires Ordered(s, begin, end) && s.heaps.layout != NO_LAYOUT
    ensures var f, l := Frame(s), s.heaps.layout;
            FrameHeap.Validate(s.memory, l.foreground) == FrameHeap.Some(f) &&
            f.dataStart <= f.head <= f.tail <= f.dataEnd
  {
    hide WellFormed, MappedRange, LoadBytes, FrameHeap.HeapIn, Word32;
  }

  lemma AddBlock(blocks: seq<Block>, b: Block)
    requires AllApart(blocks) && forall i :: 0 <= i < |blocks| ==> Apart(blocks[i], b)
    ensures AllApart(blocks + [b])
  {
    hide Apart;
  }

  // The steps

  lemma BumpSafe(s: Arena, t: Arena, begin: nat, end: nat, blocks: seq<Block>, size: Word, alignment: Word,
                 b: seq<Block>)
    requires Safe(s, begin, end, blocks) && Steps(s, BumpCall(size, alignment), t, b)
    ensures Safe(t, begin, end, blocks + b)
  {
    BumpMeans(s.heaps.cursor, s.heaps.limit, size, alignment);
    hide Bump, WellFormed, FrameHeap.Validate, Apart, AllApart;
    if b == [] {
      assert blocks + b == blocks;
    } else {
      if s.heaps.layout != NO_LAYOUT { ValidFrame(s, begin, end); }
      var f := Frame(s);
      hide Frame, RoundsUp;
      forall i | 0 <= i < |blocks| ensures Apart(blocks[i], b[0]) && Granted(blocks[i], begin, t.heaps, f) {
        assert Granted(blocks[i], begin, s.heaps, f);
        BelowCursor(blocks[i], b[0], begin, s.heaps, f);
      }
      AddBlock(blocks, b[0]);
    }
  }

  lemma BelowCursor(a: Block, b: Block, begin: nat, h: Heaps, f: FrameHeap.Heap)
    requires Granted(a, begin, h, f) && h.cursor <= b.address && b.address + b.size <= h.limit
    requires h.layout != NO_LAYOUT ==> h.limit <= f.dataStart <= f.head <= f.tail
    ensures Apart(a, b)
  {
  }

  lemma GuestSafe(s: Arena, t: Arena, begin: nat, end: nat, blocks: seq<Block>)
    requires Safe(s, begin, end, blocks) && Steps(s, GuestActivity, t, [])
    ensures Safe(t, begin, end, blocks)
  {
    hide *;
    SafeParts(s, begin, end, blocks);
    GuestParts(s, t);
    LayoutFlat(s.memory, t.memory);
    if s.heaps.layout != NO_LAYOUT {
      ValidFrame(s, begin, end);
      OrderedParts(s, begin, end);
      ValidateKept(s.memory, t.memory, s.heaps.layout.foreground);
      OrderedIs(t, begin, end, Frame(s));
    } else {
      OrderedBare(s, t, begin, end);
    }
    SafeIs(t, begin, end, blocks);
  }

  lemma SafeParts(s: Arena, begin: nat, end: nat, blocks: seq<Block>)
    requires Safe(s, begin, end, blocks)
    ensures Ordered(s, begin, end) && WellFormed(s.memory) && AllApart(blocks)
    ensures AllGranted(blocks, begin, s.heaps, Frame(s))
  {
    hide WellFormed, AllGranted, AllApart, Frame, FrameHeap.Validate;
  }

  lemma SafeIs(s: Arena, begin: nat, end: nat, blocks: seq<Block>)
    requires Ordered(s, begin, end) && WellFormed(s.memory) && AllGranted(blocks, begin, s.heaps, Frame(s))
    requires AllApart(blocks)
    ensures Safe(s, begin, end, blocks)
  {
    hide WellFormed, AllGranted, AllApart, Frame, FrameHeap.Validate;
  }

  lemma GuestParts(s: Arena, t: Arena)
    requires WellFormed(s.memory) && Steps(s, GuestActivity, t, [])
    ensures t.heaps == s.heaps && SameLayout(s.memory, t.memory) && WellFormed(t.memory)
    ensures s.heaps.layout != NO_LAYOUT ==>
              SpanKept(s.memory, t.memory, s.heaps.layout.foreground, FrameHeap.HEADER_SIZE)
  {
    SameCells(s.memory, t.memory);
    hide WellFormed, SameLayout, SpanKept;
  }

  /** The bounds of the frame heap between the other two. */
  ghost predicate FrameBetween(l: Layout, limit: Word, end: nat, f: FrameHeap.Heap) {
    && limit == l.foreground && l.foreground != 0 && l.foreground + FrameHeap.HEADER_SIZE <= l.mem2
    && l.mem2 + MEM2_OBJECT <= l.end <= end
    && f.dataStart == l.foreground + FrameHeap.HEADER_SIZE && f.dataEnd == l.mem2
  }

  lemma OrderedParts(s: Arena, begin: nat, end: nat)
    requires Ordered(s, begin, end) && s.heaps.layout != NO_LAYOUT
    ensures WellFormed(s.memory) && end <= |s.memory.flat| && begin <= s.heaps.cursor <= s.heaps.limit <= end
    ensures FrameBetween(s.heaps.layout, s.heaps.limit, end, Frame(s))
    ensures s.heaps.layout.foreground + FrameHeap.HEADER_SIZE <= s.heaps.layout.mem2 <= end
    ensures s.heaps.layout.foreground != 0
  {
    hide WellFormed, FrameHeap.Validate, Frame;
  }

  lemma OrderedIs(s: Arena, begin: nat, end: nat, f: FrameHeap.Heap)
    requires s.heaps.layout != NO_LAYOUT && WellFormed(s.memory) && end <= |s.memory.flat|
    requires begin <= s.heaps.cursor <= s.heaps.limit <= end
    requires FrameHeap.Validate(s.memory, s.heaps.layout.foreground) == FrameHeap.Some(f)
    requires FrameBetween(s.heaps.layout, s.heaps.limit, end, f)
    ensures Ordered(s, begin, end) && Frame(s) == f
  {
    hide WellFormed, FrameHeap.Validate;
  }

  lemma OrderedBare(s: Arena, t: Arena, begin: nat, end: nat)
    requires Ordered(s, begin, end) && s.heaps.layout == NO_LAYOUT && t.heaps == s.heaps
    requires WellFormed(t.memory) && |t.memory.flat| == |s.memory.flat|
    ensures Ordered(t, begin, end) && Frame(t) == Frame(s)
  {
    hide WellFormed, FrameHeap.Validate;
  }

  lemma InitOrdered(s: Arena, t: Arena, begin: nat, end: nat)
    requires Ordered(s, begin, end) && Initialisation(s.heaps, s.memory).Some?
    requires HeapsInitialised(s.heaps, s.memory, true, t.heaps, t.memory)
    ensures Ordered(t, begin, end) && s.heaps.layout == NO_LAYOUT && t.heaps.cursor == s.heaps.cursor
  {
    hide *;
    OrderedMemory(s, begin, end);
    var l := Initialisation(s.heaps, s.memory).value;
    InitParts(s, t, begin, end, l);
    LayoutFlat(s.memory, t.memory);
    FlatSeparate(s.memory, l.mem2, MEM2_OBJECT, l.foreground, FrameHeap.HEADER_SIZE);
    HeapsFresh(s.memory, l, l.mem2 + ExpandedHeap.HEADER_SIZE);
    FreshBetween(l, end);
    OrderedIs(t, begin, end, InitialFrame(l));
  }

  lemma OrderedMemory(s: Arena, begin: nat, end: nat)
    requires Ordered(s, begin, end)
    ensures WellFormed(s.memory)
  {
    hide WellFormed, FrameHeap.Validate, Frame;
  }

  lemma InitParts(s: Arena, t: Arena, begin: nat, end: nat, l: Layout)
    requires Ordered(s, begin, end) && Initialisation(s.heaps, s.memory) == Some(l)
    requires HeapsInitialised(s.heaps, s.memory, true, t.heaps, t.memory)
    ensures WellFormed(s.memory) && RoomForHeaders(s.memory, l) && s.heaps.layout == NO_LAYOUT && l != NO_LAYOUT
    ensures begin <= s.heaps.cursor <= l.foreground && l.foreground != 0
    ensures l.foreground + FrameHeap.HEADER_SIZE <= l.mem2 && l.mem2 + MEM2_OBJECT <= l.end
    ensures l.end <= end <= |s.memory.flat| && l.mem2 + ExpandedHeap.HEADER_SIZE < 0x1_0000_0000
    ensures l.foreground + FrameHeap.HEADER_SIZE < ADDRESS_SPACE_END
    ensures t == Arena(Heaps(s.heaps.cursor, l.foreground, l), HeapsStored(s.memory, l))
    ensures SameLayout(s.memory, t.memory) && WellFormed(t.memory)
  {
    InitialisationRoom(s.heaps, s.memory);
    NotInitialised(s.heaps, s.memory);
    SizeFits(s.memory);
    hide WellFormed, FrameHeap.Validate, MappedRange, Initialisation, HeapsStored, SameLayout, Frame;
  }

  lemma NotInitialised(h: Heaps, m: Memory)
    requires WellFormed(m) && Initialisation(h, m).Some?
    ensures h.layout == NO_LAYOUT
  {
    hide WellFormed, Partition, MappedRange;
  }

  lemma SizeFits(m: Memory)
    requires WellFormed(m)
    ensures |m.flat| <= ADDRESS_SPACE_END
  {
  }

  lemma FreshBetween(l: Layout, end: nat)
    requires l.foreground + FrameHeap.HEADER_SIZE <= l.mem2 && l.mem2 + MEM2_OBJECT <= l.end <= end
    requires l.foreground != 0 && l.foreground + FrameHeap.HEADER_SIZE < ADDRESS_SPACE_END
    ensures FrameBetween(l, l.foreground, end, InitialFrame(l))
  {
  }

  lemma LayoutFlat(m: Memory, n: Memory)
    ensures SameLayout(m, n) ==> |n.flat| == |m.flat|
  {
  }

  lemma InitSafe(s: Arena, t: Arena, begin: nat, end: nat, blocks: seq<Block>)
    requires Safe(s, begin, end, blocks) && Steps(s, InitCall, t, [])
    ensures Safe(t, begin, end, blocks)
  {
    hide WellFormed, FrameHeap.Validate, AllApart, Initialisation, HeapsStored, RoomForHeaders;
    if Initialisation(s.heaps, s.memory).Some? {
      InitOrdered(s, t, begin, end);
      hide Ordered, HeapsInitialised, Frame;
      forall i | 0 <= i < |blocks| ensures Granted(blocks[i], begin, t.heaps, Frame(t)) {
        assert Granted(blocks[i], begin, s.heaps, Frame(s));
      }
    }
  }

  lemma FrameSafe(s: Arena, t: Arena, begin: nat, end: nat, blocks: seq<Block>, requested: Word, signed: int,
                  b: seq<Block>)
    requires Safe(s, begin, end, blocks) && Steps(s, FrameCall(requested, signed), t, b)
    ensures Safe(t, begin, end, blocks + b)
  {
    if b == [] {
      assert blocks + b == blocks;
    } else {
      FrameBlock(s, begin, end, requested, signed);
      FrameMoved(s, t, begin, end, requested, signed);
      hide WellFormed, FrameHeap.Validate, FrameHeap.Decide, FrameHeap.AfterAllocate, Frame, Ordered,
           Granted, AllApart;
      BlockTaken(blocks, b[0], begin, s.heaps, Frame(s), signed > 0);
    }
  }

  /** A block taken off one end of the free part. */
  lemma BlockTaken(blocks: seq<Block>, b: Block, begin: nat, h: Heaps, f: FrameHeap.Heap, fromHead: bool)
    requires AllGranted(blocks, begin, h, f) && AllApart(blocks) && h.layout != NO_LAYOUT && begin <= h.cursor <= f.head
    requires b.size >= 1 && b.alignment >= 1 && b.address % b.alignment == 0
    requires f.dataStart <= f.head <= b.address < ADDRESS_SPACE_END && b.address + b.size <= f.tail <= f.dataEnd
    requires FrameHeap.Boundary(b.address, b.size, fromHead) < ADDRESS_SPACE_END
    ensures AllGranted(blocks + [b], begin, h, FrameHeap.Moved(f, b.address, b.size, fromHead))
    ensures AllApart(blocks + [b])
  {
    hide Apart, AllApart;
    forall i | 0 <= i < |blocks|
      ensures Apart(blocks[i], b) && Granted(blocks[i], begin, h, FrameHeap.Moved(f, b.address, b.size, fromHead))
    {
      assert Granted(blocks[i], begin, h, f);
      OutsideFree(blocks[i], b, begin, h, f);
    }
    AddBlock(blocks, b);
  }

  lemma OutsideFree(a: Block, b: Block, begin: nat, h: Heaps, f: FrameHeap.Heap)
    requires Granted(a, begin, h, f) && f.head <= b.address && b.address + b.size <= f.tail && h.cursor <= f.head
    ensures Apart(a, b)
  {
  }

  /** Where the frame heap puts a block. */
  lemma FrameBlock(s: Arena, begin: nat, end: nat, requested: Word, signed: int)
    requires Ordered(s, begin, end) && s.heaps.layout != NO_LAYOUT
    requires -(FrameHeap.SIGN as int) <= signed < FrameHeap.SIGN
    requires FrameHeap.Decide(s.memory, s.heaps.layout.foreground, requested, signed).At?
    ensures var start := FrameHeap.Decide(s.memory, s.heaps.layout.foreground, requested, signed).start;
            var f := Frame(s);
            && s.heaps.layout.foreground + FrameHeap.HEADER_SIZE == f.dataStart <= f.head <= start
            && start + FrameHeap.EffectiveSize(requested) <= f.tail <= f.dataEnd == s.heaps.layout.mem2
            && FrameHeap.Magnitude(signed) >= 1 && start % FrameHeap.Magnitude(signed) == 0
            && FrameHeap.Boundary(start, FrameHeap.EffectiveSize(requested), signed > 0) < ADDRESS_SPACE_END
            && FrameHeap.EffectiveSize(requested) >= 1
  {
    ValidFrame(s, begin, end);
    FrameHeap.DecideMeans(s.memory, s.heaps.layout.foreground, requested, signed);
    hide WellFormed, MappedRange, FrameHeap.Validate, FrameHeap.Decide, FrameHeap.Magnitude, And;
  }

  /** The header after the call: one boundary moved past the block. */
  lemma FrameMoved(s: Arena, t: Arena, begin: nat, end: nat, requested: Word, signed: int)
    requires Ordered(s, begin, end) && s.heaps.layout != NO_LAYOUT && t.heaps == s.heaps
    requires -(FrameHeap.SIGN as int) <= signed < FrameHeap.SIGN
    requires FrameHeap.Decide(s.memory, s.heaps.layout.foreground, requested, signed).At?
    requires t.memory == FrameHeap.AfterAllocate(s.memory, s.heaps.layout.foreground, requested, signed)
    ensures Ordered(t, begin, end)
    ensures var start := FrameHeap.Decide(s.memory, s.heaps.layout.foreground, requested, signed).start;
            FrameHeap.Boundary(start, FrameHeap.EffectiveSize(requested), signed > 0) < ADDRESS_SPACE_END &&
            Frame(t) == FrameHeap.Moved(Frame(s), start, FrameHeap.EffectiveSize(requested), signed > 0)
  {
    hide *;
    var heap := s.heaps.layout.foreground;
    OrderedParts(s, begin, end);
    var start, size := FrameHeap.Decide(s.memory, heap, requested, signed).start, FrameHeap.EffectiveSize(requested);
    FrameBlock(s, begin, end, requested, signed);
    ValidFrame(s, begin, end);
    FlatSeparate(s.memory, start, size, heap, FrameHeap.HEADER_SIZE);
    FlatSeparate(s.memory, heap, FrameHeap.HEADER_SIZE, start, size);
    FrameHeap.AllocationKeepsHeap(s.memory, heap, requested, signed);
    LayoutFlat(s.memory, t.memory);
    MovedBetween(s.heaps.layout, s.heaps.limit, end, Frame(s), start, size, signed > 0);
    OrderedIs(t, begin, end, FrameHeap.Moved(Frame(s), start, size, signed > 0));
  }

  lemma MovedBetween(l: Layout, limit: Word, end: nat, f: FrameHeap.Heap, start: Word, size: nat, fromHead: bool)
    requires FrameBetween(l, limit, end, f) && FrameHeap.Boundary(start, size, fromHead) < ADDRESS_SPACE_END
    ensures FrameBetween(l, limit, end, FrameHeap.Moved(f, start, size, fromHead))
  {
    hide FrameHeap.Boundary;
  }

  lemma StepSafe(s: Arena, e: Event, t: Arena, begin: nat, end: nat, blocks: seq<Block>, b: seq<Block>)
    requires Safe(s, begin, end, blocks) && Steps(s, e, t, b)
    ensures Safe(t, begin, end, blocks + b)
  {
    assert (e.InitCall? || e.GuestActivity?) ==> b == [] && blocks + b == blocks;
    hide Safe, Steps;
    if e.BumpCall? {
      BumpSafe(s, t, begin, end, blocks, e.size, e.alignment, b);
    } else if e.InitCall? {
      InitSafe(s, t, begin, end, blocks);
    } else if e.FrameCall? {
      FrameSafe(s, t, begin, end, blocks, e.requested, e.signed, b);
    } else {
      GuestSafe(s, t, begin, end, blocks);
    }
  }

  // Runs

  /** Consecutive states of a run and the blocks each step returned. */
  ghost predicate IsRun(arenas: seq<Arena>, events: seq<Event>, bs: seq<seq<Block>>) {
    && |arenas| == |events| + 1 == |bs| + 1
    && forall i :: 0 <= i < |events| ==>
         (WellFormed(arenas[i].memory) ==> Steps(arenas[i], events[i], arenas[i + 1], bs[i]))
  }

  /** All blocks returned by the first n steps. */
  ghost function Returned(bs: seq<seq<Block>>, n: nat): seq<Block>
    requires n <= |bs|
  {
    if n == 0 then [] else Returned(bs, n - 1) + bs[n - 1]
  }

  lemma RunStep(arenas: seq<Arena>, events: seq<Event>, bs: seq<seq<Block>>, k: nat, begin: nat, end: nat,
                blocks: seq<Block>)
    requires IsRun(arenas, events, bs) && k < |events| && Safe(arenas[k], begin, end, blocks)
    ensures Safe(arenas[k + 1], begin, end, blocks + bs[k])
  {
    assert WellFormed(arenas[k].memory);
    assert Steps(arenas[k], events[k], arenas[k + 1], bs[k]);
    hide Safe, Steps, WellFormed, IsRun;
    StepSafe(arenas[k], events[k], arenas[k + 1], begin, end, blocks, bs[k]);
  }

  lemma {:induction false} RunSafe(arenas: seq<Arena>, events: seq<Event>, bs: seq<seq<Block>>, n: nat,
                                   begin: nat, end: nat)
    requires IsRun(arenas, events, bs) && n <= |events| && Safe(arenas[0], begin, end, [])
    ensures Safe(arenas[n], begin, end, Returned(bs, n))
  {
    hide Safe, Steps, WellFormed;
    if n > 0 {
      RunSafe(arenas, events, bs, n - 1, begin, end);
      RunStep(arenas, events, bs, n - 1, begin, end, Returned(bs, n - 1));
    }
  }

  /** A part of an interval that is clear of the image is clear of it. */
  lemma PartClear(sections: seq<RpxImage.LoadedSection>, trampolines: seq<RpxImage.LoadedSection>, dataBegin: nat,
                  begin: nat, end: nat, a: nat, n: nat)
    requires RpxLoader.ClearOfImage(sections, trampolines, dataBegin, begin, end)
    requires begin <= a && n >= 1 && a + n <= end
    ensures RpxLoader.ClearOfImage(sections, trampolines, dataBegin, a, a + n)
  {
    forall i | 0 <= i < |sections| ensures RpxLoader.ClearOfBlock(sections[i], a, a + n) {
      assert RpxLoader.ClearOfBlock(sections[i], begin, end);
    }
    forall i | 0 <= i < |trampolines| ensures RpxLoader.ClearOfBlock(trampolines[i], a, a + n) {
      assert RpxLoader.ClearOfBlock(trampolines[i], begin, end);
    }
  }

  /** Clear of the frame heap's header and of the whole expanded heap. */
  ghost predicate ClearOfHeaders(b: Block, h: Heaps) {
    h.layout != NO_LAYOUT ==>
      Outside(b, h.layout.foreground, h.layout.foreground + FrameHeap.HEADER_SIZE) &&
      Outside(b, h.layout.mem2, h.layout.end)
  }

  predicate Outside(b: Block, begin: nat, end: nat) { b.address + b.size <= begin || end <= b.address }

  lemma GrantedClear(s: Arena, begin: nat, end: nat, b: Block)
    requires Ordered(s, begin, end) && Granted(b, begin, s.heaps, Frame(s))
    ensures begin <= b.address && b.address + b.size <= end
    ensures ClearOfHeaders(b, s.heaps)
  {
    if s.heaps.layout != NO_LAYOUT { ValidFrame(s, begin, end); }
    hide WellFormed, FrameHeap.Validate, Frame;
  }

  /** Aligned, and disjoint from the image, the windows and the heaps' own data. */
  ghost predicate BlockSafe(sections: seq<RpxImage.LoadedSection>, trampolines: seq<RpxImage.LoadedSection>,
                            dataBegin: nat, h: Heaps, b: Block)
  {
    && b.size >= 1 && b.alignment >= 1 && b.address % b.alignment == 0
    && RpxLoader.ClearOfImage(sections, trampolines, dataBegin, b.address, b.address + b.size)
    && ClearOfHeaders(b, h)
  }

  lemma GrantedSafe(sections: seq<RpxImage.LoadedSection>, trampolines: seq<RpxImage.LoadedSection>, dataBegin: nat,
                    s: Arena, begin: nat, end: nat, b: Block)
    requires Ordered(s, begin, end) && Granted(b, begin, s.heaps, Frame(s))
    requires begin < end ==> RpxLoader.ClearOfImage(sections, trampolines, dataBegin, begin, end)
    ensures BlockSafe(sections, trampolines, dataBegin, s.heaps, b)
  {
    GrantedClear(s, begin, end, b);
    hide RpxLoader.ClearOfImage, ClearOfHeaders, Ordered, Frame;
    PartClear(sections, trampolines, dataBegin, begin, end, b.address, b.size);
  }

  /** The heap as the loader configures it is a safe start. */
  lemma ConfiguredSafe(sections: seq<RpxImage.LoadedSection>, trampolines: seq<RpxImage.LoadedSection>,
                       dataBegin: nat, first: nat, heap: RpxImage.Range, swept: bool, s: Arena)
    requires WellFormed(s.memory) && s.heaps.layout == NO_LAYOUT
    requires RpxLoader.HeapChoice(sections, trampolines, dataBegin,
                                  |s.memory.flat|, first, heap, swept)
    requires s.heaps.cursor == heap.begin && s.heaps.limit == heap.end
    ensures Safe(s, heap.begin, heap.end, [])
    ensures heap.begin < heap.end ==>
              RpxLoader.ClearOfImage(sections, trampolines, dataBegin, heap.begin, heap.end)
  {
    hide RpxLoader.ClearOfImage, WellFormed;
  }

  // Two requests of one run

  lemma {:induction false} ReturnedAt(bs: seq<seq<Block>>, k: nat, n: nat)
    requires k < n <= |bs| && bs[k] != []
    ensures |Returned(bs, k)| < |Returned(bs, n)| && Returned(bs, n)[|Returned(bs, k)|] == bs[k][0]
  {
    if k < n - 1 { ReturnedAt(bs, k, n - 1); }
  }

  /** The call at a step of a run, and the block of `size` bytes at `a` that it returned. */
  ghost predicate Accepted(s: Arena, e: Event, b: seq<Block>, a: Word, size: nat)
    requires WellFormed(s.memory)
  {
    && e.FrameCall? && -(FrameHeap.SIGN as int) <= e.signed < FrameHeap.SIGN
    && s.heaps.layout != NO_LAYOUT && b != [] && b[0].address == a && b[0].size == size
    && FrameHeap.Decide(s.memory, s.heaps.layout.foreground, e.requested, e.signed) == FrameHeap.At(a)
    && size == if e.requested == 0 then 1 else e.requested
  }

  /** The block lies between the bounds of the heap's data, and its address is aligned as asked for. */
  ghost predicate InHeapData(s: Arena, e: Event, a: Word, size: nat)
    requires WellFormed(s.memory) && e.FrameCall?
  {
    var f := FrameHeap.Validate(s.memory, s.heaps.layout.foreground);
    && f.Some? && f.value.dataStart <= a && a + size <= f.value.dataEnd
    && e.signed != 0 && a % (if e.signed < 0 then -e.signed else e.signed) == 0
  }

  lemma AcceptedInHeap(s: Arena, e: Event, t: Arena, b: seq<Block>, begin: nat, end: nat)
    requires Ordered(s, begin, end) && e.FrameCall? && Steps(s, e, t, b) && b != []
    ensures Accepted(s, e, b, b[0].address, b[0].size) && InHeapData(s, e, b[0].address, b[0].size)
  {
    FrameBlock(s, begin, end, e.requested, e.signed);
    ValidFrame(s, begin, end);
    hide WellFormed, FrameHeap.Validate, FrameHeap.Decide, FrameHeap.AfterAllocate, Frame, Ordered;
  }

  /**
   * Two accepted requests of a run own disjoint ranges of the requested sizes inside the heap's data, a request
   * for nothing owning one byte, and both addresses are aligned as asked for.
   */
  lemma RequestsDisjoint(arenas: seq<Arena>, events: seq<Event>, bs: seq<seq<Block>>, begin: nat, end: nat,
                         i: nat, j: nat)
    requires IsRun(arenas, events, bs) && Safe(arenas[0], begin, end, []) && i < j < |events|
    requires events[i].FrameCall? && events[j].FrameCall? && bs[i] != [] && bs[j] != []
    ensures WellFormed(arenas[i].memory) && WellFormed(arenas[j].memory)
    ensures var a, b := bs[i][0].address, bs[j][0].address;
            var r: nat := if events[i].requested == 0 then 1 else events[i].requested;
            var q: nat := if events[j].requested == 0 then 1 else events[j].requested;
            && a <= WORD_MAX && b <= WORD_MAX
            && Accepted(arenas[i], events[i], bs[i], a, r) && InHeapData(arenas[i], events[i], a, r)
            && Accepted(arenas[j], events[j], bs[j], b, q) && InHeapData(arenas[j], events[j], b, q)
            && (a + r <= b || b + q <= a)
  {
    hide *;
    RunLengths(arenas, events, bs);
    RunAccepts(arenas, events, bs, begin, end, i);
    RunAccepts(arenas, events, bs, begin, end, j);
    RunApart(arenas, events, bs, begin, end, i, j);
    AcceptedSize(arenas[i], events[i], bs[i], bs[i][0].address, bs[i][0].size);
    AcceptedSize(arenas[j], events[j], bs[j], bs[j][0].address, bs[j][0].size);
  }

  lemma AcceptedSize(s: Arena, e: Event, b: seq<Block>, a: Word, size: nat)
    requires WellFormed(s.memory) && Accepted(s, e, b, a, size)
    ensures e.FrameCall? && size == (if e.requested == 0 then 1 else e.requested) && a <= WORD_MAX
  {
    hide WellFormed, FrameHeap.Decide;
  }

  lemma RunAccepts(arenas: seq<Arena>, events: seq<Event>, bs: seq<seq<Block>>, begin: nat, end: nat, i: nat)
    requires IsRun(arenas, events, bs) && Safe(arenas[0], begin, end, []) && i < |events|
    requires events[i].FrameCall? && i < |bs| && bs[i] != []
    ensures WellFormed(arenas[i].memory) && bs[i][0].address < 0x1_0000_0000
    ensures Accepted(arenas[i], events[i], bs[i], bs[i][0].address, bs[i][0].size)
    ensures InHeapData(arenas[i], events[i], bs[i][0].address, bs[i][0].size)
  {
    RunSafe(arenas, events, bs, i, begin, end);
    assert WellFormed(arenas[i].memory);
    assert Steps(arenas[i], events[i], arenas[i + 1], bs[i]);
    AcceptedInHeap(arenas[i], events[i], arenas[i + 1], bs[i], begin, end);
    hide WellFormed, Steps, Ordered, InHeapData, FrameHeap.Decide;
  }

  lemma RunApart(arenas: seq<Arena>, events: seq<Event>, bs: seq<seq<Block>>, begin: nat, end: nat, i: nat, j: nat)
    requires IsRun(arenas, events, bs) && Safe(arenas[0], begin, end, []) && i < j < |events| == |bs|
    requires bs[i] != [] && bs[j] != []
    ensures bs[i][0].address + bs[i][0].size <= bs[j][0].address ||
            bs[j][0].address + bs[j][0].size <= bs[i][0].address
  {
    hide *;
    RunLengths(arenas, events, bs);
    RunSafe(arenas, events, bs, j + 1, begin, end);
    SafeParts(arenas[j + 1], begin, end, Returned(bs, j + 1));
    ReturnedAt(bs, i, j + 1);
    ReturnedAt(bs, j, j + 1);
    ReturnedAt(bs, i, j);
    TwoApart(Returned(bs, j + 1), |Returned(bs, i)|, |Returned(bs, j)|);
  }

  lemma TwoApart(blocks: seq<Block>, i: nat, j: nat)
    requires AllApart(blocks) && i < j < |blocks|
    ensures blocks[i].address + blocks[i].size <= blocks[j].address ||
            blocks[j].address + blocks[j].size <= blocks[i].address
  {
    assert Apart(blocks[i], blocks[j]);
  }

  lemma RunLengths(arenas: seq<Arena>, events: seq<Event>, bs: seq<seq<Block>>)
    requires IsRun(arenas, events, bs)
    ensures |arenas| == |events| + 1 == |bs| + 1
  {
    hide WellFormed, Steps;
  }

  /**
   * End-to-end allocation safety. From the heap that the loader configured, through any interleaving of bump
   * allocations, the heap initialisation, head and tail allocations on the foreground frame heap and other
   * guest activity, all returned blocks are aligned, pairwise disjoint, and disjoint from the heap headers, the
   * expanded heap, all sections, all trampolines and both windows.
   */
  lemma EveryAllocationSafe(sections: seq<RpxImage.LoadedSection>, trampolines: seq<RpxImage.LoadedSection>,
                            dataBegin: nat, first: nat, heap: RpxImage.Range, swept: bool,
                            arenas: seq<Arena>, events: seq<Event>, bs: seq<seq<Block>>, n: nat)
    requires IsRun(arenas, events, bs) && n <= |events| && WellFormed(arenas[0].memory)
    requires RpxLoader.HeapChoice(sections, trampolines, dataBegin,
                                  |arenas[0].memory.flat|, first, heap, swept)
    requires arenas[0].heaps.cursor == heap.begin && arenas[0].heaps.limit == heap.end
    requires arenas[0].heaps.layout == NO_LAYOUT
    ensures AllApart(Returned(bs, n))
    ensures forall i :: 0 <= i < |Returned(bs, n)| ==>
              BlockSafe(sections, trampolines, dataBegin, arenas[n].heaps, Returned(bs, n)[i])
  {
    hide RpxLoader.HeapChoice, RpxLoader.ClearOfImage, AllApart, Ordered, Steps, WellFormed, Granted, BlockSafe, Frame;
    ConfiguredSafe(sections, trampolines, dataBegin, first, heap, swept, arenas[0]);
    RunSafe(arenas, events, bs, n, heap.begin, heap.end);
    forall i | 0 <= i < |Returned(bs, n)|
      ensures BlockSafe(sections, trampolines, dataBegin, arenas[n].heaps, Returned(bs, n)[i])
    {
      GrantedSafe(sections, trampolines, dataBegin, arenas[n], heap.begin, heap.end, Returned(bs, n)[i]);
    }
  }
}
