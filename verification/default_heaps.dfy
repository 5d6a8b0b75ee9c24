/**
 * The default heaps: the bump allocator, and the split of the chosen gap into a bump reserve, the
 * foreground frame heap and the expanded heap, down to the header words in guest memory.
 */
module DefaultHeaps {
  import opened Bits
  import opened MemoryImage
  import opened GuestObjects
  import opened GuestMemoryModel
  import opened GuestAccess
  import FrameHeap
  import ExpandedHeap

  const BUMP_RESERVE: nat := 0x1000
  const MEM2_MINIMUM: nat := 0x6C
  const FOREGROUND_MINIMUM: nat := 0x50
  const LARGE_GAP: nat := 0x0100_0000

  datatype Option<T> = None | Some(value: T)

  /** Where the frame heap and the expanded heap start, and where the expanded heap ends. */
  datatype Layout = Layout(foreground: Word, mem2: Word, end: Word)

  /** `allocate_guest_memory`: the address of the block, and the cursor after it is `address + size`. */
  function Bump(cursor: Word, limit: Word, size: Word, alignment: Word): Option<nat> {
    if size == 0 || alignment == 0 || And(alignment, alignment - 1) != 0 then None
    else
      var aligned := AlignUp(cursor, alignment);
      if aligned > limit || aligned + size > limit then None else Some(aligned)
  }

  lemma BumpMeans(cursor: Word, limit: Word, size: Word, alignment: Word)
    ensures var r := Bump(cursor, limit, size, alignment);
            && (r.Some? ==> IsPowerOfTwo(alignment) && size > 0 && RoundsUp(cursor, alignment, r.value) &&
                            r.value + size <= limit)
            && (r.None? && IsPowerOfTwo(alignment) && size > 0 ==>
                  forall b: nat :: b % alignment == 0 && cursor <= b ==> b + size > limit)
  {
    if size != 0 && alignment != 0 && And(alignment, alignment - 1) == 0 {
      assert IsPowerOfTwo(alignment) && alignment <= TWO_TO_THE_64 && cursor + alignment <= TWO_TO_THE_64;
      hide And, AlignUp;
      AlignUpMeans(cursor, alignment);
      forall b: nat | b % alignment == 0 && cursor <= b ensures AlignUp(cursor, alignment) <= b {
        RoundingIsTight(cursor, alignment, AlignUp(cursor, alignment), b);
      }
    }
  }

  /** The share of the expanded heap. */
  function Mem2Size(available: nat): nat
    requires available < ADDRESS_SPACE_END
  {
    var desired := Max(MEM2_MINIMUM, if available >= LARGE_GAP then (available + 2) / 3 else (available + 3) / 4);
    var maximum: nat := if available > BUMP_RESERVE + FOREGROUND_MINIMUM
                        then available - BUMP_RESERVE - FOREGROUND_MINIMUM else 0;
    Min(AlignDown(desired + 15, 16), AlignDown(maximum, 16))
  }

  /** The share of the frame heap, below an expanded heap of `mem2` bytes that leaves `lower` bytes. */
  function ForegroundSize(available: nat, mem2: nat, lower: nat): nat
    requires available < ADDRESS_SPACE_END && lower > BUMP_RESERVE
  {
    var maximum := AlignDown(lower - BUMP_RESERVE, 16);
    Min(if available >= LARGE_GAP then AlignDown((available + 3) / 4 + 15, 16) else mem2, maximum)
  }

  /** The split of the free part of the bump heap, if it is large enough. */
  function Partition(cursor: Word, limit: Word): (r: Option<Layout>) {
    var end := AlignDown(limit, 16);
    if cursor == 0 || end <= cursor then None
    else
      var available := end - cursor;
      var mem2 := Mem2Size(available);
      if mem2 > available then None
      else
        var begin := AlignDown(end - mem2, 16);
        if begin <= cursor || begin - cursor <= BUMP_RESERVE || end - begin < MEM2_MINIMUM then None
        else
          var foreground := ForegroundSize(available, mem2, begin - cursor);
          if foreground < FOREGROUND_MINIMUM || foreground > begin || begin - foreground < cursor + BUMP_RESERVE ||
             begin - foreground + FrameHeap.HEADER_SIZE + 4 > begin ||
             begin + ExpandedHeap.HEADER_SIZE + ExpandedHeap.BLOCK_HEADER_SIZE >= end then None
          else Some(Layout(begin - foreground, begin, end))
  }

  lemma Down16(x: nat)
    requires x <= 0x2_0000_0000
    ensures AlignDown(x, 16) == x - x % 16
  {
    hide AlignDown;
    Align16(x);
    var r := AlignDown(x, 16);
    assert r % 16 == 0 && r <= x < r + 16;
  }

  /**
   * The split exists exactly when 0x10C0 bytes are free. It leaves the bump reserve below a frame heap and an
   * expanded heap, both aligned, that fill the rest of the gap without overlapping.
   */
  lemma PartitionExact(cursor: Word, limit: Word)
    ensures var r, end := Partition(cursor, limit), limit - limit % 16;
            && (r.Some? <==> cursor != 0 && end >= cursor + 0x10C0)
            && (r.Some? ==> Split(cursor, end, r.value))
  {
    hide AlignDown, Mem2Size, ForegroundSize, Partition, Split;
    var end := limit - limit % 16;
    Down16(limit);
    if cursor == 0 || end <= cursor {
      NothingToSplit(cursor, limit);
    }
    if cursor != 0 && end > cursor {
      var available := end - cursor;
      Mem2SizeMeans(available);
      var mem2 := Mem2Size(available);
      Down16(end - mem2);
      if available >= 0x10C0 {
        ForegroundSizeMeans(available, mem2, end - mem2 - cursor);
        PartitionRuns(cursor, limit, end, mem2, ForegroundSize(available, mem2, end - mem2 - cursor));
        SplitRuns(cursor, end, mem2, ForegroundSize(available, mem2, end - mem2 - cursor));
      } else {
        PartitionFails(cursor, limit, end, mem2);
      }
    }
  }

  /** The least multiple of 16 that is at least n divided by `parts`. */
  predicate Share(size: nat, n: nat, parts: nat) {
    size % 16 == 0 && n <= parts * size && (size == 0 || parts * (size - 16) < n)
  }

  /** That share, or if there is no room for it the greatest multiple of 16 that fits. */
  predicate ShareWithin(size: nat, n: nat, parts: nat, room: nat) {
    || (Share(size, n, parts) && size <= room)
    || (size % 16 == 0 && parts * size < n && size <= room < size + 16)
  }

  /**
   * The shares of the gap. From 16 MiB on the expanded heap gets a third and the foreground heap a quarter; in a
   * smaller gap the expanded heap gets a quarter, or the room for its headers, as far as the bump heap keeps
   * 0x1000 bytes and the foreground heap 0x50, and the foreground heap gets as much if there is room for it.
   */
  ghost predicate Shares(cursor: Word, l: Layout) {
    && cursor + 0x1000 <= l.foreground <= l.mem2 <= l.end && cursor + 0x1050 <= l.end
    && var gap, mem2, foreground := l.end - cursor, l.end - l.mem2, l.mem2 - l.foreground;
    && mem2 + 0x1000 <= gap
    && if gap >= 0x100_0000 then Share(mem2, gap, 3) && Share(foreground, gap, 4)
       else && ShareWithin(mem2, Max(gap, 4 * 0x6C), 4, gap - 0x1050)
            && ShareWithin(foreground, mem2, 1, gap - mem2 - 0x1000)
  }

  lemma RoundedShare(n: nat, part: nat, parts: nat)
    requires parts == 1 || parts == 3 || parts == 4
    requires part == (n + parts - 1) / parts
    ensures Share(part + 15 - (part + 15) % 16, n, parts)
  {
  }

  /** The smaller of the share and the rounded room. */
  lemma ShareOrRoom(n: nat, parts: nat, share: nat, room: nat)
    requires parts >= 1 && Share(share, n, parts)
    ensures ShareWithin(Min(share, room - room % 16), n, parts, room)
  {
    var rest := room - room % 16;
    if rest < share {
      MultiplesApart16(rest, share);
      SmallerShare(n, parts, rest, share - 16);
    }
  }

  lemma MultiplesApart16(x: nat, y: nat)
    requires x % 16 == 0 && y % 16 == 0 && x < y
    ensures x + 16 <= y
  {
  }

  lemma SmallerShare(n: nat, parts: nat, a: nat, b: nat)
    requires a <= b && parts * b < n
    ensures parts * a < n
  {
    assert parts * a <= parts * b;
  }

  lemma Mem2Shares(gap: nat)
    requires 0x10C0 <= gap < ADDRESS_SPACE_END
    ensures if gap >= 0x100_0000 then Share(Mem2Size(gap), gap, 3)
            else ShareWithin(Mem2Size(gap), Max(gap, 4 * 0x6C), 4, gap - 0x1050)
  {
    hide AlignDown, Share, ShareWithin;
    var desired := Max(MEM2_MINIMUM, if gap >= LARGE_GAP then (gap + 2) / 3 else (gap + 3) / 4);
    var most := gap - BUMP_RESERVE - FOREGROUND_MINIMUM;
    Down16(desired + 15);
    Down16(most);
    if gap >= LARGE_GAP {
      RoundedShare(gap, desired, 3);
    } else {
      RoundedShare(Max(gap, 4 * 0x6C), desired, 4);
      ShareOrRoom(Max(gap, 4 * 0x6C), 4, AlignDown(desired + 15, 16), most);
    }
  }

  lemma ForegroundShares(gap: nat, mem2: nat)
    requires 0x10C0 <= gap < ADDRESS_SPACE_END && mem2 + BUMP_RESERVE + FOREGROUND_MINIMUM <= gap
    requires mem2 % 16 == 0 && (gap >= 0x100_0000 ==> Share(mem2, gap, 3))
    ensures if gap >= 0x100_0000 then Share(ForegroundSize(gap, mem2, gap - mem2), gap, 4)
            else ShareWithin(ForegroundSize(gap, mem2, gap - mem2), mem2, 1, gap - mem2 - 0x1000)
  {
    hide AlignDown, ShareWithin;
    var room := gap - mem2 - BUMP_RESERVE;
    Down16(room);
    Down16((gap + 3) / 4 + 15);
    if gap >= LARGE_GAP {
      RoundedShare(gap, (gap + 3) / 4, 4);
      QuarterFits(gap, mem2, AlignDown((gap + 3) / 4 + 15, 16), room);
    } else {
      ShareOrRoom(mem2, 1, mem2, room);
    }
  }

  lemma QuarterFits(gap: nat, mem2: nat, quarter: nat, room: nat)
    requires gap >= 0x100_0000 && Share(mem2, gap, 3) && Share(quarter, gap, 4)
    requires mem2 + 0x1000 <= gap && room == gap - mem2 - 0x1000
    ensures quarter <= room - room % 16
  {
  }

  /** How the gap is divided, whenever it is. */
  lemma PartitionShares(cursor: Word, limit: Word)
    requires Partition(cursor, limit).Some?
    ensures Shares(cursor, Partition(cursor, limit).value)
  {
    hide AlignDown, Mem2Size, ForegroundSize, Share, ShareWithin, Partition;
    PartitionExact(cursor, limit);
    var end := limit - limit % 16;
    Down16(limit);
    var gap := end - cursor;
    Mem2SizeMeans(gap);
    var mem2 := Mem2Size(gap);
    Down16(end - mem2);
    ForegroundSizeMeans(gap, mem2, gap - mem2);
    PartitionRuns(cursor, limit, end, mem2, ForegroundSize(gap, mem2, gap - mem2));
    Mem2Shares(gap);
    ForegroundShares(gap, mem2);
  }

  lemma NothingToSplit(cursor: Word, limit: Word)
    requires cursor == 0 || AlignDown(limit, 16) <= cursor
    ensures Partition(cursor, limit) == None
  {
    hide AlignDown, Mem2Size, ForegroundSize;
  }

  lemma PartitionFails(cursor: Word, limit: Word, end: Word, mem2: nat)
    requires 0 < cursor < end == AlignDown(limit, 16) && end - cursor < 0x10C0
    requires mem2 == Mem2Size(end - cursor) && mem2 < MEM2_MINIMUM && AlignDown(end - mem2, 16) == end - mem2
    ensures Partition(cursor, limit) == None
  {
    hide AlignDown, Mem2Size, ForegroundSize;
  }

  lemma SplitRuns(cursor: Word, end: Word, mem2: nat, foreground: nat)
    requires end % 16 == 0 && mem2 % 16 == 0 && foreground % 16 == 0 && mem2 <= end
    requires MEM2_MINIMUM <= mem2 && FOREGROUND_MINIMUM <= foreground
    requires foreground + BUMP_RESERVE <= end - mem2 - cursor
    ensures Split(cursor, end, Layout(end - mem2 - foreground, end - mem2, end))
  {
  }

  /** How the three heaps lie. */
  ghost predicate Split(cursor: Word, end: nat, l: Layout) {
    && cursor + BUMP_RESERVE <= l.foreground && l.foreground % 16 == 0
    && l.foreground + FOREGROUND_MINIMUM <= l.mem2 && l.mem2 % 16 == 0
    && l.mem2 + MEM2_MINIMUM <= l.end == end
  }

  lemma PartitionRuns(cursor: Word, limit: Word, end: Word, mem2: nat, foreground: nat)
    requires 0 < cursor && cursor + 0x10C0 <= end == AlignDown(limit, 16) && end % 16 == 0
    requires mem2 == Mem2Size(end - cursor) && mem2 % 16 == 0 && AlignDown(end - mem2, 16) == end - mem2
    requires MEM2_MINIMUM <= mem2 && mem2 + BUMP_RESERVE + FOREGROUND_MINIMUM <= end - cursor
    requires foreground == ForegroundSize(end - cursor, mem2, end - mem2 - cursor) && foreground % 16 == 0
    requires FOREGROUND_MINIMUM <= foreground && foreground + BUMP_RESERVE <= end - mem2 - cursor
    ensures Partition(cursor, limit) == Some(Layout(end - mem2 - foreground, end - mem2, end))
  {
    hide AlignDown, Mem2Size, ForegroundSize;
  }

  lemma Mem2SizeMeans(available: nat)
    requires available < ADDRESS_SPACE_END
    ensures var mem2 := Mem2Size(available);
            && mem2 % 16 == 0 && mem2 <= available && (mem2 >= MEM2_MINIMUM <==> available >= 0x10C0)
            && (available > BUMP_RESERVE + FOREGROUND_MINIMUM ==>
                  mem2 + BUMP_RESERVE + FOREGROUND_MINIMUM <= available)
  {
    hide AlignDown;
    var desired := Max(MEM2_MINIMUM, if available >= LARGE_GAP then (available + 2) / 3 else (available + 3) / 4);
    Down16(desired + 15);
    if available > BUMP_RESERVE + FOREGROUND_MINIMUM { Down16(available - BUMP_RESERVE - FOREGROUND_MINIMUM); }
    Down16(0);
  }

  lemma ForegroundSizeMeans(available: nat, mem2: nat, lower: nat)
    requires available < ADDRESS_SPACE_END && BUMP_RESERVE + FOREGROUND_MINIMUM <= lower <= available
    requires mem2 % 16 == 0
    ensures var f := ForegroundSize(available, mem2, lower);
            f % 16 == 0 && f + BUMP_RESERVE <= lower && (mem2 >= FOREGROUND_MINIMUM ==> f >= FOREGROUND_MINIMUM)
  {
    hide AlignDown;
    Down16(lower - BUMP_RESERVE);
    Down16((available + 3) / 4 + 15);
  }

  // The headers

  const MEM2_OBJECT: nat := 0x68

  function ForegroundWords(l: Layout): seq<WordStore>
    requires l.foreground + FrameHeap.HEADER_SIZE < ADDRESS_SPACE_END
  {
    var start := l.foreground + FrameHeap.HEADER_SIZE;
    [WordStore(0, FrameHeap.TAG), WordStore(FrameHeap.DATA_START, start), WordStore(FrameHeap.DATA_END, l.mem2),
     WordStore(FrameHeap.FLAGS, 0), WordStore(FrameHeap.HEAD, start), WordStore(FrameHeap.TAIL, l.mem2),
     WordStore(0x48, 0)]
  }

  ghost predicate RoomForHeaders(m: Memory, l: Layout) {
    && WellFormed(m) && l.foreground != 0 && l.mem2 != 0
    && l.foreground + FOREGROUND_MINIMUM <= l.mem2 && l.mem2 + MEM2_MINIMUM <= l.end
    && MappedRange(m, l.foreground, FrameHeap.HEADER_SIZE) && MappedRange(m, l.mem2, MEM2_OBJECT)
  }

  ghost function ForegroundStored(m: Memory, l: Layout): (n: Memory)
    requires RoomForHeaders(m, l)
    ensures SameLayout(m, n) && WellFormed(n)
  {
    hide WellFormed, MappedRange, SameLayout, Initialised;
    ForegroundWordsFit(l);
    Initialised(m, l.foreground, FrameHeap.HEADER_SIZE, ForegroundWords(l))
  }

  lemma ForegroundWordsFit(l: Layout)
    requires l.foreground + FrameHeap.HEADER_SIZE < ADDRESS_SPACE_END
    ensures |ForegroundWords(l)| == 7 && StoresFit(ForegroundWords(l), FrameHeap.HEADER_SIZE)
    ensures DistinctOffsets(ForegroundWords(l))
    ensures ForegroundWords(l)[0] == WordStore(0, FrameHeap.TAG)
    ensures ForegroundWords(l)[1] == WordStore(FrameHeap.DATA_START, l.foreground + FrameHeap.HEADER_SIZE)
    ensures ForegroundWords(l)[2] == WordStore(FrameHeap.DATA_END, l.mem2)
    ensures ForegroundWords(l)[3] == WordStore(FrameHeap.FLAGS, 0)
    ensures ForegroundWords(l)[4] == WordStore(FrameHeap.HEAD, l.foreground + FrameHeap.HEADER_SIZE)
    ensures ForegroundWords(l)[5] == WordStore(FrameHeap.TAIL, l.mem2)
    ensures ForegroundWords(l)[6] == WordStore(0x48, 0)
  {
  }

  /** The empty frame heap between its header and the expanded heap. */
  function InitialFrame(l: Layout): FrameHeap.Heap
    requires l.foreground + FrameHeap.HEADER_SIZE < ADDRESS_SPACE_END
  {
    var start := l.foreground + FrameHeap.HEADER_SIZE;
    FrameHeap.Heap(0, start, l.mem2, start, l.mem2)
  }

  lemma ForegroundFields(s: seq<Byte>, l: Layout)
    requires |s| == FrameHeap.HEADER_SIZE && l.foreground + FOREGROUND_MINIMUM <= l.mem2
    ensures StoresFit(ForegroundWords(l), |s|)
    ensures var t, start := SetWords(s, ForegroundWords(l)), l.foreground + FrameHeap.HEADER_SIZE;
            && Word32(t, 0) == FrameHeap.TAG && Word32(t, FrameHeap.DATA_START) == start
            && Word32(t, FrameHeap.DATA_END) == l.mem2 && Word32(t, FrameHeap.FLAGS) == 0
            && Word32(t, FrameHeap.HEAD) == start && Word32(t, FrameHeap.TAIL) == l.mem2
  {
    ForegroundWordsFit(l);
    hide Word32, SetWords, ForegroundWords, StoresFit, DistinctOffsets;
    EveryStoreWins(s, ForegroundWords(l));
  }

  lemma ForegroundHeader(s: seq<Byte>, l: Layout)
    requires |s| == FrameHeap.HEADER_SIZE && l.foreground + FOREGROUND_MINIMUM <= l.mem2
    ensures StoresFit(ForegroundWords(l), |s|)
    ensures FrameHeap.ValidHeader(l.foreground, SetWords(s, ForegroundWords(l))) ==
            FrameHeap.Some(InitialFrame(l))
  {
    hide Word32, SetWords, ForegroundWords, StoresFit;
    ForegroundFields(s, l);
  }

  lemma ForegroundValid(m: Memory, l: Layout)
    requires RoomForHeaders(m, l)
    ensures FrameHeap.Validate(ForegroundStored(m, l), l.foreground) == FrameHeap.Some(InitialFrame(l))
  {
    ForegroundWordsFit(l);
    assert FrameHeap.HEADER_SIZE <= PAGE;
    hide WellFormed, CellOf, Mapped, SameLayout, MappedRange, Initialised, LoadBytes, SetWords, ForegroundWords,
         FrameHeap.ValidHeader, StoresFit, DistinctOffsets;
    InitialisedBytes(m, l.foreground, FrameHeap.HEADER_SIZE, ForegroundWords(l));
    var s: seq<Byte> :| |s| == FrameHeap.HEADER_SIZE &&
      LoadBytes(ForegroundStored(m, l), l.foreground, FrameHeap.HEADER_SIZE) == SetWords(s, ForegroundWords(l));
    ForegroundHeader(s, l);
  }

  function Mem2Words(l: Layout): seq<WordStore>
    requires l.mem2 + MEM2_MINIMUM <= l.end
  {
    var block := l.mem2 + ExpandedHeap.HEADER_SIZE;
    [WordStore(0, ExpandedHeap.TAG), WordStore(ExpandedHeap.DATA_START, block),
     WordStore(ExpandedHeap.DATA_END, l.end), WordStore(0x30, 0), WordStore(ExpandedHeap.FREE_LIST, block),
     WordStore(0x44, block), WordStore(0x48, 0), WordStore(0x4C, 0)]
  }

  /** The initial free block: everything behind the two headers. */
  function BlockWords(l: Layout): seq<WordStore>
    requires l.mem2 + MEM2_MINIMUM <= l.end
  {
    [WordStore(0x54, 0), WordStore(0x58, l.end - l.mem2 - MEM2_OBJECT), WordStore(0x5C, 0), WordStore(0x60, 0)]
  }

  /** The expanded heap's header and free block as one object, in the order of the stores. */
  ghost function Mem2Bytes(s: seq<Byte>, l: Layout): (t: seq<Byte>)
    requires |s| == MEM2_OBJECT && l.mem2 + MEM2_MINIMUM <= l.end
    ensures |t| == MEM2_OBJECT
  {
    Mem2WordsFit(l);
    hide SetWords, Mem2Words, BlockWords;
    var header := SetWords(s, Mem2Words(l));
    var group := Patch(Patch(header, 0x50, BytesOf(0, 2)), 0x52, BytesOf(0, 2));
    Patch(SetWords(group, BlockWords(l)), 0x64, BytesOf(ExpandedHeap.FREE_TAG, 2))
  }

  lemma Mem2WordsFit(l: Layout)
    requires l.mem2 + MEM2_MINIMUM <= l.end
    ensures |Mem2Words(l)| == 8 && StoresFit(Mem2Words(l), MEM2_OBJECT)
    ensures forall i :: 0 <= i < 8 ==> Mem2Words(l)[i].offset <= 0x4C
    ensures forall i, j :: 0 <= i < j < 8 ==> Mem2Words(l)[i].offset != Mem2Words(l)[j].offset
    ensures Mem2Words(l)[0] == WordStore(0, ExpandedHeap.TAG)
    ensures Mem2Words(l)[1] == WordStore(ExpandedHeap.DATA_START, l.mem2 + ExpandedHeap.HEADER_SIZE)
    ensures Mem2Words(l)[2] == WordStore(ExpandedHeap.DATA_END, l.end)
    ensures Mem2Words(l)[4] == WordStore(ExpandedHeap.FREE_LIST, l.mem2 + ExpandedHeap.HEADER_SIZE)
    ensures |BlockWords(l)| == 4 && StoresFit(BlockWords(l), MEM2_OBJECT)
    ensures forall i :: 0 <= i < 4 ==> BlockWords(l)[i].offset == 0x54 + 4 * i
    ensures BlockWords(l)[1].value == l.end - l.mem2 - MEM2_OBJECT && BlockWords(l)[3].value == 0
  {
  }

  /** A header word is not disturbed by the later stores. */
  lemma Mem2HeaderWord(s: seq<Byte>, l: Layout, i: nat)
    requires |s| == MEM2_OBJECT && l.mem2 + MEM2_MINIMUM <= l.end && i < |Mem2Words(l)|
    ensures Mem2Words(l)[i].offset + 4 <= MEM2_OBJECT
    ensures Word32(Mem2Bytes(s, l), Mem2Words(l)[i].offset) == Mem2Words(l)[i].value
  {
    Mem2WordsFit(l);
    hide SetWords, Mem2Words, BlockWords, Patch, BytesOf;
    var ws, o := Mem2Words(l), Mem2Words(l)[i].offset;
    var header := SetWords(s, ws);
    var first := Patch(header, 0x50, BytesOf(0, 2));
    var group := Patch(first, 0x52, BytesOf(0, 2));
    LastStoreWins(s, ws, i);
    PatchedElsewhere(header, 0x50, BytesOf(0, 2), o, 4);
    PatchedElsewhere(first, 0x52, BytesOf(0, 2), o, 4);
    UntouchedWord(group, BlockWords(l), o);
    PatchedElsewhere(SetWords(group, BlockWords(l)), 0x64, BytesOf(ExpandedHeap.FREE_TAG, 2), o, 4);
  }

  lemma Mem2BlockWord(s: seq<Byte>, l: Layout, i: nat)
    requires |s| == MEM2_OBJECT && l.mem2 + MEM2_MINIMUM <= l.end && i < 4
    ensures |BlockWords(l)| == 4 && Word32(Mem2Bytes(s, l), 0x54 + 4 * i) == BlockWords(l)[i].value
    ensures Field(Mem2Bytes(s, l), 0x64, 2) == ExpandedHeap.FREE_TAG
  {
    Mem2WordsFit(l);
    hide SetWords, Mem2Words, BlockWords, Patch, BytesOf, Pow2;
    var group := Patch(Patch(SetWords(s, Mem2Words(l)), 0x50, BytesOf(0, 2)), 0x52, BytesOf(0, 2));
    var o := BlockWords(l)[i].offset;
    LastStoreWins(group, BlockWords(l), i);
    PatchedElsewhere(SetWords(group, BlockWords(l)), 0x64, BytesOf(ExpandedHeap.FREE_TAG, 2), o, 4);
    PatchedField(SetWords(group, BlockWords(l)), 0x64, ExpandedHeap.FREE_TAG, 2);
    WidthPowers();
  }

  /** The stores that build the expanded heap, up to the group and attribute halves. */
  ghost function Mem2Header(m: Memory, l: Layout): (n: Memory)
    requires RoomForHeaders(m, l)
    ensures SameLayout(m, n) && WellFormed(n) && MappedRange(n, l.mem2, MEM2_OBJECT)
  {
    hide WellFormed, MappedRange, SameLayout, Initialised;
    Mem2WordsFit(l);
    Initialised(m, l.mem2, MEM2_OBJECT, Mem2Words(l))
  }

  /** A halfword stored in the expanded heap's object. */
  ghost function Mem2Half(m: Memory, l: Layout, o: nat, v: Half): (n: Memory)
    requires WellFormed(m) && MappedRange(m, l.mem2, MEM2_OBJECT) && o + 2 <= MEM2_OBJECT
    ensures SameLayout(m, n) && WellFormed(n) && MappedRange(n, l.mem2, MEM2_OBJECT)
  {
    hide WellFormed, CellOf, Mapped, SameLayout;
    SubRange(m, l.mem2, MEM2_OBJECT, o, 2);
    StoreBytes(m, l.mem2 + o, BytesOf(v, 2))
  }

  ghost function Mem2Stored(m: Memory, l: Layout): (n: Memory)
    requires RoomForHeaders(m, l)
    ensures SameLayout(m, n) && WellFormed(n) && MappedRange(n, l.mem2, MEM2_OBJECT)
  {
    hide WellFormed, CellOf, Mapped, SameLayout, MappedRange, StoreWords, Mem2Header, Mem2Half;
    Mem2WordsFit(l);
    var header := Mem2Header(m, l);
    var group := Mem2Half(header, l, 0x50, 0);
    var attributes := Mem2Half(group, l, 0x52, 0);
    var block := StoreWords(attributes, l.mem2, MEM2_OBJECT, BlockWords(l));
    var n := Mem2Half(block, l, 0x64, ExpandedHeap.FREE_TAG);
    LayoutChain(m, header, group);
    LayoutChain(m, group, attributes);
    LayoutChain(m, attributes, block);
    LayoutChain(m, block, n);
    n
  }

  lemma Mem2HalfBytes(m: Memory, l: Layout, o: nat, v: Half)
    requires WellFormed(m) && MappedRange(m, l.mem2, MEM2_OBJECT) && o + 2 <= MEM2_OBJECT
    ensures LoadBytes(Mem2Half(m, l, o, v), l.mem2, MEM2_OBJECT) ==
            Patch(LoadBytes(m, l.mem2, MEM2_OBJECT), o, BytesOf(v, 2))
  {
    hide WellFormed, CellOf, Mapped, MappedRange, StoreBytes, LoadBytes, BytesOf, Injective, Patch;
    ShortSpansInjective(m, l.mem2, MEM2_OBJECT);
    ObjectStore(m, l.mem2, MEM2_OBJECT, o, BytesOf(v, 2));
  }

  lemma Mem2HeaderBytes(m: Memory, l: Layout)
    requires RoomForHeaders(m, l)
    ensures StoresFit(Mem2Words(l), MEM2_OBJECT)
    ensures exists s: seq<Byte> :: |s| == MEM2_OBJECT &&
              LoadBytes(Mem2Header(m, l), l.mem2, MEM2_OBJECT) == SetWords(s, Mem2Words(l))
  {
    Mem2WordsFit(l);
    hide WellFormed, CellOf, Mapped, MappedRange, Initialised, LoadBytes, SetWords, Mem2Words, SameLayout;
    InitialisedBytes(m, l.mem2, MEM2_OBJECT, Mem2Words(l));
  }

  /** Memory holds the object. */
  ghost predicate Mem2Held(n: Memory, l: Layout, s: seq<Byte>) {
    && WellFormed(n) && MappedRange(n, l.mem2, MEM2_OBJECT) && |s| == MEM2_OBJECT
    && l.mem2 + MEM2_MINIMUM <= l.end && LoadBytes(n, l.mem2, MEM2_OBJECT) == Mem2Bytes(s, l)
  }

  /** The object as stored is the object as described. */
  lemma Mem2StoredBytes(m: Memory, l: Layout)
    requires RoomForHeaders(m, l)
    ensures exists s: seq<Byte> :: Mem2Held(Mem2Stored(m, l), l, s)
  {
    Mem2WordsFit(l);
    hide WellFormed, CellOf, Mapped, MappedRange, StoreWords, StoreBytes, LoadBytes, SetWords, Mem2Words, SameLayout,
         Mem2Header, Mem2Half, BlockWords, Patch, BytesOf, StoresFit;
    Mem2HeaderBytes(m, l);
    var header := Mem2Header(m, l);
    var s: seq<Byte> :| |s| == MEM2_OBJECT &&
      LoadBytes(header, l.mem2, MEM2_OBJECT) == SetWords(s, Mem2Words(l));
    Mem2HalfBytes(header, l, 0x50, 0);
    var group := Mem2Half(header, l, 0x50, 0);
    Mem2HalfBytes(group, l, 0x52, 0);
    var attributes := Mem2Half(group, l, 0x52, 0);
    StoredWords(attributes, l.mem2, MEM2_OBJECT, BlockWords(l));
    Mem2HalfBytes(StoreWords(attributes, l.mem2, MEM2_OBJECT, BlockWords(l)), l, 0x64, ExpandedHeap.FREE_TAG);
    assert Mem2Held(Mem2Stored(m, l), l, s);
  }

  /** The words of the object in memory. */
  lemma Mem2Fields(n: Memory, l: Layout, s: seq<Byte>)
    requires WellFormed(n) && MappedRange(n, l.mem2, MEM2_OBJECT) && |s| == MEM2_OBJECT
    requires l.mem2 + MEM2_MINIMUM <= l.end && LoadBytes(n, l.mem2, MEM2_OBJECT) == Mem2Bytes(s, l)
    ensures MappedRange(n, l.mem2, ExpandedHeap.HEADER_SIZE)
    ensures var h := LoadBytes(n, l.mem2, ExpandedHeap.HEADER_SIZE);
            var block := l.mem2 + ExpandedHeap.HEADER_SIZE;
            && Word32(h, 0) == ExpandedHeap.TAG && Word32(h, ExpandedHeap.DATA_START) == block
            && Word32(h, ExpandedHeap.DATA_END) == l.end && Word32(h, ExpandedHeap.FREE_LIST) == block
  {
    Mem2WordsFit(l);
    Mem2HeaderWord(s, l, 0);
    Mem2HeaderWord(s, l, 1);
    Mem2HeaderWord(s, l, 2);
    Mem2HeaderWord(s, l, 4);
    hide WellFormed, CellOf, Mapped, MappedRange, LoadBytes, Mem2Words, BlockWords, Mem2Bytes, StoresFit, BigEndian;
    hide Word32;
    var t := Mem2Bytes(s, l);
    ObjectLoad(n, l.mem2, MEM2_OBJECT, 0, ExpandedHeap.HEADER_SIZE);
    assert LoadBytes(n, l.mem2, ExpandedHeap.HEADER_SIZE) == t[..ExpandedHeap.HEADER_SIZE];
    WordOfPrefix(t, ExpandedHeap.HEADER_SIZE, 0);
    WordOfPrefix(t, ExpandedHeap.HEADER_SIZE, ExpandedHeap.DATA_START);
    WordOfPrefix(t, ExpandedHeap.HEADER_SIZE, ExpandedHeap.DATA_END);
    WordOfPrefix(t, ExpandedHeap.HEADER_SIZE, ExpandedHeap.FREE_LIST);
  }

  lemma Mem2WordAt(n: Memory, l: Layout, s: seq<Byte>, i: nat, a: nat)
    requires Mem2Held(n, l, s) && i < 4 && a == l.mem2 + 0x54 + 4 * i
    ensures |BlockWords(l)| == 4 && MappedRange(n, a, 4) && WordAt(n, a) == BlockWords(l)[i].value
  {
    Mem2BlockWord(s, l, i);
    hide WellFormed, CellOf, Mapped, MappedRange, LoadBytes, BlockWords, Mem2Bytes, WordAt, Word32;
    WordOfObject(n, l.mem2, MEM2_OBJECT, 0x54 + 4 * i);
  }

  lemma Mem2TagAt(n: Memory, l: Layout, s: seq<Byte>, a: nat)
    requires Mem2Held(n, l, s) && a == l.mem2 + 0x64
    ensures MappedRange(n, a, 2) && ExpandedHeap.HalfAt(n, a) == ExpandedHeap.FREE_TAG
  {
    Mem2BlockWord(s, l, 0);
    HalfOfObject(n, l.mem2, MEM2_OBJECT, 0x64, a);
    hide *;
  }

  lemma HalfOfObject(n: Memory, base: nat, size: nat, o: nat, a: nat)
    requires WellFormed(n) && MappedRange(n, base, size) && o + 2 <= size && a == base + o
    ensures MappedRange(n, a, 2) && ExpandedHeap.HalfAt(n, a) == Field(LoadBytes(n, base, size), o, 2)
  {
    hide WellFormed, CellOf, Mapped, MappedRange, LoadBytes, BigEndian;
    ObjectLoad(n, base, size, o, 2);
  }

  /** The free block's size, link and tag. */
  ghost predicate BlockFields(n: Memory, l: Layout, block: nat) {
    && WellFormed(n) && l.mem2 + MEM2_MINIMUM <= l.end
    && MappedRange(n, block + 4, 4) && WordAt(n, block + 4) == l.end - l.mem2 - MEM2_OBJECT
    && MappedRange(n, block + 0xC, 4) && WordAt(n, block + 0xC) == 0
    && MappedRange(n, block + 0x10, 2) && ExpandedHeap.HalfAt(n, block + 0x10) == ExpandedHeap.FREE_TAG
  }

  /** The first free block, as the walk reads it. */
  lemma Mem2Block(n: Memory, l: Layout, block: Word)
    requires BlockFields(n, l, block) && block == l.mem2 + ExpandedHeap.HEADER_SIZE
    ensures ExpandedHeap.BlockAt(n, ExpandedHeap.Bounds(block, l.end, block), block) ==
            ExpandedHeap.Some(ExpandedHeap.Free(l.end - l.mem2 - MEM2_OBJECT, 0))
  {
    hide WellFormed, CellOf, Mapped, MappedRange, LoadBytes, BigEndian, WordAt, ExpandedHeap.HalfAt;
  }

  /** One free block: the region less the two headers. */
  ghost predicate OneFreeBlock(n: Memory, l: Layout, block: Word) {
    && WellFormed(n) && block == l.mem2 + ExpandedHeap.HEADER_SIZE && ExpandedHeap.Lists(n, l.mem2, [block])
    && ExpandedHeap.TotalOf(n, l.mem2, [block]) ==
       l.end - l.mem2 - ExpandedHeap.HEADER_SIZE - ExpandedHeap.BLOCK_HEADER_SIZE
  }

  lemma FreshList(n: Memory, l: Layout, h: ExpandedHeap.Bounds)
    requires WellFormed(n) && l.mem2 + MEM2_MINIMUM <= l.end
    requires ExpandedHeap.Header(n, l.mem2) == ExpandedHeap.Some(h) && h.first == l.mem2 + ExpandedHeap.HEADER_SIZE
    requires ExpandedHeap.BlockAt(n, h, h.first) ==
             ExpandedHeap.Some(ExpandedHeap.Free(l.end - l.mem2 - MEM2_OBJECT, 0))
    ensures OneFreeBlock(n, l, h.first)
  {
    hide WellFormed, ExpandedHeap.BlockAt, ExpandedHeap.Header;
    var list := [h.first];
    assert list[1..] == [] && list[..0] == [];
    assert ExpandedHeap.IsList(n, h, 0, []);
    assert ExpandedHeap.IsList(n, h, h.first, list);
    assert ExpandedHeap.Total(n, h, list) == ExpandedHeap.Total(n, h, list[..0]) + ExpandedHeap.SizeOf(n, h, h.first);
  }

  lemma FreshHeader(n: Memory, l: Layout, h: ExpandedHeap.Bounds)
    requires WellFormed(n) && l.mem2 != 0 && MappedRange(n, l.mem2, ExpandedHeap.HEADER_SIZE)
    requires l.mem2 + MEM2_MINIMUM <= l.end
    requires h == ExpandedHeap.Bounds(l.mem2 + ExpandedHeap.HEADER_SIZE, l.end, l.mem2 + ExpandedHeap.HEADER_SIZE)
    requires var s := LoadBytes(n, l.mem2, ExpandedHeap.HEADER_SIZE);
             && Word32(s, 0) == ExpandedHeap.TAG && Word32(s, ExpandedHeap.DATA_START) == h.start
             && Word32(s, ExpandedHeap.DATA_END) == h.end && Word32(s, ExpandedHeap.FREE_LIST) == h.first
    ensures ExpandedHeap.Header(n, l.mem2) == ExpandedHeap.Some(h)
  {
    hide WellFormed, MappedRange, LoadBytes, Word32;
  }

  lemma Mem2BlockFields(n: Memory, l: Layout, s: seq<Byte>, block: nat)
    requires Mem2Held(n, l, s) && block == l.mem2 + ExpandedHeap.HEADER_SIZE
    ensures BlockFields(n, l, block)
  {
    hide *;
    HeldParts(n, l, s);
    BlockPlaces(l, block);
    Mem2WordAt(n, l, s, 1, block + 4);
    Mem2WordAt(n, l, s, 3, block + 0xC);
    Mem2TagAt(n, l, s, block + 0x10);
    BlockFieldsAre(n, l, block);
  }

  lemma HeldParts(n: Memory, l: Layout, s: seq<Byte>)
    requires Mem2Held(n, l, s)
    ensures WellFormed(n) && l.mem2 + MEM2_MINIMUM <= l.end
  {
    hide WellFormed, MappedRange, LoadBytes, Mem2Bytes;
  }

  lemma BlockPlaces(l: Layout, block: nat)
    requires l.mem2 + MEM2_MINIMUM <= l.end && block == l.mem2 + ExpandedHeap.HEADER_SIZE
    ensures block + 4 == l.mem2 + 0x54 + 4 * 1 && block + 0xC == l.mem2 + 0x54 + 4 * 3
    ensures block + 0x10 == l.mem2 + 0x64
    ensures |BlockWords(l)| == 4 && BlockWords(l)[1].value == l.end - l.mem2 - MEM2_OBJECT
    ensures BlockWords(l)[3].value == 0
  {
  }

  lemma BlockFieldsAre(n: Memory, l: Layout, block: nat)
    requires WellFormed(n) && l.mem2 + MEM2_MINIMUM <= l.end
    requires MappedRange(n, block + 4, 4) && WordAt(n, block + 4) == l.end - l.mem2 - MEM2_OBJECT
    requires MappedRange(n, block + 0xC, 4) && WordAt(n, block + 0xC) == 0
    requires MappedRange(n, block + 0x10, 2) && ExpandedHeap.HalfAt(n, block + 0x10) == ExpandedHeap.FREE_TAG
    ensures BlockFields(n, l, block)
  {
    hide WellFormed, MappedRange, WordAt, ExpandedHeap.HalfAt;
  }

  lemma Mem2HeldFresh(n: Memory, l: Layout, s: seq<Byte>, block: Word)
    requires Mem2Held(n, l, s) && block == l.mem2 + ExpandedHeap.HEADER_SIZE && l.mem2 != 0
    ensures OneFreeBlock(n, l, block)
  {
    var h := ExpandedHeap.Bounds(block, l.end, block);
    hide WellFormed, MappedRange, LoadBytes, Mem2Bytes, Word32, ExpandedHeap.BlockAt, ExpandedHeap.Header, OneFreeBlock;
    Mem2Fields(n, l, s);
    FreshHeader(n, l, h);
    Mem2BlockFields(n, l, s, block);
    Mem2Block(n, l, block);
    FreshList(n, l, h);
  }

  /** A freshly initialised expanded heap has one free block behind its two headers. */
  lemma Mem2Fresh(m: Memory, l: Layout, block: Word)
    requires RoomForHeaders(m, l) && block == l.mem2 + ExpandedHeap.HEADER_SIZE
    ensures OneFreeBlock(Mem2Stored(m, l), l, block)
  {
    Mem2StoredBytes(m, l);
    assert l.mem2 != 0;
    hide *;
    var s: seq<Byte> :| Mem2Held(Mem2Stored(m, l), l, s);
    Mem2HeldFresh(Mem2Stored(m, l), l, s, block);
  }

  // What the stores leave alone

  lemma Mem2HeaderFrame(m: Memory, l: Layout, b: nat, k: nat)
    requires RoomForHeaders(m, l) && MappedRange(m, b, k) && Separate(m, l.mem2, MEM2_OBJECT, b, k)
    ensures SpanKept(m, Mem2Header(m, l), b, k)
  {
    Mem2WordsFit(l);
    hide WellFormed, MappedRange, Initialised, SameLayout, Separate, Mem2Words, StoresFit, SpanKept;
    InitialisedFrame(m, l.mem2, MEM2_OBJECT, Mem2Words(l), b, k);
  }

  lemma Mem2HalfKept(u: Memory, l: Layout, o: nat, v: Half, b: nat, k: nat)
    requires WellFormed(u) && MappedRange(u, l.mem2, MEM2_OBJECT) && o + 2 <= MEM2_OBJECT
    requires MappedRange(u, b, k) && Separate(u, l.mem2, MEM2_OBJECT, b, k)
    ensures SpanKept(u, Mem2Half(u, l, o, v), b, k)
  {
    hide WellFormed, CellOf, Mapped, LoadBytes, StoreBytes, SameLayout, Separate, BytesOf, SpanKept;
    SubRange(u, l.mem2, MEM2_OBJECT, o, 2);
    BytesKept(u, l.mem2, MEM2_OBJECT, o, BytesOf(v, 2), b, k);
  }

  lemma Mem2HalfFrame(m: Memory, u: Memory, l: Layout, o: nat, v: Half, b: nat, k: nat)
    requires MappedRange(u, l.mem2, MEM2_OBJECT) && o + 2 <= MEM2_OBJECT && SameLayout(m, u)
    requires SpanKept(m, u, b, k) && Separate(m, l.mem2, MEM2_OBJECT, b, k)
    ensures SpanKept(m, Mem2Half(u, l, o, v), b, k)
  {
    assert WellFormed(m) && WellFormed(u) && MappedRange(u, b, k);
    LayoutKept(m, u, l.mem2, MEM2_OBJECT, b, k);
    hide WellFormed, MappedRange, SameLayout, Separate, Mem2Half, SpanKept;
    Mem2HalfKept(u, l, o, v, b, k);
    SpanChain(m, u, Mem2Half(u, l, o, v), b, k);
  }

  lemma Mem2BlockFrame(m: Memory, u: Memory, l: Layout, b: nat, k: nat)
    requires MappedRange(u, l.mem2, MEM2_OBJECT) && SameLayout(m, u) && l.mem2 + MEM2_MINIMUM <= l.end
    requires SpanKept(m, u, b, k) && Separate(m, l.mem2, MEM2_OBJECT, b, k)
    ensures StoresFit(BlockWords(l), MEM2_OBJECT)
    ensures SpanKept(m, StoreWords(u, l.mem2, MEM2_OBJECT, BlockWords(l)), b, k)
  {
    Mem2WordsFit(l);
    var ws := BlockWords(l);
    assert ws[..|ws|] == ws;
    hide WellFormed, CellOf, Mapped, MappedRange, LoadBytes, StoreWords, SameLayout, Separate, BlockWords, StoresFit;
    LayoutKept(m, u, l.mem2, MEM2_OBJECT, b, k);
    StoreWordsFrame(u, l.mem2, MEM2_OBJECT, ws, |ws|, b, k);
    SpanChain(m, u, StoreWords(u, l.mem2, MEM2_OBJECT, ws), b, k);
  }

  lemma Mem2Frame(m: Memory, l: Layout, b: nat, k: nat)
    requires RoomForHeaders(m, l) && MappedRange(m, b, k) && Separate(m, l.mem2, MEM2_OBJECT, b, k)
    ensures SpanKept(m, Mem2Stored(m, l), b, k)
  {
    var header := Mem2Header(m, l);
    var group := Mem2Half(header, l, 0x50, 0);
    var attributes := Mem2Half(group, l, 0x52, 0);
    Mem2WordsFit(l);
    var block := StoreWords(attributes, l.mem2, MEM2_OBJECT, BlockWords(l));
    hide WellFormed, CellOf, Mapped, MappedRange, StoreWords, SameLayout, Separate, BlockWords, Mem2Words, StoresFit,
         Mem2Header, Mem2Half, SpanKept, DistinctOffsets;
    Mem2HeaderFrame(m, l, b, k);
    Mem2HalfFrame(m, header, l, 0x50, 0, b, k);
    LayoutChain(m, header, group);
    Mem2HalfFrame(m, group, l, 0x52, 0, b, k);
    LayoutChain(m, group, attributes);
    Mem2BlockFrame(m, attributes, l, b, k);
    LayoutChain(m, attributes, block);
    Mem2HalfFrame(m, block, l, 0x64, ExpandedHeap.FREE_TAG, b, k);
  }

  lemma ForegroundFrame(m: Memory, l: Layout, b: nat, k: nat)
    requires RoomForHeaders(m, l) && MappedRange(m, b, k)
    requires Separate(m, l.foreground, FrameHeap.HEADER_SIZE, b, k)
    ensures SpanKept(m, ForegroundStored(m, l), b, k)
  {
    ForegroundWordsFit(l);
    hide WellFormed, MappedRange, Initialised, SameLayout, Separate, ForegroundWords, StoresFit, SpanKept;
    InitialisedFrame(m, l.foreground, FrameHeap.HEADER_SIZE, ForegroundWords(l), b, k);
  }

  /** Both heaps, one after the other. */
  ghost function HeapsStored(m: Memory, l: Layout): (n: Memory)
    requires RoomForHeaders(m, l)
    ensures SameLayout(m, n) && WellFormed(n)
  {
    hide WellFormed, CellOf, Mapped, MappedRange, SameLayout, ForegroundStored, Mem2Stored;
    var first := ForegroundStored(m, l);
    RoomKept(m, first, l);
    LayoutChain(m, first, Mem2Stored(first, l));
    Mem2Stored(first, l)
  }

  lemma RoomKept(m: Memory, n: Memory, l: Layout)
    requires RoomForHeaders(m, l) && SameLayout(m, n)
    ensures RoomForHeaders(n, l)
  {
    hide WellFormed, CellOf, Mapped, MappedRange, SameLayout;
    SameCells(m, n);
  }

  lemma ValidateKept(m: Memory, n: Memory, heap: Word)
    requires heap != 0 && SpanKept(m, n, heap, FrameHeap.HEADER_SIZE)
    ensures FrameHeap.Validate(n, heap) == FrameHeap.Validate(m, heap)
  {
    hide WellFormed, MappedRange, LoadBytes;
  }

  /** After the initialisation both heaps are valid and empty. */
  lemma HeapsFresh(m: Memory, l: Layout, block: Word)
    requires RoomForHeaders(m, l) && block == l.mem2 + ExpandedHeap.HEADER_SIZE
    requires Separate(m, l.mem2, MEM2_OBJECT, l.foreground, FrameHeap.HEADER_SIZE)
    ensures FrameHeap.Validate(HeapsStored(m, l), l.foreground) == FrameHeap.Some(InitialFrame(l))
    ensures OneFreeBlock(HeapsStored(m, l), l, block)
  {
    var first := ForegroundStored(m, l);
    hide WellFormed, CellOf, Mapped, MappedRange, SameLayout, ForegroundStored, Mem2Stored, Separate,
         OneFreeBlock, FrameHeap.Validate, SpanKept;
    RoomKept(m, first, l);
    LayoutKept(m, first, l.mem2, MEM2_OBJECT, l.foreground, FrameHeap.HEADER_SIZE);
    ForegroundValid(m, l);
    Mem2Frame(first, l, l.foreground, FrameHeap.HEADER_SIZE);
    ValidateKept(first, Mem2Stored(first, l), l.foreground);
    Mem2Fresh(first, l, block);
  }

  // The object

  datatype Heaps = Heaps(cursor: Word, limit: Word, layout: Layout)

  const NO_LAYOUT := Layout(0, 0, 0)

  /** When the initialisation takes place, and how it splits the gap. */
  ghost function Initialisation(s: Heaps, m: Memory): Option<Layout>
    requires WellFormed(m)
  {
    var l := Partition(s.cursor, s.limit);
    if s.layout != NO_LAYOUT || l.None? then None
    else if l.value.mem2 <= l.value.end && l.value.foreground <= l.value.mem2 &&
            MappedRange(m, l.value.mem2, l.value.end - l.value.mem2) &&
            MappedRange(m, l.value.foreground, l.value.mem2 - l.value.foreground) then l
    else None
  }

  /** The initialisation changes nothing but the two headers: all else keeps its bytes. */
  lemma HeapsFrame(m: Memory, l: Layout, b: nat, k: nat)
    requires RoomForHeaders(m, l) && MappedRange(m, b, k)
    requires Separate(m, l.foreground, FrameHeap.HEADER_SIZE, b, k) && Separate(m, l.mem2, MEM2_OBJECT, b, k)
    ensures SpanKept(m, HeapsStored(m, l), b, k)
  {
    var first := ForegroundStored(m, l);
    ForegroundFrame(m, l, b, k);
    RoomKept(m, first, l);
    hide WellFormed, CellOf, Mapped, SameLayout, ForegroundStored, Mem2Stored, Separate;
    LayoutKept(m, first, l.mem2, MEM2_OBJECT, b, k);
    Mem2Frame(first, l, b, k);
    SpanChain(m, first, Mem2Stored(first, l), b, k);
  }

  lemma InitialisationRoom(s: Heaps, m: Memory)
    requires WellFormed(m) && Initialisation(s, m).Some?
    ensures var l := Initialisation(s, m).value;
            && RoomForHeaders(m, l) && Split(s.cursor, s.limit - s.limit % 16, l)
            && l.mem2 + MEM2_OBJECT <= l.end && l.foreground + FrameHeap.HEADER_SIZE <= l.mem2
  {
    PartitionExact(s.cursor, s.limit);
    hide Partition, CellOf, Mapped, WellFormed;
    var l := Initialisation(s, m).value;
    SubRange(m, l.mem2, l.end - l.mem2, 0, MEM2_OBJECT);
    SubRange(m, l.foreground, l.mem2 - l.foreground, 0, FrameHeap.HEADER_SIZE);
  }

  class GuestHeaps {
    var cursor: Word
    var limit: Word
    var foreground: Word   // base heap handle
    var mem2: Word         // base heap handle and region begin
    var mem2End: Word

    ghost function State(): Heaps
      reads this
    {
      Heaps(cursor, limit, Layout(foreground, mem2, mem2End))
    }

    constructor ()
      ensures State() == Heaps(0, 0, NO_LAYOUT)
    {
      cursor, limit, foreground, mem2, mem2End := 0, 0, 0, 0, 0;
    }

    method ConfigureGuestHeap(begin: Word, end: Word)
      modifies this
      ensures State() == Heaps(begin, end, NO_LAYOUT)
    {
      cursor, limit, foreground, mem2, mem2End := begin, end, 0, 0, 0;
    }

    /** Zero when the request cannot be met. */
    method AllocateGuestMemory(size: Word, alignment: Word) returns (address: Word)
      modifies this`cursor
      ensures var r := Bump(old(cursor), limit, size, alignment);
              if r.Some? then address == r.value && cursor == r.value + size
              else address == 0 && cursor == old(cursor)
    {
      BumpMeans(cursor, limit, size, alignment);
      hide And, AlignUp;
      if size == 0 || alignment == 0 || And(alignment, alignment - 1) != 0 { return 0; }
      var aligned: nat := AlignUp(cursor, alignment);
      var allocationEnd := aligned + size;
      if aligned > limit || allocationEnd > limit { return 0; }
      cursor := allocationEnd;
      return aligned;
    }

    method ChooseLayout(memory: GuestMemory) returns (r: Option<Layout>)
      requires memory.Valid()
      ensures r == Initialisation(State(), memory.Image())
    {
      if foreground != 0 || mem2 != 0 || mem2End != 0 { return None; }
      PartitionExact(cursor, limit);
      hide Partition, WellFormed, MappedRange;
      var split := Partition(cursor, limit);
      if split.None? { return None; }
      var l := split.value;
      var upper := ValidateRange(memory, l.mem2, l.end - l.mem2);
      var lower := ValidateRange(memory, l.foreground, l.mem2 - l.foreground);
      if !upper || !lower { return None; }
      return split;
    }

    method InitialiseDefaultHeaps(memory: GuestMemory) returns (ok: bool)
      requires memory.Valid()
      modifies this, memory, memory.bytes, memory.flatGenerations
      ensures memory.Valid()
      ensures HeapsInitialised(old(State()), old(memory.Image()), ok, State(), memory.Image())
    {
      var choice := ChooseLayout(memory);
      HeapsInitialisedMeans(State(), memory.Image());
      if choice.None? { return false; }
      CommitLayout(memory, choice.value);
      return true;
    }

    method CommitLayout(memory: GuestMemory, l: Layout)
      requires memory.Valid() && RoomForHeaders(memory.Image(), l)
      modifies this, memory, memory.bytes, memory.flatGenerations
      ensures memory.Valid() && memory.Image() == HeapsStored(old(memory.Image()), l)
      ensures State() == Heaps(old(cursor), l.foreground, l)
    {
      hide *;
      StoreHeaps(memory, l);
      Adopt(l);
    }

    method Adopt(l: Layout)
      modifies this
      ensures State() == Heaps(old(cursor), l.foreground, l)
    {
      limit, foreground, mem2, mem2End := l.foreground, l.foreground, l.mem2, l.end;
    }
  }

  lemma HeapsInitialisedMeans(s: Heaps, m: Memory)
    requires WellFormed(m)
    ensures var l := Initialisation(s, m);
            if l.None? then HeapsInitialised(s, m, false, s, m)
            else RoomForHeaders(m, l.value) &&
                 HeapsInitialised(s, m, true, Heaps(s.cursor, l.value.foreground, l.value), HeapsStored(m, l.value))
  {
    hide WellFormed, Initialisation, HeapsStored, MappedRange, RoomForHeaders, Split;
    if Initialisation(s, m).Some? { InitialisationRoom(s, m); }
  }

  /** On success the bump heap ends where the frame heap begins, and both heaps are in memory. */
  ghost predicate HeapsInitialised(s: Heaps, m: Memory, ok: bool, t: Heaps, n: Memory) {
    WellFormed(m) &&
    var l := Initialisation(s, m);
    && (ok <==> l.Some?)
    && (!ok ==> t == s && n == m)
    && (ok ==> t == Heaps(s.cursor, l.value.foreground, l.value) && RoomForHeaders(m, l.value) &&
               n == HeapsStored(m, l.value))
  }

  method StoreHeaps(memory: GuestMemory, l: Layout)
    requires memory.Valid() && RoomForHeaders(memory.Image(), l)
    modifies memory, memory.bytes, memory.flatGenerations
    ensures memory.Valid() && memory.Image() == HeapsStored(old(memory.Image()), l)
  {
    hide WellFormed, MappedRange, ForegroundStored, Mem2Stored, SameLayout;
    RoomKept(memory.Image(), ForegroundStored(memory.Image(), l), l);
    StoreForeground(memory, l);
    StoreMem2(memory, l);
  }

  method StoreForeground(memory: GuestMemory, l: Layout)
    requires memory.Valid() && RoomForHeaders(memory.Image(), l)
    modifies memory, memory.bytes, memory.flatGenerations
    ensures memory.Valid() && memory.Image() == ForegroundStored(old(memory.Image()), l)
  {
    ForegroundWordsFit(l);
    hide WellFormed, MappedRange, Initialised, SameLayout, ForegroundWords, StoresFit, DistinctOffsets;
    InitialiseObject(memory, l.foreground, FrameHeap.HEADER_SIZE, ForegroundWords(l));
  }

  method StoreMem2Header(memory: GuestMemory, l: Layout)
    requires memory.Valid() && RoomForHeaders(memory.Image(), l)
    modifies memory, memory.bytes, memory.flatGenerations
    ensures memory.Valid() && memory.Image() == Mem2Header(old(memory.Image()), l)
  {
    Mem2WordsFit(l);
    hide WellFormed, MappedRange, Initialised, SameLayout, Mem2Words, StoresFit;
    InitialiseObject(memory, l.mem2, MEM2_OBJECT, Mem2Words(l));
  }

  method StoreMem2Half(memory: GuestMemory, l: Layout, o: nat, v: Half)
    requires memory.Valid() && WellFormed(memory.Image()) && MappedRange(memory.Image(), l.mem2, MEM2_OBJECT)
    requires o + 2 <= MEM2_OBJECT
    modifies memory, memory.bytes, memory.flatGenerations
    ensures memory.Valid() && memory.Image() == Mem2Half(old(memory.Image()), l, o, v)
  {
    hide WellFormed, CellOf, Mapped, StoreBytes, SameLayout, BytesOf;
    SubRange(memory.Image(), l.mem2, MEM2_OBJECT, o, 2);
    var _ := memory.StoreScalar(l.mem2 + o, v, 2);
  }

  method StoreMem2(memory: GuestMemory, l: Layout)
    requires memory.Valid() && RoomForHeaders(memory.Image(), l)
    modifies memory, memory.bytes, memory.flatGenerations
    ensures memory.Valid() && memory.Image() == Mem2Stored(old(memory.Image()), l)
  {
    Mem2WordsFit(l);
    hide WellFormed, MappedRange, StoreWords, SameLayout, Mem2Words, BlockWords, StoresFit, Mem2Header, Mem2Half;
    StoreMem2Header(memory, l);
    StoreMem2Half(memory, l, 0x50, 0);
    StoreMem2Half(memory, l, 0x52, 0);
    StoreAllWords(memory, l.mem2, MEM2_OBJECT, BlockWords(l));
    StoreMem2Half(memory, l, 0x64, ExpandedHeap.FREE_TAG);
  }
}
