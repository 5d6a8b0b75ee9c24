/** Frame heaps: the header in guest memory and the two-ended aligned allocator. */
module FrameHeap {
  import opened Bits
  import opened MemoryImage
  import opened GuestObjects
  import opened GuestMemoryModel
  import opened GuestAccess

  const HEADER_SIZE: nat := 0x4C
  const TAG: Word := 0x4652_4D48
  const DATA_START: nat := 0x18
  const DATA_END: nat := 0x1C
  const FLAGS: nat := 0x30
  const HEAD: nat := 0x40
  const TAIL: nat := 0x44
  const SIGN: nat := 0x8000_0000

  datatype Heap = Heap(flags: Word, dataStart: Word, dataEnd: Word, head: Word, tail: Word)
  datatype Option<T> = None | Some(value: T)

  /** An HLE execution error, a null result, or the address of the block. */
  datatype Allocation = Fault | NoSpace | At(start: Word)

  predicate ZeroFills(flags: Word) { flags % 2 == 1 }
  predicate DebugMode(flags: Word) { (flags / 2) % 2 == 1 }

  function HeapIn(h: seq<Byte>): Heap
    requires |h| == HEADER_SIZE
  {
    Heap(Word32(h, FLAGS), Word32(h, DATA_START), Word32(h, DATA_END), Word32(h, HEAD), Word32(h, TAIL))
  }

  predicate InBounds(heap: nat, f: Heap) {
    heap + HEADER_SIZE <= f.dataStart <= f.head <= f.tail <= f.dataEnd
  }

  /** `validate_frame_heap` on the bytes of the header. */
  function ValidHeader(heap: nat, h: seq<Byte>): Option<Heap>
    requires |h| == HEADER_SIZE
  {
    if Word32(h, 0) == TAG && InBounds(heap, HeapIn(h)) then Some(HeapIn(h)) else None
  }

  ghost function Validate(m: Memory, heap: Word): Option<Heap>
    requires WellFormed(m)
  {
    if heap == 0 || !MappedRange(m, heap, HEADER_SIZE) then None
    else ValidHeader(heap, LoadBytes(m, heap, HEADER_SIZE))
  }

  /** Which words of guest memory make a valid header. */
  lemma HeaderExact(m: Memory, heap: Word, f: Heap)
    requires WellFormed(m)
    ensures Validate(m, heap) == Some(f) <==>
            && heap != 0 && MappedRange(m, heap, 0x4C) && WordIs(m, heap, 0x4652_4D48)
            && WordIs(m, heap + 0x30, f.flags) && WordIs(m, heap + 0x18, f.dataStart)
            && WordIs(m, heap + 0x1C, f.dataEnd) && WordIs(m, heap + 0x40, f.head) && WordIs(m, heap + 0x44, f.tail)
            && heap + 0x4C <= f.dataStart <= f.head <= f.tail <= f.dataEnd
  {
    hide WellFormed, MappedRange, LoadBytes, Word32, WordIs;
    if MappedRange(m, heap, 0x4C) {
      WordIsField(m, heap, 0x4C, 0, 0x4652_4D48);
      WordIsField(m, heap, 0x4C, 0x30, f.flags);
      WordIsField(m, heap, 0x4C, 0x18, f.dataStart);
      WordIsField(m, heap, 0x4C, 0x1C, f.dataEnd);
      WordIsField(m, heap, 0x4C, 0x40, f.head);
      WordIsField(m, heap, 0x4C, 0x44, f.tail);
    }
  }

  // The allocator

  /** Where a block goes, if it fits. */
  function Place(head: Word, tail: Word, size: nat, alignment: nat, fromHead: bool): (r: Option<nat>)
    requires 1 <= alignment <= SIGN && size >= 1
  {
    if fromHead then
      var start := AlignUp(head, alignment);
      if start < head || start + size > tail then None else Some(start)
    else if size > tail then None
    else
      var start := AlignDown(tail - size, alignment);
      if start < head || start + size > tail then None else Some(start)
  }

  /** An aligned block inside the free part of the heap. */
  ghost predicate Fits(head: Word, tail: Word, size: nat, alignment: nat, b: nat) {
    alignment >= 1 && b % alignment == 0 && head <= b && b + size <= tail
  }

  lemma AlignmentBounds(alignment: nat)
    requires alignment <= SIGN
    ensures alignment <= TWO_TO_THE_64 && 0x1_0000_0000 + alignment <= TWO_TO_THE_64
  {
  }

  /**
   * The allocator is complete at both ends: it succeeds exactly when some aligned block fits, and takes
   * the lowest one from the head, the highest one from the tail.
   */
  lemma PlaceComplete(head: Word, tail: Word, size: nat, alignment: nat, fromHead: bool, b: nat)
    requires IsPowerOfTwo(alignment) && alignment <= SIGN && size >= 1
    ensures var r := Place(head, tail, size, alignment, fromHead);
            && (Fits(head, tail, size, alignment, b) ==> r.Some?)
            && (r.Some? ==> Fits(head, tail, size, alignment, r.value))
            && (r.Some? && Fits(head, tail, size, alignment, b) ==> if fromHead then r.value <= b else b <= r.value)
  {
    hide AlignUp, AlignDown, IsPowerOfTwo;
    AlignmentBounds(alignment);
    if fromHead {
      AlignUpMeans(head, alignment);
      if b % alignment == 0 { RoundingIsTight(head, alignment, AlignUp(head, alignment), b); }
    } else if size <= tail {
      AlignDownMeans(tail - size, alignment);
      if b % alignment == 0 { RoundingIsTight(tail - size, alignment, AlignDown(tail - size, alignment), b); }
    }
  }

  /** A head request succeeds exactly when a tail request would. */
  lemma EndsAgree(head: Word, tail: Word, size: nat, alignment: nat)
    requires IsPowerOfTwo(alignment) && alignment <= SIGN && size >= 1
    ensures Place(head, tail, size, alignment, true).Some? <==> Place(head, tail, size, alignment, false).Some?
    ensures Place(head, tail, size, alignment, true).Some? <==>
              (exists b: nat :: Fits(head, tail, size, alignment, b))
  {
    assert alignment >= 1;
    hide Place, IsPowerOfTwo;
    var low, high := Place(head, tail, size, alignment, true), Place(head, tail, size, alignment, false);
    PlaceComplete(head, tail, size, alignment, true, if high.Some? then high.value else 0);
    PlaceComplete(head, tail, size, alignment, false, if low.Some? then low.value else 0);
    if b: nat :| Fits(head, tail, size, alignment, b) {
      PlaceComplete(head, tail, size, alignment, true, b);
    }
  }

  /** The size query. */
  function Allocatable(head: Word, tail: Word, alignment: nat): nat
    requires 1 <= alignment <= SIGN
  {
    var aligned := AlignUp(head, alignment);
    if aligned >= tail then 0 else tail - aligned
  }

  /** The query is exact: a head request of a size succeeds exactly up to it. */
  lemma AllocatableExact(head: Word, tail: Word, size: nat, alignment: nat)
    requires IsPowerOfTwo(alignment) && alignment <= SIGN && size >= 1
    ensures Place(head, tail, size, alignment, true).Some? <==> size <= Allocatable(head, tail, alignment)
  {
    hide AlignUp, AlignDown, IsPowerOfTwo;
    AlignmentBounds(alignment);
    AlignUpMeans(head, alignment);
  }

  // The call

  function Magnitude(signed: int): nat { if signed < 0 then -signed else signed }

  function EffectiveSize(requested: Word): nat { if requested == 0 then 1 else requested }

  /** What the call decides before it changes anything. */
  ghost function Decide(m: Memory, heap: Word, requested: Word, signed: int): (r: Allocation)
    requires WellFormed(m) && -(SIGN as int) <= signed < SIGN
  {
    var alignment := Magnitude(signed);
    if signed == 0 || signed == -(SIGN as int) || And(alignment, alignment - 1) != 0 then Fault
    else
      var f := Validate(m, heap);
      if f.None? || DebugMode(f.value.flags) then Fault
      else
        var place := Place(f.value.head, f.value.tail, EffectiveSize(requested), alignment, signed > 0);
        if place.None? then NoSpace
        else if MappedRange(m, place.value, EffectiveSize(requested)) && place.value < ADDRESS_SPACE_END
        then At(place.value) else Fault
  }

  /** The boundary that a block at `start` leaves. */
  function Boundary(start: Word, size: nat, fromHead: bool): nat { if fromHead then start + size else start }

  function BoundaryOffset(fromHead: bool): nat { if fromHead then HEAD else TAIL }

  /** The stores of a successful call: the zero fill if asked for, and the boundary. */
  ghost function Commit(m: Memory, heap: nat, zero: bool, start: Word, size: nat, fromHead: bool): (n: Memory)
    requires WellFormed(m) && MappedRange(m, heap, HEADER_SIZE) && MappedRange(m, start, size)
    requires Boundary(start, size, fromHead) < ADDRESS_SPACE_END
    ensures SameLayout(m, n) && WellFormed(n)
  {
    hide WellFormed, CellOf, Mapped, SameLayout;
    LayoutRefl(m);
    var filled := if zero then StoreBytes(m, start, seq<Byte>(size, _ => 0)) else m;
    SubRange(filled, heap, HEADER_SIZE, BoundaryOffset(fromHead), 4);
    var n := StoreWord(filled, heap + BoundaryOffset(fromHead), Boundary(start, size, fromHead));
    LayoutChain(m, filled, n);
    n
  }

  lemma DecideMeans(m: Memory, heap: Word, requested: Word, signed: int)
    requires WellFormed(m) && -(SIGN as int) <= signed < SIGN && Decide(m, heap, requested, signed).At?
    ensures var f := Validate(m, heap);
            var start, size := Decide(m, heap, requested, signed).start, EffectiveSize(requested);
            && heap != 0 && MappedRange(m, heap, HEADER_SIZE) && f.Some? && !DebugMode(f.value.flags)
            && IsPowerOfTwo(Magnitude(signed)) && Magnitude(signed) <= SIGN
            && Fits(f.value.head, f.value.tail, size, Magnitude(signed), start)
            && MappedRange(m, start, size) && Boundary(start, size, signed > 0) < ADDRESS_SPACE_END
  {
    hide WellFormed, MappedRange, LoadBytes, ValidHeader, And, Place;
    var f := Validate(m, heap).value;
    PlaceComplete(f.head, f.tail, EffectiveSize(requested), Magnitude(signed), signed > 0, 0);
  }

  /** What the source demands of the heap and of the alignment, whatever the size. */
  ghost predicate CallValid(m: Memory, heap: Word, signed: int)
    requires WellFormed(m) && -(SIGN as int) <= signed < SIGN
  {
    && signed != 0 && signed != -(SIGN as int) && IsPowerOfTwo(if signed < 0 then -signed else signed)
    && Validate(m, heap).Some? && Validate(m, heap).value.flags % 4 < 2
  }

  lemma DebugMeans(flags: Word)
    ensures DebugMode(flags) <==> flags % 4 >= 2
  {
  }

  /** The lowest aligned block that fits, or the highest one. */
  ghost predicate Outermost(head: Word, tail: Word, size: nat, alignment: nat, lowest: bool, a: nat) {
    && Fits(head, tail, size, alignment, a)
    && forall b: nat :: Fits(head, tail, size, alignment, b) ==> if lowest then a <= b else b <= a
  }

  /**
   * The call in terms of its arguments, for a block of the requested size, or of one byte: an error for a bad
   * call, null if and only if no aligned block fits, and an address if and only if that is the lowest or the
   * highest such block and is mapped.
   */
  lemma DecideExact(m: Memory, heap: Word, requested: Word, signed: int)
    requires WellFormed(m) && -(SIGN as int) <= signed < SIGN
    ensures var r := Decide(m, heap, requested, signed);
            var size: nat := if requested == 0 then 1 else requested;
            var alignment: nat := if signed < 0 then -signed else signed;
            if !CallValid(m, heap, signed) then r == Fault
            else
              var f := Validate(m, heap).value;
              && (r == NoSpace <==> forall b: nat :: !Fits(f.head, f.tail, size, alignment, b))
              && (forall a: nat :: r.At? && r.start == a <==>
                    Outermost(f.head, f.tail, size, alignment, signed > 0, a) && MappedRange(m, a, size))
  {
    hide WellFormed, MappedRange, Validate, And, Place, Fits, DebugMode;
    if Validate(m, heap).Some? { DebugMeans(Validate(m, heap).value.flags); }
    if CallValid(m, heap, signed) {
      var f := Validate(m, heap).value;
      var size: nat := if requested == 0 then 1 else requested;
      var alignment: nat := if signed < 0 then -signed else signed;
      var place := Place(f.head, f.tail, size, alignment, signed > 0);
      forall b: nat
        ensures Fits(f.head, f.tail, size, alignment, b) ==> place.Some?
        ensures place.Some? ==> Outermost(f.head, f.tail, size, alignment, signed > 0, place.value)
      {
        PlaceOutermost(f.head, f.tail, size, alignment, signed > 0, b);
      }
      if place.Some? { FitsBelow(f.head, f.tail, size, alignment, place.value); }
    }
  }

  lemma PlaceOutermost(head: Word, tail: Word, size: nat, alignment: nat, fromHead: bool, b: nat)
    requires IsPowerOfTwo(alignment) && alignment <= SIGN && size >= 1
    ensures var r := Place(head, tail, size, alignment, fromHead);
            && (Fits(head, tail, size, alignment, b) ==> r.Some?)
            && (r.Some? ==> Outermost(head, tail, size, alignment, fromHead, r.value))
  {
    assert alignment >= 1;
    hide Place, Fits, IsPowerOfTwo;
    forall c: nat
      ensures var r := Place(head, tail, size, alignment, fromHead);
              && (Fits(head, tail, size, alignment, c) ==> r.Some?)
              && (r.Some? ==> Fits(head, tail, size, alignment, r.value))
              && (r.Some? && Fits(head, tail, size, alignment, c) ==>
                    if fromHead then r.value <= c else c <= r.value)
    {
      PlaceComplete(head, tail, size, alignment, fromHead, c);
    }
  }

  lemma FitsBelow(head: Word, tail: Word, size: nat, alignment: nat, a: nat)
    requires Fits(head, tail, size, alignment, a) && size >= 1
    ensures a < ADDRESS_SPACE_END
  {
  }

  /** The memory after a successful call. */
  ghost function AfterAllocate(m: Memory, heap: Word, requested: Word, signed: int): (n: Memory)
    requires WellFormed(m) && -(SIGN as int) <= signed < SIGN && Decide(m, heap, requested, signed).At?
    ensures SameLayout(m, n) && WellFormed(n)
  {
    DecideMeans(m, heap, requested, signed);
    hide WellFormed, MappedRange, LoadBytes, ValidHeader, Commit, Decide, Validate, SameLayout;
    Commit(m, heap, ZeroFills(Validate(m, heap).value.flags), Decide(m, heap, requested, signed).start,
           EffectiveSize(requested), signed > 0)
  }

  function Moved(f: Heap, start: Word, size: nat, fromHead: bool): Heap
    requires Boundary(start, size, fromHead) < ADDRESS_SPACE_END
  {
    if fromHead then f.(head := Boundary(start, size, fromHead)) else f.(tail := Boundary(start, size, fromHead))
  }

  /** Moving a boundary past a block that fits keeps the header valid. */
  lemma MovedHeader(heap: nat, h: seq<Byte>, f: Heap, start: Word, size: nat, alignment: nat, fromHead: bool)
    requires |h| == HEADER_SIZE && ValidHeader(heap, h) == Some(f) && size >= 1
    requires Fits(f.head, f.tail, size, alignment, start) && Boundary(start, size, fromHead) < ADDRESS_SPACE_END
    ensures ValidHeader(heap, SetWord(h, BoundaryOffset(fromHead), Boundary(start, size, fromHead))) ==
            Some(Moved(f, start, size, fromHead))
  {
    hide SetWord, Word32;
    var o, v := BoundaryOffset(fromHead), Boundary(start, size, fromHead);
    SetWordMeans(h, o, v, 0);
    SetWordMeans(h, o, v, FLAGS);
    SetWordMeans(h, o, v, DATA_START);
    SetWordMeans(h, o, v, DATA_END);
    SetWordMeans(h, o, v, HEAD);
    SetWordMeans(h, o, v, TAIL);
  }

  lemma ZeroedBytes(m: Memory, a: nat, n: nat)
    requires WellFormed(m) && MappedRange(m, a, n)
    ensures LoadBytes(StoreBytes(m, a, seq<Byte>(n, _ => 0)), a, n) == seq<Byte>(n, _ => 0)
  {
    hide WellFormed, CellOf, StoreBytes, LoadBytes, ReadCell, InStore, ByteAt, Mapped;
    var zeros := seq<Byte>(n, _ => 0);
    var u := StoreBytes(m, a, zeros);
    forall x | a <= x < a + n ensures Mapped(u, x) && ByteAt(u, x) == 0 {
      ZeroedByte(m, a, zeros, x);
    }
    assert forall k :: 0 <= k < n ==> LoadBytes(u, a, n)[k] == 0;
  }

  lemma ZeroedByte(m: Memory, a: nat, zeros: seq<Byte>, x: nat)
    requires WellFormed(m) && MappedRange(m, a, |zeros|) && a <= x < a + |zeros|
    requires forall k :: 0 <= k < |zeros| ==> zeros[k] == 0
    ensures var u := StoreBytes(m, a, zeros); Mapped(u, x) && ByteAt(u, x) == 0
  {
    hide WellFormed, CellOf, StoreBytes, ReadCell, InStore;
    CellInStore(m, x);
    StoredCell(m, a, zeros, CellOf(m, x));
  }

  /** The header after the stores, if the block shares no cell with it or is not cleared. */
  lemma CommitHeader(m: Memory, heap: nat, zero: bool, start: Word, size: nat, fromHead: bool)
    requires WellFormed(m) && MappedRange(m, heap, HEADER_SIZE) && MappedRange(m, start, size)
    requires Boundary(start, size, fromHead) < ADDRESS_SPACE_END
    requires zero ==> Separate(m, start, size, heap, HEADER_SIZE)
    ensures MappedRange(Commit(m, heap, zero, start, size, fromHead), heap, HEADER_SIZE)
    ensures LoadBytes(Commit(m, heap, zero, start, size, fromHead), heap, HEADER_SIZE) ==
            SetWord(LoadBytes(m, heap, HEADER_SIZE), BoundaryOffset(fromHead), Boundary(start, size, fromHead))
  {
    hide WellFormed, CellOf, Mapped, MappedRange, SameLayout, StoreBytes, LoadBytes, StoreWord, Separate, SetWord;
    LayoutKept(m, Commit(m, heap, zero, start, size, fromHead), 0, 0, heap, HEADER_SIZE);
    var filled := m;
    if zero {
      filled := StoreBytes(m, start, seq<Byte>(size, _ => 0));
      StoreFrame(m, start, seq<Byte>(size, _ => 0), heap, HEADER_SIZE);
    }
    WordStored(filled, heap, HEADER_SIZE, BoundaryOffset(fromHead), Boundary(start, size, fromHead));
  }

  /** Any span apart from the header, and from the block if that is cleared, keeps its bytes. */
  lemma CommitFrame(m: Memory, heap: nat, zero: bool, start: Word, size: nat, fromHead: bool, b: nat, k: nat)
    requires WellFormed(m) && MappedRange(m, heap, HEADER_SIZE) && MappedRange(m, start, size)
    requires Boundary(start, size, fromHead) < ADDRESS_SPACE_END && MappedRange(m, b, k)
    requires Separate(m, heap, HEADER_SIZE, b, k) && (zero ==> Separate(m, start, size, b, k))
    ensures SpanKept(m, Commit(m, heap, zero, start, size, fromHead), b, k)
  {
    hide WellFormed, CellOf, Mapped, MappedRange, SameLayout, StoreBytes, LoadBytes, StoreWord, Separate;
    LayoutRefl(m);
    var filled := m;
    if zero {
      filled := StoreBytes(m, start, seq<Byte>(size, _ => 0));
      StoreFrame(m, start, seq<Byte>(size, _ => 0), b, k);
    }
    SubRange(filled, heap, HEADER_SIZE, BoundaryOffset(fromHead), 4);
    WordKept(m, filled, heap, HEADER_SIZE, BoundaryOffset(fromHead), Boundary(start, size, fromHead), b, k);
  }

  /** The block itself: cleared if asked for, otherwise as it was. */
  lemma CommitBlock(m: Memory, heap: nat, zero: bool, start: Word, size: nat, fromHead: bool)
    requires WellFormed(m) && MappedRange(m, heap, HEADER_SIZE) && MappedRange(m, start, size)
    requires Boundary(start, size, fromHead) < ADDRESS_SPACE_END
    requires Separate(m, heap, HEADER_SIZE, start, size)
    ensures MappedRange(Commit(m, heap, zero, start, size, fromHead), start, size)
    ensures LoadBytes(Commit(m, heap, zero, start, size, fromHead), start, size) ==
            if zero then seq<Byte>(size, _ => 0) else LoadBytes(m, start, size)
  {
    hide WellFormed, CellOf, Mapped, MappedRange, SameLayout, StoreBytes, LoadBytes, StoreWord, Separate;
    LayoutKept(m, Commit(m, heap, zero, start, size, fromHead), 0, 0, start, size);
    var filled := m;
    if zero {
      filled := StoreBytes(m, start, seq<Byte>(size, _ => 0));
      ZeroedBytes(m, start, size);
      LayoutKept(m, filled, heap, HEADER_SIZE, start, size);
    }
    WordApart(filled, heap, HEADER_SIZE, BoundaryOffset(fromHead), Boundary(start, size, fromHead), start, size);
  }

  /**
   * A successful call: an aligned block inside the free part, a heap that is valid with that block taken
   * off one end, and a cleared block if the heap asks for it.
   */
  lemma AllocationKeepsHeap(m: Memory, heap: Word, requested: Word, signed: int)
    requires WellFormed(m) && -(SIGN as int) <= signed < SIGN && Decide(m, heap, requested, signed).At?
    requires var start, size := Decide(m, heap, requested, signed).start, EffectiveSize(requested);
             Separate(m, start, size, heap, HEADER_SIZE) && Separate(m, heap, HEADER_SIZE, start, size)
    ensures var n := AfterAllocate(m, heap, requested, signed);
            var start, size := Decide(m, heap, requested, signed).start, EffectiveSize(requested);
            && Validate(m, heap).Some? && Boundary(start, size, signed > 0) < ADDRESS_SPACE_END
            && Validate(n, heap) == Some(Moved(Validate(m, heap).value, start, size, signed > 0))
            && MappedRange(m, start, size) && MappedRange(n, start, size)
            && LoadBytes(n, start, size) ==
               if Validate(m, heap).value.flags % 2 == 1 then seq<Byte>(size, _ => 0) else LoadBytes(m, start, size)
  {
    DecideMeans(m, heap, requested, signed);
    var f, start, size := Validate(m, heap).value, Decide(m, heap, requested, signed).start, EffectiveSize(requested);
    hide WellFormed, CellOf, Mapped, MappedRange, SameLayout, LoadBytes, ValidHeader, Commit, Decide, Separate, Fits,
         SetWord, Moved, IsPowerOfTwo, BoundaryOffset, Boundary;
    CommitHeader(m, heap, ZeroFills(f.flags), start, size, signed > 0);
    CommitBlock(m, heap, ZeroFills(f.flags), start, size, signed > 0);
    MovedHeader(heap, LoadBytes(m, heap, HEADER_SIZE), f, start, size, Magnitude(signed), signed > 0);
  }

  // The methods

  lemma HeapWords(m: Memory, heap: nat)
    requires WellFormed(m) && MappedRange(m, heap, HEADER_SIZE)
    ensures MappedRange(m, heap, 4) && MappedRange(m, heap + FLAGS, 4) && MappedRange(m, heap + DATA_START, 4)
    ensures MappedRange(m, heap + DATA_END, 4) && MappedRange(m, heap + HEAD, 4) && MappedRange(m, heap + TAIL, 4)
    ensures WordAt(m, heap) == Word32(LoadBytes(m, heap, HEADER_SIZE), 0)
    ensures HeapIn(LoadBytes(m, heap, HEADER_SIZE)) ==
            Heap(WordAt(m, heap + FLAGS), WordAt(m, heap + DATA_START), WordAt(m, heap + DATA_END),
                 WordAt(m, heap + HEAD), WordAt(m, heap + TAIL))
  {
    hide WellFormed, CellOf, Mapped, MappedRange, LoadBytes, Word32, WordAt;
    WordOfObject(m, heap, HEADER_SIZE, 0);
    WordOfObject(m, heap, HEADER_SIZE, FLAGS);
    WordOfObject(m, heap, HEADER_SIZE, DATA_START);
    WordOfObject(m, heap, HEADER_SIZE, DATA_END);
    WordOfObject(m, heap, HEADER_SIZE, HEAD);
    WordOfObject(m, heap, HEADER_SIZE, TAIL);
  }

  method ReadHeap(memory: GuestMemory, heap: nat) returns (tag: Word, f: Heap)
    requires memory.Valid() && WellFormed(memory.Image()) && MappedRange(memory.Image(), heap, HEADER_SIZE)
    ensures tag == Word32(LoadBytes(memory.Image(), heap, HEADER_SIZE), 0)
    ensures f == HeapIn(LoadBytes(memory.Image(), heap, HEADER_SIZE))
  {
    assert HEADER_SIZE == 0x4C;
    hide *;
    HeapWords(memory.Image(), heap);
    tag := LoadWord(memory, heap);
    var flags := LoadWord(memory, heap + FLAGS);
    var dataStart := LoadWord(memory, heap + DATA_START);
    var dataEnd := LoadWord(memory, heap + DATA_END);
    var head := LoadWord(memory, heap + HEAD);
    var tail := LoadWord(memory, heap + TAIL);
    f := Heap(flags, dataStart, dataEnd, head, tail);
  }

  method ValidateFrameHeap(memory: GuestMemory, heap: Word) returns (r: Option<Heap>)
    requires memory.Valid()
    ensures r == Validate(memory.Image(), heap)
  {
    hide WellFormed, CellOf, Mapped, MappedRange, LoadBytes, Word32;
    if heap == 0 { return None; }
    var mapped := ValidateRange(memory, heap, HEADER_SIZE);
    if !mapped { return None; }
    var tag, f := ReadHeap(memory, heap);
    if tag != TAG { return None; }
    if f.dataStart < heap + HEADER_SIZE || f.dataStart > f.dataEnd || f.head < f.dataStart || f.head > f.tail ||
       f.tail > f.dataEnd {
      return None;
    }
    return Some(f);
  }

  method CommitAllocation(memory: GuestMemory, heap: Word, zero: bool, start: Word, size: nat, fromHead: bool)
    requires memory.Valid() && WellFormed(memory.Image()) && MappedRange(memory.Image(), heap, HEADER_SIZE)
    requires size >= 1 && MappedRange(memory.Image(), start, size)
    requires Boundary(start, size, fromHead) < ADDRESS_SPACE_END
    modifies memory, memory.bytes, memory.flatGenerations
    ensures memory.Valid() && memory.Image() == Commit(old(memory.Image()), heap, zero, start, size, fromHead)
  {
    hide WellFormed, CellOf, Mapped, SameLayout, StoreBytes, StoreWord;
    if zero { FillRange(memory, start, size, 0); }
    SubRange(memory.Image(), heap, HEADER_SIZE, BoundaryOffset(fromHead), 4);
    StoreWordAt(memory, heap + BoundaryOffset(fromHead), Boundary(start, size, fromHead));
  }

  /** `allocate_from_frame_heap` from the point where the place is known. */
  method AllocateAt(memory: GuestMemory, heap: Word, requested: Word, signed: int, f: Heap, start: nat)
    returns (r: Allocation)
    requires memory.Valid() && -(SIGN as int) < signed < SIGN && signed != 0
    requires And(Magnitude(signed), Magnitude(signed) - 1) == 0
    requires Validate(memory.Image(), heap) == Some(f) && !DebugMode(f.flags)
    requires Place(f.head, f.tail, EffectiveSize(requested), Magnitude(signed), signed > 0) == Some(start)
    modifies memory, memory.bytes, memory.flatGenerations
    ensures memory.Valid() && r == Decide(old(memory.Image()), heap, requested, signed)
    ensures memory.Image() ==
            if r.At? then AfterAllocate(old(memory.Image()), heap, requested, signed) else old(memory.Image())
  {
    hide WellFormed, MappedRange, LoadBytes, ValidHeader, Validate, And, Place, Commit;
    if start >= ADDRESS_SPACE_END { return Fault; }
    var mapped := ValidateRange(memory, start, EffectiveSize(requested));
    if !mapped { return Fault; }
    DecideMeans(memory.Image(), heap, requested, signed);
    CommitAllocation(memory, heap, ZeroFills(f.flags), start, EffectiveSize(requested), signed > 0);
    return At(start);
  }

  /** `allocate_from_frame_heap`. */
  method AllocateFromFrameHeap(memory: GuestMemory, heap: Word, requested: Word, signed: int) returns (r: Allocation)
    requires memory.Valid() && -(SIGN as int) <= signed < SIGN
    modifies memory, memory.bytes, memory.flatGenerations
    ensures memory.Valid() && r == Decide(old(memory.Image()), heap, requested, signed)
    ensures memory.Image() ==
            if r.At? then AfterAllocate(old(memory.Image()), heap, requested, signed) else old(memory.Image())
  {
    hide WellFormed, MappedRange, LoadBytes, Validate, And, Place, AfterAllocate;
    if signed == 0 || signed == -(SIGN as int) { return Fault; }
    var alignment := Magnitude(signed);
    if And(alignment, alignment - 1) != 0 { return Fault; }
    var f := ValidateFrameHeap(memory, heap);
    if f.None? || DebugMode(f.value.flags) { return Fault; }
    var size := EffectiveSize(requested);
    var place := FindPlace(f.value.head, f.value.tail, size, alignment, signed > 0);
    if place.None? { return NoSpace; }
    r := AllocateAt(memory, heap, requested, signed, f.value, place.value);
  }

  /** The two ends of the allocator, in the steps of the source. */
  method FindPlace(oldHead: Word, oldTail: Word, size: nat, alignment: nat, fromHead: bool) returns (r: Option<nat>)
    requires 1 <= alignment <= SIGN && size >= 1
    ensures r == Place(oldHead, oldTail, size, alignment, fromHead)
  {
    hide AlignUp, AlignDown;
    var start: nat, updated: nat;
    if fromHead {
      start := AlignUp(oldHead, alignment);
      updated := start + size;
      if start < oldHead || updated > oldTail || updated > WORD_MAX { return None; }
    } else {
      if size > oldTail { return None; }
      start := AlignDown(oldTail - size, alignment);
      updated := start;
      if start < oldHead || start + size > oldTail { return None; }
    }
    return Some(start);
  }

  /** `allocatable_size_for_frame_heap`. */
  method AllocatableSize(memory: GuestMemory, heap: Word, alignment: Word) returns (r: Option<nat>)
    requires memory.Valid() && 1 <= alignment <= SIGN
    ensures var f := Validate(memory.Image(), heap);
            r == if f.None? then None else Some(Allocatable(f.value.head, f.value.tail, alignment))
  {
    hide Validate, AlignUp;
    var f := ValidateFrameHeap(memory, heap);
    if f.None? { return None; }
    var aligned := AlignUp(f.value.head, alignment);
    return Some(if aligned >= f.value.tail then 0 else f.value.tail - aligned);
  }
}
