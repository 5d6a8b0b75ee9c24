/** Expanded heaps: the free list that a guest leaves in memory, and the queries that walk it. */
module ExpandedHeap {
  import opened Bits
  import opened MemoryImage
  import opened GuestObjects
  import opened GuestMemoryModel
  import opened GuestAccess

  const HEADER_SIZE: nat := 0x54
  const BLOCK_HEADER_SIZE: nat := 0x14
  const TAG: Word := 0x4558_5048
  const FREE_TAG: Half := 0x4652
  const DATA_START: nat := 0x18
  const DATA_END: nat := 0x1C
  const FREE_LIST: nat := 0x40

  datatype Option<T> = None | Some(value: T)

  /** A validated header, and a validated free block. */
  datatype Bounds = Bounds(start: Word, end: Word, first: Word)
  datatype Free = Free(size: Word, next: Word)

  ghost function HalfAt(m: Memory, a: nat): nat
    requires WellFormed(m) && MappedRange(m, a, 2)
  {
    BigEndian(LoadBytes(m, a, 2))
  }

  ghost function Header(m: Memory, heap: Word): Option<Bounds>
    requires WellFormed(m)
  {
    if heap == 0 || !MappedRange(m, heap, HEADER_SIZE) then None
    else
      var h := LoadBytes(m, heap, HEADER_SIZE);
      if Word32(h, 0) != TAG || Word32(h, DATA_START) > Word32(h, DATA_END) then None
      else Some(Bounds(Word32(h, DATA_START), Word32(h, DATA_END), Word32(h, FREE_LIST)))
  }

  /** The free block at an address, if it is mapped, in bounds and tagged. */
  ghost function BlockAt(m: Memory, h: Bounds, b: Word): (r: Option<Free>)
    requires WellFormed(m)
    ensures r.Some? ==> h.start <= b && b + BLOCK_HEADER_SIZE + r.value.size <= h.end
  {
    if b < h.start || b + BLOCK_HEADER_SIZE > h.end || !MappedRange(m, b + 4, 4) || !MappedRange(m, b + 0xC, 4) ||
       !MappedRange(m, b + 0x10, 2) then None
    else if b + BLOCK_HEADER_SIZE + WordAt(m, b + 4) > h.end || HalfAt(m, b + 0x10) != FREE_TAG then None
    else Some(Free(WordAt(m, b + 4), WordAt(m, b + 0xC)))
  }

  /** Which words of guest memory make a valid header. */
  lemma HeaderExact(m: Memory, heap: Word, h: Bounds)
    requires WellFormed(m)
    ensures Header(m, heap) == Some(h) <==>
            && heap != 0 && MappedRange(m, heap, 0x54) && WordIs(m, heap, 0x4558_5048)
            && WordIs(m, heap + 0x18, h.start) && WordIs(m, heap + 0x1C, h.end) && WordIs(m, heap + 0x40, h.first)
            && h.start <= h.end
  {
    hide WellFormed, MappedRange, LoadBytes, Word32, WordIs;
    if MappedRange(m, heap, 0x54) {
      WordIsField(m, heap, 0x54, 0, 0x4558_5048);
      WordIsField(m, heap, 0x54, 0x18, h.start);
      WordIsField(m, heap, 0x54, 0x1C, h.end);
      WordIsField(m, heap, 0x54, 0x40, h.first);
    }
  }

  /** Which words make a free block: a size that fits behind its header, a next pointer and the tag. */
  lemma BlockExact(m: Memory, h: Bounds, b: Word, f: Free)
    requires WellFormed(m)
    ensures BlockAt(m, h, b) == Some(f) <==>
            && h.start <= b && b + 0x14 + f.size <= h.end
            && WordIs(m, b + 4, f.size) && WordIs(m, b + 0xC, f.next)
            && MappedRange(m, b + 0x10, 2) && BigEndian(LoadBytes(m, b + 0x10, 2)) == 0x4652
  {
    hide WellFormed, MappedRange, LoadBytes, BigEndian, WordAt;
  }

  /** The free list from `b`, linked through valid blocks to a null pointer. */
  ghost predicate IsList(m: Memory, h: Bounds, b: Word, list: seq<Word>)
    requires WellFormed(m)
    decreases |list|
  {
    if list == [] then b == 0
    else b != 0 && list[0] == b && BlockAt(m, h, b).Some? && IsList(m, h, BlockAt(m, h, b).value.next, list[1..])
  }

  /** A chain of valid blocks from `b` that leads to `end`. */
  ghost predicate IsPath(m: Memory, h: Bounds, b: Word, path: seq<Word>, end: Word)
    requires WellFormed(m)
    decreases |path|
  {
    if path == [] then b == end
    else b != 0 && path[0] == b && BlockAt(m, h, b).Some? && IsPath(m, h, BlockAt(m, h, b).value.next, path[1..], end)
  }

  /** A list starts with every path from its head. */
  lemma {:induction false} PathInList(m: Memory, h: Bounds, b: Word, path: seq<Word>, end: Word, list: seq<Word>)
    requires WellFormed(m) && IsPath(m, h, b, path, end) && IsList(m, h, b, list)
    ensures |path| <= |list| && list[..|path|] == path && IsList(m, h, end, list[|path|..])
    decreases |path|
  {
    hide BlockAt, WellFormed;
    if path == [] {
      assert list[0..] == list;
    } else {
      PathInList(m, h, BlockAt(m, h, b).value.next, path[1..], end, list[1..]);
      assert list[1..][|path| - 1..] == list[|path|..];
    }
  }

  lemma {:induction false} PathExtends(m: Memory, h: Bounds, b: Word, path: seq<Word>, end: Word)
    requires WellFormed(m) && IsPath(m, h, b, path, end) && end != 0 && BlockAt(m, h, end).Some?
    ensures IsPath(m, h, b, path + [end], BlockAt(m, h, end).value.next)
    decreases |path|
  {
    hide BlockAt, WellFormed;
    var longer := path + [end];
    if path == [] {
      assert longer[1..] == [];
    } else {
      PathExtends(m, h, BlockAt(m, h, b).value.next, path[1..], end);
      assert longer[1..] == path[1..] + [end];
    }
  }

  lemma {:induction false} PathToNull(m: Memory, h: Bounds, b: Word, path: seq<Word>)
    requires WellFormed(m) && IsPath(m, h, b, path, 0)
    ensures IsList(m, h, b, path)
    decreases |path|
  {
    hide BlockAt, WellFormed;
    if path != [] { PathToNull(m, h, BlockAt(m, h, b).value.next, path[1..]); }
  }

  /** There is at most one free list. */
  lemma {:induction false} ListUnique(m: Memory, h: Bounds, b: Word, one: seq<Word>, two: seq<Word>)
    requires WellFormed(m) && IsList(m, h, b, one) && IsList(m, h, b, two)
    ensures one == two
    decreases |one|
  {
    hide BlockAt, WellFormed;
    if one != [] {
      ListUnique(m, h, BlockAt(m, h, b).value.next, one[1..], two[1..]);
      assert one == [b] + one[1..] && two == [b] + two[1..];
    }
  }

  lemma {:induction false} ListSuffix(m: Memory, h: Bounds, b: Word, list: seq<Word>, i: nat)
    requires WellFormed(m) && IsList(m, h, b, list) && i < |list|
    ensures IsList(m, h, list[i], list[i..]) && BlockAt(m, h, list[i]).Some?
    decreases i
  {
    hide BlockAt, WellFormed;
    if i > 0 {
      ListSuffix(m, h, BlockAt(m, h, b).value.next, list[1..], i - 1);
      assert list[1..][i - 1..] == list[i..];
    } else {
      assert list[0..] == list;
    }
  }

  /** A list that ends visits no block twice. */
  lemma ListAcyclic(m: Memory, h: Bounds, b: Word, list: seq<Word>)
    requires WellFormed(m) && IsList(m, h, b, list)
    ensures forall i, j :: 0 <= i < j < |list| ==> list[i] != list[j]
  {
    hide BlockAt, WellFormed, IsList;
    forall i, j | 0 <= i < j < |list| ensures list[i] != list[j] {
      ListSuffix(m, h, b, list, i);
      ListSuffix(m, h, b, list, j);
      if list[i] == list[j] { ListUnique(m, h, list[i], list[i..], list[j..]); }
    }
  }

  /** The block after a path is new. */
  lemma PathEndIsNew(m: Memory, h: Bounds, b: Word, path: seq<Word>, end: Word, list: seq<Word>)
    requires WellFormed(m) && IsPath(m, h, b, path, end) && end != 0 && IsList(m, h, b, list)
    ensures end !in path
  {
    hide BlockAt, WellFormed, IsPath;
    PathInList(m, h, b, path, end, list);
    ListAcyclic(m, h, b, list);
    assert list[|path|] == list[|path|..][0] == end;
  }

  /** A block met twice proves that the list never ends. */
  lemma CycleHasNoList(m: Memory, h: Bounds, b: Word, path: seq<Word>, end: Word)
    requires WellFormed(m) && IsPath(m, h, b, path, end) && end != 0 && end in path
    ensures forall list: seq<Word> :: !IsList(m, h, b, list)
  {
    hide BlockAt, WellFormed, IsPath, IsList;
    forall list: seq<Word> | IsList(m, h, b, list) ensures false {
      PathEndIsNew(m, h, b, path, end, list);
    }
  }

  /** An invalid block on the way proves it too. */
  lemma BrokenHasNoList(m: Memory, h: Bounds, b: Word, path: seq<Word>, end: Word)
    requires WellFormed(m) && IsPath(m, h, b, path, end) && end != 0 && BlockAt(m, h, end).None?
    ensures forall list: seq<Word> :: !IsList(m, h, b, list)
  {
    hide BlockAt, WellFormed, IsPath;
    forall list: seq<Word> | IsList(m, h, b, list) ensures false {
      PathInList(m, h, b, path, end, list);
    }
  }

  // What the queries compute

  ghost function SizeOf(m: Memory, h: Bounds, b: Word): nat
    requires WellFormed(m)
  {
    if BlockAt(m, h, b).Some? then BlockAt(m, h, b).value.size else 0
  }

  ghost function Total(m: Memory, h: Bounds, list: seq<Word>): nat
    requires WellFormed(m)
  {
    if list == [] then 0 else Total(m, h, list[..|list| - 1]) + SizeOf(m, h, list[|list| - 1])
  }

  /** What an aligned request can take from the data of a block. */
  function Space(b: Word, size: nat, alignment: nat): nat
    requires 1 <= alignment <= 0x8000_0000
  {
    var end := b + BLOCK_HEADER_SIZE + size;
    var aligned := AlignUp(b + BLOCK_HEADER_SIZE, alignment);
    if aligned >= end then 0 else end - aligned
  }

  ghost function Largest(m: Memory, h: Bounds, list: seq<Word>, alignment: nat): nat
    requires WellFormed(m) && 1 <= alignment <= 0x8000_0000
  {
    if list == [] then 0
    else
      var last := list[|list| - 1];
      Max(Largest(m, h, list[..|list| - 1], alignment), Space(last, SizeOf(m, h, last), alignment))
  }

  /** An aligned block of n bytes inside the data of the free block at b. */
  ghost predicate FitsIn(b: Word, size: nat, alignment: nat, n: nat, p: nat) {
    alignment >= 1 && p % alignment == 0 && b + BLOCK_HEADER_SIZE <= p && p + n <= b + BLOCK_HEADER_SIZE + size
  }

  /** Space is exactly the largest aligned request that fits in a block. */
  lemma SpaceExact(b: Word, size: nat, alignment: nat, n: nat)
    requires IsPowerOfTwo(alignment) && alignment <= 0x8000_0000 && n >= 1
    ensures n <= Space(b, size, alignment) <==> (exists p: nat :: FitsIn(b, size, alignment, n, p))
  {
    var start: nat := b + BLOCK_HEADER_SIZE;
    assert 1 <= alignment <= TWO_TO_THE_64 && start + alignment <= TWO_TO_THE_64;
    hide IsPowerOfTwo, AlignUp;
    AlignUpMeans(start, alignment);
    var aligned := AlignUp(start, alignment);
    if n <= Space(b, size, alignment) {
      assert FitsIn(b, size, alignment, n, aligned);
    }
    if p: nat :| FitsIn(b, size, alignment, n, p) {
      RoundingIsTight(start, alignment, aligned, p);
    }
  }

  /** The largest request is the largest over all blocks of the list. */
  lemma {:induction false} LargestExact(m: Memory, h: Bounds, list: seq<Word>, alignment: nat)
    requires WellFormed(m) && 1 <= alignment <= 0x8000_0000
    ensures forall i :: 0 <= i < |list| ==>
              Space(list[i], SizeOf(m, h, list[i]), alignment) <= Largest(m, h, list, alignment)
    ensures Largest(m, h, list, alignment) == 0 ||
            exists i :: 0 <= i < |list| &&
              Space(list[i], SizeOf(m, h, list[i]), alignment) == Largest(m, h, list, alignment)
    decreases |list|
  {
    hide WellFormed, Space, SizeOf;
    if list != [] {
      var before := list[..|list| - 1];
      LargestExact(m, h, before, alignment);
      if Largest(m, h, before, alignment) != 0 {
        var i :| 0 <= i < |before| &&
                 Space(before[i], SizeOf(m, h, before[i]), alignment) == Largest(m, h, before, alignment);
        assert list[i] == before[i];
      }
      forall i | 0 <= i < |list|
        ensures Space(list[i], SizeOf(m, h, list[i]), alignment) <= Largest(m, h, list, alignment)
      {
        if i < |before| { assert before[i] == list[i]; }
      }
    }
  }

  lemma SpaceBound(b: Word, size: nat, alignment: nat)
    requires IsPowerOfTwo(alignment) && alignment <= 0x8000_0000
    ensures Space(b, size, alignment) <= size
  {
    var start: nat := b + BLOCK_HEADER_SIZE;
    assert start + alignment <= TWO_TO_THE_64;
    hide IsPowerOfTwo, AlignUp;
    AlignUpMeans(start, alignment);
  }

  /** The largest request never exceeds the total. */
  lemma {:induction false} LargestWithinTotal(m: Memory, h: Bounds, list: seq<Word>, alignment: nat)
    requires WellFormed(m) && IsPowerOfTwo(alignment) && alignment <= 0x8000_0000
    ensures Largest(m, h, list, alignment) <= Total(m, h, list)
    decreases |list|
  {
    assert alignment >= 1;
    hide WellFormed, Space, SizeOf, IsPowerOfTwo;
    if list != [] {
      LargestWithinTotal(m, h, list[..|list| - 1], alignment);
      SpaceBound(list[|list| - 1], SizeOf(m, h, list[|list| - 1]), alignment);
    }
  }

  /** No block is larger than the heap, so the query's own overflow check never fires. */
  lemma {:induction false} LargestIsWord(m: Memory, h: Bounds, list: seq<Word>, alignment: nat)
    requires WellFormed(m) && IsPowerOfTwo(alignment) && alignment <= 0x8000_0000
    ensures Largest(m, h, list, alignment) <= WORD_MAX
    decreases |list|
  {
    assert alignment >= 1;
    hide WellFormed, Space, IsPowerOfTwo, BlockAt;
    if list != [] {
      LargestIsWord(m, h, list[..|list| - 1], alignment);
      SpaceBound(list[|list| - 1], SizeOf(m, h, list[|list| - 1]), alignment);
    }
  }

  // The walk

  /** A walk that has visited `path` and stands at `block`. */
  ghost predicate Walking(m: Memory, h: Bounds, path: seq<Word>, visited: set<Word>, block: Word)
    requires WellFormed(m)
  {
    && IsPath(m, h, h.first, path, block) && (forall b :: b in visited <==> b in path)
    && (forall b :: b in visited ==> h.start <= b < h.end)
  }

  /** Header checks of the walk. */
  method ReadHeader(memory: GuestMemory, heap: Word) returns (r: Option<Bounds>)
    requires memory.Valid()
    ensures r == Header(memory.Image(), heap)
  {
    hide WellFormed, CellOf, Mapped, MappedRange, LoadBytes, Word32;
    if heap == 0 { return None; }
    var mapped := ValidateRange(memory, heap, HEADER_SIZE);
    if !mapped { return None; }
    var h := LoadRange(memory, heap, HEADER_SIZE);
    var start, end, first := Word32(h, DATA_START), Word32(h, DATA_END), Word32(h, FREE_LIST);
    if Word32(h, 0) != TAG || start > end { return None; }
    return Some(Bounds(start, end, first));
  }

  /** One iteration of the walk up to the visitor. */
  method ReadBlock(memory: GuestMemory, h: Bounds, b: Word) returns (r: Option<Free>)
    requires memory.Valid()
    ensures r == BlockAt(memory.Image(), h, b)
  {
    ghost var m := memory.Image();
    hide WellFormed, CellOf, Mapped, MappedRange, LoadBytes, BigEndian, WordAt;
    if b < h.start || b + BLOCK_HEADER_SIZE > h.end { return None; }
    var sized := ValidateRange(memory, b + 4, 4);
    var linked := ValidateRange(memory, b + 0xC, 4);
    var tagged := ValidateRange(memory, b + 0x10, 2);
    if !sized || !linked || !tagged { return None; }
    var size := LoadWord(memory, b + 4);
    var next := LoadWord(memory, b + 0xC);
    var _, tag := memory.LoadScalar(b + 0x10, 2);
    assert tag == HalfAt(m, b + 0x10);
    if b + BLOCK_HEADER_SIZE + size > h.end || tag != FREE_TAG { return None; }
    return Some(Free(size, next));
  }

  lemma WalkNext(m: Memory, h: Bounds, path: seq<Word>, visited: set<Word>, block: Word)
    requires WellFormed(m) && Walking(m, h, path, visited, block) && block != 0 && BlockAt(m, h, block).Some?
    ensures Walking(m, h, path + [block], visited + {block}, BlockAt(m, h, block).value.next)
    ensures h.start <= block < h.end
  {
    hide BlockAt, WellFormed, IsPath;
    PathExtends(m, h, h.first, path, block);
  }

  /** The walk meets a block again, or an invalid one: there is no free list. */
  lemma WalkFails(m: Memory, h: Bounds, path: seq<Word>, visited: set<Word>, block: Word)
    requires WellFormed(m) && Walking(m, h, path, visited, block) && block != 0
    requires block in visited || BlockAt(m, h, block).None?
    ensures forall list: seq<Word> :: !IsList(m, h, h.first, list)
  {
    hide BlockAt, WellFormed, IsPath, IsList;
    if block in visited {
      CycleHasNoList(m, h, h.first, path, block);
    } else {
      BrokenHasNoList(m, h, h.first, path, block);
    }
  }

  lemma WalkEnds(m: Memory, h: Bounds, path: seq<Word>, visited: set<Word>)
    requires WellFormed(m) && Walking(m, h, path, visited, 0)
    ensures IsList(m, h, h.first, path)
    ensures forall list: seq<Word> :: IsList(m, h, h.first, list) ==> list == path
  {
    hide BlockAt, WellFormed, IsPath, IsList;
    PathToNull(m, h, h.first, path);
    forall list: seq<Word> | IsList(m, h, h.first, list) ensures list == path {
      ListUnique(m, h, h.first, list, path);
    }
  }

  /** The total of a list is at least that of its beginning. */
  lemma {:induction false} TotalGrows(m: Memory, h: Bounds, list: seq<Word>, n: nat)
    requires WellFormed(m) && n <= |list|
    ensures Total(m, h, list[..n]) <= Total(m, h, list)
    decreases |list|
  {
    hide WellFormed, SizeOf;
    if n < |list| {
      TotalGrows(m, h, list[..|list| - 1], n);
      assert list[..|list| - 1][..n] == list[..n];
    } else {
      assert list[..n] == list;
    }
  }

  /** A heap is accepted with its unique free list. */
  ghost predicate Lists(m: Memory, heap: Word, list: seq<Word>)
    requires WellFormed(m)
  {
    Header(m, heap).Some? && IsList(m, Header(m, heap).value, Header(m, heap).value.first, list)
  }

  predicate Within(h: Bounds, b: Word) { h.start <= b < h.end }

  /** Visited blocks lie between the bounds, so the walk ends. */
  ghost function Inside(h: Bounds): (s: set<Word>)
    ensures forall b :: b in s <==> Within(h, b)
  {
    set b: Word | h.start <= b < h.end && Within(h, b)
  }

  lemma StartWalk(m: Memory, h: Bounds)
    requires WellFormed(m)
    ensures Walking(m, h, [], {}, h.first)
  {
  }

  lemma VisitedInside(m: Memory, h: Bounds, path: seq<Word>, visited: set<Word>, block: Word)
    requires WellFormed(m) && Walking(m, h, path, visited, block)
    ensures visited <= Inside(h)
  {
    hide WellFormed, IsPath;
  }

  ghost function TotalOf(m: Memory, heap: Word, list: seq<Word>): nat
    requires WellFormed(m) && Lists(m, heap, list)
  {
    Total(m, Header(m, heap).value, list)
  }

  ghost function LargestOf(m: Memory, heap: Word, list: seq<Word>, alignment: nat): nat
    requires WellFormed(m) && Lists(m, heap, list) && 1 <= alignment <= 0x8000_0000
  {
    Largest(m, Header(m, heap).value, list, alignment)
  }

  lemma NextTotal(m: Memory, h: Bounds, path: seq<Word>, block: Word)
    requires WellFormed(m)
    ensures Total(m, h, path + [block]) == Total(m, h, path) + SizeOf(m, h, block)
  {
    assert (path + [block])[..|path|] == path;
  }

  lemma NextLargest(m: Memory, h: Bounds, path: seq<Word>, block: Word, alignment: nat)
    requires WellFormed(m) && 1 <= alignment <= 0x8000_0000
    ensures Largest(m, h, path + [block], alignment) ==
            Max(Largest(m, h, path, alignment), Space(block, SizeOf(m, h, block), alignment))
  {
    assert (path + [block])[..|path|] == path;
  }

  /** The sum overflows on the way, so it overflows over the whole list. */
  lemma TotalOverflows(m: Memory, heap: Word, h: Bounds, path: seq<Word>, visited: set<Word>, block: Word)
    requires WellFormed(m) && Header(m, heap) == Some(h) && Walking(m, h, path, visited, block)
    requires Total(m, h, path) > WORD_MAX
    ensures forall list :: Lists(m, heap, list) ==> TotalOf(m, heap, list) > WORD_MAX
  {
    hide WellFormed, IsPath, IsList, Total, Header;
    forall list | Lists(m, heap, list) ensures TotalOf(m, heap, list) > WORD_MAX {
      PathInList(m, h, h.first, path, block, list);
      TotalGrows(m, h, list, |path|);
    }
  }

  /**
   * `MEMGetTotalFreeSizeForExpHeap`, for any guest memory: it ends, succeeds exactly when the heap has a
   * free list of valid blocks whose sizes add up to a 32-bit value, and returns that sum.
   */
  method TotalFreeSize(memory: GuestMemory, heap: Word) returns (r: Option<Word>)
    requires memory.Valid()
    ensures WellFormed(memory.Image())
    ensures r.None? ==>
              forall list :: Lists(memory.Image(), heap, list) ==> TotalOf(memory.Image(), heap, list) > WORD_MAX
    ensures r.Some? ==>
              exists list :: Lists(memory.Image(), heap, list) && r.value == TotalOf(memory.Image(), heap, list)
  {
    ghost var m := memory.Image();
    assert WellFormed(m);
    hide WellFormed, BlockAt, IsPath, IsList, Header, Walking, Total, Inside, MappedRange;
    var header := ReadHeader(memory, heap);
    if header.None? { return None; }
    var h := header.value;
    var block, total, visited: set<Word> := h.first, 0, {};
    ghost var path: seq<Word> := [];
    StartWalk(m, h);
    NoTotal(m, h);
    while block != 0
      invariant Walking(m, h, path, visited, block) && total == Total(m, h, path) <= WORD_MAX
      decreases Inside(h) - visited
    {
      VisitedInside(m, h, path, visited, block);
      if block in visited {
        WalkFails(m, h, path, visited, block);
        return None;
      }
      var free := ReadBlock(memory, h, block);
      if free.None? {
        WalkFails(m, h, path, visited, block);
        return None;
      }
      WalkNext(m, h, path, visited, block);
      NextTotal(m, h, path, block);
      path, visited, block, total := path + [block], visited + {block}, free.value.next, total + free.value.size;
      if total > WORD_MAX {
        TotalOverflows(m, heap, h, path, visited, block);
        return None;
      }
    }
    WalkEnds(m, h, path, visited);
    assert Lists(m, heap, path);
    return Some(total);
  }

  lemma NoTotal(m: Memory, h: Bounds)
    requires WellFormed(m)
    ensures Total(m, h, []) == 0
    ensures forall alignment :: 1 <= alignment <= 0x8000_0000 ==> Largest(m, h, [], alignment) == 0
  {
  }

  /**
   * `MEMGetAllocatableSizeForExpHeapEx` for a power-of-two alignment: it succeeds exactly when the heap has
   * a free list of valid blocks, and returns the largest aligned request that fits in one of them.
   */
  method AllocatableSize(memory: GuestMemory, heap: Word, alignment: Word) returns (r: Option<Word>)
    requires memory.Valid() && IsPowerOfTwo(alignment) && alignment <= 0x8000_0000
    ensures WellFormed(memory.Image())
    ensures r.None? ==> forall list :: !Lists(memory.Image(), heap, list)
    ensures r.Some? ==> exists list :: Lists(memory.Image(), heap, list) &&
                                       r.value == LargestOf(memory.Image(), heap, list, alignment)
  {
    ghost var m := memory.Image();
    assert WellFormed(m) && alignment >= 1;
    hide WellFormed, BlockAt, IsPath, IsList, Header, Walking, Largest, Space, IsPowerOfTwo, AlignUp;
    var header := ReadHeader(memory, heap);
    if header.None? { return None; }
    var h := header.value;
    var block, largest: nat, visited: set<Word> := h.first, 0, {};
    ghost var path: seq<Word> := [];
    StartWalk(m, h);
    NoTotal(m, h);
    while block != 0
      invariant Walking(m, h, path, visited, block) && largest == Largest(m, h, path, alignment)
      decreases Inside(h) - visited
    {
      VisitedInside(m, h, path, visited, block);
      if block in visited {
        WalkFails(m, h, path, visited, block);
        return None;
      }
      var free := ReadBlock(memory, h, block);
      if free.None? {
        WalkFails(m, h, path, visited, block);
        return None;
      }
      WalkNext(m, h, path, visited, block);
      NextLargest(m, h, path, block, alignment);
      var space := SpaceOf(block, free.value.size, alignment);
      path, visited, block := path + [block], visited + {block}, free.value.next;
      largest := Max(largest, space);
    }
    WalkEnds(m, h, path, visited);
    assert Lists(m, heap, path);
    LargestIsWord(m, h, path, alignment);
    if largest > WORD_MAX { return None; }
    return Some(largest);
  }

  /** The visitor of the size query. */
  method SpaceOf(block: Word, size: Word, alignment: Word) returns (space: nat)
    requires 1 <= alignment <= 0x8000_0000
    ensures space == Space(block, size, alignment)
  {
    hide AlignUp;
    var rawStart, rawEnd: nat := block + BLOCK_HEADER_SIZE, block + BLOCK_HEADER_SIZE + size;
    var aligned := AlignUp(rawStart, alignment);
    if aligned >= rawEnd { return 0; }
    return rawEnd - aligned;
  }
}
