/** Placing blocks in guest memory, and what still reads back afterwards. */
module Placement {
  import opened Bits
  import opened MemoryImage
  import opened PageGenerations
  import opened GuestMemoryModel
  import opened RpxImage

  /** Memory without aliases: distinct mapped addresses have distinct cells. */
  ghost predicate Plain(m: Memory) { WellFormed(m) && m.aliases == [] }

  lemma PlainCells(m: Memory, x: nat, y: nat)
    requires Plain(m) && Mapped(m, x) && x != y
    ensures CellOf(m, x) != CellOf(m, y)
  {
  }

  lemma PlainRanges(m: Memory, a: nat, n: nat, b: nat, k: nat)
    requires Plain(m) && MappedRange(m, a, n)
    ensures Injective(m, a, n)
    ensures a + n <= b || b + k <= a ==> Separate(m, a, n, b, k)
  {
    hide Plain, CellOf;
    forall x, y | a <= x < a + n && x != y && (a <= y < a + n || b <= y < b + k)
      ensures CellOf(m, x) != CellOf(m, y)
    {
      if 0 <= y { PlainCells(m, x, y); }
    }
  }

  /** The block is mapped and reads back as its contents. */
  ghost predicate ReadsBack(m: Memory, s: LoadedSection)
    requires WellFormed(m)
  {
    MappedRange(m, s.address, |s.contents|) && LoadBytes(m, s.address, |s.contents|) == s.contents
  }

  ghost predicate Holds(m: Memory, placed: seq<LoadedSection>) {
    Plain(m) && forall i :: 0 <= i < |placed| ==> ReadsBack(m, placed[i])
  }

  predicate InBlock(s: LoadedSection, x: nat) { s.address <= x < s.address + |s.contents| }

  /** Everything mapped above flat memory belongs to some placed block. */
  ghost predicate Backed(m: Memory, placed: seq<LoadedSection>) {
    forall x :: |m.flat| <= x && Mapped(m, x) ==> exists i :: 0 <= i < |placed| && InBlock(placed[i], x)
  }

  ghost predicate Placed(m: Memory, placed: seq<LoadedSection>) {
    Holds(m, placed) && Backed(m, placed)
  }

  /** No block meets the range. */
  ghost predicate RoomFor(placed: seq<LoadedSection>, s: LoadedSection) {
    forall i :: 0 <= i < |placed| ==>
      placed[i].address + |placed[i].contents| <= s.address ||
      s.address + |s.contents| <= placed[i].address
  }

  function WithRegion(m: Memory, r: Region): Memory { m.(regions := m.regions + [r]) }

  lemma AddedCells(m: Memory, r: Region)
    requires Plain(m) && RegionFits(m, r) && Plain(WithRegion(m, r))
    ensures forall x :: Mapped(m, x) ==> CellOf(WithRegion(m, r), x) == CellOf(m, x)
    ensures forall x :: Mapped(WithRegion(m, r), x) <==> Mapped(m, x) || InRegion(r, x)
  {
    var n := WithRegion(m, r);
    forall x ensures Mapped(m, x) ==> CellOf(n, x) == CellOf(m, x)
             ensures Mapped(n, x) <==> Mapped(m, x) || InRegion(r, x)
    {
      var i, j := FindRegion(m.regions, x), FindRegion(n.regions, x);
      assert n.regions[|m.regions|] == r;
      if i < |m.regions| {
        assert n.regions[i] == m.regions[i];
        assert j < |m.regions| ==> n.regions[j] == m.regions[j];
      }
    }
  }

  lemma AddedBytes(m: Memory, r: Region, s: LoadedSection)
    requires Plain(m) && RegionFits(m, r) && Plain(WithRegion(m, r)) && ReadsBack(m, s)
    ensures ReadsBack(WithRegion(m, r), s)
  {
    var n := WithRegion(m, r);
    AddedCells(m, r);
    forall x | s.address <= x < s.address + |s.contents|
      ensures Mapped(n, x) && ByteAt(n, x) == ByteAt(m, x)
    {
      assert Mapped(m, x);
      CellInStore(m, x);
    }
    hide CellOf, WellFormed, ByteAt;
    assert LoadBytes(n, s.address, |s.contents|) == LoadBytes(m, s.address, |s.contents|);
  }

  lemma RegionHasRoom(m: Memory, placed: seq<LoadedSection>, s: LoadedSection, i: nat)
    requires Placed(m, placed) && RoomFor(placed, s) && i < |m.regions|
    requires s.contents != [] && |m.flat| < s.address + |s.contents|
    ensures !Overlaps(Max(s.address, |m.flat|), s.address + |s.contents| - Max(s.address, |m.flat|),
                      m.regions[i].address, |m.regions[i].bytes|)
  {
    var begin: nat, end: nat := Max(s.address, |m.flat|), s.address + |s.contents|;
    var r := m.regions[i];
    assert RegionFits(m, r);
    var x := Max(begin, r.address);
    if InRegion(r, x) {
      OneObject(m, x);
      AlreadyTaken(m, placed, s, x);
    }
  }

  lemma RegionsHaveRoom(m: Memory, placed: seq<LoadedSection>, s: LoadedSection)
    requires Placed(m, placed) && RoomFor(placed, s)
    requires s.contents != [] && |m.flat| < s.address + |s.contents|
    ensures forall i :: 0 <= i < |m.regions| ==>
              !Overlaps(Max(s.address, |m.flat|), s.address + |s.contents| - Max(s.address, |m.flat|),
                        m.regions[i].address, |m.regions[i].bytes|)
  {
    hide Placed, RoomFor, Overlaps;
    forall i | 0 <= i < |m.regions|
      ensures !Overlaps(Max(s.address, |m.flat|), s.address + |s.contents| - Max(s.address, |m.flat|),
                        m.regions[i].address, |m.regions[i].bytes|)
    {
      RegionHasRoom(m, placed, s, i);
    }
  }

  lemma AlreadyTaken(m: Memory, placed: seq<LoadedSection>, s: LoadedSection, x: nat)
    requires Backed(m, placed) && RoomFor(placed, s) && |m.flat| <= x && Mapped(m, x)
    ensures !InBlock(s, x)
  {
  }

  /** The bytes of the new block go in; every block already placed still reads back. */
  lemma PlacedStep(m: Memory, placed: seq<LoadedSection>, s: LoadedSection)
    requires Holds(m, placed) && MappedRange(m, s.address, |s.contents|) && RoomFor(placed, s)
    ensures Holds(StoreBytes(m, s.address, s.contents), placed + [s])
  {
    var n := StoreBytes(m, s.address, s.contents);
    hide CellOf, WellFormed, StoreBytes, LoadBytes;
    PlainRanges(m, s.address, |s.contents|, 0, 0);
    ReadBack(m, s.address, s.contents);
    forall i | 0 <= i < |placed + [s]| ensures ReadsBack(n, (placed + [s])[i]) {
      if i < |placed| {
        var t := placed[i];
        assert ReadsBack(m, t);
        PlainRanges(m, s.address, |s.contents|, t.address, |t.contents|);
        StoreFrame(m, s.address, s.contents, t.address, |t.contents|);
      }
    }
  }

  lemma BackedStep(m: Memory, n: Memory, placed: seq<LoadedSection>, s: LoadedSection)
    requires Backed(m, placed) && |n.flat| == |m.flat|
    requires forall x :: |m.flat| <= x && Mapped(n, x) ==> Mapped(m, x) || InBlock(s, x)
    ensures Backed(n, placed + [s])
  {
    forall x | |n.flat| <= x && Mapped(n, x)
      ensures exists i :: 0 <= i < |placed + [s]| && InBlock((placed + [s])[i], x)
    {
      if Mapped(m, x) {
        var i :| 0 <= i < |placed| && InBlock(placed[i], x);
        assert (placed + [s])[i] == placed[i];
      } else {
        assert (placed + [s])[|placed|] == s;
      }
    }
  }

  lemma RegionGoesIn(m: Memory, placed: seq<LoadedSection>, s: LoadedSection, begin: nat)
    requires Placed(m, placed) && RoomFor(placed, s) && s.contents != []
    requires begin == Max(s.address, |m.flat|) && begin < s.address + |s.contents| <= ADDRESS_SPACE_END
    requires Plain(WithRegion(m, Region(begin, seq(s.address + |s.contents| - begin, _ => 0))))
    ensures var n := WithRegion(m, Region(begin, seq(s.address + |s.contents| - begin, _ => 0)));
            Holds(n, placed) && MappedRange(n, s.address, |s.contents|) && Backed(n, placed + [s])
  {
    var r := Region(begin, seq(s.address + |s.contents| - begin, _ => 0));
    var n := WithRegion(m, r);
    assert RegionFits(m, r);
    AddedCells(m, r);
    forall i | 0 <= i < |placed| ensures ReadsBack(n, placed[i]) {
      AddedBytes(m, r, placed[i]);
    }
    forall x | s.address <= x < s.address + |s.contents| ensures Mapped(n, x) {
      if x < |m.flat| { FlatCell(m, x); }
    }
    BackedStep(m, n, placed, s);
  }

  /** `map_region` for the part above flat memory; it is never refused. */
  method MapBlock(memory: GuestMemory, s: LoadedSection, ghost placed: seq<LoadedSection>) returns (ok: bool)
    requires memory.Valid() && Placed(memory.Image(), placed) && RoomFor(placed, s)
    requires s.contents != [] && s.address + |s.contents| <= ADDRESS_SPACE_END
    modifies memory`regions
    ensures ok && memory.Valid() && Holds(memory.Image(), placed) && Backed(memory.Image(), placed + [s])
    ensures MappedRange(memory.Image(), s.address, |s.contents|)
  {
    ghost var m := memory.Image();
    hide CellOf, WellFormed, LoadBytes, Holds, Plain, Backed, RoomFor;
    HoldsMeans(m, placed);
    var end := s.address + |s.contents|;
    if end > memory.bytes.Length {
      var begin := Max(s.address, memory.bytes.Length);
      RegionsHaveRoom(m, placed, s);
      ok := memory.MapRegion(begin, end - begin);
      if !ok { return false; }
      HoldsMeans(memory.Image(), []);
      RegionGoesIn(m, placed, s, begin);
    } else {
      FlatRangeMapped(m, s.address, |s.contents|);
      BackedWider(m, placed, s);
      ok := true;
    }
  }

  lemma BackedWider(m: Memory, placed: seq<LoadedSection>, s: LoadedSection)
    requires Backed(m, placed)
    ensures Backed(m, placed + [s])
  {
    BackedStep(m, m, placed, s);
  }

  /** A section or trampoline goes into guest memory: mapping, then `write_bytes`. Neither is refused. */
  method PlaceBlock(memory: GuestMemory, s: LoadedSection, ghost placed: seq<LoadedSection>) returns (ok: bool)
    requires memory.Valid() && Placed(memory.Image(), placed) && RoomFor(placed, s)
    requires s.contents != [] && s.address + |s.contents| <= ADDRESS_SPACE_END
    modifies memory, memory.bytes, memory.flatGenerations
    ensures ok && memory.Valid() && Placed(memory.Image(), placed + [s])
  {
    hide CellOf, WellFormed, StoreBytes, LoadBytes, Holds, Plain, Backed, RoomFor;
    ok := MapBlock(memory, s, placed);
    ghost var n := memory.Image();
    HoldsMeans(n, placed);
    ok := memory.WriteBytes(s.address, s.contents);
    PlacedStep(n, placed, s);
    BackedSame(n, memory.Image(), placed + [s]);
  }

  lemma HoldsMeans(m: Memory, placed: seq<LoadedSection>)
    ensures Holds(m, placed) ==> Plain(m) && m.aliases == []
    ensures Plain(m) <==> WellFormed(m) && m.aliases == []
    ensures Plain(m) ==> Holds(m, [])
  {
  }

  lemma BackedSame(m: Memory, n: Memory, placed: seq<LoadedSection>)
    requires Backed(m, placed) && |m.flat| == |n.flat| && forall b :: CellOf(n, b) == CellOf(m, b)
    ensures Backed(n, placed)
  {
    hide CellOf;
    forall x | |n.flat| <= x && Mapped(n, x) ensures exists i :: 0 <= i < |placed| && InBlock(placed[i], x) {
      assert Mapped(m, x);
    }
  }
}
