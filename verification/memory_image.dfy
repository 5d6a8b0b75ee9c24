/** What guest addresses mean: a map to backing cells, with byte-wise loads and stores over it. */
module MemoryImage {
  import opened Bits

  const PAGE: nat := 0x1000

  datatype Region = Region(address: Word, bytes: seq<Byte>)
  datatype Alias = Alias(address: Word, target: Word, size: nat)

  /** A flat array at address zero, sparse regions, and aliases of flat ranges. */
  datatype Memory = Memory(flat: seq<Byte>, regions: seq<Region>, aliases: seq<Alias>)

  datatype Cell = Unmapped | Flat(index: nat) | Sparse(region: nat, offset: nat)

  predicate InAlias(alias: Alias, a: nat) { alias.address <= a < alias.address + alias.size }
  predicate InRegion(region: Region, a: nat) {
    region.address <= a < region.address + |region.bytes|
  }

  /** Index of the first alias that contains `a`, or the number of aliases. */
  function FindAlias(aliases: seq<Alias>, a: nat, from: nat := 0): (i: nat)
    requires from <= |aliases|
    ensures from <= i <= |aliases|
    ensures i < |aliases| ==> InAlias(aliases[i], a)
    ensures forall j :: from <= j < i ==> !InAlias(aliases[j], a)
    decreases |aliases| - from
  {
    if from == |aliases| || InAlias(aliases[from], a) then from else FindAlias(aliases, a, from + 1)
  }

  function FindRegion(regions: seq<Region>, a: nat, from: nat := 0): (i: nat)
    requires from <= |regions|
    ensures from <= i <= |regions|
    ensures i < |regions| ==> InRegion(regions[i], a)
    ensures forall j :: from <= j < i ==> !InRegion(regions[j], a)
    decreases |regions| - from
  {
    if from == |regions| || InRegion(regions[from], a) then from else FindRegion(regions, a, from + 1)
  }

  /** The backing cell of a guest address: aliases first, then flat memory, then regions. */
  function CellOf(m: Memory, a: nat): Cell {
    var i := FindAlias(m.aliases, a);
    if i < |m.aliases| then Flat(m.aliases[i].target + (a - m.aliases[i].address))
    else if a < |m.flat| then Flat(a)
    else
      var r := FindRegion(m.regions, a);
      if r < |m.regions| then Sparse(r, a - m.regions[r].address) else Unmapped
  }

  predicate Mapped(m: Memory, a: nat) { CellOf(m, a) != Unmapped }

  predicate Overlaps(a: nat, size: nat, b: nat, otherSize: nat) {
    a < b + otherSize && b < a + size
  }

  ghost predicate RegionFits(m: Memory, r: Region) {
    |r.bytes| > 0 && |m.flat| <= r.address && r.address + |r.bytes| <= ADDRESS_SPACE_END
  }

  ghost predicate AliasFits(m: Memory, s: Alias) {
    && s.size > 0 && |m.flat| <= s.address && s.address + s.size <= ADDRESS_SPACE_END
    && s.target + s.size <= |m.flat|
    && s.address % PAGE == 0 && s.target % PAGE == 0 && s.size % PAGE == 0
  }

  /** What `map_region` and `map_alias` maintain. */
  ghost predicate WellFormed(m: Memory) {
    && |m.flat| <= ADDRESS_SPACE_END
    && (forall i :: 0 <= i < |m.regions| ==> RegionFits(m, m.regions[i]))
    && (forall i :: 0 <= i < |m.aliases| ==> AliasFits(m, m.aliases[i]))
    && (forall i, j :: 0 <= i < j < |m.regions| ==>
          !Overlaps(m.regions[i].address, |m.regions[i].bytes|, m.regions[j].address, |m.regions[j].bytes|))
    && (forall i, j :: 0 <= i < j < |m.aliases| ==>
          !Overlaps(m.aliases[i].address, m.aliases[i].size, m.aliases[j].address, m.aliases[j].size))
    && (forall i, j :: 0 <= i < |m.regions| && 0 <= j < |m.aliases| ==>
          !Overlaps(m.regions[i].address, |m.regions[i].bytes|, m.aliases[j].address, m.aliases[j].size))
  }

  predicate InStore(m: Memory, c: Cell) {
    match c
    case Unmapped => false
    case Flat(i) => i < |m.flat|
    case Sparse(r, o) => r < |m.regions| && o < |m.regions[r].bytes|
  }

  function ReadCell(m: Memory, c: Cell): Byte
    requires InStore(m, c)
  {
    match c
    case Flat(i) => m.flat[i]
    case Sparse(r, o) => m.regions[r].bytes[o]
  }

  function WriteCell(m: Memory, c: Cell, v: Byte): Memory
    requires InStore(m, c)
  {
    match c
    case Flat(i) => m.(flat := m.flat[i := v])
    case Sparse(r, o) =>
      m.(regions := m.regions[r := m.regions[r].(bytes := m.regions[r].bytes[o := v])])
  }

  lemma CellInStore(m: Memory, a: nat)
    requires WellFormed(m)
    ensures Mapped(m, a) ==> InStore(m, CellOf(m, a)) && a < ADDRESS_SPACE_END
  {
  }

  function ByteAt(m: Memory, a: nat): Byte
    requires WellFormed(m) && Mapped(m, a)
  {
    CellInStore(m, a);
    ReadCell(m, CellOf(m, a))
  }

  /** Same addresses, same cells; only the bytes may differ. */
  ghost predicate SameLayout(m: Memory, n: Memory) {
    && |m.flat| == |n.flat| && m.aliases == n.aliases && |m.regions| == |n.regions|
    && forall i :: 0 <= i < |m.regions| ==>
         m.regions[i].address == n.regions[i].address && |m.regions[i].bytes| == |n.regions[i].bytes|
  }

  lemma LayoutDecides(m: Memory, n: Memory)
    requires SameLayout(m, n)
    ensures WellFormed(m) ==> WellFormed(n)
    ensures forall c :: InStore(m, c) <==> InStore(n, c)
    ensures forall a :: CellOf(m, a) == CellOf(n, a)
  {
    assert forall i, a :: 0 <= i < |m.regions| ==> InRegion(m.regions[i], a) == InRegion(n.regions[i], a);
  }

  lemma WriteCellKeepsLayout(m: Memory, c: Cell, v: Byte)
    requires WellFormed(m) && InStore(m, c)
    ensures SameLayout(m, WriteCell(m, c, v)) && WellFormed(WriteCell(m, c, v))
    ensures forall b :: CellOf(WriteCell(m, c, v), b) == CellOf(m, b)
    ensures forall b, k :: MappedRange(WriteCell(m, c, v), b, k) == MappedRange(m, b, k)
  {
    LayoutDecides(m, WriteCell(m, c, v));
    SameRanges(m, WriteCell(m, c, v));
  }

  lemma SameRanges(m: Memory, n: Memory)
    requires forall b :: CellOf(n, b) == CellOf(m, b)
    ensures forall b, k :: MappedRange(n, b, k) == MappedRange(m, b, k)
  {
    hide CellOf;
    assert forall x :: Mapped(n, x) == Mapped(m, x);
  }

  /** The whole nonempty range lies inside the address space and is mapped. */
  ghost predicate MappedRange(m: Memory, a: nat, n: nat) {
    a + n <= ADDRESS_SPACE_END && forall x :: a <= x < a + n ==> Mapped(m, x)
  }

  ghost function LoadBytes(m: Memory, a: nat, n: nat): (s: seq<Byte>)
    requires WellFormed(m) && MappedRange(m, a, n)
    ensures |s| == n && forall k :: 0 <= k < n ==> s[k] == ByteAt(m, a + k)
  {
    hide WellFormed, Mapped, ByteAt;
    seq<Byte>(n, i requires 0 <= i < n => ByteAt(m, a + i))
  }

  /** Storing byte by byte, in increasing address order. */
  ghost function StoreBytes(m: Memory, a: nat, bs: seq<Byte>): (n: Memory)
    requires WellFormed(m) && MappedRange(m, a, |bs|)
    ensures SameLayout(m, n) && WellFormed(n)
    ensures forall b :: CellOf(n, b) == CellOf(m, b)
    ensures forall b, k :: MappedRange(n, b, k) == MappedRange(m, b, k)
    decreases |bs|
  {
    hide CellOf, WellFormed;
    if |bs| == 0 then m
    else
      var last := |bs| - 1;
      var before := StoreBytes(m, a, bs[..last]);
      assert Mapped(m, a + last);
      CellInStore(before, a + last);
      WriteCellKeepsLayout(before, CellOf(before, a + last), bs[last]);
      WriteCell(before, CellOf(before, a + last), bs[last])
  }

  lemma Prefix(m: Memory, a: nat, n: nat)
    requires MappedRange(m, a, n + 1)
    ensures MappedRange(m, a, n) && Mapped(m, a + n)
  {
  }

  /** The last position in the span [a, a + n) backed by cell `c`, or -1. */
  ghost function LastHit(m: Memory, a: nat, n: nat, c: Cell): (k: int)
    ensures -1 <= k < n
    ensures k >= 0 ==> CellOf(m, a + k) == c
    ensures forall x :: a + k < x < a + n ==> CellOf(m, x) != c
  {
    if n == 0 then -1 else if CellOf(m, a + n - 1) == c then n - 1 else LastHit(m, a, n - 1, c)
  }

  /** A store changes exactly the cells under the span; where two addresses share a cell the last write wins. */
  lemma {:induction false} StoredCell(m: Memory, a: nat, bs: seq<Byte>, c: Cell)
    requires WellFormed(m) && MappedRange(m, a, |bs|) && InStore(m, c)
    ensures InStore(StoreBytes(m, a, bs), c)
    ensures ReadCell(StoreBytes(m, a, bs), c) ==
            (var k := LastHit(m, a, |bs|, c); if k < 0 then ReadCell(m, c) else bs[k])
    decreases |bs|
  {
    hide WellFormed, CellOf, MappedRange, SameLayout, InStore, ReadCell, WriteCell;
    LayoutDecides(m, StoreBytes(m, a, bs));
    if |bs| > 0 {
      var last := |bs| - 1;
      Prefix(m, a, last);
      StoredCell(m, a, bs[..last], c);
      CellInStore(m, a + last);
      var before := StoreBytes(m, a, bs[..last]);
      LayoutDecides(m, before);
      WrittenCell(before, CellOf(before, a + last), bs[last], c);
    }
  }

  lemma WrittenCell(m: Memory, d: Cell, v: Byte, c: Cell)
    requires InStore(m, d) && InStore(m, c)
    ensures InStore(WriteCell(m, d, v), c)
    ensures ReadCell(WriteCell(m, d, v), c) == if c == d then v else ReadCell(m, c)
  {
  }

  /** No cell lies under two different addresses of the span. */
  ghost predicate Injective(m: Memory, a: nat, n: nat) {
    forall x, y :: a <= x < y < a + n ==> CellOf(m, x) != CellOf(m, y)
  }

  /** No cell lies under both spans. */
  ghost predicate Separate(m: Memory, a: nat, n: nat, b: nat, k: nat) {
    forall x, y :: a <= x < a + n && b <= y < b + k ==> CellOf(m, x) != CellOf(m, y)
  }

  lemma ReadBack(m: Memory, a: nat, bs: seq<Byte>)
    requires WellFormed(m) && MappedRange(m, a, |bs|) && Injective(m, a, |bs|)
    ensures LoadBytes(StoreBytes(m, a, bs), a, |bs|) == bs
  {
    hide WellFormed, CellOf, StoreBytes, LoadBytes, ReadCell, InStore;
    forall k | 0 <= k < |bs| ensures ByteAt(StoreBytes(m, a, bs), a + k) == bs[k] {
      assert Mapped(m, a + k);
      CellInStore(m, a + k);
      StoredCell(m, a, bs, CellOf(m, a + k));
    }
  }

  lemma StoreFrame(m: Memory, a: nat, bs: seq<Byte>, b: nat, k: nat)
    requires WellFormed(m) && MappedRange(m, a, |bs|) && MappedRange(m, b, k)
    requires Separate(m, a, |bs|, b, k)
    ensures LoadBytes(StoreBytes(m, a, bs), b, k) == LoadBytes(m, b, k)
  {
    hide WellFormed, CellOf, StoreBytes, LoadBytes, ReadCell, InStore;
    forall x | b <= x < b + k ensures ByteAt(StoreBytes(m, a, bs), x) == ByteAt(m, x) {
      CellInStore(m, x);
      StoredCell(m, a, bs, CellOf(m, x));
    }
  }

  lemma {:induction false} StoreConcat(m: Memory, a: nat, bs: seq<Byte>, cs: seq<Byte>)
    requires WellFormed(m) && MappedRange(m, a, |bs| + |cs|)
    ensures MappedRange(m, a, |bs|) && MappedRange(StoreBytes(m, a, bs), a + |bs|, |cs|)
    ensures StoreBytes(m, a, bs + cs) == StoreBytes(StoreBytes(m, a, bs), a + |bs|, cs)
    decreases |cs|
  {
    hide WellFormed, CellOf;
    var first := StoreBytes(m, a, bs);
    if |cs| == 0 {
      assert bs + cs == bs;
    } else {
      var last := |cs| - 1;
      assert (bs + cs)[..|bs + cs| - 1] == bs + cs[..last];
      StoreConcat(m, a, bs, cs[..last]);
    }
  }

  /** The alias translation used by generations and reservations. */
  function Resolve(m: Memory, a: nat): nat {
    var i := FindAlias(m.aliases, a);
    if i < |m.aliases| then m.aliases[i].target + (a - m.aliases[i].address) else a
  }

  /** At most one of the mapped objects contains an address, so the search order is immaterial. */
  lemma OneObject(m: Memory, a: nat)
    requires WellFormed(m)
    ensures forall i :: 0 <= i < |m.aliases| && InAlias(m.aliases[i], a) ==>
              a >= |m.flat| && FindAlias(m.aliases, a) == i
    ensures forall r :: 0 <= r < |m.regions| && InRegion(m.regions[r], a) ==>
              a >= |m.flat| && FindAlias(m.aliases, a) == |m.aliases| && FindRegion(m.regions, a) == r
  {
  }

  /** Addresses that share a cell resolve to the same address: to the flat index, or to themselves. */
  lemma SharedCellResolves(m: Memory, a: nat, b: nat)
    requires WellFormed(m) && Mapped(m, a)
    ensures CellOf(m, a) == CellOf(m, b) ==> Resolve(m, a) == Resolve(m, b)
  {
  }

  /** An alias and its target are the same bytes: what is written through either is read through the other. */
  lemma AliasedWriteSeen(m: Memory, i: nat, a: nat, b: nat, v: Byte)
    requires WellFormed(m) && i < |m.aliases| && InAlias(m.aliases[i], a)
    requires b == m.aliases[i].target + (a - m.aliases[i].address)
    ensures MappedRange(m, a, 1) && MappedRange(m, b, 1)
    ensures Mapped(StoreBytes(m, a, [v]), b) && ByteAt(StoreBytes(m, a, [v]), b) == v
    ensures Mapped(StoreBytes(m, b, [v]), a) && ByteAt(StoreBytes(m, b, [v]), a) == v
  {
    hide *;
    AliasCells(m, i, a, b);
    SharedWriteSeen(m, a, b, v);
    SharedWriteSeen(m, b, a, v);
  }

  lemma SharedWriteSeen(m: Memory, a: nat, b: nat, v: Byte)
    requires WellFormed(m) && MappedRange(m, a, 1) && Mapped(m, a) && Mapped(m, b) && CellOf(m, a) == CellOf(m, b)
    ensures Mapped(StoreBytes(m, a, [v]), b) && ByteAt(StoreBytes(m, a, [v]), b) == v
  {
    hide WellFormed, CellOf, StoreBytes, ReadCell, InStore;
    CellInStore(m, a);
    StoredCell(m, a, [v], CellOf(m, a));
    assert LastHit(m, a, 1, CellOf(m, a)) == 0;
  }

  lemma AliasCells(m: Memory, i: nat, a: nat, b: nat)
    requires WellFormed(m) && i < |m.aliases| && InAlias(m.aliases[i], a)
    requires b == m.aliases[i].target + (a - m.aliases[i].address)
    ensures CellOf(m, a) == CellOf(m, b) == Flat(b) && Mapped(m, a) && Mapped(m, b)
    ensures MappedRange(m, a, 1) && MappedRange(m, b, 1)
  {
    assert AliasFits(m, m.aliases[i]);
    OneObject(m, a);
    OneObject(m, b);
  }

  lemma AliasKeepsOffset(m: Memory, a: nat)
    requires WellFormed(m)
    ensures Resolve(m, a) % PAGE == a % PAGE
    ensures Resolve(m, a / PAGE * PAGE) == Resolve(m, a) / PAGE * PAGE
  {
    var base := a / PAGE * PAGE;
    forall i | 0 <= i < |m.aliases|
      ensures AliasFits(m, m.aliases[i])
      ensures InAlias(m.aliases[i], base) <==> InAlias(m.aliases[i], a)
    {
      assert AliasFits(m, m.aliases[i]);
      AliasWholePages(m.aliases[i], a);
    }
    hide WellFormed, InAlias, AliasFits;
    var i := FindAlias(m.aliases, a);
    assert i == FindAlias(m.aliases, base);
    if i < |m.aliases| { AliasedOffset(m, m.aliases[i], a); }
  }

  lemma AliasWholePages(s: Alias, a: nat)
    requires s.address % PAGE == 0 && s.size % PAGE == 0
    ensures InAlias(s, a / PAGE * PAGE) <==> InAlias(s, a)
  {
  }

  lemma AliasedOffset(m: Memory, s: Alias, a: nat)
    requires AliasFits(m, s) && InAlias(s, a)
    ensures a / PAGE * PAGE >= s.address
    ensures (s.target + (a - s.address)) % PAGE == a % PAGE
    ensures s.target + (a / PAGE * PAGE - s.address) == (s.target + (a - s.address)) / PAGE * PAGE
  {
  }

  /** Page-aligned aliases keep the page offset, so a span of at most one page hits no cell twice. */
  lemma ShortSpansInjective(m: Memory, a: nat, n: nat)
    requires WellFormed(m) && MappedRange(m, a, n) && n <= PAGE
    ensures Injective(m, a, n)
  {
    hide WellFormed, CellOf, Resolve;
    forall x, y | a <= x < y < a + n ensures CellOf(m, x) != CellOf(m, y) {
      assert Mapped(m, x);
      AliasKeepsOffset(m, x);
      AliasKeepsOffset(m, y);
      SharedCellResolves(m, x, y);
    }
  }

  // Big-endian scalars

  function BigEndian(bs: seq<Byte>): nat {
    if |bs| == 0 then 0 else BigEndian(bs[..|bs| - 1]) * 0x100 + bs[|bs| - 1]
  }

  /** The `width` low-order bytes of `value`, most significant first. */
  function BytesOf(value: nat, width: nat): (bs: seq<Byte>)
    ensures |bs| == width
  {
    if width == 0 then [] else BytesOf(value / 0x100, width - 1) + [value % 0x100]
  }

  lemma {:induction false} BytesRoundTrip(value: nat, width: nat)
    ensures BigEndian(BytesOf(value, width)) == value % Pow2(8 * width)
  {
    if width == 0 {
    } else {
      BytesRoundTrip(value / 0x100, width - 1);
      var bs := BytesOf(value, width);
      assert bs[..width - 1] == BytesOf(value / 0x100, width - 1);
      ModByte(value, Pow2(8 * (width - 1)));
      Pow2Sum(8, 8 * (width - 1));
      assert Pow2(8) == 0x100;
    }
  }

  lemma ModByte(value: nat, p: nat)
    requires p >= 1
    ensures value % (0x100 * p) == ((value / 0x100) % p) * 0x100 + value % 0x100
  {
    var q, r := (value / 0x100) / p, (value / 0x100) % p;
    assert value / 0x100 == p * q + r;
    assert value == (0x100 * p) * q + (r * 0x100 + value % 0x100);
    DivisionUnique(value, 0x100 * p, q, r * 0x100 + value % 0x100);
  }

  lemma {:induction false} BigEndianBound(bs: seq<Byte>)
    ensures BigEndian(bs) < Pow2(8 * |bs|)
  {
    if |bs| > 0 {
      BigEndianBound(bs[..|bs| - 1]);
      NextByte(|bs| - 1);
    }
  }

  lemma NextByte(width: nat)
    ensures Pow2(8 * (width + 1)) == 0x100 * Pow2(8 * width)
  {
    Pow2Sum(8, 8 * width);
    assert Pow2(8) == 0x100;
  }

  lemma WidthPowers()
    ensures Pow2(8) == 0x100 && Pow2(16) == 0x1_0000 && Pow2(32) == ADDRESS_SPACE_END
    ensures Pow2(64) == TWO_TO_THE_64
  {
    assert Pow2(8) == 0x100;
    Pow2Sum(8, 8);
    Pow2Sum(16, 16);
    Pow2Of64();
  }

  ghost function WordAt(m: Memory, a: nat): Word
    requires WellFormed(m) && MappedRange(m, a, 4)
  {
    hide WellFormed, LoadBytes, Pow2;
    WidthPowers();
    BigEndianBound(LoadBytes(m, a, 4));
    BigEndian(LoadBytes(m, a, 4))
  }

  ghost function StoreWord(m: Memory, a: nat, v: Word): (n: Memory)
    requires WellFormed(m) && MappedRange(m, a, 4)
    ensures SameLayout(m, n) && WellFormed(n)
    ensures forall b :: CellOf(n, b) == CellOf(m, b)
    ensures forall b, k :: MappedRange(n, b, k) == MappedRange(m, b, k)
  {
    StoreBytes(m, a, BytesOf(v, 4))
  }

  /** A 16-, 32- or 64-bit value written anywhere in mapped memory reads back, even across boundaries. */
  lemma ScalarReadBack(m: Memory, a: nat, value: nat, width: nat)
    requires WellFormed(m) && MappedRange(m, a, width) && width <= PAGE
    ensures BigEndian(LoadBytes(StoreBytes(m, a, BytesOf(value, width)), a, width)) == value % Pow2(8 * width)
  {
    ShortSpansInjective(m, a, width);
    ReadBack(m, a, BytesOf(value, width));
    BytesRoundTrip(value, width);
  }
}
