/** The guest memory object: mapping calls, segment lookup, and the accessors built on it. */
module GuestMemoryModel {
  import opened Bits
  import opened MemoryImage
  import opened PageGenerations

  /** A run of consecutive cells; length zero where the source throws. */
  datatype Span = Span(start: Cell, length: nat)

  function Advance(c: Cell, k: nat): Cell {
    match c
    case Unmapped => Unmapped
    case Flat(i) => Flat(i + k)
    case Sparse(r, o) => Sparse(r, o + k)
  }

  /** The cells that consecutive addresses from `a` occupy before the segment ends. */
  ghost predicate IsSegment(m: Memory, a: nat, s: Span) {
    && (s.length == 0 <==> !Mapped(m, a))
    && MappedRange(m, a, s.length)
    && forall x :: a <= x < a + s.length ==> CellOf(m, x) == Advance(s.start, x - a)
  }

  /** What a zero-width access accepts: flat addresses, and the closed extent of an alias or region. */
  ghost predicate ZeroWidthAccepted(m: Memory, a: nat) {
    || a < |m.flat|
    || (exists i :: 0 <= i < |m.aliases| && m.aliases[i].address <= a <= m.aliases[i].address + m.aliases[i].size)
    || (exists i :: 0 <= i < |m.regions| && m.regions[i].address <= a <= m.regions[i].address + |m.regions[i].bytes|)
  }

  ghost predicate Accessible(m: Memory, a: nat, width: nat) {
    if width == 0 then ZeroWidthAccepted(m, a) else MappedRange(m, a, width)
  }

  lemma AliasSegment(m: Memory, i: nat, a: nat)
    requires WellFormed(m) && i < |m.aliases| && InAlias(m.aliases[i], a)
    ensures IsSegment(m, a, Span(Flat(m.aliases[i].target + (a - m.aliases[i].address)),
                                 m.aliases[i].size - (a - m.aliases[i].address)))
  {
    assert AliasFits(m, m.aliases[i]);
    forall x | a <= x < m.aliases[i].address + m.aliases[i].size
      ensures CellOf(m, x) == Flat(m.aliases[i].target + (x - m.aliases[i].address))
    {
      assert InAlias(m.aliases[i], x);
      OneObject(m, x);
    }
  }

  lemma NotMapped(m: Memory, a: Word)
    requires a >= |m.flat|
    requires forall j :: 0 <= j < |m.aliases| ==> !InAlias(m.aliases[j], a)
    requires forall j :: 0 <= j < |m.regions| ==> !InRegion(m.regions[j], a)
    ensures IsSegment(m, a, Span(Unmapped, 0))
  {
    assert FindAlias(m.aliases, a) == |m.aliases|;
    assert FindRegion(m.regions, a) == |m.regions|;
  }

  lemma FlatCell(m: Memory, x: nat)
    requires WellFormed(m) && x < |m.flat|
    ensures CellOf(m, x) == Flat(x)
  {
    OneObject(m, x);
  }

  lemma FlatFits(m: Memory)
    requires WellFormed(m)
    ensures |m.flat| <= ADDRESS_SPACE_END
  {
  }

  lemma FlatSegment(m: Memory, a: nat)
    requires WellFormed(m) && a < |m.flat|
    ensures IsSegment(m, a, Span(Flat(a), |m.flat| - a))
  {
    hide WellFormed, CellOf;
    forall x | a <= x < |m.flat| ensures CellOf(m, x) == Flat(x) && Mapped(m, x) {
      FlatCell(m, x);
      FlatMapped(m, x);
    }
    FlatFits(m);
    assert Mapped(m, a);
    hide Mapped;
  }

  lemma FlatMapped(m: Memory, x: nat)
    requires WellFormed(m) && x < |m.flat| && CellOf(m, x) == Flat(x)
    ensures Mapped(m, x)
  {
    FlatFits(m);
    hide WellFormed, CellOf;
  }

  lemma RegionSegment(m: Memory, r: nat, a: nat)
    requires WellFormed(m) && r < |m.regions| && InRegion(m.regions[r], a)
    ensures IsSegment(m, a, Span(Sparse(r, a - m.regions[r].address),
                                 |m.regions[r].bytes| - (a - m.regions[r].address)))
  {
    assert RegionFits(m, m.regions[r]);
    forall x | a <= x < m.regions[r].address + |m.regions[r].bytes|
      ensures CellOf(m, x) == Sparse(r, x - m.regions[r].address)
    {
      assert InRegion(m.regions[r], x);
      OneObject(m, x);
    }
  }

  lemma {:induction false} StoreLast(m: Memory, a: nat, bs: seq<Byte>, k: nat)
    requires WellFormed(m) && MappedRange(m, a, |bs|) && k < |bs|
    ensures MappedRange(m, a, k) && MappedRange(m, a, k + 1)
    ensures InStore(StoreBytes(m, a, bs[..k]), CellOf(m, a + k))
    ensures StoreBytes(m, a, bs[..k + 1]) == WriteCell(StoreBytes(m, a, bs[..k]), CellOf(m, a + k), bs[k])
  {
    hide WellFormed, CellOf, ReadCell, InStore, WriteCell;
    assert bs[..k + 1][..k] == bs[..k];
    assert Mapped(m, a + k);
    CellInStore(StoreBytes(m, a, bs[..k]), a + k);
  }

  class GuestMemory {
    const bytes: array<Byte>
    var regions: seq<Region>
    var aliases: seq<Alias>
    const flatGenerations: array<nat>
    var sparseGenerations: map<nat, nat>
    var writeGeneration: nat

    ghost function Image(): Memory
      reads this, bytes
    {
      Memory(bytes[..], regions, aliases)
    }

    ghost function Counters(): Generations
      reads this, flatGenerations
    {
      Generations(flatGenerations[..], sparseGenerations)
    }

    ghost predicate Valid()
      reads this, bytes, flatGenerations
    {
      bytes as object != flatGenerations as object && WellFormed(Image()) && Covers(Counters(), Image())
    }

    constructor (size: nat)
      requires size <= ADDRESS_SPACE_END
      ensures Valid() && fresh(bytes) && fresh(flatGenerations)
      ensures Image() == Memory(seq(size, _ => 0), [], [])
      ensures forall a :: PageGeneration(Image(), Counters(), a) == 0
    {
      bytes := new Byte[size](_ => 0);
      flatGenerations := new nat[(size + PAGE - 1) / PAGE](_ => 0);
      regions, aliases, sparseGenerations, writeGeneration := [], [], map[], 0;
    }

    method MapRegion(address: Word, size: nat) returns (ok: bool)
      requires Valid()
      modifies this`regions
      ensures Valid()
      ensures ok <==>
        && 0 < size <= ADDRESS_SPACE_END - address
        && !Overlaps(address, size, 0, bytes.Length)
        && (forall i :: 0 <= i < |old(regions)| ==>
              !Overlaps(address, size, old(regions)[i].address, |old(regions)[i].bytes|))
        && (forall i :: 0 <= i < |aliases| ==> !Overlaps(address, size, aliases[i].address, aliases[i].size))
      ensures regions == if ok then old(regions) + [Region(address, seq(size, _ => 0))] else old(regions)
    {
      if size == 0 || size > ADDRESS_SPACE_END - address || Overlaps(address, size, 0, bytes.Length) {
        return false;
      }
      for i := 0 to |regions|
        invariant forall j :: 0 <= j < i ==> !Overlaps(address, size, regions[j].address, |regions[j].bytes|)
      {
        if Overlaps(address, size, regions[i].address, |regions[i].bytes|) { return false; }
      }
      for i := 0 to |aliases|
        invariant forall j :: 0 <= j < i ==> !Overlaps(address, size, aliases[j].address, aliases[j].size)
      {
        if Overlaps(address, size, aliases[i].address, aliases[i].size) { return false; }
      }
      ghost var before := Image();
      var added := Region(address, seq(size, _ => 0));
      regions := regions + [added];
      AddedRegion(before, added);
      return true;
    }

    method MapAlias(address: Word, target: Word, size: nat) returns (ok: bool)
      requires Valid()
      modifies this`aliases
      ensures Valid()
      ensures ok <==>
        && 0 < size <= ADDRESS_SPACE_END - address
        && target + size <= bytes.Length
        && !Overlaps(address, size, 0, bytes.Length)
        && address % PAGE == 0 && target % PAGE == 0 && size % PAGE == 0
        && (forall i :: 0 <= i < |regions| ==>
              !Overlaps(address, size, regions[i].address, |regions[i].bytes|))
        && (Alias(address, target, size) in old(aliases) ||
            forall i :: 0 <= i < |old(aliases)| ==>
              !Overlaps(address, size, old(aliases)[i].address, old(aliases)[i].size))
      ensures aliases == if ok && Alias(address, target, size) !in old(aliases)
                         then old(aliases) + [Alias(address, target, size)] else old(aliases)
    {
      if size == 0 || size > ADDRESS_SPACE_END - address || target > bytes.Length ||
         size > bytes.Length - target || Overlaps(address, size, 0, bytes.Length) ||
         address % PAGE != 0 || target % PAGE != 0 || size % PAGE != 0 {
        return false;
      }
      for i := 0 to |regions|
        invariant forall j :: 0 <= j < i ==> !Overlaps(address, size, regions[j].address, |regions[j].bytes|)
      {
        if Overlaps(address, size, regions[i].address, |regions[i].bytes|) { return false; }
      }
      for i := 0 to |aliases|
        invariant aliases == old(aliases)
        invariant forall j :: 0 <= j < i ==> !Overlaps(address, size, aliases[j].address, aliases[j].size)
      {
        if aliases[i] == Alias(address, target, size) { return true; }
        FlatTarget(Image(), i, target, size);
        if Overlaps(address, size, aliases[i].address, aliases[i].size) ||
           Overlaps(target, size, aliases[i].address, aliases[i].size) {
          OverlapExcludes(Image(), i, Alias(address, target, size));
          return false;
        }
      }
      ghost var before := Image();
      aliases := aliases + [Alias(address, target, size)];
      AddedAlias(before, Alias(address, target, size));
      return true;
    }

    /** `storage_from`: aliases, then flat memory, then regions. */
    method StorageFrom(address: Word) returns (s: Span)
      requires Valid()
      ensures IsSegment(Image(), address, s)
    {
      for i := 0 to |aliases|
        invariant forall j :: 0 <= j < i ==> !InAlias(aliases[j], address)
      {
        if address >= aliases[i].address && address - aliases[i].address < aliases[i].size {
          var offset := address - aliases[i].address;
          var target := aliases[i].target + offset;
          AliasSegment(Image(), i, address);
          assert AliasFits(Image(), Image().aliases[i]);
          return Span(Flat(target), Min(aliases[i].size - offset, bytes.Length - target));
        }
      }
      if address < bytes.Length {
        FlatSegment(Image(), address);
        return Span(Flat(address), bytes.Length - address);
      }
      for i := 0 to |regions|
        invariant forall j :: 0 <= j < i ==> !InRegion(regions[j], address)
      {
        if address >= regions[i].address {
          var offset := address - regions[i].address;
          if offset < |regions[i].bytes| {
            RegionSegment(Image(), i, address);
            return Span(Sparse(i, offset), |regions[i].bytes| - offset);
          }
        }
      }
      NotMapped(Image(), address);
      return Span(Unmapped, 0);
    }

    /** `validate_access`: all of the range or nothing. */
    method ValidateAccess(address: Word, width: nat) returns (ok: bool)
      requires Valid()
      ensures ok <==> width <= ADDRESS_SPACE_END - address && Accessible(Image(), address, width)
    {
      if width > ADDRESS_SPACE_END - address { return false; }
      if width == 0 {
        if address < bytes.Length { return true; }
        for i := 0 to |aliases|
          invariant forall j :: 0 <= j < i ==>
                      !(aliases[j].address <= address <= aliases[j].address + aliases[j].size)
        {
          if address >= aliases[i].address && address - aliases[i].address <= aliases[i].size { return true; }
        }
        for i := 0 to |regions|
          invariant forall j :: 0 <= j < i ==>
                      !(regions[j].address <= address <= regions[j].address + |regions[j].bytes|)
        {
          if address >= regions[i].address && address - regions[i].address <= |regions[i].bytes| { return true; }
        }
        return false;
      }
      var current: nat, remaining: nat := address, width;
      while remaining != 0
        invariant current + remaining == address + width
        invariant address <= current && MappedRange(Image(), address, current - address)
      {
        var segment := StorageFrom(current);
        var count := Min(segment.length, remaining);
        if count == 0 { return false; }
        current := current + count;
        remaining := remaining - count;
      }
      return true;
    }

    predicate IsFlatRange(address: nat, width: nat) {
      address <= bytes.Length && width <= bytes.Length - address
    }

    method LoadCell(c: Cell) returns (v: Byte)
      requires Valid() && InStore(Image(), c)
      ensures v == ReadCell(Image(), c)
    {
      match c
      case Flat(i) => v := bytes[i];
      case Sparse(r, o) => v := regions[r].bytes[o];
    }

    method StoreCell(c: Cell, v: Byte)
      requires Valid() && InStore(Image(), c)
      modifies this`regions, bytes
      ensures Image() == WriteCell(old(Image()), c, v)
      ensures Valid()
    {
      ghost var before := Image();
      WriteCellKeepsLayout(before, c, v);
      match c
      case Flat(i) => bytes[i] := v;
      case Sparse(r, o) => regions := regions[r := regions[r].(bytes := regions[r].bytes[o := v])];
      assert Image() == WriteCell(before, c, v);
    }

    /** `read8`, `read16_be`, `read32_be` and `read64_be`, which differ only in the width. */
    method LoadScalar(address: Word, width: nat) returns (ok: bool, value: nat)
      requires Valid() && 1 <= width <= 8
      ensures ok <==> MappedRange(Image(), address, width)
      ensures ok ==> value == BigEndian(LoadBytes(Image(), address, width))
    {
      ghost var m := Image();
      hide WellFormed, CellOf, InStore, LoadBytes;
      value := 0;
      if IsFlatRange(address, width) {
        FlatRangeMapped(m, address, width);
        for k := 0 to width
          invariant value == BigEndian(LoadBytes(m, address, width)[..k])
        {
          LoadNext(m, address, width, k);
          value := value * 0x100 + bytes[address + k];
        }
        LoadAll(m, address, width);
        return true, value;
      }
      var valid := ValidateAccess(address, width);
      if !valid { return false, 0; }
      var first := StorageFrom(address);
      for k := 0 to width
        invariant value == BigEndian(LoadBytes(m, address, width)[..k])
      {
        LoadNext(m, address, width, k);
        var segment := first;
        if k != 0 && first.length < width { segment := StorageFrom(address + k); }
        var cell := if first.length >= width then Advance(first.start, k) else segment.start;
        var byte := LoadCell(cell);
        value := value * 0x100 + byte;
      }
      LoadAll(m, address, width);
      return true, value;
    }

    /** `write8`. The page marked is the one that holds the unresolved address. */
    method Write8(address: Word, value: Byte) returns (ok: bool)
      requires Valid()
      modifies this, bytes, flatGenerations
      ensures Valid() && aliases == old(aliases)
      ensures ok <==> MappedRange(old(Image()), address, 1)
      ensures !ok ==> Image() == old(Image()) && Counters() == old(Counters())
      ensures ok ==> Image() == StoreBytes(old(Image()), address, [value])
      ensures ok ==> Counters() == Bump(old(Counters()), address / PAGE)
    {
      ghost var m := Image();
      hide WellFormed, CellOf, ReadCell, InStore;
      if IsFlatRange(address, 1) {
        FlatRangeMapped(m, address, 1);
        StoreLast(m, address, [value], 0);
        bytes[address] := value;
      } else {
        var valid := ValidateAccess(address, 1);
        if !valid { return false; }
        var segment := StorageFrom(address);
        StoreLast(m, address, [value], 0);
        StoreCell(segment.start, value);
      }
      writeGeneration := writeGeneration + 1;
      MarkPageWritten(address / PAGE);
      return true;
    }

    method MarkPageWritten(page: nat)
      requires Valid()
      modifies this`sparseGenerations, flatGenerations
      ensures Valid() && Image() == old(Image())
      ensures Counters() == Bump(old(Counters()), page)
    {
      if page < flatGenerations.Length {
        flatGenerations[page] := flatGenerations[page] + 1;
      } else {
        var count := if page in sparseGenerations then sparseGenerations[page] else 0;
        sparseGenerations := sparseGenerations[page := count + 1];
      }
    }

    method ResolveAlias(address: nat) returns (r: nat)
      requires Valid()
      ensures r == Resolve(Image(), address)
    {
      for i := 0 to |aliases|
        invariant forall j :: 0 <= j < i ==> !InAlias(aliases[j], address)
      {
        if address >= aliases[i].address && address - aliases[i].address < aliases[i].size {
          return aliases[i].target + (address - aliases[i].address);
        }
      }
      return address;
    }

    method PageWriteGeneration(address: Word) returns (count: nat)
      requires Valid()
      ensures count == PageGeneration(Image(), Counters(), address)
    {
      var resolved := ResolveAlias(address);
      var page := resolved / PAGE;
      if page < flatGenerations.Length { return flatGenerations[page]; }
      return if page in sparseGenerations then sparseGenerations[page] else 0;
    }

    method MarkPagesWritten(address: Word, width: nat)
      requires Valid() && width > 0
      modifies this`sparseGenerations, flatGenerations
      ensures Valid() && Image() == old(Image())
      ensures Counters() == MarkWritten(old(Image()), old(Counters()), address, width)
    {
      hide WellFormed, Resolve, FindAlias, Bump;
      var first, last := address / PAGE, (address + width - 1) / PAGE;
      for page := first to last + 1
        invariant Valid() && Image() == old(Image())
        invariant Counters() == MarkPages(old(Image()), old(Counters()), first, page)
      {
        var backing := ResolveAlias(page * PAGE);
        MarkPageWritten(backing / PAGE);
      }
    }

    /** `write16_be`, `write32_be` and `write64_be`: the low-order `width` bytes, most significant first. */
    method StoreScalar(address: Word, value: nat, width: nat) returns (ok: bool)
      requires Valid() && 1 <= width <= 8
      modifies this, bytes, flatGenerations
      ensures Valid() && aliases == old(aliases)
      ensures ok <==> MappedRange(old(Image()), address, width)
      ensures !ok ==> Image() == old(Image()) && Counters() == old(Counters())
      ensures ok ==> Image() == StoreBytes(old(Image()), address, BytesOf(value, width))
      ensures ok ==> Counters() == MarkWritten(old(Image()), old(Counters()), address, width)
    {
      ghost var m := Image();
      var bs := BytesOf(value, width);
      hide WellFormed, CellOf, ReadCell, InStore, StoreBytes, WriteCell, BytesOf;
      if IsFlatRange(address, width) {
        FlatRangeMapped(m, address, width);
        StoreNone(m, address, bs);
        for k := 0 to width
          invariant Valid() && Image() == StoreBytes(m, address, bs[..k])
          invariant aliases == old(aliases) && Counters() == old(Counters())
        {
          StoreLast(m, address, bs, k);
          StoreCell(Flat(address + k), bs[k]);
        }
      } else {
        var valid := ValidateAccess(address, width);
        if !valid { return false; }
        var first := StorageFrom(address);
        StoreNone(m, address, bs);
        for k := 0 to width
          invariant Valid() && Image() == StoreBytes(m, address, bs[..k])
          invariant aliases == old(aliases) && Counters() == old(Counters())
        {
          StoreLast(m, address, bs, k);
          var segment := first;
          if k != 0 && first.length < width { segment := StorageFrom(address + k); }
          StoreCell(if first.length >= width then Advance(first.start, k) else segment.start, bs[k]);
        }
      }
      assert bs[..width] == bs;
      writeGeneration := writeGeneration + 1;
      StoreMarks(m, address, bs, Counters());
      MarkPagesWritten(address, width);
      return true;
    }

    /** The part of a copy that one segment serves. */
    method CopyOut(address: Word, length: nat, copied: nat, count: nat, start: Cell) returns (data: seq<Byte>)
      requires Valid() && MappedRange(Image(), address, length) && copied + count <= length
      requires forall x :: address + copied <= x < address + copied + count ==>
                 CellOf(Image(), x) == Advance(start, x - (address + copied))
      ensures data == LoadBytes(Image(), address, length)[copied..copied + count]
    {
      ghost var m := Image();
      hide WellFormed, CellOf, InStore, ReadCell, LoadBytes, MappedRange;
      data := [];
      for k := 0 to count
        invariant data == LoadBytes(m, address, length)[copied..copied + k]
      {
        LoadOne(m, address, length, copied + k);
        assert CellOf(m, address + copied + k) == Advance(start, k);
        var byte := LoadCell(Advance(start, k));
        data := data + [byte];
      }
    }

    method CopyIn(ghost m: Memory, address: Word, values: seq<Byte>, copied: nat, count: nat, start: Cell)
      requires Valid() && WellFormed(m) && MappedRange(m, address, |values|) && copied + count <= |values|
      requires MappedRange(m, address, copied) && Image() == StoreBytes(m, address, values[..copied])
      requires forall x :: address + copied <= x < address + copied + count ==>
                 CellOf(m, x) == Advance(start, x - (address + copied))
      modifies this`regions, bytes
      ensures Valid() && MappedRange(m, address, copied + count)
      ensures Image() == StoreBytes(m, address, values[..copied + count])
    {
      hide WellFormed, CellOf, ReadCell, InStore, StoreBytes, WriteCell;
      for k := 0 to count
        invariant Valid() && Image() == StoreBytes(m, address, values[..copied + k])
      {
        StoreLast(m, address, values, copied + k);
        assert CellOf(m, address + copied + k) == Advance(start, k);
        StoreCell(Advance(start, k), values[copied + k]);
      }
    }

    /** `read_bytes`, segment by segment. An empty destination is accepted anywhere. */
    method ReadBytes(address: Word, length: nat) returns (ok: bool, data: seq<Byte>)
      requires Valid()
      ensures ok <==> length == 0 || MappedRange(Image(), address, length)
      ensures ok && length > 0 ==> data == LoadBytes(Image(), address, length)
      ensures !ok || length == 0 ==> data == []
    {
      if length == 0 { return true, []; }
      var valid := ValidateAccess(address, length);
      if !valid { return false, []; }
      ghost var m := Image();
      hide WellFormed, CellOf, InStore, ReadCell;
      data := [];
      while |data| < length
        invariant |data| <= length && data == LoadBytes(m, address, length)[..|data|]
      {
        var copied := |data|;
        var source := StorageFrom(address + copied);
        assert Mapped(m, address + copied);
        var segment := CopyOut(address, length, copied, Min(source.length, length - copied), source.start);
        data := data + segment;
      }
      LoadAll(m, address, length);
      return true, data;
    }

    /** `write_bytes`: the whole range is validated before the first byte changes. */
    method WriteBytes(address: Word, values: seq<Byte>) returns (ok: bool)
      requires Valid()
      modifies this, bytes, flatGenerations
      ensures Valid() && aliases == old(aliases)
      ensures ok <==> Accessible(old(Image()), address, |values|)
      ensures !ok || values == [] ==> Image() == old(Image()) && Counters() == old(Counters())
      ensures ok && values != [] ==> Image() == StoreBytes(old(Image()), address, values)
      ensures ok && values != [] ==>
                Counters() == MarkWritten(old(Image()), old(Counters()), address, |values|)
    {
      var valid := ValidateAccess(address, |values|);
      if !valid { return false; }
      if |values| == 0 { return true; }
      hide WellFormed, CellOf, StoreBytes;
      WriteSegments(address, values);
      writeGeneration := writeGeneration + 1;
      StoreMarks(old(Image()), address, values, Counters());
      MarkPagesWritten(address, |values|);
      return true;
    }

    method WriteSegments(address: Word, values: seq<Byte>)
      requires Valid() && MappedRange(Image(), address, |values|)
      modifies this`regions, bytes
      ensures Valid() && Image() == StoreBytes(old(Image()), address, values)
    {
      ghost var m := Image();
      hide WellFormed, CellOf, ReadCell, InStore, StoreBytes, WriteCell;
      var copied: nat := 0;
      StoreNone(m, address, values);
      while copied < |values|
        invariant copied <= |values| && MappedRange(m, address, copied)
        invariant Valid() && Image() == StoreBytes(m, address, values[..copied])
      {
        var destination := StorageFrom(address + copied);
        assert Mapped(m, address + copied);
        var count := Min(destination.length, |values| - copied);
        CopyIn(m, address, values, copied, count, destination.start);
        copied := copied + count;
      }
      assert values[..copied] == values;
    }

    /** `fill_bytes`; a zero length is a no-op anywhere. */
    method FillBytes(address: Word, length: nat, value: Byte) returns (ok: bool)
      requires Valid()
      modifies this, bytes, flatGenerations
      ensures Valid() && aliases == old(aliases)
      ensures ok <==> length == 0 || MappedRange(old(Image()), address, length)
      ensures !ok || length == 0 ==> Image() == old(Image()) && Counters() == old(Counters())
      ensures ok && length > 0 ==>
                Image() == StoreBytes(old(Image()), address, seq<Byte>(length, _ => value))
      ensures ok && length > 0 ==>
                Counters() == MarkWritten(old(Image()), old(Counters()), address, length)
    {
      if length == 0 { return true; }
      ok := WriteBytes(address, seq<Byte>(length, _ => value));
    }

    /** `copy_bytes` and `move_bytes`: the source is staged, so overlapping ranges move correctly. */
    method TransferBytes(source: Word, destination: Word, length: nat) returns (ok: bool)
      requires Valid()
      modifies this, bytes, flatGenerations
      ensures Valid() && aliases == old(aliases)
      ensures ok <==>
        (length == 0 ||
         (MappedRange(old(Image()), source, length) && MappedRange(old(Image()), destination, length)))
      ensures !ok || length == 0 ==> Image() == old(Image()) && Counters() == old(Counters())
      ensures ok && length > 0 ==>
                Image() == StoreBytes(old(Image()), destination, LoadBytes(old(Image()), source, length))
      ensures ok && length > 0 ==>
                Counters() == MarkWritten(old(Image()), old(Counters()), destination, length)
    {
      if length == 0 { return true; }
      var readable := ValidateAccess(source, length);
      var writable := ValidateAccess(destination, length);
      if !readable || !writable { return false; }
      var done, temporary := ReadBytes(source, length);
      done := WriteBytes(destination, temporary);
      return true;
    }
  }

  // Facts the methods use

  lemma AddedRegion(m: Memory, r: Region)
    requires WellFormed(m) && RegionFits(m, r)
    requires forall i :: 0 <= i < |m.regions| ==>
               !Overlaps(r.address, |r.bytes|, m.regions[i].address, |m.regions[i].bytes|)
    requires forall i :: 0 <= i < |m.aliases| ==>
               !Overlaps(r.address, |r.bytes|, m.aliases[i].address, m.aliases[i].size)
    ensures WellFormed(m.(regions := m.regions + [r]))
  {
    var n := m.(regions := m.regions + [r]);
    forall i | 0 <= i < |n.regions| ensures RegionFits(n, n.regions[i]) {
      assert i < |m.regions| ==> RegionFits(m, m.regions[i]);
    }
    forall i | 0 <= i < |n.aliases| ensures AliasFits(n, n.aliases[i]) {
      assert AliasFits(m, m.aliases[i]);
    }
  }

  lemma AddedAlias(m: Memory, s: Alias)
    requires WellFormed(m) && AliasFits(m, s)
    requires forall i :: 0 <= i < |m.regions| ==>
               !Overlaps(s.address, s.size, m.regions[i].address, |m.regions[i].bytes|)
    requires forall i :: 0 <= i < |m.aliases| ==>
               !Overlaps(s.address, s.size, m.aliases[i].address, m.aliases[i].size)
    ensures WellFormed(m.(aliases := m.aliases + [s]))
  {
    var n := m.(aliases := m.aliases + [s]);
    forall i | 0 <= i < |n.regions| ensures RegionFits(n, n.regions[i]) {
      assert RegionFits(m, m.regions[i]);
    }
    forall i | 0 <= i < |n.aliases| ensures AliasFits(n, n.aliases[i]) {
      assert i < |m.aliases| ==> AliasFits(m, m.aliases[i]);
    }
  }

  /** A flat target never overlaps an alias, so the second overlap test never fires. */
  lemma FlatTarget(m: Memory, i: nat, target: nat, size: nat)
    requires WellFormed(m) && i < |m.aliases| && target + size <= |m.flat|
    ensures !Overlaps(target, size, m.aliases[i].address, m.aliases[i].size)
  {
    assert AliasFits(m, m.aliases[i]);
  }

  /** A range that overlaps one alias without being it cannot be a later alias either. */
  lemma OverlapExcludes(m: Memory, i: nat, s: Alias)
    requires WellFormed(m) && i < |m.aliases| && s != m.aliases[i]
    requires Overlaps(s.address, s.size, m.aliases[i].address, m.aliases[i].size)
    ensures s !in m.aliases
  {
  }

  lemma FlatRangeMapped(m: Memory, a: nat, width: nat)
    requires WellFormed(m) && a + width <= |m.flat|
    ensures MappedRange(m, a, width)
    ensures forall x :: a <= x < a + width ==> CellOf(m, x) == Flat(x)
  {
    if width > 0 { FlatSegment(m, a); }
  }

  lemma LoadNext(m: Memory, a: nat, width: nat, k: nat)
    requires WellFormed(m) && MappedRange(m, a, width) && k < width
    ensures Mapped(m, a + k) && InStore(m, CellOf(m, a + k))
    ensures BigEndian(LoadBytes(m, a, width)[..k + 1]) ==
            BigEndian(LoadBytes(m, a, width)[..k]) * 0x100 + ReadCell(m, CellOf(m, a + k))
  {
    assert Mapped(m, a + k);
    CellInStore(m, a + k);
    var s := LoadBytes(m, a, width);
    assert s[..k + 1][..k] == s[..k];
    assert s[k] == ByteAt(m, a + k);
  }

  lemma LoadOne(m: Memory, a: nat, width: nat, k: nat)
    requires WellFormed(m) && MappedRange(m, a, width) && k < width
    ensures InStore(m, CellOf(m, a + k)) && LoadBytes(m, a, width)[k] == ReadCell(m, CellOf(m, a + k))
  {
    assert Mapped(m, a + k);
    CellInStore(m, a + k);
  }

  lemma LoadAll(m: Memory, a: nat, width: nat)
    requires WellFormed(m) && MappedRange(m, a, width)
    ensures LoadBytes(m, a, width)[..width] == LoadBytes(m, a, width)
  {
  }

  lemma StoreNone(m: Memory, a: nat, bs: seq<Byte>)
    requires WellFormed(m) && a <= ADDRESS_SPACE_END
    ensures StoreBytes(m, a, bs[..0]) == m
  {
  }

  /** Counters do not depend on the bytes written. */
  lemma {:induction false} MarksIgnoreBytes(m: Memory, n: Memory, g: Generations, first: nat, last: nat)
    requires m.aliases == n.aliases && first <= last
    ensures MarkPages(m, g, first, last) == MarkPages(n, g, first, last)
    decreases last
  {
    hide FindAlias;
    if first < last { MarksIgnoreBytes(m, n, g, first, last - 1); }
  }

  lemma StoreMarks(m: Memory, a: nat, bs: seq<Byte>, g: Generations)
    requires WellFormed(m) && MappedRange(m, a, |bs|) && |bs| > 0
    ensures MarkWritten(StoreBytes(m, a, bs), g, a, |bs|) == MarkWritten(m, g, a, |bs|)
  {
    MarksIgnoreBytes(m, StoreBytes(m, a, bs), g, a / PAGE, (a + |bs| - 1) / PAGE + 1);
  }
}
