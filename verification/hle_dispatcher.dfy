/** HLE export binding: two address windows, import addresses and data exports in guest memory. */
module HleDispatcherModel {
  import opened Bits
  import opened MemoryImage
  import opened GuestMemoryModel
  import opened PageGenerations
  import opened RpxImage
  import opened Placement

  const WINDOW: nat := 0x0010_0000
  const FIRST_DATA_ADDRESS: nat := 0x03E0_0000
  const STACK_AND_HEAP_RESERVE: nat := 0x0001_0000

  datatype Name = Name(library: string, symbol: string)

  /** A registered data export; `image` is what zero filling and its initialiser leave behind. */
  datatype DataExport = DataExport(alignment: Word, image: seq<Byte>)

  datatype Binding = Unbound | Bound(address: Word) | Exhausted

  /** Bindings are never changed or withdrawn. */
  ghost predicate Grows(before: map<Name, Word>, after: map<Name, Word>) {
    forall n :: n in before ==> n in after && after[n] == before[n]
  }

  /** Import addresses are handed out in order, four apart, and each names exactly one import. */
  ghost predicate ImportTable(addresses: map<Name, Word>, bound: map<Word, Name>, begin: Word, next: Word, end: Word)
  {
    && begin <= next <= end && (next - begin) % 4 == 0
    && (forall n :: n in addresses ==> addresses[n] in bound && bound[addresses[n]] == n)
    && (forall a :: a in bound ==>
          (begin <= a && a + 4 <= next && (a - begin) % 4 == 0 &&
           bound[a] in addresses && addresses[bound[a]] == a))
  }

  ghost predicate ExportsRegistered(registered: map<Name, DataExport>) {
    forall n :: n in registered ==>
      (registered[n].image != [] && registered[n].alignment >= 1 && IsPowerOfTwo(registered[n].alignment))
  }

  /** Bound data exports lie below the cursor, aligned, in binding order and without overlap. */
  ghost predicate DataTable(registered: map<Name, DataExport>, addresses: map<Name, Word>,
                            blocks: seq<LoadedSection>, begin: Word, next: Word, end: Word)
  {
    && begin <= next <= end
    && (forall n :: n in addresses ==>
          (n in registered && LoadedSection(addresses[n], false, registered[n].image) in blocks &&
           registered[n].alignment >= 1 && addresses[n] % registered[n].alignment == 0))
    && (forall i :: 0 <= i < |blocks| ==>
          begin <= blocks[i].address && blocks[i].address + |blocks[i].contents| <= next)
    && (forall i, j :: 0 <= i < j < |blocks| ==>
          blocks[i].address + |blocks[i].contents| <= blocks[j].address)
    && (blocks != [] ==> addresses != map[])
  }

  lemma GrowsByOne(before: map<Name, Word>, n: Name, a: Word)
    ensures Grows(before, before)
    ensures n !in before ==> Grows(before, before[n := a])
  {
  }

  lemma ImportBound(addresses: map<Name, Word>, bound: map<Word, Name>, begin: Word, next: Word, end: Word, n: Name)
    requires ImportTable(addresses, bound, begin, next, end) && n !in addresses && next + 4 <= end
    ensures ImportTable(addresses[n := next], bound[next := n], begin, next + 4, end)
  {
    assert next !in bound;
  }

  lemma DataBound(registered: map<Name, DataExport>, addresses: map<Name, Word>, blocks: seq<LoadedSection>,
                  begin: Word, next: Word, end: Word, n: Name, a: Word)
    requires DataTable(registered, addresses, blocks, begin, next, end) && n in registered && n !in addresses
    requires next <= a && a + |registered[n].image| <= end
    requires registered[n].alignment >= 1 && a % registered[n].alignment == 0
    ensures DataTable(registered, addresses[n := a], blocks + [LoadedSection(a, false, registered[n].image)],
                      begin, a + |registered[n].image|, end)
    ensures RoomFor(blocks, LoadedSection(a, false, registered[n].image))
  {
    var more := blocks + [LoadedSection(a, false, registered[n].image)];
    assert more[|blocks|] == LoadedSection(a, false, registered[n].image);
    forall m | m in addresses ensures LoadedSection(addresses[m], false, registered[m].image) in more {
      assert LoadedSection(addresses[m], false, registered[m].image) in blocks;
    }
    assert n in addresses[n := a];
  }

  lemma RegisteredExport(registered: map<Name, DataExport>, n: Name)
    requires ExportsRegistered(registered) && n in registered
    ensures registered[n].image != [] && registered[n].alignment >= 1 && IsPowerOfTwo(registered[n].alignment)
  {
  }

  lemma RegistrationAdded(registered: map<Name, DataExport>, n: Name, data: DataExport)
    requires ExportsRegistered(registered) && n !in registered
    requires data.image != [] && |data.image| <= WORD_MAX && IsPowerOfTwo(data.alignment)
    ensures ExportsRegistered(registered[n := data])
  {
  }

  lemma TableBounds(registered: map<Name, DataExport>, addresses: map<Name, Word>, blocks: seq<LoadedSection>,
                    begin: Word, next: Word, end: Word)
    requires DataTable(registered, addresses, blocks, begin, next, end)
    ensures begin <= next <= end
  {
  }

  lemma ExportAdded(registered: map<Name, DataExport>, addresses: map<Name, Word>, blocks: seq<LoadedSection>,
                    begin: Word, next: Word, end: Word, n: Name, data: DataExport)
    requires DataTable(registered, addresses, blocks, begin, next, end) && n !in addresses
    ensures DataTable(registered[n := data], addresses, blocks, begin, next, end)
  {
  }

  class HleDispatcher {
    var functions: set<Name>
    var dataExports: map<Name, DataExport>
    var addresses: map<Name, Word>
    var dataAddresses: map<Name, Word>
    var boundImports: map<Word, Name>
    var dataBegin: Word
    var dataEnd: Word
    var importBegin: Word
    var importEnd: Word
    var nextImport: Word
    var nextData: Word
    /** The bound data exports as blocks of guest memory, in binding order. */
    ghost var exports: seq<LoadedSection>

    /** The windows lie side by side below the end of the address space. */
    ghost predicate WindowsPlaced()
      reads this
    {
      dataEnd == dataBegin + WINDOW == importBegin && importEnd == importBegin + WINDOW &&
      dataBegin % WINDOW == 0
    }

    ghost predicate Valid()
      reads this
    {
      && WindowsPlaced()
      && ImportTable(addresses, boundImports, importBegin, nextImport, importEnd)
      && ExportsRegistered(dataExports)
      && DataTable(dataExports, dataAddresses, exports, dataBegin, nextData, dataEnd)
    }

    ghost predicate Fresh()
      reads this
    {
      Valid() && addresses == map[] && dataAddresses == map[] && exports == []
    }

    constructor ()
      ensures Fresh() && functions == {} && dataExports == map[]
      ensures dataBegin == FIRST_DATA_ADDRESS
    {
      functions, dataExports, addresses, dataAddresses, boundImports := {}, map[], map[], map[], map[];
      dataBegin, dataEnd := FIRST_DATA_ADDRESS, FIRST_DATA_ADDRESS + WINDOW;
      importBegin, importEnd := FIRST_DATA_ADDRESS + WINDOW, FIRST_DATA_ADDRESS + 2 * WINDOW;
      nextImport, nextData := FIRST_DATA_ADDRESS + WINDOW, FIRST_DATA_ADDRESS;
      exports := [];
    }

    /** Moves both windows; refused once anything is bound. */
    method ConfigureGuestAddressBase(base: Word) returns (ok: bool)
      requires Valid()
      modifies this`dataBegin, this`dataEnd, this`importBegin, this`importEnd, this`nextImport, this`nextData
      ensures ok <==>
        base % WINDOW == 0 && base + 2 * WINDOW <= ADDRESS_SPACE_END &&
        addresses == map[] && dataAddresses == map[]
      ensures ok ==> dataBegin == base && dataEnd == base + WINDOW == importBegin
      ensures ok ==> importEnd == (base + 2 * WINDOW) % ADDRESS_SPACE_END
      ensures ok && base + 2 * WINDOW < ADDRESS_SPACE_END ==> Fresh()
      ensures !ok ==> Valid() && dataBegin == old(dataBegin)
    {
      if base % WINDOW != 0 || base + 2 * WINDOW > ADDRESS_SPACE_END { return false; }
      if addresses != map[] || dataAddresses != map[] { return false; }
      dataBegin, dataEnd := base, base + WINDOW;
      importBegin, importEnd := base + WINDOW, (base + 2 * WINDOW) % ADDRESS_SPACE_END;
      nextData, nextImport := dataBegin, importBegin;
      return true;
    }

    /** `bind_import`: the address already given to the name, or the next free slot. */
    method BindImport(name: Name) returns (b: Binding)
      requires Valid()
      modifies this`addresses, this`boundImports, this`nextImport
      ensures Valid()
      ensures name in old(addresses) ==> b == Bound(old(addresses)[name]) && addresses == old(addresses)
      ensures b.Exhausted? <==> name !in old(addresses) && old(nextImport) > importEnd - 4
      ensures b.Exhausted? ==> addresses == old(addresses) && nextImport == old(nextImport)
      ensures !b.Unbound?
      ensures b.Bound? ==> name in addresses && b.address == addresses[name]
      ensures b.Bound? && name !in old(addresses) ==>
                b.address == old(nextImport) && addresses == old(addresses)[name := b.address]
      ensures Grows(old(addresses), addresses)
    {
      hide ImportTable, DataTable, ExportsRegistered;
      if name in addresses { return Bound(addresses[name]); }
      if nextImport > importEnd - 4 { return Exhausted; }
      var address := nextImport;
      ImportBound(addresses, boundImports, importBegin, nextImport, importEnd, name);
      nextImport := nextImport + 4;
      GrowsByOne(addresses, name, address);
      addresses := addresses[name := address];
      boundImports := boundImports[address := name];
      return Bound(address);
    }

    /** `register_data`: rejected for an empty or misaligned export and for a name already taken. */
    method RegisterData(name: Name, alignment: Word, image: seq<Byte>) returns (ok: bool)
      requires Valid() && |image| <= WORD_MAX
      modifies this`dataExports
      ensures Valid()
      ensures ok <==>
        && name.library != "" && name.symbol != "" && image != [] && IsPowerOfTwo(alignment)
        && name !in functions && name !in addresses && name !in dataAddresses && name !in old(dataExports)
      ensures dataExports == if ok then old(dataExports)[name := DataExport(alignment, image)] else old(dataExports)
    {
      hide ImportTable, DataTable, ExportsRegistered, IsPowerOfTwo;
      if name.library == "" || name.symbol == "" || image == [] || !IsPowerOfTwo(alignment) { return false; }
      if name in functions || name in addresses || name in dataAddresses { return false; }
      if name in dataExports { return false; }
      RegistrationAdded(dataExports, name, DataExport(alignment, image));
      ExportAdded(dataExports, dataAddresses, exports, dataBegin, nextData, dataEnd, name,
                  DataExport(alignment, image));
      dataExports := dataExports[name := DataExport(alignment, image)];
      return true;
    }

    /**
     * `bind_data_import`: the export is zero filled and initialised at the next aligned address of the
     * data window. Mapping it is never refused, and every export bound before keeps its bytes.
     */
    method BindDataImport(name: Name, memory: GuestMemory) returns (b: Binding)
      requires Valid() && memory.Valid() && Placed(memory.Image(), exports)
      modifies this`dataAddresses, this`nextData, this`exports, memory, memory.bytes, memory.flatGenerations
      ensures Valid() && memory.Valid() && Placed(memory.Image(), exports)
      ensures name in old(dataAddresses) ==> b == Bound(old(dataAddresses)[name])
      ensures b.Unbound? <==> name !in old(dataAddresses) && name !in dataExports
      ensures b.Exhausted? <==>
        && name !in old(dataAddresses) && name in dataExports
        && AlignUp(old(nextData), dataExports[name].alignment) + |dataExports[name].image| > dataEnd
      ensures b.Bound? && name !in old(dataAddresses) ==>
        && b.address == AlignUp(old(nextData), dataExports[name].alignment)
        && dataAddresses == old(dataAddresses)[name := b.address]
        && exports == old(exports) + [LoadedSection(b.address, false, dataExports[name].image)]
      ensures !b.Bound? || name in old(dataAddresses) ==>
                dataAddresses == old(dataAddresses) && exports == old(exports) && nextData == old(nextData)
    {
      hide Placed, DataTable, ImportTable, ExportsRegistered, WellFormed, Covers, AlignUp;
      if name in dataAddresses { return Bound(dataAddresses[name]); }
      if name !in dataExports { return Unbound; }
      RegisteredExport(dataExports, name);
      b := PlaceExport(name, memory);
    }

    /** The first binding of a registered export. */
    method PlaceExport(name: Name, memory: GuestMemory) returns (b: Binding)
      requires Valid() && memory.Valid() && Placed(memory.Image(), exports)
      requires name !in dataAddresses && name in dataExports && dataExports[name].alignment >= 1
      modifies this`dataAddresses, this`nextData, this`exports, memory, memory.bytes, memory.flatGenerations
      ensures Valid() && memory.Valid() && Placed(memory.Image(), exports)
      ensures AlignUp(old(nextData), dataExports[name].alignment) + |dataExports[name].image| > dataEnd ==>
                b.Exhausted? && exports == old(exports) && dataAddresses == old(dataAddresses) &&
                nextData == old(nextData)
      ensures AlignUp(old(nextData), dataExports[name].alignment) + |dataExports[name].image| <= dataEnd ==>
                b == Bound(AlignUp(old(nextData), dataExports[name].alignment))
      ensures b.Bound? ==>
        && dataAddresses == old(dataAddresses)[name := b.address]
        && exports == old(exports) + [LoadedSection(b.address, false, dataExports[name].image)]
        && nextData == b.address + |dataExports[name].image|
    {
      hide IsPowerOfTwo, AlignUp, Placed, DataTable, ImportTable, ExportsRegistered, RoomFor, WellFormed, Covers;
      var data := dataExports[name];
      RegisteredExport(dataExports, name);
      TableBounds(dataExports, dataAddresses, exports, dataBegin, nextData, dataEnd);
      AlignUpMeans(nextData, data.alignment);
      var address := AlignUp(nextData, data.alignment);
      var end := address + |data.image|;
      if address < dataBegin || end > dataEnd { return Exhausted; }
      var block := LoadedSection(address, false, data.image);
      DataBound(dataExports, dataAddresses, exports, dataBegin, nextData, dataEnd, name, address);
      var done := InitialiseExport(memory, block, exports);
      dataAddresses := dataAddresses[name := address];
      exports := exports + [block];
      nextData := end;
      return Bound(address);
    }
  }

  /** Mapping, zero filling and the registered initialiser of one data export. */
  method InitialiseExport(memory: GuestMemory, s: LoadedSection, ghost placed: seq<LoadedSection>)
    returns (ok: bool)
    requires memory.Valid() && Placed(memory.Image(), placed) && RoomFor(placed, s)
    requires s.contents != [] && s.address + |s.contents| <= ADDRESS_SPACE_END
    modifies memory, memory.bytes, memory.flatGenerations
    ensures ok && memory.Valid() && Placed(memory.Image(), placed + [s])
  {
    hide CellOf, WellFormed, StoreBytes, LoadBytes, Holds, Plain, Backed, RoomFor;
    ok := MapBlock(memory, s, placed);
    ghost var m := memory.Image();
    HoldsMeans(m, placed);
    ok := memory.FillBytes(s.address, |s.contents|, 0);
    ghost var zeroes := s.(contents := seq<Byte>(|s.contents|, _ => 0));
    SameRoom(placed, s, zeroes);
    PlacedStep(m, placed, zeroes);
    ghost var n := memory.Image();
    HoldsPrefix(n, placed, zeroes);
    ok := memory.WriteBytes(s.address, s.contents);
    PlacedStep(n, placed, s);
    BackedSame(m, memory.Image(), placed + [s]);
  }

  lemma SameRoom(placed: seq<LoadedSection>, s: LoadedSection, t: LoadedSection)
    requires RoomFor(placed, s) && s.address == t.address && |s.contents| == |t.contents|
    ensures RoomFor(placed, t)
  {
  }

  lemma HoldsPrefix(m: Memory, placed: seq<LoadedSection>, s: LoadedSection)
    requires Holds(m, placed + [s])
    ensures Holds(m, placed) && Plain(m) && WellFormed(m)
  {
    forall i | 0 <= i < |placed| ensures ReadsBack(m, placed[i]) {
      assert (placed + [s])[i] == placed[i];
    }
  }

  /** The top of the search for relocated windows. */
  function GuestLimit(memorySize: nat): nat {
    Min(if memorySize > STACK_AND_HEAP_RESERVE then memorySize - STACK_AND_HEAP_RESERVE else 0, METADATA_BASE)
  }

  /**
   * A place for both windows: 1 MiB aligned, 64 KiB below the end of memory and below the loader's metadata,
   * clear of every section.
   */
  ghost predicate FreeWindow(sections: seq<LoadedSection>, memorySize: nat, c: nat) {
    && c % WINDOW == 0 && c + 2 * WINDOW + 0x1_0000 <= memorySize && c + 2 * WINDOW <= 0xC000_0000
    && FreeOfSections(sections, c, 2 * WINDOW)
  }

  ghost predicate WindowsClear(sections: seq<LoadedSection>, base: nat) {
    FreeOfSections(sections, base, WINDOW) && FreeOfSections(sections, base + WINDOW, WINDOW)
  }

  lemma WindowIsPowerOfTwo()
    ensures IsPowerOfTwo(WINDOW)
  {
    hide And, Pow2, IsPowerOfTwo;
    TwentyBits();
    Pow2IsPowerOfTwo(20);
  }

  lemma TwentyBits()
    ensures Pow2(20) == WINDOW
  {
    assert Pow2(10) == 0x400;
    Pow2Sum(10, 10);
  }

  /** The highest such place. */
  ghost predicate BestWindow(sections: seq<LoadedSection>, memorySize: nat, c: nat) {
    FreeWindow(sections, memorySize, c) &&
    forall d: nat :: FreeWindow(sections, memorySize, d) ==> d <= c
  }

  ghost predicate NoWindowFrom(sections: seq<LoadedSection>, memorySize: nat, bound: nat) {
    forall d: nat :: FreeWindow(sections, memorySize, d) ==> d < bound
  }

  /** The downward search loop. */
  method FindWindow(loaded: seq<LoadedSection>, memorySize: nat) returns (found: bool, c: nat)
    ensures found ==> BestWindow(loaded, memorySize, c)
    ensures !found ==> NoWindowFrom(loaded, memorySize, 0)
  {
    var limit := GuestLimit(memorySize);
    if limit < 2 * WINDOW { return false, 0; }
    hide AlignDown, FreeOfSections, NoWindowFrom, GuestLimit;
    SearchStart(loaded, memorySize);
    c := AlignDown(limit - 2 * WINDOW, WINDOW);
    while true
      invariant c % WINDOW == 0 && c + 2 * WINDOW <= GuestLimit(memorySize)
      invariant NoWindowFrom(loaded, memorySize, c + WINDOW)
      decreases c
    {
      var occupied := AnySectionOverlaps(loaded, c, 2 * WINDOW);
      if !occupied {
        HighestSoFar(loaded, memorySize, c);
        return true, c;
      }
      BelowOccupied(loaded, memorySize, c);
      if c < WINDOW { return false, 0; }
      c := c - WINDOW;
    }
  }

  lemma SearchStart(sections: seq<LoadedSection>, memorySize: nat)
    requires GuestLimit(memorySize) >= 2 * WINDOW
    ensures var start := AlignDown(GuestLimit(memorySize) - 2 * WINDOW, WINDOW);
            && start % WINDOW == 0 && start + 2 * WINDOW <= GuestLimit(memorySize)
            && NoWindowFrom(sections, memorySize, start + WINDOW)
  {
    WindowIsPowerOfTwo();
    hide IsPowerOfTwo, And, FreeOfSections, AlignDown;
    var top := GuestLimit(memorySize) - 2 * WINDOW;
    AlignDownMeans(top, WINDOW);
  }

  lemma HighestSoFar(sections: seq<LoadedSection>, memorySize: nat, c: nat)
    requires FreeWindow(sections, memorySize, c) && NoWindowFrom(sections, memorySize, c + WINDOW)
    ensures BestWindow(sections, memorySize, c)
  {
    hide FreeOfSections;
    forall d: nat | FreeWindow(sections, memorySize, d) ensures d <= c {
      MultiplesApart(c, d, WINDOW);
    }
  }

  lemma BelowOccupied(sections: seq<LoadedSection>, memorySize: nat, c: nat)
    requires c % WINDOW == 0 && NoWindowFrom(sections, memorySize, c + WINDOW)
    requires !FreeWindow(sections, memorySize, c)
    ensures NoWindowFrom(sections, memorySize, c)
  {
    hide FreeOfSections;
    forall d: nat | FreeWindow(sections, memorySize, d) ensures d < c {
      assert d % WINDOW == 0 && d < c + WINDOW;
    }
  }

  /** The windows stay while no section meets them; otherwise they move to the highest free place, if any. */
  ghost predicate WindowsChosen(sections: seq<LoadedSection>, memorySize: nat, before: nat, after: nat) {
    if WindowsClear(sections, before) then after == before
    else BestWindow(sections, memorySize, after) || (NoWindowFrom(sections, memorySize, 0) && after == before)
  }

  /** `relocate_hle_ranges_if_needed`: the highest free place wins; without one nothing moves. */
  method RelocateHleRangesIfNeeded(hle: HleDispatcher, loaded: seq<LoadedSection>, memorySize: nat)
    requires hle.Fresh()
    modifies hle`dataBegin, hle`dataEnd, hle`importBegin, hle`importEnd, hle`nextImport, hle`nextData
    ensures hle.Fresh()
    ensures WindowsChosen(loaded, memorySize, old(hle.dataBegin), hle.dataBegin)
  {
    var dataConflict := AnySectionOverlaps(loaded, hle.dataBegin, WINDOW);
    var importConflict := AnySectionOverlaps(loaded, hle.importBegin, WINDOW);
    if !dataConflict && !importConflict { return; }
    var found, candidate := FindWindow(loaded, memorySize);
    if found {
      var ok := hle.ConfigureGuestAddressBase(candidate);
    }
  }

  /** The check that follows: no section may meet either window. */
  method CheckWindows(hle: HleDispatcher, loaded: seq<LoadedSection>) returns (ok: bool)
    requires hle.WindowsPlaced()
    ensures ok <==> WindowsClear(loaded, hle.dataBegin)
  {
    var importConflict := AnySectionOverlaps(loaded, hle.importBegin, hle.importEnd - hle.importBegin);
    var dataConflict := AnySectionOverlaps(loaded, hle.dataBegin, hle.dataEnd - hle.dataBegin);
    return !importConflict && !dataConflict;
  }

  lemma BestWindowIsClear(sections: seq<LoadedSection>, memorySize: nat, c: nat)
    requires FreeWindow(sections, memorySize, c)
    ensures WindowsClear(sections, c)
  {
    forall i | 0 <= i < |sections|
      ensures !SectionOverlaps(sections[i], c, WINDOW) && !SectionOverlaps(sections[i], c + WINDOW, WINDOW)
    {
      assert !SectionOverlaps(sections[i], c, 2 * WINDOW);
    }
  }
}
