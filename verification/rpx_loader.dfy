/** The loader after inflation: symbol binding, relocation, placement and the choice of the guest heap. */
module RpxLoader {
  import opened Bits
  import opened MemoryImage
  import opened PageGenerations
  import opened GuestMemoryModel
  import opened RpxImage
  import opened BranchEncoding
  import opened Trampolines
  import opened RpxLinker
  import opened Placement
  import opened HleDispatcherModel
  import opened HeapGap

  /** What a relocation entry's symbol is: a value, an import with its table slot, or an undefined weak function. */
  datatype SymbolRef =
    | Defined(value: Word)
    | FunctionImport(name: Name, table: nat, slot: Word)
    | ObjectImport(name: Name, table: nat, slot: Word)
    | OtherImport(name: Name, table: nat, slot: Word)
    | WeakFunction(name: Name)

  datatype Entry = Entry(section: nat, site: Word, kind: Kind, symbol: SymbolRef, addend: int)

  datatype Reason = SectionsOverlap | WindowsTaken | Unresolved | BadRelocation

  datatype LoadResult =
    | Rejected(reason: Reason)
    | Loaded(sections: seq<LoadedSection>, trampolines: seq<LoadedSection>, heap: Range)

  /** The blocks that have bytes. */
  function Nonempty(blocks: seq<LoadedSection>): seq<LoadedSection> {
    if blocks == [] then []
    else
      var most := Nonempty(blocks[..|blocks| - 1]);
      if blocks[|blocks| - 1].contents == [] then most else most + [blocks[|blocks| - 1]]
  }

  ghost predicate BlocksApart(s: LoadedSection, t: LoadedSection) {
    s.address + |s.contents| <= t.address || t.address + |t.contents| <= s.address
  }

  ghost predicate AllApart(blocks: seq<LoadedSection>) {
    forall i, j :: 0 <= i < j < |blocks| ==> BlocksApart(blocks[i], blocks[j])
  }

  ghost predicate AllFit(blocks: seq<LoadedSection>) {
    forall i :: 0 <= i < |blocks| ==> blocks[i].address + |blocks[i].contents| <= ADDRESS_SPACE_END
  }

  /** The bindings the dispatcher has made. */
  datatype Bindings = Bindings(functions: map<Name, Word>, data: map<Name, Word>, exports: map<Name, DataExport>)

  ghost predicate BindingsGrow(a: Bindings, b: Bindings) {
    Grows(a.functions, b.functions) && Grows(a.data, b.data) && a.exports == b.exports
  }

  /** The symbol's import is bound: objects to their data export if there is one, all others to a function. */
  ghost predicate IsBound(b: Bindings, symbol: SymbolRef) {
    match symbol
    case Defined(_) => true
    case FunctionImport(n, _, _) => n in b.functions
    case ObjectImport(n, _, _) => if n in b.exports then n in b.data else n in b.functions
    case OtherImport(n, _, _) => n in b.functions
    case WeakFunction(n) => n in b.functions
  }

  /** What the relocation uses: S, the bound address, or the slot that holds it. */
  ghost function SymbolValue(b: Bindings, symbol: SymbolRef): Word
    requires IsBound(b, symbol)
  {
    match symbol
    case Defined(v) => v
    case FunctionImport(n, _, _) => b.functions[n]
    case ObjectImport(n, _, slot) => if n in b.exports then b.data[n] else slot
    case OtherImport(_, _, slot) => slot
    case WeakFunction(n) => b.functions[n]
  }

  /** The import table slot, filled with the bound address. */
  ghost function SlotFill(b: Bindings, symbol: SymbolRef): seq<Relocation>
    requires IsBound(b, symbol)
  {
    match symbol
    case Defined(_) => []
    case FunctionImport(n, table, slot) => [Relocation(table, slot, Address32, b.functions[n])]
    case ObjectImport(n, table, slot) =>
      [Relocation(table, slot, Address32, if n in b.exports then b.data[n] else b.functions[n])]
    case OtherImport(n, table, slot) => [Relocation(table, slot, Address32, b.functions[n])]
    case WeakFunction(_) => []
  }

  lemma BoundStays(a: Bindings, b: Bindings, symbol: SymbolRef)
    requires IsBound(a, symbol) && BindingsGrow(a, b)
    ensures IsBound(b, symbol) && SymbolValue(b, symbol) == SymbolValue(a, symbol)
    ensures SlotFill(b, symbol) == SlotFill(a, symbol)
  {
  }

  /** What an entry patches: its import slot, then its own site with S + A. */
  ghost function EntryRelocations(b: Bindings, e: Entry): seq<Relocation>
    requires IsBound(b, e.symbol)
  {
    SlotFill(b, e.symbol) +
    [Relocation(e.section, e.site, e.kind, AddendValue(SymbolValue(b, e.symbol), e.addend))]
  }

  ghost predicate AllBound(b: Bindings, entries: seq<Entry>) {
    forall i :: 0 <= i < |entries| ==> IsBound(b, entries[i].symbol)
  }

  ghost function RelocationsOf(b: Bindings, entries: seq<Entry>): seq<Relocation>
    requires AllBound(b, entries)
  {
    if entries == [] then []
    else
      var last := |entries| - 1;
      RelocationsOf(b, entries[..last]) + EntryRelocations(b, entries[last])
  }

  /** Every import is bound, and the relocations are exactly those of the entries, in order. */
  ghost predicate AllRelocated(b: Bindings, entries: seq<Entry>, rs: seq<Relocation>) {
    AllBound(b, entries) && rs == RelocationsOf(b, entries)
  }

  /** Binding more imports changes nothing for the entries resolved before. */
  lemma {:induction false} RelocationsStay(a: Bindings, b: Bindings, entries: seq<Entry>)
    requires AllBound(a, entries) && BindingsGrow(a, b)
    ensures AllBound(b, entries) && RelocationsOf(b, entries) == RelocationsOf(a, entries)
  {
    hide IsBound, SymbolValue, SlotFill, BindingsGrow;
    forall i | 0 <= i < |entries| ensures IsBound(b, entries[i].symbol) {
      BoundStays(a, b, entries[i].symbol);
    }
    if entries != [] {
      var last := |entries| - 1;
      BoundStays(a, b, entries[last].symbol);
      RelocationsStay(a, b, entries[..last]);
    }
  }

  lemma RelocationsStep(b: Bindings, done: seq<Entry>, e: Entry)
    requires AllBound(b, done) && IsBound(b, e.symbol)
    ensures AllBound(b, done + [e])
    ensures RelocationsOf(b, done + [e]) == RelocationsOf(b, done) + EntryRelocations(b, e)
  {
    hide IsBound, EntryRelocations;
    assert (done + [e])[..|done|] == done;
  }

  ghost function BindingsOf(hle: HleDispatcher): Bindings
    reads hle
  {
    Bindings(hle.addresses, hle.dataAddresses, hle.dataExports)
  }

  /** The window that would have to hold the import is full. */
  ghost predicate NoAddress(hle: HleDispatcher, symbol: SymbolRef)
    requires !symbol.Defined? && hle.Valid()
    reads hle
  {
    if symbol.ObjectImport? && symbol.name in hle.dataExports then
      && symbol.name !in hle.dataAddresses
      && DataWindowFull(hle.dataExports[symbol.name], hle.nextData, hle.dataEnd)
    else
      symbol.name !in hle.addresses && hle.nextImport > hle.importEnd - 4
  }

  ghost predicate DataWindowFull(e: DataExport, next: Word, end: Word) {
    e.alignment >= 1 && AlignUp(next, e.alignment) + |e.image| > end
  }

  /** The import table that holds the symbol's slot, if it has one, is a section with contents. */
  predicate SlotPresent(loaded: seq<LoadedSection>, symbol: SymbolRef) {
    symbol.Defined? || symbol.WeakFunction? || (symbol.table < |loaded| && loaded[symbol.table].contents != [])
  }

  /** The imports for which the loader gives up. */
  ghost predicate Unresolvable(hle: HleDispatcher, loaded: seq<LoadedSection>, symbol: SymbolRef)
    requires hle.Valid()
    reads hle
  {
    !symbol.Defined? && (NoAddress(hle, symbol) || !SlotPresent(loaded, symbol))
  }

  /** An import the loader gave up on is not one it resolved. */
  lemma UnresolvableMeans(hle: HleDispatcher, loaded: seq<LoadedSection>, symbol: SymbolRef)
    requires hle.Valid() && Unresolvable(hle, loaded, symbol)
    ensures !IsBound(BindingsOf(hle), symbol) || !SlotPresent(loaded, symbol)
  {
  }

  // What a resolved symbol means to the dispatcher

  /** A guest call of the address is a call of the import. */
  ghost predicate CallsImport(hle: HleDispatcher, n: Name, a: Word)
    reads hle
  {
    a in hle.boundImports && hle.boundImports[a] == n
  }

  /** The image of the registered export is placed at the address, aligned. */
  ghost predicate HoldsExport(hle: HleDispatcher, n: Name, a: Word)
    reads hle
  {
    && n in hle.dataExports && LoadedSection(a, false, hle.dataExports[n].image) in hle.exports
    && hle.dataExports[n].alignment >= 1 && a % hle.dataExports[n].alignment == 0
  }

  predicate Slotted(symbol: SymbolRef) {
    symbol.FunctionImport? || symbol.ObjectImport? || symbol.OtherImport?
  }

  /** The address an import is bound to: of its data export for an object that has one, else of the import. */
  ghost predicate BoundTo(hle: HleDispatcher, symbol: SymbolRef, a: Word)
    requires !symbol.Defined?
    reads hle
  {
    if symbol.ObjectImport? && symbol.name in hle.dataExports then HoldsExport(hle, symbol.name, a)
    else CallsImport(hle, symbol.name, a)
  }

  /**
   * S of the symbol: functions and objects with a data export stand for what they are bound to, all other
   * imports for their slot.
   */
  ghost predicate Resolves(hle: HleDispatcher, symbol: SymbolRef, s: Word)
    reads hle
  {
    if symbol.Defined? then s == symbol.value
    else if symbol.FunctionImport? || symbol.WeakFunction? then CallsImport(hle, symbol.name, s)
    else if symbol.ObjectImport? && symbol.name in hle.dataExports then HoldsExport(hle, symbol.name, s)
    else s == symbol.slot
  }

  /** The fill of the import slot, with the address that the import is bound to. */
  ghost predicate FillsSlot(hle: HleDispatcher, symbol: SymbolRef, r: Relocation)
    requires Slotted(symbol)
    reads hle
  {
    r == Relocation(symbol.table, symbol.slot, Address32, r.value) && BoundTo(hle, symbol, r.value)
  }

  lemma BindingMeans(hle: HleDispatcher, symbol: SymbolRef)
    requires hle.Valid() && IsBound(BindingsOf(hle), symbol)
    ensures Resolves(hle, symbol, SymbolValue(BindingsOf(hle), symbol))
    ensures var fill := SlotFill(BindingsOf(hle), symbol);
            if Slotted(symbol) then |fill| == 1 && FillsSlot(hle, symbol, fill[0]) else fill == []
  {
  }

  /**
   * How many relocations the entries give: none for a section without contents, else their own and one for a
   * slot to fill.
   */
  function RelocationCount(sections: seq<LoadedSection>, entries: seq<Entry>): nat {
    if entries == [] then 0
    else
      var e := entries[|entries| - 1];
      RelocationCount(sections, entries[..|entries| - 1]) +
      if e.section < |sections| && sections[e.section].contents == [] then 0
      else if Slotted(e.symbol) then 2 else 1
  }

  /** The entry is for a section with contents, or for one that does not exist, which the load rejects. */
  predicate TakesPart(sections: seq<LoadedSection>, e: Entry) {
    e.section < |sections| ==> sections[e.section].contents != []
  }

  /**
   * The entry in the list of relocations: its own one patches its site with (S + A) mod 2^32, and the one
   * before it fills the slot of its import.
   */
  ghost predicate EntryLinked(hle: HleDispatcher, sections: seq<LoadedSection>, entries: seq<Entry>,
                              rs: seq<Relocation>, k: nat)
    requires k < |entries|
    reads hle
  {
    var e, j := entries[k], RelocationCount(sections, entries[..k + 1]) - 1;
    && 0 <= j < |rs|
    && rs[j] == Relocation(e.section, e.site, e.kind, rs[j].value)
    && (exists s: Word :: Resolves(hle, e.symbol, s) && rs[j].value == (s + e.addend) % 0x1_0000_0000)
    && (Slotted(e.symbol) ==> j >= 1 && FillsSlot(hle, e.symbol, rs[j - 1]))
  }

  /** The relocations are those of the entries that take part, in order, and no others. */
  ghost predicate EntriesLinked(hle: HleDispatcher, sections: seq<LoadedSection>, entries: seq<Entry>,
                                rs: seq<Relocation>)
    reads hle
  {
    && |rs| == RelocationCount(sections, entries)
    && forall k: nat :: k < |entries| && TakesPart(sections, entries[k]) ==> EntryLinked(hle, sections, entries, rs, k)
  }

  /** The relocations of a file, in terms of the imports and exports that the dispatcher has bound. */
  lemma {:induction false} RelocatedMeaning(hle: HleDispatcher, sections: seq<LoadedSection>, entries: seq<Entry>,
                                            rs: seq<Relocation>)
    requires hle.Valid() && AllRelocated(BindingsOf(hle), Live(sections, entries), rs)
    ensures EntriesLinked(hle, sections, entries, rs)
    decreases |entries|
  {
    hide *;
    if entries == [] {
      LiveNothing(sections);
      RelocatedParts(BindingsOf(hle), Live(sections, entries), rs);
      NothingLinked(hle, sections, rs);
    } else {
      var before, e := entries[..|entries| - 1], entries[|entries| - 1];
      assert entries == before + [e];
      LiveLast(sections, before, e);
      CountNext(sections, before, e);
      RelocatedParts(BindingsOf(hle), Live(sections, entries), rs);
      if PassedOver(sections, e) {
        assert Live(sections, before) + [] == Live(sections, before);
        RelocatedMeaning(hle, sections, before, rs);
        SkippedNext(hle, sections, before, e, rs);
      } else {
        BoundParts(BindingsOf(hle), Live(sections, before), e);
        RelocationsStep(BindingsOf(hle), Live(sections, before), e);
        var done := RelocationsOf(BindingsOf(hle), Live(sections, before));
        RelocatedIs(BindingsOf(hle), Live(sections, before), done);
        RelocatedMeaning(hle, sections, before, done);
        LinkedNext(hle, sections, before, e, done);
      }
    }
  }

  lemma RelocatedParts(b: Bindings, entries: seq<Entry>, rs: seq<Relocation>)
    requires AllRelocated(b, entries, rs)
    ensures AllBound(b, entries) && rs == RelocationsOf(b, entries) && (entries == [] ==> rs == [])
  {
    hide AllBound, EntryRelocations;
  }

  lemma LiveNothing(sections: seq<LoadedSection>)
    ensures Live(sections, []) == []
  {
  }

  lemma LiveLast(sections: seq<LoadedSection>, before: seq<Entry>, e: Entry)
    ensures Live(sections, before + [e]) == Live(sections, before) + if PassedOver(sections, e) then [] else [e]
  {
    hide PassedOver;
    assert (before + [e])[..|before|] == before;
  }

  lemma NothingLinked(hle: HleDispatcher, sections: seq<LoadedSection>, rs: seq<Relocation>)
    requires rs == []
    ensures EntriesLinked(hle, sections, [], rs)
  {
  }

  lemma CountNext(sections: seq<LoadedSection>, entries: seq<Entry>, e: Entry)
    ensures RelocationCount(sections, entries + [e]) ==
            RelocationCount(sections, entries) +
            if !TakesPart(sections, e) then 0 else if Slotted(e.symbol) then 2 else 1
    ensures PassedOver(sections, e) <==> !TakesPart(sections, e)
  {
    assert (entries + [e])[..|entries|] == entries;
  }

  lemma SkippedNext(hle: HleDispatcher, sections: seq<LoadedSection>, before: seq<Entry>, e: Entry,
                    rs: seq<Relocation>)
    requires !TakesPart(sections, e) && EntriesLinked(hle, sections, before, rs)
    ensures EntriesLinked(hle, sections, before + [e], rs)
  {
    hide Resolves, FillsSlot, RelocationCount, TakesPart;
    var entries := before + [e];
    CountNext(sections, before, e);
    forall k: nat | k < |entries| && TakesPart(sections, entries[k])
      ensures EntryLinked(hle, sections, entries, rs, k)
    {
      assert entries[..k + 1] == before[..k + 1] && EntryLinked(hle, sections, before, rs, k);
    }
  }

  lemma LinkedNext(hle: HleDispatcher, sections: seq<LoadedSection>, before: seq<Entry>, e: Entry,
                   rs: seq<Relocation>)
    requires hle.Valid() && IsBound(BindingsOf(hle), e.symbol) && EntriesLinked(hle, sections, before, rs)
    requires TakesPart(sections, e)
    ensures EntriesLinked(hle, sections, before + [e], rs + EntryRelocations(BindingsOf(hle), e))
  {
    hide Resolves, FillsSlot, RelocationCount, IsBound, SymbolValue, SlotFill, TakesPart;
    var entries, more := before + [e], rs + EntryRelocations(BindingsOf(hle), e);
    BindingMeans(hle, e.symbol);
    CountNext(sections, before, e);
    forall k: nat | k < |entries| && TakesPart(sections, entries[k])
      ensures EntryLinked(hle, sections, entries, more, k)
    {
      if k < |before| {
        assert entries[..k + 1] == before[..k + 1] && EntryLinked(hle, sections, before, rs, k);
      } else {
        assert entries[..k + 1] == entries;
      }
    }
  }

  /** The address an import is bound to. */
  method BindSymbol(hle: HleDispatcher, memory: GuestMemory, symbol: SymbolRef)
    returns (ok: bool, address: Word, data: bool)
    requires hle.Valid() && memory.Valid() && Placement.Placed(memory.Image(), hle.exports) && !symbol.Defined?
    modifies hle`addresses, hle`boundImports, hle`nextImport, hle`dataAddresses, hle`nextData, hle`exports
    modifies memory, memory.bytes, memory.flatGenerations
    ensures hle.Valid() && memory.Valid() && Placement.Placed(memory.Image(), hle.exports)
    ensures BindingsGrow(old(BindingsOf(hle)), BindingsOf(hle))
    ensures data <==> symbol.ObjectImport? && symbol.name in hle.dataExports
    ensures !ok ==> NoAddress(hle, symbol)
    ensures ok && data ==> symbol.name in hle.dataAddresses && address == hle.dataAddresses[symbol.name]
    ensures ok && !data ==> symbol.name in hle.addresses && address == hle.addresses[symbol.name]
  {
    hide Placement.Placed, ImportTable, DataTable, ExportsRegistered, WellFormed, PageGenerations.Covers;
    data := symbol.ObjectImport? && symbol.name in hle.dataExports;
    if symbol.ObjectImport? {
      var exported := BindObject(hle, memory, symbol.name);
      if exported.Exhausted? { return false, 0, data; }
      if exported.Bound? { return true, exported.address, data; }
    }
    var bound := hle.BindImport(symbol.name);
    if !bound.Bound? { return false, 0, data; }
    return true, bound.address, data;
  }

  method BindObject(hle: HleDispatcher, memory: GuestMemory, name: Name) returns (b: Binding)
    requires hle.Valid() && memory.Valid() && Placement.Placed(memory.Image(), hle.exports)
    modifies hle`dataAddresses, hle`nextData, hle`exports, memory, memory.bytes, memory.flatGenerations
    ensures hle.Valid() && memory.Valid() && Placement.Placed(memory.Image(), hle.exports)
    ensures BindingsGrow(old(BindingsOf(hle)), BindingsOf(hle))
    ensures b.Unbound? <==> name !in hle.dataExports
    ensures b.Exhausted? ==> name !in hle.dataAddresses && name in hle.dataExports &&
                             DataWindowFull(hle.dataExports[name], hle.nextData, hle.dataEnd)
    ensures b.Bound? ==> name in hle.dataAddresses && b.address == hle.dataAddresses[name]
  {
    BoundNamesRegistered(hle.dataExports, hle.dataAddresses, hle.exports, hle.dataBegin, hle.nextData, hle.dataEnd);
    hide Placement.Placed, ImportTable, DataTable, ExportsRegistered, WellFormed, PageGenerations.Covers, AlignUp;
    hide Grows;
    ghost var functions, data := hle.addresses, hle.dataAddresses;
    b := hle.BindDataImport(name, memory);
    GrowsByOne(functions, name, 0);
    GrowsByOne(data, name, if b.Bound? then b.address else 0);
  }

  lemma BoundNamesRegistered(registered: map<Name, DataExport>, addresses: map<Name, Word>,
                             blocks: seq<LoadedSection>, begin: Word, next: Word, end: Word)
    requires DataTable(registered, addresses, blocks, begin, next, end)
    ensures forall n :: n in addresses ==> n in registered
  {
  }

  /** One symbol: the value to relocate with, and the import slot to fill if there is one. */
  method ResolveSymbol(hle: HleDispatcher, memory: GuestMemory, loaded: seq<LoadedSection>, symbol: SymbolRef)
    returns (ok: bool, value: Word, slot: seq<Relocation>)
    requires hle.Valid() && memory.Valid() && Placement.Placed(memory.Image(), hle.exports)
    modifies hle`addresses, hle`boundImports, hle`nextImport, hle`dataAddresses, hle`nextData, hle`exports
    modifies memory, memory.bytes, memory.flatGenerations
    ensures hle.Valid() && memory.Valid() && Placement.Placed(memory.Image(), hle.exports)
    ensures BindingsGrow(old(BindingsOf(hle)), BindingsOf(hle))
    ensures ok ==> IsBound(BindingsOf(hle), symbol) && value == SymbolValue(BindingsOf(hle), symbol)
    ensures ok ==> slot == SlotFill(BindingsOf(hle), symbol) && SlotPresent(loaded, symbol)
    ensures ok ==> Resolves(hle, symbol, value)
    ensures ok ==> if Slotted(symbol) then |slot| == 1 && FillsSlot(hle, symbol, slot[0]) else slot == []
    ensures !ok ==> Unresolvable(hle, loaded, symbol)
  {
    hide Placement.Placed, ImportTable, DataTable, ExportsRegistered, WellFormed, PageGenerations.Covers;
    value, slot := 0, [];
    if symbol.Defined? { return true, symbol.value, []; }
    var bound, address, data := BindSymbol(hle, memory, symbol);
    if !bound { return false, 0, []; }
    if symbol.WeakFunction? {
      BindingMeans(hle, symbol);
      return true, address, [];
    }
    value := if symbol.FunctionImport? || data then address else symbol.slot;
    var r := Relocation(symbol.table, symbol.slot, Address32, address);
    if r.section >= |loaded| || loaded[r.section].contents == [] { return false, 0, []; }
    BindingMeans(hle, symbol);
    return true, value, [r];
  }

  /** The relocations that one entry adds: its slot fill, then the entry itself. */
  method ResolveEntry(hle: HleDispatcher, memory: GuestMemory, loaded: seq<LoadedSection>, e: Entry,
                      ghost done: seq<Entry>, ghost rs: seq<Relocation>) returns (ok: bool, own: seq<Relocation>)
    requires hle.Valid() && memory.Valid() && Placement.Placed(memory.Image(), hle.exports)
    requires AllRelocated(BindingsOf(hle), done, rs)
    modifies hle`addresses, hle`boundImports, hle`nextImport, hle`dataAddresses, hle`nextData, hle`exports
    modifies memory, memory.bytes, memory.flatGenerations
    ensures hle.Valid() && memory.Valid() && Placement.Placed(memory.Image(), hle.exports)
    ensures AllRelocated(BindingsOf(hle), done, rs)
    ensures ok ==> IsBound(BindingsOf(hle), e.symbol) && own == EntryRelocations(BindingsOf(hle), e)
    ensures ok ==> SlotPresent(loaded, e.symbol)
    ensures !ok ==> Unresolvable(hle, loaded, e.symbol)
  {
    ghost var before := BindingsOf(hle);
    hide Placement.Placed, ImportTable, DataTable, ExportsRegistered, WellFormed, PageGenerations.Covers,
         BindingsGrow, IsBound, SymbolValue, SlotFill, SlotPresent;
    var resolved, value, slot := ResolveSymbol(hle, memory, loaded, e.symbol);
    RelocationsStay(before, BindingsOf(hle), done);
    if !resolved { return false, []; }
    own := slot + [Relocation(e.section, e.site, e.kind, AddendValue(value, e.addend))];
    return true, own;
  }

  /** Entries for a section without contents are passed over before their symbol is looked at. */
  predicate PassedOver(sections: seq<LoadedSection>, e: Entry) {
    e.section < |sections| && sections[e.section].contents == []
  }

  function Live(sections: seq<LoadedSection>, entries: seq<Entry>): seq<Entry> {
    if entries == [] then []
    else
      var last := |entries| - 1;
      Live(sections, entries[..last]) + if PassedOver(sections, entries[last]) then [] else [entries[last]]
  }

  lemma LiveNext(sections: seq<LoadedSection>, entries: seq<Entry>, k: nat)
    requires k < |entries|
    ensures Live(sections, entries[..k + 1]) ==
            Live(sections, entries[..k]) + if PassedOver(sections, entries[k]) then [] else [entries[k]]
  {
    assert entries[..k + 1][..k] == entries[..k];
  }

  lemma SamePassed(a: seq<LoadedSection>, b: seq<LoadedSection>, e: Entry)
    requires SameExtents(a, b)
    ensures PassedOver(a, e) == PassedOver(b, e)
  {
  }

  lemma StillUnresolvable(hle: HleDispatcher, a: seq<LoadedSection>, b: seq<LoadedSection>, symbol: SymbolRef)
    requires hle.Valid() && SameExtents(a, b) && Unresolvable(hle, b, symbol)
    ensures Unresolvable(hle, a, symbol)
  {
    hide NoAddress;
  }

  /** What stopped the relocation loop. */
  datatype LinkEnd = Done | NoSymbol | NoPatch

  lemma {:induction false} LiveMember(sections: seq<LoadedSection>, entries: seq<Entry>, k: nat)
    requires k < |entries| && !PassedOver(sections, entries[k])
    ensures entries[k] in Live(sections, entries)
    decreases |entries|
  {
    hide PassedOver;
    if k < |entries| - 1 { LiveMember(sections, entries[..|entries| - 1], k); }
  }

  ghost predicate SlotsPresent(sections: seq<LoadedSection>, entries: seq<Entry>) {
    forall i :: 0 <= i < |entries| ==> SlotPresent(sections, entries[i].symbol)
  }

  /**
   * How far the relocation loop came: the entry it is at, the relocations of the entries before it, its own
   * relocations, how many of these were applied, and what had been linked then.
   */
  datatype Progress =
    Progress(entry: nat, done: seq<Relocation>, own: seq<Relocation>, at: nat, state: LinkState)

  /** Every live entry before the `k`-th is resolved, and applying their relocations in order leads to `now`. */
  ghost predicate Reaches(b: Bindings, first: LinkState, windows: Windows, entries: seq<Entry>, k: nat,
                          done: seq<Relocation>, now: LinkState)
    requires WindowsOrdered(windows)
  {
    && k <= |entries| && SlotsPresent(first.loaded, Live(first.loaded, entries[..k]))
    && AllRelocated(b, Live(first.loaded, entries[..k]), done)
    && LinkedBy(first, windows, done) == Some(now)
  }

  /** All entries are linked. */
  ghost predicate Completes(b: Bindings, first: LinkState, windows: Windows, entries: seq<Entry>, p: Progress)
    requires WindowsOrdered(windows)
  {
    p.entry == |entries| && Reaches(b, first, windows, entries, p.entry, p.done, p.state)
  }

  /** The entries before one are linked, and that one has an import the loader gives up on. */
  ghost predicate LacksSymbol(hle: HleDispatcher, first: LinkState, windows: Windows, entries: seq<Entry>,
                              p: Progress)
    requires WindowsOrdered(windows) && hle.Valid()
    reads hle
  {
    && p.entry < |entries| && !PassedOver(first.loaded, entries[p.entry])
    && Reaches(BindingsOf(hle), first, windows, entries, p.entry, p.done, p.state)
    && Unresolvable(hle, first.loaded, entries[p.entry].symbol)
  }

  /**
   * The entries before one are linked and its own import is resolved, but of its relocations the one after
   * the first `at` is rejected in the state to which all those before it lead.
   */
  ghost predicate StopsAt(b: Bindings, first: LinkState, windows: Windows, entries: seq<Entry>, p: Progress)
    requires WindowsOrdered(windows)
  {
    && p.entry < |entries| && !PassedOver(first.loaded, entries[p.entry])
    && SlotsPresent(first.loaded, Live(first.loaded, entries[..p.entry]))
    && AllRelocated(b, Live(first.loaded, entries[..p.entry]), p.done)
    && SlotPresent(first.loaded, entries[p.entry].symbol)
    && IsBound(b, entries[p.entry].symbol) && p.own == EntryRelocations(b, entries[p.entry])
    && p.at < |p.own| && LinkedBy(first, windows, p.done + p.own[..p.at]) == Some(p.state)
    && EntryRejected(p.state, windows, p.own[p.at])
  }

  // At most one of the three happens, and at one entry

  lemma {:induction false} RelocationsGrow(b: Bindings, sections: seq<LoadedSection>, entries: seq<Entry>, j: nat,
                                           k: nat)
    requires j <= k <= |entries| && AllBound(b, Live(sections, entries[..k]))
    ensures AllBound(b, Live(sections, entries[..j]))
    ensures RelocationsOf(b, Live(sections, entries[..j])) <= RelocationsOf(b, Live(sections, entries[..k]))
    decreases k - j
  {
    hide *;
    if j < k {
      LiveNext(sections, entries, k - 1);
      var live, e := Live(sections, entries[..k - 1]), entries[k - 1];
      if PassedOver(sections, e) {
        assert live + [] == live;
      } else {
        BoundParts(b, live, e);
        RelocationsStep(b, live, e);
      }
      RelocationsGrow(b, sections, entries, j, k - 1);
    }
  }

  lemma BoundParts(b: Bindings, entries: seq<Entry>, e: Entry)
    requires AllBound(b, entries + [e])
    ensures AllBound(b, entries) && IsBound(b, e.symbol)
  {
    hide IsBound;
    assert forall i :: 0 <= i < |entries| ==> (entries + [e])[i] == entries[i];
    assert (entries + [e])[|entries|] == e;
  }

  lemma {:induction false} LiveGrows(sections: seq<LoadedSection>, entries: seq<Entry>, j: nat, k: nat)
    requires j < k <= |entries| && !PassedOver(sections, entries[j])
    ensures entries[j] in Live(sections, entries[..k])
  {
    hide *;
    assert entries[..k][j] == entries[j];
    LiveMember(sections, entries[..k], j);
  }

  /** The relocations up to and including an entry that is not passed over. */
  lemma EntryIncluded(b: Bindings, sections: seq<LoadedSection>, entries: seq<Entry>, j: nat)
    requires j < |entries| && !PassedOver(sections, entries[j])
    requires AllBound(b, Live(sections, entries[..j])) && IsBound(b, entries[j].symbol)
    ensures AllBound(b, Live(sections, entries[..j + 1]))
    ensures RelocationsOf(b, Live(sections, entries[..j + 1])) ==
            RelocationsOf(b, Live(sections, entries[..j])) + EntryRelocations(b, entries[j])
  {
    hide *;
    LiveNext(sections, entries, j);
    RelocationsStep(b, Live(sections, entries[..j]), entries[j]);
  }

  lemma ReachesParts(b: Bindings, first: LinkState, windows: Windows, entries: seq<Entry>, k: nat,
                     done: seq<Relocation>, now: LinkState)
    requires WindowsOrdered(windows) && Reaches(b, first, windows, entries, k, done, now)
    ensures k <= |entries| && SlotsPresent(first.loaded, Live(first.loaded, entries[..k]))
    ensures AllBound(b, Live(first.loaded, entries[..k]))
    ensures done == RelocationsOf(b, Live(first.loaded, entries[..k]))
    ensures LinkedBy(first, windows, done) == Some(now)
  {
    hide SlotsPresent, AllBound, RelocationsOf, Live, LinkedBy;
  }

  lemma StopsParts(b: Bindings, first: LinkState, windows: Windows, entries: seq<Entry>, p: Progress)
    requires WindowsOrdered(windows) && StopsAt(b, first, windows, entries, p)
    ensures p.entry < |entries| && !PassedOver(first.loaded, entries[p.entry])
    ensures SlotsPresent(first.loaded, Live(first.loaded, entries[..p.entry]))
    ensures SlotPresent(first.loaded, entries[p.entry].symbol)
    ensures AllBound(b, Live(first.loaded, entries[..p.entry])) && IsBound(b, entries[p.entry].symbol)
    ensures p.done == RelocationsOf(b, Live(first.loaded, entries[..p.entry]))
    ensures p.own == EntryRelocations(b, entries[p.entry])
    ensures p.at < |p.own| && LinkedBy(first, windows, p.done + p.own[..p.at]) == Some(p.state)
    ensures EntryRejected(p.state, windows, p.own[p.at])
  {
    hide SlotsPresent, SlotPresent, AllBound, RelocationsOf, Live, LinkedBy, EntryRelocations, IsBound, EntryRejected,
         PassedOver;
  }

  lemma PresentAt(sections: seq<LoadedSection>, entries: seq<Entry>, e: Entry)
    requires SlotsPresent(sections, entries) && e in entries
    ensures SlotPresent(sections, e.symbol)
  {
    hide SlotPresent;
  }

  lemma BoundAt(b: Bindings, entries: seq<Entry>, e: Entry)
    requires AllBound(b, entries) && e in entries
    ensures IsBound(b, e.symbol)
  {
    hide IsBound;
  }

  /** The loop does not get past an entry that is rejected. */
  lemma StopsBefore(b: Bindings, first: LinkState, windows: Windows, entries: seq<Entry>, k: nat,
                    done: seq<Relocation>, now: LinkState, p: Progress)
    requires WindowsOrdered(windows) && Ready(first, windows)
    requires Reaches(b, first, windows, entries, k, done, now) && StopsAt(b, first, windows, entries, p)
    ensures k <= p.entry
  {
    hide *;
    ReachesParts(b, first, windows, entries, k, done, now);
    StopsParts(b, first, windows, entries, p);
    if p.entry < k {
      EntryIncluded(b, first.loaded, entries, p.entry);
      RelocationsGrow(b, first.loaded, entries, p.entry + 1, k);
      PrefixLinked(first, windows, p.done + p.own, done);
      RefusedWithin(first, windows, p.done, p.own, p.at, p.state);
    }
  }

  lemma PrefixLinked(first: LinkState, windows: Windows, part: seq<Relocation>, done: seq<Relocation>)
    requires WindowsOrdered(windows) && part <= done && LinkedBy(first, windows, done).Some?
    ensures LinkedBy(first, windows, part).Some?
  {
    hide *;
    LinkedMore(first, windows, part, done[|part|..]);
    assert part + done[|part|..] == done;
  }

  lemma RefusedWithin(first: LinkState, windows: Windows, done: seq<Relocation>, own: seq<Relocation>, at: nat,
                      left: LinkState)
    requires WindowsOrdered(windows) && Ready(first, windows) && at < |own|
    requires LinkedBy(first, windows, done + own[..at]) == Some(left) && EntryRejected(left, windows, own[at])
    ensures LinkedBy(first, windows, done + own).None?
  {
    hide *;
    RefusedIs(first, windows, done, own, at, left);
    RefusedFails(first, windows, done + own, |done| + at, left);
  }

  lemma RefusedIs(first: LinkState, windows: Windows, done: seq<Relocation>, own: seq<Relocation>, at: nat,
                  left: LinkState)
    requires WindowsOrdered(windows) && at < |own|
    requires LinkedBy(first, windows, done + own[..at]) == Some(left) && EntryRejected(left, windows, own[at])
    ensures RefusedAt(first, windows, done + own, |done| + at, left)
  {
    hide LinkedBy, EntryRejected;
    assert (done + own)[..|done| + at] == done + own[..at] && (done + own)[|done| + at] == own[at];
  }

  lemma LacksParts(hle: HleDispatcher, first: LinkState, windows: Windows, entries: seq<Entry>, p: Progress)
    requires WindowsOrdered(windows) && hle.Valid() && LacksSymbol(hle, first, windows, entries, p)
    ensures p.entry < |entries| && !PassedOver(first.loaded, entries[p.entry])
    ensures Reaches(BindingsOf(hle), first, windows, entries, p.entry, p.done, p.state)
    ensures !IsBound(BindingsOf(hle), entries[p.entry].symbol) || !SlotPresent(first.loaded, entries[p.entry].symbol)
  {
    hide Reaches, PassedOver, IsBound, SlotPresent, Unresolvable;
    UnresolvableMeans(hle, first.loaded, entries[p.entry].symbol);
  }

  /** Nothing past an entry without its symbol is linked. */
  lemma LacksBefore(hle: HleDispatcher, first: LinkState, windows: Windows, entries: seq<Entry>, p: Progress,
                    k: nat)
    requires WindowsOrdered(windows) && hle.Valid() && LacksSymbol(hle, first, windows, entries, p)
    requires k <= |entries| && AllBound(BindingsOf(hle), Live(first.loaded, entries[..k]))
    requires SlotsPresent(first.loaded, Live(first.loaded, entries[..k]))
    ensures k <= p.entry
  {
    hide *;
    LacksParts(hle, first, windows, entries, p);
    if p.entry < k {
      var e := entries[p.entry];
      LiveGrows(first.loaded, entries, p.entry, k);
      BoundAt(BindingsOf(hle), Live(first.loaded, entries[..k]), e);
      PresentAt(first.loaded, Live(first.loaded, entries[..k]), e);
      assert false;
    }
  }

  /** The three ends of the loop exclude each other. */
  lemma EndsExclude(hle: HleDispatcher, first: LinkState, windows: Windows, entries: seq<Entry>)
    requires WindowsOrdered(windows) && Ready(first, windows) && hle.Valid()
    ensures forall p, q :: Completes(BindingsOf(hle), first, windows, entries, p) ==>
              !LacksSymbol(hle, first, windows, entries, q) && !StopsAt(BindingsOf(hle), first, windows, entries, q)
    ensures forall p, q :: LacksSymbol(hle, first, windows, entries, p) ==>
              !StopsAt(BindingsOf(hle), first, windows, entries, q)
  {
    hide *;
    forall p, q | Completes(BindingsOf(hle), first, windows, entries, p)
      ensures !LacksSymbol(hle, first, windows, entries, q)
      ensures !StopsAt(BindingsOf(hle), first, windows, entries, q)
    {
      CompleteExcludes(hle, first, windows, entries, p, q);
    }
    forall p, q | LacksSymbol(hle, first, windows, entries, p)
      ensures !StopsAt(BindingsOf(hle), first, windows, entries, q)
    {
      LackExcludes(hle, first, windows, entries, p, q);
    }
  }

  lemma CompleteExcludes(hle: HleDispatcher, first: LinkState, windows: Windows, entries: seq<Entry>, p: Progress,
                         q: Progress)
    requires WindowsOrdered(windows) && Ready(first, windows) && hle.Valid()
    requires Completes(BindingsOf(hle), first, windows, entries, p)
    ensures !LacksSymbol(hle, first, windows, entries, q) && !StopsAt(BindingsOf(hle), first, windows, entries, q)
  {
    CompletesParts(BindingsOf(hle), first, windows, entries, p);
    hide *;
    ReachesParts(BindingsOf(hle), first, windows, entries, |entries|, p.done, p.state);
    if StopsAt(BindingsOf(hle), first, windows, entries, q) {
      StopsParts(BindingsOf(hle), first, windows, entries, q);
      StopsBefore(BindingsOf(hle), first, windows, entries, |entries|, p.done, p.state, q);
    }
    if LacksSymbol(hle, first, windows, entries, q) {
      LacksParts(hle, first, windows, entries, q);
      LacksBefore(hle, first, windows, entries, q, |entries|);
    }
  }

  lemma CompletesParts(b: Bindings, first: LinkState, windows: Windows, entries: seq<Entry>, p: Progress)
    requires WindowsOrdered(windows) && Completes(b, first, windows, entries, p)
    ensures Reaches(b, first, windows, entries, |entries|, p.done, p.state)
  {
    hide Reaches;
  }

  lemma LackExcludes(hle: HleDispatcher, first: LinkState, windows: Windows, entries: seq<Entry>, p: Progress,
                     q: Progress)
    requires WindowsOrdered(windows) && Ready(first, windows) && hle.Valid()
    requires LacksSymbol(hle, first, windows, entries, p)
    ensures !StopsAt(BindingsOf(hle), first, windows, entries, q)
  {
    hide *;
    if StopsAt(BindingsOf(hle), first, windows, entries, q) {
      LacksParts(hle, first, windows, entries, p);
      StopsParts(BindingsOf(hle), first, windows, entries, q);
      StopsBefore(BindingsOf(hle), first, windows, entries, p.entry, p.done, p.state, q);
      LacksBefore(hle, first, windows, entries, p, q.entry);
    }
  }

  /** One entry: its symbol, then its slot fill and its own patch. */
  method LinkEntry(hle: HleDispatcher, memory: GuestMemory, linker: RpxLinker, ghost first: LinkState,
                   e: Entry, ghost done: seq<Entry>, ghost rs: seq<Relocation>)
    returns (end: LinkEnd, ghost own: seq<Relocation>, ghost at: nat, ghost left: LinkState)
    requires hle.Valid() && memory.Valid() && Placement.Placed(memory.Image(), hle.exports)
    requires linker.Valid() && WindowsOrdered(linker.windows) && Ready(first, linker.windows)
    requires AllRelocated(BindingsOf(hle), done, rs) && LinkedBy(first, linker.windows, rs) == Some(linker.State())
    modifies hle`addresses, hle`boundImports, hle`nextImport, hle`dataAddresses, hle`nextData, hle`exports
    modifies memory, memory.bytes, memory.flatGenerations, linker, linker.allocator
    ensures hle.Valid() && memory.Valid() && Placement.Placed(memory.Image(), hle.exports) && linker.Valid()
    ensures AllRelocated(BindingsOf(hle), done, rs)
    ensures end.NoSymbol? ==> Unresolvable(hle, first.loaded, e.symbol) && linker.State() == old(linker.State())
    ensures !end.NoSymbol? ==> IsBound(BindingsOf(hle), e.symbol) && own == EntryRelocations(BindingsOf(hle), e) &&
                               SlotPresent(first.loaded, e.symbol)
    ensures end.Done? ==> LinkedBy(first, linker.windows, rs + own) == Some(linker.State())
    ensures end.NoPatch? ==> at < |own| && LinkedBy(first, linker.windows, rs + own[..at]) == Some(left) &&
                             EntryRejected(left, linker.windows, own[at])
  {
    hide *;
    at, left, own := 0, linker.State(), [];
    SameStart(first, linker, rs);
    var resolved, relocations := ResolveEntry(hle, memory, linker.loaded, e, done, rs);
    SameSlots(first.loaded, linker.loaded, e.symbol);
    if !resolved {
      StillUnresolvable(hle, first.loaded, linker.loaded, e.symbol);
      return NoSymbol, own, at, left;
    }
    own := relocations;
    ghost var before := linker.State();
    var applied;
    applied, at, left := linker.ApplyRelocations(relocations);
    LinkedMore(first, linker.windows, rs, own);
    if applied { return Done, own, at, left; }
    RefusedParts(before, linker.windows, own, at, left);
    LinkedMore(first, linker.windows, rs, own[..at]);
    return NoPatch, own, at, left;
  }

  lemma SameStart(first: LinkState, linker: RpxLinker, rs: seq<Relocation>)
    requires linker.Valid() && WindowsOrdered(linker.windows) && Ready(first, linker.windows)
    requires LinkedBy(first, linker.windows, rs) == Some(linker.State())
    ensures SameExtents(first.loaded, linker.loaded)
  {
    hide *;
    LinkerParts(linker);
    LinkedKeeps(first, linker.windows, rs);
    FollowsParts(first, linker.State(), linker.windows);
  }

  lemma SameSlots(a: seq<LoadedSection>, b: seq<LoadedSection>, symbol: SymbolRef)
    requires SameExtents(a, b)
    ensures SlotPresent(a, symbol) <==> SlotPresent(b, symbol)
  {
  }

  lemma RefusedParts(st: LinkState, windows: Windows, rs: seq<Relocation>, j: nat, left: LinkState)
    requires WindowsOrdered(windows) && RefusedAt(st, windows, rs, j, left)
    ensures j < |rs| && LinkedBy(st, windows, rs[..j]) == Some(left) && EntryRejected(left, windows, rs[j])
  {
    hide LinkedBy, EntryRejected;
  }

  /** The next entry, which may be passed over. */
  method VisitEntry(hle: HleDispatcher, memory: GuestMemory, linker: RpxLinker, ghost first: LinkState,
                    entries: seq<Entry>, k: nat, ghost rs: seq<Relocation>)
    returns (end: LinkEnd, ghost p: Progress)
    requires k < |entries|
    requires hle.Valid() && memory.Valid() && Placement.Placed(memory.Image(), hle.exports)
    requires linker.Valid() && WindowsOrdered(linker.windows) && Ready(first, linker.windows)
    requires Reaches(BindingsOf(hle), first, linker.windows, entries, k, rs, linker.State())
    modifies hle`addresses, hle`boundImports, hle`nextImport, hle`dataAddresses, hle`nextData, hle`exports
    modifies memory, memory.bytes, memory.flatGenerations, linker, linker.allocator
    ensures hle.Valid() && memory.Valid() && Placement.Placed(memory.Image(), hle.exports) && linker.Valid()
    ensures end.Done? ==>
              Reaches(BindingsOf(hle), first, linker.windows, entries, k + 1, p.done, linker.State())
    ensures end.NoSymbol? ==> LacksSymbol(hle, first, linker.windows, entries, p)
    ensures end.NoPatch? ==> StopsAt(BindingsOf(hle), first, linker.windows, entries, p)
  {
    hide *;
    ghost var live := Live(first.loaded, entries[..k]);
    ReachesParts(BindingsOf(hle), first, linker.windows, entries, k, rs, linker.State());
    SameStart(first, linker, rs);
    SamePassed(first.loaded, linker.loaded, entries[k]);
    if PassedOver(linker.loaded, entries[k]) {
      ReachesPast(BindingsOf(hle), first, linker.windows, entries, k, rs, linker.State());
      return Done, Progress(k + 1, rs, [], 0, linker.State());
    }
    RelocatedIs(BindingsOf(hle), live, rs);
    ghost var own, at, left;
    end, own, at, left := LinkEntry(hle, memory, linker, first, entries[k], live, rs);
    if end.NoSymbol? {
      p := Progress(k, rs, own, at, linker.State());
      LacksIs(hle, first, linker.windows, entries, p);
    } else if end.Done? {
      p := Progress(k + 1, rs + own, [], 0, linker.State());
      ReachesNext(BindingsOf(hle), first, linker.windows, entries, k, rs, own, linker.State());
    } else {
      p := Progress(k, rs, own, at, left);
      StopsIs(BindingsOf(hle), first, linker.windows, entries, p);
    }
  }

  lemma RelocatedIs(b: Bindings, entries: seq<Entry>, rs: seq<Relocation>)
    requires AllBound(b, entries) && rs == RelocationsOf(b, entries)
    ensures AllRelocated(b, entries, rs)
  {
    hide AllBound, RelocationsOf;
  }

  lemma ReachesPast(b: Bindings, first: LinkState, windows: Windows, entries: seq<Entry>, k: nat,
                    rs: seq<Relocation>, now: LinkState)
    requires WindowsOrdered(windows) && Reaches(b, first, windows, entries, k, rs, now)
    requires k < |entries| && PassedOver(first.loaded, entries[k])
    ensures Reaches(b, first, windows, entries, k + 1, rs, now)
  {
    LiveNext(first.loaded, entries, k);
    assert Live(first.loaded, entries[..k]) + [] == Live(first.loaded, entries[..k]);
    hide SlotsPresent, AllRelocated, LinkedBy, Live, PassedOver;
  }

  lemma ReachesNext(b: Bindings, first: LinkState, windows: Windows, entries: seq<Entry>, k: nat,
                    rs: seq<Relocation>, own: seq<Relocation>, now: LinkState)
    requires WindowsOrdered(windows) && k < |entries| && !PassedOver(first.loaded, entries[k])
    requires SlotsPresent(first.loaded, Live(first.loaded, entries[..k]))
    requires AllRelocated(b, Live(first.loaded, entries[..k]), rs) && IsBound(b, entries[k].symbol)
    requires own == EntryRelocations(b, entries[k]) && SlotPresent(first.loaded, entries[k].symbol)
    requires LinkedBy(first, windows, rs + own) == Some(now)
    ensures Reaches(b, first, windows, entries, k + 1, rs + own, now)
  {
    EntryIncluded(b, first.loaded, entries, k);
    LiveNext(first.loaded, entries, k);
    hide SlotPresent, AllBound, RelocationsOf, LinkedBy, Live, PassedOver, EntryRelocations, IsBound;
  }

  lemma LacksIs(hle: HleDispatcher, first: LinkState, windows: Windows, entries: seq<Entry>, p: Progress)
    requires WindowsOrdered(windows) && hle.Valid()
    requires p.entry < |entries| && !PassedOver(first.loaded, entries[p.entry])
    requires SlotsPresent(first.loaded, Live(first.loaded, entries[..p.entry]))
    requires AllRelocated(BindingsOf(hle), Live(first.loaded, entries[..p.entry]), p.done)
    requires LinkedBy(first, windows, p.done) == Some(p.state)
    requires Unresolvable(hle, first.loaded, entries[p.entry].symbol)
    ensures LacksSymbol(hle, first, windows, entries, p)
  {
    hide SlotsPresent, AllRelocated, LinkedBy, Live, PassedOver, Unresolvable;
  }

  lemma StopsIs(b: Bindings, first: LinkState, windows: Windows, entries: seq<Entry>, p: Progress)
    requires WindowsOrdered(windows)
    requires p.entry < |entries| && !PassedOver(first.loaded, entries[p.entry])
    requires SlotsPresent(first.loaded, Live(first.loaded, entries[..p.entry]))
    requires AllRelocated(b, Live(first.loaded, entries[..p.entry]), p.done)
    requires SlotPresent(first.loaded, entries[p.entry].symbol)
    requires IsBound(b, entries[p.entry].symbol) && p.own == EntryRelocations(b, entries[p.entry])
    requires p.at < |p.own| && LinkedBy(first, windows, p.done + p.own[..p.at]) == Some(p.state)
    requires EntryRejected(p.state, windows, p.own[p.at])
    ensures StopsAt(b, first, windows, entries, p)
  {
    hide SlotsPresent, AllRelocated, LinkedBy, Live, PassedOver, EntryRelocations, EntryRejected, SlotPresent, IsBound;
  }

  lemma ReachesStart(b: Bindings, first: LinkState, windows: Windows, entries: seq<Entry>)
    requires WindowsOrdered(windows)
    ensures Reaches(b, first, windows, entries, 0, [], first)
  {
    assert Live(first.loaded, entries[..0]) == [];
  }

  lemma CompletesIs(b: Bindings, first: LinkState, windows: Windows, entries: seq<Entry>, p: Progress)
    requires WindowsOrdered(windows) && p.entry == |entries|
    requires Reaches(b, first, windows, entries, p.entry, p.done, p.state)
    ensures Completes(b, first, windows, entries, p)
  {
    hide Reaches;
  }

  /**
   * The relocation loop: each entry binds its symbol, fills its import slot and is applied before the
   * next one is looked at. It ends in exactly one way.
   */
  method LinkEntries(hle: HleDispatcher, memory: GuestMemory, linker: RpxLinker, entries: seq<Entry>)
    returns (end: LinkEnd, ghost p: Progress)
    requires hle.Valid() && memory.Valid() && Placement.Placed(memory.Image(), hle.exports)
    requires linker.Valid() && WindowsOrdered(linker.windows)
    modifies hle`addresses, hle`boundImports, hle`nextImport, hle`dataAddresses, hle`nextData, hle`exports
    modifies memory, memory.bytes, memory.flatGenerations, linker, linker.allocator
    ensures hle.Valid() && memory.Valid() && Placement.Placed(memory.Image(), hle.exports) && linker.Valid()
    ensures end.Done? ==> p.state == linker.State() &&
                          Completes(BindingsOf(hle), old(linker.State()), linker.windows, entries, p)
    ensures end.NoSymbol? ==> LacksSymbol(hle, old(linker.State()), linker.windows, entries, p)
    ensures end.NoPatch? ==> StopsAt(BindingsOf(hle), old(linker.State()), linker.windows, entries, p)
    ensures end.NoSymbol? <==> exists q :: LacksSymbol(hle, old(linker.State()), linker.windows, entries, q)
    ensures end.NoPatch? <==> exists q :: StopsAt(BindingsOf(hle), old(linker.State()), linker.windows, entries, q)
  {
    hide *;
    ghost var first, windows := linker.State(), linker.windows;
    LinkerParts(linker);
    ReachesStart(BindingsOf(hle), first, windows, entries);
    p := Progress(0, [], [], 0, first);
    for k := 0 to |entries|
      invariant hle.Valid() && memory.Valid() && Placement.Placed(memory.Image(), hle.exports)
      invariant linker.Valid()
      invariant Reaches(BindingsOf(hle), first, windows, entries, k, p.done, linker.State())
    {
      end, p := VisitEntry(hle, memory, linker, first, entries, k, p.done);
      if !end.Done? {
        EndsExclude(hle, first, windows, entries);
        return;
      }
    }
    end, p := Done, Progress(|entries|, p.done, [], 0, linker.State());
    CompletesIs(BindingsOf(hle), first, windows, entries, p);
    EndsExclude(hle, first, windows, entries);
  }

  /** Where the part of a block in flat memory ends. */
  function FlatEnd(s: LoadedSection, size: nat): nat {
    if s.contents != [] && s.address < size then Min(s.address + |s.contents|, size) else 0
  }

  /** `top` is the end of the highest part in flat memory, but at least `from`. */
  ghost predicate ImageTop(blocks: seq<LoadedSection>, size: nat, from: nat, top: nat) {
    && from <= top
    && (forall i :: 0 <= i < |blocks| ==> FlatEnd(blocks[i], size) <= top)
    && (top == from || exists i :: 0 <= i < |blocks| && FlatEnd(blocks[i], size) == top)
  }

  /** The image top is the end of the highest byte of a block in flat memory, or zero without one. */
  lemma ImageTopMeans(blocks: seq<LoadedSection>, size: nat, top: nat)
    requires ImageTop(blocks, size, 0, top)
    ensures forall i, x: nat :: 0 <= i < |blocks| && Contains(blocks[i], x) && x < size ==> x < top
    ensures top > 0 ==> top <= size && exists i :: 0 <= i < |blocks| && Contains(blocks[i], top - 1)
  {
    if top > 0 {
      var i :| 0 <= i < |blocks| && FlatEnd(blocks[i], size) == top;
      assert Contains(blocks[i], top - 1);
    }
  }

  lemma TopStart(size: nat, from: nat)
    ensures ImageTop([], size, from, from)
  {
  }

  lemma TopStep(blocks: seq<LoadedSection>, s: LoadedSection, size: nat, from: nat, top: nat)
    requires ImageTop(blocks, size, from, top)
    ensures ImageTop(blocks + [s], size, from, Max(top, FlatEnd(s, size)))
  {
    assert [s][0] == s;
    TopsJoin(blocks, [s], size, from, top, Max(top, FlatEnd(s, size)));
  }

  lemma TopsJoin(a: seq<LoadedSection>, b: seq<LoadedSection>, size: nat, from: nat, middle: nat, top: nat)
    requires ImageTop(a, size, from, middle) && ImageTop(b, size, middle, top)
    ensures ImageTop(a + b, size, from, top)
  {
    hide FlatEnd;
    assert forall i :: 0 <= i < |a| ==> (a + b)[i] == a[i];
    assert forall i :: 0 <= i < |b| ==> (a + b)[|a| + i] == b[i];
  }

  /** The placement loop over sections or trampolines; `highest` tracks the end of the flat part. */
  method PlaceAll(memory: GuestMemory, blocks: seq<LoadedSection>, ghost placed: seq<LoadedSection>, from: nat)
    returns (ok: bool, highest: nat)
    requires memory.Valid() && Placement.Placed(memory.Image(), placed) && from <= ADDRESS_SPACE_END
    requires AllApart(placed + Nonempty(blocks)) && AllFit(blocks)
    modifies memory, memory.bytes, memory.flatGenerations
    ensures ok && memory.Valid() && Placement.Placed(memory.Image(), placed + Nonempty(blocks))
    ensures from <= highest <= ADDRESS_SPACE_END && ImageTop(blocks, memory.bytes.Length, from, highest)
  {
    highest := from;
    hide Placement.Placed, WellFormed, PageGenerations.Covers, AllApart, ImageTop;
    TopStart(memory.bytes.Length, from);
    assert placed + Nonempty(blocks[..0]) == placed;
    for k := 0 to |blocks|
      invariant memory.Valid() && Placement.Placed(memory.Image(), placed + Nonempty(blocks[..k]))
      invariant from <= highest <= ADDRESS_SPACE_END
      invariant ImageTop(blocks[..k], memory.bytes.Length, from, highest)
    {
      var s := blocks[k];
      TopStep(blocks[..k], s, memory.bytes.Length, from, highest);
      assert blocks[..k + 1] == blocks[..k] + [s];
      assert blocks[..k + 1][..k] == blocks[..k];
      if s.contents != [] {
        RoomInOrder(placed, blocks, k);
        ok := PlaceBlock(memory, s, placed + Nonempty(blocks[..k]));
        assert placed + Nonempty(blocks[..k]) + [s] == placed + Nonempty(blocks[..k + 1]);
        if s.address < memory.bytes.Length {
          highest := Max(highest, Min(s.address + |s.contents|, memory.bytes.Length));
        }
      } else {
        assert Nonempty(blocks[..k + 1]) == Nonempty(blocks[..k]);
      }
    }
    assert blocks[..|blocks|] == blocks;
    return true, highest;
  }

  lemma {:induction false} NonemptySplit(blocks: seq<LoadedSection>, k: nat)
    requires k <= |blocks|
    ensures Nonempty(blocks) == Nonempty(blocks[..k]) + Nonempty(blocks[k..])
    decreases |blocks|
  {
    if k == |blocks| {
      assert blocks[..k] == blocks && blocks[k..] == [];
    } else {
      var last := |blocks| - 1;
      NonemptySplit(blocks[..last], k);
      assert blocks[..last][..k] == blocks[..k] && blocks[..last][k..] == blocks[k..][..last - k];
    }
  }

  lemma NonemptyStep(blocks: seq<LoadedSection>, k: nat)
    requires k < |blocks|
    ensures Nonempty(blocks[..k + 1]) ==
            Nonempty(blocks[..k]) + (if blocks[k].contents == [] then [] else [blocks[k]])
  {
    assert blocks[..k + 1][..k] == blocks[..k];
  }

  lemma RoomInOrder(placed: seq<LoadedSection>, blocks: seq<LoadedSection>, k: nat)
    requires AllApart(placed + Nonempty(blocks)) && k < |blocks| && blocks[k].contents != []
    ensures RoomFor(placed + Nonempty(blocks[..k]), blocks[k])
  {
    hide AllApart, RoomFor, Nonempty;
    var before := placed + Nonempty(blocks[..k]);
    NonemptySplit(blocks, k + 1);
    NonemptyStep(blocks, k);
    assert placed + Nonempty(blocks) == before + [blocks[k]] + Nonempty(blocks[k + 1..]);
    RoomBefore(before, blocks[k], Nonempty(blocks[k + 1..]));
  }

  lemma RoomBefore(before: seq<LoadedSection>, s: LoadedSection, after: seq<LoadedSection>)
    requires AllApart(before + [s] + after)
    ensures RoomFor(before, s)
  {
    var all := before + [s] + after;
    assert all[|before|] == s;
    forall i | 0 <= i < |before| ensures BlocksApart(before[i], s) {
      assert all[i] == before[i];
    }
  }

  /** Neither a block with bytes nor a window meets the interval. */
  ghost predicate ClearOfImage(sections: seq<LoadedSection>, trampolines: seq<LoadedSection>, dataBegin: nat,
                               begin: nat, end: nat)
  {
    && ClearOfBlocks(sections, begin, end) && ClearOfBlocks(trampolines, begin, end)
    && (end <= dataBegin + WINDOW || dataBegin + 2 * WINDOW <= begin)
    && (end <= dataBegin || dataBegin + WINDOW <= begin)
  }

  ghost predicate ClearOfBlock(s: LoadedSection, begin: nat, end: nat) {
    s.contents == [] || end <= s.address || s.address + |s.contents| <= begin
  }

  ghost predicate ClearOfBlocks(blocks: seq<LoadedSection>, begin: nat, end: nat) {
    forall i :: 0 <= i < |blocks| ==> ClearOfBlock(blocks[i], begin, end)
  }

  /** The occupied ranges of a list of blocks, added to those already collected. */
  method AddBlocks(ranges: seq<Range>, limit: nat, blocks: seq<LoadedSection>) returns (more: seq<Range>)
    requires Within(ranges, limit)
    ensures Within(more, limit)
    ensures forall b: nat, e: nat :: HEAP_BASE <= b < e <= limit ==>
              (Clear(more, b, e) <==> Clear(ranges, b, e) && ClearOfBlocks(blocks, b, e))
  {
    more := ranges;
    hide Clear;
    for k := 0 to |blocks|
      invariant Within(more, limit)
      invariant forall b: nat, e: nat :: HEAP_BASE <= b < e <= limit ==>
                  (Clear(more, b, e) <==> Clear(ranges, b, e) && ClearOfBlocks(blocks[..k], b, e))
    {
      assert blocks[..k + 1] == blocks[..k] + [blocks[k]];
      ClearOfMore(blocks[..k], blocks[k]);
      if blocks[k].contents != [] {
        AddOccupiedMeans(more, limit, blocks[k].address, |blocks[k].contents|);
        more := AddOccupied(more, limit, blocks[k].address, |blocks[k].contents|);
      }
    }
    assert blocks[..|blocks|] == blocks;
  }

  lemma ClearOfMore(blocks: seq<LoadedSection>, s: LoadedSection)
    ensures forall b: nat, e: nat ::
              ClearOfBlocks(blocks + [s], b, e) <==> ClearOfBlocks(blocks, b, e) && ClearOfBlock(s, b, e)
  {
    hide ClearOfBlock;
    forall b: nat, e: nat
      ensures ClearOfBlocks(blocks + [s], b, e) <==> ClearOfBlocks(blocks, b, e) && ClearOfBlock(s, b, e)
    {
      assert (blocks + [s])[|blocks|] == s;
      assert forall i :: 0 <= i < |blocks| ==> (blocks + [s])[i] == blocks[i];
    }
  }

  /** A heap the loader may configure: aligned, 64 KiB below the end of flat memory, clear of the image. */
  ghost predicate UsableHeap(sections: seq<LoadedSection>, trampolines: seq<LoadedSection>, dataBegin: nat,
                             memorySize: nat, begin: nat, end: nat)
  {
    && 0x1000 <= begin < end && end + 0x1_0000 <= memorySize && begin % 16 == 0 && end % 16 == 0
    && ClearOfImage(sections, trampolines, dataBegin, begin, end)
  }

  /**
   * What the loader promises about the heap it configures; `Range(0, 0)` stands for none. The longest
   * usable heap that starts at `first` is taken, and without one the longest usable heap anywhere, the lowest
   * of several.
   */
  ghost predicate HeapChoice(sections: seq<LoadedSection>, trampolines: seq<LoadedSection>, dataBegin: nat,
                             memorySize: nat, first: nat, heap: Range, swept: bool)
  {
    && (heap == Range(0, 0) || UsableHeap(sections, trampolines, dataBegin, memorySize, heap.begin, heap.end))
    && (swept <==> forall e: nat :: !UsableHeap(sections, trampolines, dataBegin, memorySize, first, e))
    && (swept ==> forall b: nat, e: nat ::
          UsableHeap(sections, trampolines, dataBegin, memorySize, b, e) ==>
            && e - b <= heap.end - heap.begin
            && (e - b == heap.end - heap.begin ==> heap.begin <= b))
    && (!swept ==> heap.begin == first && forall e: nat ::
          UsableHeap(sections, trampolines, dataBegin, memorySize, first, e) ==> e <= heap.end)
  }

  /** The first page boundary from the top of the image on, but not page 0. */
  predicate PageAbove(top: nat, first: nat) {
    first % 0x1000 == 0 && 0x1000 <= first && top <= first && (first == 0x1000 || first < top + 0x1000)
  }

  lemma FirstPageMeans(top: nat)
    requires top <= ADDRESS_SPACE_END
    ensures PageAbove(top, FirstPage(top))
  {
    hide AlignUp;
    PageRounding(top);
  }

  /** The heap-gap part of the loader, from the image to the configured heap. */
  method PlaceHeap(sections: seq<LoadedSection>, trampolines: seq<LoadedSection>, dataBegin: Word,
                   memorySize: nat, highest: nat) returns (heap: Range, swept: bool)
    requires memorySize <= ADDRESS_SPACE_END && highest <= ADDRESS_SPACE_END
    ensures HeapChoice(sections, trampolines, dataBegin, memorySize, FirstPage(highest), heap, swept)
    ensures PageAbove(highest, FirstPage(highest))
  {
    FirstPageMeans(highest);
    var limit := HeapLimit(memorySize);
    if limit <= HEAP_BASE { return Range(0, 0), true; }
    hide Clear, Within, ClearOfBlocks, Longest, FirstPage;
    NothingOccupied(limit);
    var occupied := AddBlocks([], limit, sections);
    occupied := AddBlocks(occupied, limit, trampolines);
    AddOccupiedMeans(occupied, limit, dataBegin + WINDOW, WINDOW);
    occupied := AddOccupied(occupied, limit, dataBegin + WINDOW, WINDOW);
    AddOccupiedMeans(occupied, limit, dataBegin, WINDOW);
    occupied := AddOccupied(occupied, limit, dataBegin, WINDOW);
    heap, swept := ChooseGap(occupied, limit, highest);
    UsableMeansFree(sections, trampolines, dataBegin, occupied, memorySize);
    LongestMeans(occupied, limit, heap);
  }

  lemma NothingOccupied(limit: nat)
    ensures Within([], limit) && forall b: nat, e: nat :: Clear([], b, e)
  {
  }

  lemma UsableMeansFree(sections: seq<LoadedSection>, trampolines: seq<LoadedSection>, dataBegin: nat,
                        occupied: seq<Range>, memorySize: nat)
    requires forall b: nat, e: nat :: HEAP_BASE <= b < e <= HeapLimit(memorySize) ==>
               (Clear(occupied, b, e) <==> ClearOfImage(sections, trampolines, dataBegin, b, e))
    ensures forall b: nat, e: nat ::
              UsableHeap(sections, trampolines, dataBegin, memorySize, b, e) <==>
              FreeGap(occupied, HeapLimit(memorySize), b, e)
  {
    hide Clear, ClearOfImage;
  }

  lemma LongestMeans(occupied: seq<Range>, limit: nat, heap: Range)
    ensures Longest(occupied, limit, heap) ==>
              forall b: nat, e: nat :: FreeGap(occupied, limit, b, e) ==>
                && e - b <= heap.end - heap.begin
                && (e - b == heap.end - heap.begin ==> heap.begin <= b)
  {
    hide FreeGap;
  }

  // Everything the loader places is apart

  lemma {:induction false} NonemptyMembers(blocks: seq<LoadedSection>)
    ensures forall i :: 0 <= i < |Nonempty(blocks)| ==>
              Nonempty(blocks)[i].contents != [] && Nonempty(blocks)[i] in blocks
    decreases |blocks|
  {
    if blocks != [] {
      NonemptyMembers(blocks[..|blocks| - 1]);
    }
  }

  lemma {:induction false} NonemptyApart(blocks: seq<LoadedSection>)
    requires forall i, j :: 0 <= i < j < |blocks| && blocks[i].contents != [] && blocks[j].contents != [] ==>
               BlocksApart(blocks[i], blocks[j])
    ensures AllApart(Nonempty(blocks))
    decreases |blocks|
  {
    hide BlocksApart;
    if blocks != [] {
      var last := |blocks| - 1;
      NonemptyApart(blocks[..last]);
      NonemptyMembers(blocks[..last]);
    }
  }

  lemma JoinApart(a: seq<LoadedSection>, b: seq<LoadedSection>)
    requires AllApart(a) && AllApart(b)
    requires forall i, j :: 0 <= i < |a| && 0 <= j < |b| ==> BlocksApart(a[i], b[j])
    ensures AllApart(a + b)
  {
    hide BlocksApart;
  }

  ghost predicate ExportsInWindow(exports: seq<LoadedSection>, base: nat) {
    && (forall i :: 0 <= i < |exports| ==>
          base <= exports[i].address && exports[i].address + |exports[i].contents| <= base + WINDOW)
    && AllApart(exports)
  }

  function WindowsAt(base: nat): Windows {
    Windows(Range(base, base + WINDOW), Range(base + WINDOW, base + 2 * WINDOW))
  }

  /** Exports, sections and trampolines are pairwise disjoint. */
  lemma ImageApart(exports: seq<LoadedSection>, loaded: seq<LoadedSection>, trampolines: seq<LoadedSection>,
                   base: nat, reservation: Range)
    requires ExportsInWindow(exports, base) && SectionsDisjoint(loaded) && WindowsClear(loaded, base)
    requires TrampolinesPlaced(loaded, trampolines, WindowsAt(base), reservation)
    ensures AllApart(exports + Nonempty(loaded))
    ensures AllApart(exports + Nonempty(loaded) + Nonempty(trampolines))
  {
    forall i, j | 0 <= i < j < |loaded| && loaded[i].contents != [] && loaded[j].contents != []
      ensures BlocksApart(loaded[i], loaded[j])
    {
      assert !SectionOverlaps(loaded[i], loaded[j].address, |loaded[j].contents|);
    }
    NonemptyApart(loaded);
    NonemptyMembers(loaded);
    ExportsClear(exports, loaded, base);
    JoinApart(exports, Nonempty(loaded));
    TrampolinesClear(exports, loaded, trampolines, base, reservation);
    NonemptyMembers(trampolines);
    JoinApart(exports + Nonempty(loaded), Nonempty(trampolines));
  }

  lemma ExportsClear(exports: seq<LoadedSection>, loaded: seq<LoadedSection>, base: nat)
    requires ExportsInWindow(exports, base) && WindowsClear(loaded, base)
    ensures forall i, s :: 0 <= i < |exports| && s in loaded && s.contents != [] ==> BlocksApart(exports[i], s)
  {
    forall i, s | 0 <= i < |exports| && s in loaded && s.contents != [] ensures BlocksApart(exports[i], s) {
      assert !SectionOverlaps(s, base, WINDOW);
    }
  }

  lemma TrampolinesClear(exports: seq<LoadedSection>, loaded: seq<LoadedSection>, trampolines: seq<LoadedSection>,
                         base: nat, reservation: Range)
    requires ExportsInWindow(exports, base)
    requires TrampolinesPlaced(loaded, trampolines, WindowsAt(base), reservation)
    ensures AllApart(Nonempty(trampolines))
    ensures forall i, t :: 0 <= i < |exports| && t in trampolines ==> BlocksApart(exports[i], t)
    ensures forall s, t :: s in loaded && s.contents != [] && t in trampolines ==> BlocksApart(s, t)
  {
    forall i, j | 0 <= i < j < |trampolines| ensures BlocksApart(trampolines[i], trampolines[j]) {
      assert trampolines[..j][i] == trampolines[i];
      assert !SectionOverlaps(trampolines[i], trampolines[j].address, TRAMPOLINE_SIZE);
    }
    NonemptyApart(trampolines);
    forall s, t | s in loaded && s.contents != [] && t in trampolines ensures BlocksApart(s, t) {
      var j :| 0 <= j < |trampolines| && trampolines[j] == t;
      assert !SectionOverlaps(s, t.address, TRAMPOLINE_SIZE);
    }
  }

  /** The state a successful load leaves: what is in memory, and how it relates to the file. */
  ghost predicate LoadedImage(m: Memory, exports: seq<LoadedSection>, original: seq<LoadedSection>,
                              result: LoadResult, rs: seq<Relocation>, dataBegin: Word, info: FileInfo)
  {
    && result.Loaded?
    && Placement.Placed(m, exports + Nonempty(result.sections) + Nonempty(result.trampolines))
    && AllApart(exports + Nonempty(result.sections) + Nonempty(result.trampolines))
    && (exists slots ::
          LinkedBy(Start(info, original), WindowsAt(dataBegin), rs) ==
          Some(LinkState(result.sections, result.trampolines, slots)))
    && OthersUntouched(original, result.sections, rs)
    && AllEncoded(Start(info, original), WindowsAt(dataBegin), rs, result.sections, result.trampolines)
    && WindowsClear(result.sections, dataBegin)
    && InReservation(info, original, result.trampolines)
    && (exists reservation ::
          TrampolinesPlaced(result.sections, result.trampolines, WindowsAt(dataBegin), reservation))
  }

  /** The checks before symbols are bound; the windows move out of the way of the image. */
  method CheckImage(hle: HleDispatcher, sections: seq<LoadedSection>, memorySize: nat)
    returns (ok: bool, reason: Reason)
    requires hle.Fresh()
    modifies hle`dataBegin, hle`dataEnd, hle`importBegin, hle`importEnd, hle`nextImport, hle`nextData
    ensures hle.Fresh()
    ensures ok <==> SectionsDisjoint(sections) && WindowsClear(sections, hle.dataBegin)
    ensures !ok ==> reason == if SectionsDisjoint(sections) then WindowsTaken else SectionsOverlap
    ensures SectionsDisjoint(sections) ==>
              WindowsChosen(sections, memorySize, old(hle.dataBegin), hle.dataBegin)
  {
    hide SectionsDisjoint, WindowsClear, WindowsChosen, ImportTable, DataTable, ExportsRegistered;
    ok := CheckSectionsDisjoint(sections);
    if !ok { return false, SectionsOverlap; }
    RelocateHleRangesIfNeeded(hle, sections, memorySize);
    ok := CheckWindows(hle, sections);
    return ok, WindowsTaken;
  }

  /** Every trampoline lies in the FILEINFO reservation; without one there is no trampoline. */
  ghost predicate InReservation(info: FileInfo, sections: seq<LoadedSection>, trampolines: seq<LoadedSection>) {
    && (NoText(sections) ==> trampolines == [])
    && (forall b: nat, e: nat :: TextHull(sections, b, e) ==>
          if ReservationFits(info, b, e)
          then forall j :: 0 <= j < |trampolines| ==>
                 && b - info.trampAdjust <= trampolines[j].address
                 && trampolines[j].address + TRAMPOLINE_SIZE <= b - info.trampAdjust + info.textSize
          else trampolines == [])
  }

  lemma RoomForOne(loaded: seq<LoadedSection>, trampolines: seq<LoadedSection>, windows: Windows,
                   reservation: Range, j: nat)
    requires WindowsOrdered(windows) && TrampolinesPlaced(loaded, trampolines, windows, reservation)
    requires j < |trampolines|
    ensures reservation.begin + TRAMPOLINE_SIZE <= reservation.end
  {
    assert reservation.begin <= trampolines[j].address;
  }

  /** Placed in what remains of the reserved slots is placed in the reservation. */
  lemma PlacedInReservation(info: FileInfo, sections: seq<LoadedSection>, now: LinkState, windows: Windows)
    requires WindowsOrdered(windows) && Follows(Start(info, sections), now, windows)
    ensures InReservation(info, sections, now.trampolines)
  {
    hide *;
    StartIs(info, sections, windows);
    FollowsParts(Start(info, sections), now, windows);
    ReadyParts(now, windows);
    if now.trampolines != [] {
      RoomForOne(now.loaded, now.trampolines, windows, Range(now.slots.low, now.slots.high), 0);
    }
    SameReservation(ReservedSlots(info, sections), now.slots);
    ReservedValid(info, sections);
    NothingReserved();
    forall b: nat, e: nat | TextHull(sections, b, e)
      ensures ReservationFits(info, b, e) ==>
                now.slots.low == b - info.trampAdjust && now.slots.high == now.slots.low + info.textSize
      ensures !ReservationFits(info, b, e) ==> now.slots.low == 0 && now.slots.high == 0
    {
      ReservedMeans(info, sections, b, e);
      ReservedEnds(ReservedSlots(info, sections), info, b, e);
    }
    WithinReservation(info, sections, now, windows);
  }

  lemma NothingReserved()
    ensures NO_SLOTS.low == 0 && NO_SLOTS.high == 0
  {
  }

  lemma SameReservation(s: Slots, t: Slots)
    requires Consumed(s, t)
    ensures t.low == s.low && t.high == s.high
  {
  }

  lemma ReservedEnds(s: Slots, info: FileInfo, b: nat, e: nat)
    ensures Reserves(s, info, b, e) ==> s.low == b - info.trampAdjust && s.high == s.low + info.textSize
    ensures Reserves(s, info, b, e) ==> s.below <= b && e <= s.above
  {
    hide SlotsComplete;
  }

  lemma WithinReservation(info: FileInfo, sections: seq<LoadedSection>, now: LinkState, windows: Windows)
    requires WindowsOrdered(windows)
    requires TrampolinesPlaced(now.loaded, now.trampolines, windows, Range(now.slots.low, now.slots.high))
    requires now.trampolines != [] ==> now.slots.low + TRAMPOLINE_SIZE <= now.slots.high
    requires NoText(sections) ==> now.slots.low == 0 && now.slots.high == 0
    requires forall b: nat, e: nat :: TextHull(sections, b, e) && ReservationFits(info, b, e) ==>
               now.slots.low == b - info.trampAdjust && now.slots.high == now.slots.low + info.textSize
    requires forall b: nat, e: nat :: TextHull(sections, b, e) && !ReservationFits(info, b, e) ==>
               now.slots.low == 0 && now.slots.high == 0
    ensures InReservation(info, sections, now.trampolines)
  {
    hide TextHull, NoText, SlotAvailable, ReservationFits;
  }

  lemma StartIs(info: FileInfo, sections: seq<LoadedSection>, windows: Windows)
    requires WindowsOrdered(windows)
    ensures Start(info, sections) == LinkState(sections, [], ReservedSlots(info, sections))
    ensures Ready(Start(info, sections), windows)
  {
    ReservedValid(info, sections);
    hide ReservedSlots, SlotsValid;
  }

  /** What a completed run leaves. */
  lemma CompleteMeans(b: Bindings, info: FileInfo, sections: seq<LoadedSection>, windows: Windows,
                      entries: seq<Entry>, p: Progress)
    requires WindowsOrdered(windows) && Completes(b, Start(info, sections), windows, entries, p)
    ensures AllRelocated(b, Live(sections, entries), p.done)
    ensures LinkedBy(Start(info, sections), windows, p.done) == Some(p.state)
    ensures OthersUntouched(sections, p.state.loaded, p.done)
    ensures AllEncoded(Start(info, sections), windows, p.done, p.state.loaded, p.state.trampolines)
    ensures TrampolinesPlaced(p.state.loaded, p.state.trampolines, windows,
                              Range(p.state.slots.low, p.state.slots.high))
    ensures InReservation(info, sections, p.state.trampolines)
  {
    hide *;
    var first := Start(info, sections);
    StartIs(info, sections, windows);
    CompletesParts(b, first, windows, entries, p);
    ReachesParts(b, first, windows, entries, |entries|, p.done, p.state);
    assert entries[..|entries|] == entries;
    RelocatedIs(b, Live(sections, entries), p.done);
    LinkedKeeps(first, windows, p.done);
    FollowsParts(first, p.state, windows);
    LinkedMeans(first, windows, p.done);
    ReadyParts(p.state, windows);
    PlacedInReservation(info, sections, p.state, windows);
  }

  /** Binding and relocation of the whole file, with the windows in place. */
  method LinkImage(hle: HleDispatcher, memory: GuestMemory, sections: seq<LoadedSection>, entries: seq<Entry>,
                   info: FileInfo)
    returns (end: LinkEnd, loaded: seq<LoadedSection>, trampolines: seq<LoadedSection>, ghost p: Progress)
    requires hle.Valid() && memory.Valid() && Placement.Placed(memory.Image(), hle.exports)
    requires SectionsFit(sections)
    modifies hle`addresses, hle`boundImports, hle`nextImport, hle`dataAddresses, hle`nextData, hle`exports
    modifies memory, memory.bytes, memory.flatGenerations
    ensures hle.Valid() && memory.Valid() && Placement.Placed(memory.Image(), hle.exports)
    ensures end.Done? ==> loaded == p.state.loaded && trampolines == p.state.trampolines &&
                          Completes(BindingsOf(hle), Start(info, sections), WindowsAt(hle.dataBegin), entries, p)
    ensures end.NoSymbol? ==> LacksSymbol(hle, Start(info, sections), WindowsAt(hle.dataBegin), entries, p)
    ensures end.NoPatch? ==> StopsAt(BindingsOf(hle), Start(info, sections), WindowsAt(hle.dataBegin), entries, p)
    ensures end.NoSymbol? <==>
            exists q :: LacksSymbol(hle, Start(info, sections), WindowsAt(hle.dataBegin), entries, q)
    ensures end.NoPatch? <==>
            exists q :: StopsAt(BindingsOf(hle), Start(info, sections), WindowsAt(hle.dataBegin), entries, q)
  {
    hide *;
    WindowsAtOrdered(hle.dataBegin);
    var linker := new RpxLinker(info, sections, WindowsAt(hle.dataBegin));
    end, p := LinkEntries(hle, memory, linker, entries);
    loaded, trampolines := linker.loaded, linker.trampolines;
    LinkerParts(linker);
  }

  lemma WindowsAtOrdered(base: nat)
    ensures WindowsOrdered(WindowsAt(base))
  {
  }

  /**
   * When a branch in the text that is out of reach of S + A is rejected, in any state of a run: exactly
   * when its AA bit is set, or every slot of the reservation that could serve it was passed.
   */
  lemma BranchRejectedIff(info: FileInfo, sections: seq<LoadedSection>, windows: Windows, done: seq<Relocation>,
                          now: LinkState, r: Relocation, begin: nat, end: nat)
    requires WindowsOrdered(windows) && LinkedBy(Start(info, sections), windows, done) == Some(now)
    requires InSection(sections, r) && r.kind.Relative24? && r.site % 4 == 0 && r.value % 4 == 0
    requires !InRel24Range(r.value - r.site)
    requires TextHull(sections, begin, end) && ReservationFits(info, begin, end) && begin <= r.site <= end
    ensures InSection(now.loaded, r)
    ensures var s := ReservedSlots(info, sections);
            && Reserves(s, info, begin, end)
            && (EntryRejected(now, windows, r) <==>
                || And(BigEndianWord(BytesAt(now.loaded, r)), 2) != 0
                || forall a: nat ::
                     ((SlotAbove(s, a) || SlotBelow(s, a)) &&
                      Serves(a, r.site, now.loaded, now.trampolines, windows)) ==> Passed(s, now.slots, a))
  {
    hide *;
    var s, first := ReservedSlots(info, sections), Start(info, sections);
    StartIs(info, sections, windows);
    LinkedKeeps(first, windows, done);
    FollowsParts(first, now, windows);
    ReadyParts(now, windows);
    InExtents(sections, now.loaded, r);
    ReservedMeans(info, sections, begin, end);
    ReservedEnds(s, info, begin, end);
    TakeMeans(now.slots, r.site, now.loaded, now.trampolines, windows);
    TakenParts(now.slots, Take(now.slots, r.site, now.loaded, now.trampolines, windows), r.site, now.loaded,
               now.trampolines, windows);
    RefusedIffPassed(s, now.slots, r.site, now.loaded, now.trampolines, windows);
    RejectedCases(now, windows, r);
  }

  /**
   * Why the load stopped at an aligned branch in the text: S + A is out of reach, and AA is set or every
   * slot of the reservation that could serve the branch was passed by an earlier one.
   */
  lemma RejectedBranch(b: Bindings, info: FileInfo, sections: seq<LoadedSection>, windows: Windows,
                       entries: seq<Entry>, p: Progress, r: Relocation, begin: nat, end: nat)
    requires WindowsOrdered(windows) && StopsAt(b, Start(info, sections), windows, entries, p)
    requires r == p.own[p.at] && InSection(sections, r) && r.kind.Relative24?
    requires TextHull(sections, begin, end) && ReservationFits(info, begin, end) && begin <= r.site <= end
    requires r.site % 4 == 0 && r.value % 4 == 0
    ensures !InRel24Range(r.value - r.site) && InSection(p.state.loaded, r)
    ensures var s := ReservedSlots(info, sections);
            && Reserves(s, info, begin, end)
            && (|| And(BigEndianWord(BytesAt(p.state.loaded, r)), 2) != 0
                || forall a: nat ::
                     ((SlotAbove(s, a) || SlotBelow(s, a)) &&
                      Serves(a, r.site, p.state.loaded, p.state.trampolines, windows)) ==>
                       Passed(s, p.state.slots, a))
  {
    hide *;
    var first := Start(info, sections);
    StartIs(info, sections, windows);
    StopsParts(b, first, windows, entries, p);
    LinkedKeeps(first, windows, p.done + p.own[..p.at]);
    FollowsParts(first, p.state, windows);
    InExtents(sections, p.state.loaded, r);
    RejectedCases(p.state, windows, r);
    BranchRejectedIff(info, sections, windows, p.done + p.own[..p.at], p.state, r, begin, end);
  }

  /** Sections, then trampolines, then the heap. */
  method PlaceImage(memory: GuestMemory, loaded: seq<LoadedSection>, trampolines: seq<LoadedSection>,
                    ghost exports: seq<LoadedSection>, dataBegin: Word)
    returns (heap: Range, swept: bool, ghost top: nat)
    requires memory.Valid() && Placement.Placed(memory.Image(), exports)
    requires AllApart(exports + Nonempty(loaded)) && AllApart(exports + Nonempty(loaded) + Nonempty(trampolines))
    requires AllFit(loaded) && AllFit(trampolines)
    modifies memory, memory.bytes, memory.flatGenerations
    ensures memory.Valid()
    ensures Placement.Placed(memory.Image(), exports + Nonempty(loaded) + Nonempty(trampolines))
    ensures ImageTop(loaded + trampolines, memory.bytes.Length, 0, top)
    ensures HeapChoice(loaded, trampolines, dataBegin, memory.bytes.Length, FirstPage(top), heap, swept)
    ensures PageAbove(top, FirstPage(top))
  {
    hide Placement.Placed, WellFormed, PageGenerations.Covers, AllApart, AllFit, ImageTop, FirstPage, HeapChoice,
         PageAbove;
    SizeFits(memory.Image());
    var placed, highest := PlaceAll(memory, loaded, exports, 0);
    ghost var below := highest;
    placed, highest := PlaceAll(memory, trampolines, exports + Nonempty(loaded), highest);
    TopsJoin(loaded, trampolines, memory.bytes.Length, 0, below, highest);
    top := highest;
    heap, swept := PlaceHeap(loaded, trampolines, dataBegin, memory.bytes.Length, highest);
  }

  lemma SizeFits(m: Memory)
    requires WellFormed(m)
    ensures |m.flat| <= ADDRESS_SPACE_END
  {
  }

  /**
   * The load after inflation. Every section and trampoline reads back from guest memory as computed,
   * every bound data export still holds its initial bytes, no mapping or write is refused after the
   * checks, and the configured heap is clear of all of it.
   */
  method LoadRpx(hle: HleDispatcher, memory: GuestMemory, sections: seq<LoadedSection>, entries: seq<Entry>,
                 info: FileInfo)
    returns (result: LoadResult, swept: bool, ghost p: Progress, ghost top: nat)
    requires hle.Fresh() && memory.Valid() && memory.regions == [] && memory.aliases == []
    requires SectionsFit(sections)
    modifies hle, memory, memory.bytes, memory.flatGenerations
    ensures hle.Valid()
    ensures result.Loaded? ==>
              && memory.Valid()
              && LoadedImage(memory.Image(), hle.exports, sections, result, p.done, hle.dataBegin, info)
              && AllRelocated(BindingsOf(hle), Live(sections, entries), p.done)
              && EntriesLinked(hle, sections, entries, p.done)
              && HeapChoice(result.sections, result.trampolines, hle.dataBegin,
                            memory.bytes.Length, FirstPage(top), result.heap, swept)
              && PageAbove(top, FirstPage(top))
              && ImageTop(result.sections + result.trampolines, memory.bytes.Length, 0, top)
    ensures result == Rejected(SectionsOverlap) <==> !SectionsDisjoint(sections)
    ensures result != Rejected(SectionsOverlap) ==>
              WindowsChosen(sections, memory.bytes.Length, old(hle.dataBegin), hle.dataBegin)
    ensures result == Rejected(WindowsTaken) <==>
              SectionsDisjoint(sections) && !WindowsClear(sections, hle.dataBegin)
    ensures result == Rejected(Unresolved) <==>
              && SectionsDisjoint(sections) && WindowsClear(sections, hle.dataBegin)
              && exists q :: LacksSymbol(hle, Start(info, sections), WindowsAt(hle.dataBegin), entries, q)
    ensures result == Rejected(BadRelocation) <==>
              && SectionsDisjoint(sections) && WindowsClear(sections, hle.dataBegin)
              && exists q :: StopsAt(BindingsOf(hle), Start(info, sections), WindowsAt(hle.dataBegin), entries, q)
    ensures result == Rejected(BadRelocation) ==>
              StopsAt(BindingsOf(hle), Start(info, sections), WindowsAt(hle.dataBegin), entries, p)
  {
    hide Placement.Placed, AllApart, ImportTable, DataTable, ExportsRegistered, WellFormed, PageGenerations.Covers,
         WindowsClear, SectionsDisjoint, HeapChoice, SectionsFit, AllFit, AllRelocated, FirstPage, ImageTop,
         WindowsChosen, LacksSymbol, StopsAt, Completes, LoadedImage, Start, WindowsOrdered, EntriesLinked, Live;
    WindowsAlwaysOrdered();
    p, swept, top := Progress(0, [], [], 0, LinkState(sections, [], NO_SLOTS)), true, 0;
    FreshPlaced(memory.Image());
    var ok, reason := CheckImage(hle, sections, memory.bytes.Length);
    result := Rejected(reason);
    if !ok { return; }
    var end, loaded, trampolines;
    end, loaded, trampolines, p := LinkImage(hle, memory, sections, entries, info);
    result := Rejected(Unresolved);
    if end.NoSymbol? { return; }
    result := Rejected(BadRelocation);
    if end.NoPatch? { return; }
    DataInWindow(hle.dataExports, hle.dataAddresses, hle.exports, hle.dataBegin, hle.nextData, hle.dataEnd);
    CompleteApart(BindingsOf(hle), hle.exports, info, sections, hle.dataBegin, entries, p);
    var heap;
    heap, swept, top := PlaceImage(memory, loaded, trampolines, hle.exports, hle.dataBegin);
    result := Loaded(loaded, trampolines, heap);
    LoadedMeans(BindingsOf(hle), memory.Image(), hle.exports, info, sections, hle.dataBegin, entries, p, result);
    RelocatedMeaning(hle, sections, entries, p.done);
  }

  lemma WindowsAlwaysOrdered()
    ensures forall base: nat :: WindowsOrdered(WindowsAt(base))
  {
  }

  /** A completely linked image can be placed. */
  lemma CompleteApart(b: Bindings, exports: seq<LoadedSection>, info: FileInfo, sections: seq<LoadedSection>,
                      base: Word, entries: seq<Entry>, p: Progress)
    requires SectionsDisjoint(sections) && WindowsClear(sections, base) && SectionsFit(sections)
    requires ExportsInWindow(exports, base) && WindowsOrdered(WindowsAt(base))
    requires Completes(b, Start(info, sections), WindowsAt(base), entries, p)
    ensures WindowsClear(p.state.loaded, base) && AllFit(p.state.loaded) && AllFit(p.state.trampolines)
    ensures AllApart(exports + Nonempty(p.state.loaded))
    ensures AllApart(exports + Nonempty(p.state.loaded) + Nonempty(p.state.trampolines))
  {
    hide *;
    CompleteMeans(b, info, sections, WindowsAt(base), entries, p);
    var reservation := Range(p.state.slots.low, p.state.slots.high);
    LinkedApart(exports, sections, p.state.loaded, p.state.trampolines, base, reservation, p.done);
    ImageApart(exports, p.state.loaded, p.state.trampolines, base, reservation);
  }

  lemma LoadedMeans(b: Bindings, m: Memory, exports: seq<LoadedSection>, info: FileInfo,
                    sections: seq<LoadedSection>, base: Word, entries: seq<Entry>, p: Progress, result: LoadResult)
    requires WindowsOrdered(WindowsAt(base))
    requires Completes(b, Start(info, sections), WindowsAt(base), entries, p)
    requires result.Loaded? && result.sections == p.state.loaded && result.trampolines == p.state.trampolines
    requires Placement.Placed(m, exports + Nonempty(result.sections) + Nonempty(result.trampolines))
    requires AllApart(exports + Nonempty(result.sections) + Nonempty(result.trampolines))
    requires WindowsClear(result.sections, base)
    ensures LoadedImage(m, exports, sections, result, p.done, base, info)
    ensures AllRelocated(b, Live(sections, entries), p.done)
  {
    CompleteMeans(b, info, sections, WindowsAt(base), entries, p);
    hide Completes, Placement.Placed, AllApart, WindowsClear, OthersUntouched, AllEncoded, TrampolinesPlaced,
         InReservation, LinkedBy, Start, AllRelocated, Live, Nonempty;
    assert LinkedBy(Start(info, sections), WindowsAt(base), p.done) ==
           Some(LinkState(result.sections, result.trampolines, p.state.slots));
  }


  lemma FreshPlaced(m: Memory)
    requires WellFormed(m) && m.regions == [] && m.aliases == []
    ensures Placement.Placed(m, []) && |m.flat| <= ADDRESS_SPACE_END
  {
  }

  lemma DataInWindow(registered: map<Name, DataExport>, addresses: map<Name, Word>, blocks: seq<LoadedSection>,
                     begin: Word, next: Word, end: Word)
    requires DataTable(registered, addresses, blocks, begin, next, end) && end == begin + WINDOW
    ensures ExportsInWindow(blocks, begin)
  {
  }

  /** Relocation keeps extents, so the checks made before it still hold of the relocated image. */
  lemma LinkedApart(exports: seq<LoadedSection>, sections: seq<LoadedSection>, loaded: seq<LoadedSection>,
                    trampolines: seq<LoadedSection>, base: nat, reservation: Range, rs: seq<Relocation>)
    requires SectionsDisjoint(sections) && WindowsClear(sections, base) && SectionsFit(sections)
    requires OthersUntouched(sections, loaded, rs)
    requires TrampolinesPlaced(loaded, trampolines, WindowsAt(base), reservation)
    ensures SectionsDisjoint(loaded) && WindowsClear(loaded, base) && AllFit(loaded) && AllFit(trampolines)
  {
    forall i, j | 0 <= i < j < |loaded| && loaded[j].contents != []
      ensures !SectionOverlaps(loaded[i], loaded[j].address, |loaded[j].contents|)
    {
      assert !SectionOverlaps(sections[i], sections[j].address, |sections[j].contents|);
    }
    forall i | 0 <= i < |loaded|
      ensures !SectionOverlaps(loaded[i], base, WINDOW) && !SectionOverlaps(loaded[i], base + WINDOW, WINDOW)
    {
      assert !SectionOverlaps(sections[i], base, WINDOW) && !SectionOverlaps(sections[i], base + WINDOW, WINDOW);
    }
  }
}
