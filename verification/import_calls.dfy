/** What the loaded image does with its imports: calls reach them, slots hold them, exports are in memory. */
module ImportCalls {
  import opened Bits
  import opened MemoryImage
  import opened RpxImage
  import opened BranchEncoding
  import opened Trampolines
  import opened RpxLinker
  import opened Placement
  import opened HleDispatcherModel
  import opened RpxLoader
  import opened LinkedExecution

  /** What a load leaves behind, and its relocations in terms of the dispatcher. */
  ghost predicate LoadedWith(hle: HleDispatcher, m: Memory, original: seq<LoadedSection>, result: LoadResult,
                             entries: seq<Entry>, rs: seq<Relocation>, info: FileInfo)
    reads hle
  {
    && LoadedImage(m, hle.exports, original, result, rs, hle.dataBegin, info)
    && EntriesLinked(hle, original, entries, rs)
  }

  /** The place of an entry's own relocation; the fill of its import slot comes just before it. */
  ghost function OwnIndex(sections: seq<LoadedSection>, entries: seq<Entry>, k: nat): int
    requires k < |entries|
  {
    RelocationCount(sections, entries[..k + 1]) - 1
  }

  /** A call that the file makes of an import, unpatched otherwise: a relative branch to its symbol. */
  ghost predicate ImportCall(hle: HleDispatcher, original: seq<LoadedSection>, entries: seq<Entry>,
                             rs: seq<Relocation>, info: FileInfo, k: nat)
    reads hle
  {
    && k < |entries| && TakesPart(original, entries[k])
    && (entries[k].symbol.FunctionImport? || entries[k].symbol.WeakFunction?)
    && entries[k].kind.Relative24? && entries[k].addend == 0
    && var j := OwnIndex(original, entries, k);
    && 0 <= j < |rs| && LastPatch(rs, j) && InSection(original, rs[j])
    && IsBranch(WordBefore(info, original, hle.dataBegin, rs, j))
    && And(WordBefore(info, original, hle.dataBegin, rs, j), 2) == 0
  }

  /**
   * A guest that runs a relocated call of an imported function arrives, in one step or through a trampoline in
   * five, at an address under which the dispatcher has bound exactly that import.
   */
  lemma ImportCallArrives(hle: HleDispatcher, m: Memory, original: seq<LoadedSection>, result: LoadResult,
                          entries: seq<Entry>, rs: seq<Relocation>, info: FileInfo, k: nat, cpu: Cpu)
    returns (target: Word)
    requires LoadedWith(hle, m, original, result, entries, rs, info)
    requires ImportCall(hle, original, entries, rs, info, k) && ValidCpu(cpu) && cpu.cia == entries[k].site
    ensures WellFormed(m) && target in hle.boundImports && hle.boundImports[target] == entries[k].symbol.name
    ensures var links := And(WordBefore(info, original, hle.dataBegin, rs, OwnIndex(original, entries, k)), 1) != 0;
            var arrived := cpu.(lr := if links then ToWord(cpu.cia + 4) else cpu.lr, cia := target);
            || LinkedExecution.Steps(m, cpu, 1) == arrived
            || LinkedExecution.Steps(m, cpu, 5) == arrived.(gpr := cpu.gpr[11 := target], ctr := target)
  {
    hide *;
    LoadedWithParts(hle, m, original, result, entries, rs, info);
    target := CallTarget(hle, original, entries, rs, info, k);
    LoadedBranchArrives(m, hle.exports, original, result, rs, hle.dataBegin, info, OwnIndex(original, entries, k), cpu);
  }

  lemma LoadedWithParts(hle: HleDispatcher, m: Memory, original: seq<LoadedSection>, result: LoadResult,
                        entries: seq<Entry>, rs: seq<Relocation>, info: FileInfo)
    requires LoadedWith(hle, m, original, result, entries, rs, info)
    ensures LoadedImage(m, hle.exports, original, result, rs, hle.dataBegin, info)
    ensures EntriesLinked(hle, original, entries, rs)
  {
    hide LoadedImage, EntriesLinked;
  }

  lemma CallTarget(hle: HleDispatcher, original: seq<LoadedSection>, entries: seq<Entry>, rs: seq<Relocation>,
                   info: FileInfo, k: nat) returns (target: Word)
    requires EntriesLinked(hle, original, entries, rs) && ImportCall(hle, original, entries, rs, info, k)
    ensures k < |entries| && !entries[k].symbol.Defined?
    ensures target in hle.boundImports && hle.boundImports[target] == entries[k].symbol.name
    ensures var j := OwnIndex(original, entries, k);
            && 0 <= j < |rs| && rs[j].value == target && rs[j].site == entries[k].site && rs[j].kind.Relative24?
            && LastPatch(rs, j) && InSection(original, rs[j])
            && IsBranch(WordBefore(info, original, hle.dataBegin, rs, j))
            && And(WordBefore(info, original, hle.dataBegin, rs, j), 2) == 0
  {
    hide LastPatch, InSection, IsBranch, WordBefore, And, RelocationCount, FillsSlot, TakesPart;
    assert EntryLinked(hle, original, entries, rs, k);
    var s: Word :| Resolves(hle, entries[k].symbol, s) &&
                   rs[OwnIndex(original, entries, k)].value == (s + entries[k].addend) % 0x1_0000_0000;
    target := s;
  }

  /** The slot of an import in guest memory holds the address that the import is bound to. */
  lemma SlotHolds(hle: HleDispatcher, m: Memory, original: seq<LoadedSection>, result: LoadResult,
                  entries: seq<Entry>, rs: seq<Relocation>, info: FileInfo, k: nat) returns (address: Word)
    requires LoadedWith(hle, m, original, result, entries, rs, info) && k < |entries| && Slotted(entries[k].symbol)
    requires TakesPart(original, entries[k])
    requires var j := OwnIndex(original, entries, k);
             1 <= j <= |rs| ==> LastPatch(rs, j - 1) && InSection(original, rs[j - 1])
    ensures BoundTo(hle, entries[k].symbol, address)
    ensures WellFormed(m) && MappedRange(m, entries[k].symbol.slot, 4) && WordAt(m, entries[k].symbol.slot) == address
  {
    hide *;
    LoadedWithParts(hle, m, original, result, entries, rs, info);
    var i := SlotFilled(hle, original, entries, rs, k);
    address := rs[i].value;
    var reservation := LoadedParts(m, hle.exports, original, result, rs, hle.dataBegin, info);
    WordEncoded(info, original, hle.dataBegin, rs, i, result.sections, result.trampolines);
    SectionNotEmpty(result.sections, rs[i]);
    BlockReadsBack(m, hle.exports, result.sections, Nonempty(result.trampolines), rs[i].section);
    WordInBlock(m, result.sections, rs[i]);
  }

  lemma SlotFilled(hle: HleDispatcher, original: seq<LoadedSection>, entries: seq<Entry>, rs: seq<Relocation>, k: nat)
    returns (i: nat)
    requires EntriesLinked(hle, original, entries, rs) && k < |entries| && Slotted(entries[k].symbol)
    requires TakesPart(original, entries[k])
    ensures i + 1 == OwnIndex(original, entries, k) && i + 1 < |rs| && !entries[k].symbol.Defined?
    ensures rs[i].kind.Address32? && rs[i].site == entries[k].symbol.slot
    ensures BoundTo(hle, entries[k].symbol, rs[i].value)
  {
    hide RelocationCount, BoundTo, Resolves, TakesPart;
    assert EntryLinked(hle, original, entries, rs, k);
    i := OwnIndex(original, entries, k) - 1;
  }

  lemma WordEncoded(info: FileInfo, original: seq<LoadedSection>, dataBegin: Word, rs: seq<Relocation>, i: nat,
                    loaded: seq<LoadedSection>, trampolines: seq<LoadedSection>)
    requires WindowsOrdered(WindowsAt(dataBegin))
    requires AllEncoded(Start(info, original), WindowsAt(dataBegin), rs, loaded, trampolines)
    requires i < |rs| && LastPatch(rs, i) && InSection(original, rs[i]) && rs[i].kind.Address32?
    ensures InSection(loaded, rs[i]) && BytesAt(loaded, rs[i]) == BytesOf(rs[i].value, 4)
  {
    hide LastPatch, InSection, BytesBefore, BytesAt, ReservedSlots, BytesOf;
    assert EntryEncoded(Start(info, original), WindowsAt(dataBegin), rs, i, loaded, trampolines);
  }

  lemma WordInBlock(m: Memory, loaded: seq<LoadedSection>, r: Relocation)
    requires InSection(loaded, r) && r.kind.Address32? && BytesAt(loaded, r) == BytesOf(r.value, 4)
    requires WellFormed(m) && ReadsBack(m, loaded[r.section])
    ensures MappedRange(m, r.site, 4) && WordAt(m, r.site) == r.value
  {
    hide WellFormed, ReadsBack, BytesOf, WordAt, MappedRange;
    BlockWord(m, loaded[r.section], r.site, r.value);
  }

  /** A bound data export holds its initial bytes at the address that relocations use for it. */
  lemma ExportHolds(hle: HleDispatcher, m: Memory, original: seq<LoadedSection>, result: LoadResult,
                    entries: seq<Entry>, rs: seq<Relocation>, info: FileInfo, n: Name, address: Word)
    requires LoadedWith(hle, m, original, result, entries, rs, info) && HoldsExport(hle, n, address)
    ensures WellFormed(m) && n in hle.dataExports && MappedRange(m, address, |hle.dataExports[n].image|)
    ensures LoadBytes(m, address, |hle.dataExports[n].image|) == hle.dataExports[n].image
  {
    hide *;
    LoadedWithParts(hle, m, original, result, entries, rs, info);
    var reservation := LoadedParts(m, hle.exports, original, result, rs, hle.dataBegin, info);
    ExportIsBlock(hle, m, n, address, Nonempty(result.sections) + Nonempty(result.trampolines),
                  hle.exports + Nonempty(result.sections) + Nonempty(result.trampolines));
  }

  lemma ExportIsBlock(hle: HleDispatcher, m: Memory, n: Name, address: Word, rest: seq<LoadedSection>,
                      all: seq<LoadedSection>)
    requires HoldsExport(hle, n, address) && Holds(m, all) && all == hle.exports + rest
    ensures WellFormed(m) && n in hle.dataExports && MappedRange(m, address, |hle.dataExports[n].image|)
    ensures LoadBytes(m, address, |hle.dataExports[n].image|) == hle.dataExports[n].image
  {
    hide WellFormed, MappedRange, LoadBytes;
    var i :| 0 <= i < |hle.exports| && hle.exports[i] == LoadedSection(address, false, hle.dataExports[n].image);
    assert all[i] == hle.exports[i];
    HeldBlock(m, all, i);
  }
}
