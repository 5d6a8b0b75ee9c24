/**
 * Stores that stay inside some spans of guest addresses. `Keeps` says that every mapped span that shares no
 * cell with the given extents keeps its bytes; it composes over sequences of stores, and is how the stores
 * of one object are shown to leave all others alone.
 */
module Extents {
  import opened Bits
  import opened MemoryImage
  import opened GuestObjects

  datatype Extent = Extent(address: nat, size: nat)

  ghost predicate Sep(m: Memory, e: Extent, f: Extent) { Separate(m, e.address, e.size, f.address, f.size) }

  ghost predicate Inside(m: Memory, e: Extent) { MappedRange(m, e.address, e.size) }

  ghost predicate ApartFromAll(m: Memory, fs: seq<Extent>, e: Extent) {
    forall i :: 0 <= i < |fs| ==> Sep(m, fs[i], e)
  }

  ghost predicate Kept(m: Memory, n: Memory, e: Extent) { SpanKept(m, n, e.address, e.size) }

  /** Only cells under the extents change. */
  ghost predicate Keeps(m: Memory, n: Memory, fs: seq<Extent>) {
    && SameLayout(m, n) && WellFormed(m) && WellFormed(n)
    && forall e :: Inside(m, e) && ApartFromAll(m, fs, e) ==> Kept(m, n, e)
  }

  lemma KeepsChain(m: Memory, n: Memory, u: Memory, fs: seq<Extent>)
    requires Keeps(m, n, fs) && Keeps(n, u, fs)
    ensures Keeps(m, u, fs)
  {
    LayoutChain(m, n, u);
    hide WellFormed, CellOf, Mapped, MappedRange, SameLayout, LoadBytes, Separate;
    forall e | Inside(m, e) && ApartFromAll(m, fs, e) ensures Kept(m, u, e) {
      SameSep(m, n, fs, e);
      assert Kept(m, n, e) && Kept(n, u, e);
      SpanChain(m, n, u, e.address, e.size);
    }
  }

  lemma SameSep(m: Memory, n: Memory, fs: seq<Extent>, e: Extent)
    requires WellFormed(m) && SameLayout(m, n)
    ensures Inside(n, e) == Inside(m, e) && ApartFromAll(n, fs, e) == ApartFromAll(m, fs, e)
    ensures forall f :: Sep(n, f, e) == Sep(m, f, e) && Sep(n, e, f) == Sep(m, e, f)
  {
    hide WellFormed, CellOf, Mapped, SameLayout;
    SameCells(m, n);
  }

  lemma KeepsMore(m: Memory, n: Memory, fs: seq<Extent>, gs: seq<Extent>)
    requires Keeps(m, n, fs) && forall i :: 0 <= i < |fs| ==> fs[i] in gs
    ensures Keeps(m, n, gs)
  {
    hide WellFormed, CellOf, Mapped, SameLayout, LoadBytes, Separate, MappedRange;
    forall e | Inside(m, e) && ApartFromAll(m, gs, e) ensures Kept(m, n, e) {
      forall i | 0 <= i < |fs| ensures Sep(m, fs[i], e) {
        var j :| 0 <= j < |gs| && gs[j] == fs[i];
      }
    }
  }

  /** A store of bytes inside one of the extents. */
  lemma KeepsStore(m: Memory, f: Extent, o: nat, bs: seq<Byte>)
    requires WellFormed(m) && Inside(m, f) && o + |bs| <= f.size && MappedRange(m, f.address + o, |bs|)
    ensures Keeps(m, StoreBytes(m, f.address + o, bs), [f])
  {
    var n := StoreBytes(m, f.address + o, bs);
    assert WellFormed(n) && SameLayout(m, n);
    forall e | Inside(m, e) && ApartFromAll(m, [f], e) ensures Kept(m, n, e) {
      KeptByStore(m, f, o, bs, e);
    }
    hide WellFormed, CellOf, Mapped, MappedRange, SameLayout, LoadBytes, Separate, StoreBytes, Inside, ApartFromAll,
         Kept, Sep;
  }

  lemma KeptByStore(m: Memory, f: Extent, o: nat, bs: seq<Byte>, e: Extent)
    requires WellFormed(m) && Inside(m, f) && o + |bs| <= f.size && MappedRange(m, f.address + o, |bs|)
    requires Inside(m, e) && ApartFromAll(m, [f], e)
    ensures Kept(m, StoreBytes(m, f.address + o, bs), e)
  {
    hide WellFormed, CellOf, Mapped, MappedRange, SameLayout, LoadBytes, Separate, StoreBytes, SpanKept, ApartFromAll;
    ApartFromOne(m, f, e);
    BytesKept(m, f.address, f.size, o, bs, e.address, e.size);
  }

  lemma ApartFromOne(m: Memory, f: Extent, e: Extent)
    ensures ApartFromAll(m, [f], e) <==> Sep(m, f, e)
  {
    hide Sep;
    assert [f][0] == f;
  }
}
