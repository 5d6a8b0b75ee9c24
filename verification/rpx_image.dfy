/** Loaded sections and the address ranges they occupy. */
module RpxImage {
  import opened Bits

  const METADATA_BASE: nat := 0xC000_0000

  datatype LoadedSection = LoadedSection(address: Word, executable: bool, contents: seq<Byte>)

  /** A half-open range of guest addresses. */
  datatype Range = Range(begin: nat, end: nat)

  predicate RangesOverlap(address: nat, size: nat, otherAddress: nat, otherSize: nat) {
    address < otherAddress + otherSize && otherAddress < address + size
  }

  predicate SectionOverlaps(s: LoadedSection, address: nat, size: nat) {
    s.contents != [] && RangesOverlap(s.address, |s.contents|, address, size)
  }

  /** No nonempty section meets the range. */
  ghost predicate FreeOfSections(sections: seq<LoadedSection>, address: nat, size: nat) {
    forall i :: 0 <= i < |sections| ==> !SectionOverlaps(sections[i], address, size)
  }

  ghost predicate SectionsFit(sections: seq<LoadedSection>) {
    forall i :: 0 <= i < |sections| ==> sections[i].address + |sections[i].contents| <= ADDRESS_SPACE_END
  }

  ghost predicate SectionsDisjoint(sections: seq<LoadedSection>) {
    forall i, j :: 0 <= i < j < |sections| && sections[j].contents != [] ==>
      !SectionOverlaps(sections[i], sections[j].address, |sections[j].contents|)
  }

  predicate Between(x: nat, begin: nat, size: nat) { begin <= x < begin + size }

  predicate Contains(s: LoadedSection, x: nat) { Between(x, s.address, |s.contents|) }

  /** Two nonempty ranges overlap exactly when they share an address. */
  lemma OverlapMeans(address: nat, size: nat, otherAddress: nat, otherSize: nat)
    requires size > 0 && otherSize > 0
    ensures RangesOverlap(address, size, otherAddress, otherSize) <==>
            exists x: nat :: Between(x, address, size) && Between(x, otherAddress, otherSize)
  {
    if RangesOverlap(address, size, otherAddress, otherSize) {
      var x: nat := Max(address, otherAddress);
      assert Between(x, address, size) && Between(x, otherAddress, otherSize);
    }
  }

  lemma PairMeans(s: LoadedSection, address: nat, size: nat)
    requires size > 0
    ensures SectionOverlaps(s, address, size) <==> exists x: nat :: Between(x, address, size) && Contains(s, x)
  {
    if s.contents != [] {
      OverlapMeans(s.address, |s.contents|, address, size);
      if x: nat :| Between(x, s.address, |s.contents|) && Between(x, address, size) { assert Contains(s, x); }
    }
  }

  /** Sections are disjoint exactly when no address lies in two of them. */
  lemma DisjointMeans(sections: seq<LoadedSection>)
    ensures SectionsDisjoint(sections) <==>
            forall i, j, x: nat :: 0 <= i < j < |sections| && Contains(sections[i], x) ==> !Contains(sections[j], x)
  {
    forall i, j | 0 <= i < j < |sections| && sections[j].contents != []
      ensures SectionOverlaps(sections[i], sections[j].address, |sections[j].contents|) <==>
              exists x: nat :: Contains(sections[j], x) && Contains(sections[i], x)
    {
      PairMeans(sections[i], sections[j].address, |sections[j].contents|);
      if x: nat :| Between(x, sections[j].address, |sections[j].contents|) && Contains(sections[i], x) {
        assert Contains(sections[j], x);
      }
    }
    hide SectionOverlaps;
  }

  /** A range is free exactly when none of its addresses lies in a section. */
  lemma FreeMeans(sections: seq<LoadedSection>, address: nat, size: nat)
    requires size > 0
    ensures FreeOfSections(sections, address, size) <==>
            forall i, x: nat :: 0 <= i < |sections| && Between(x, address, size) ==> !Contains(sections[i], x)
  {
    forall i | 0 <= i < |sections|
      ensures SectionOverlaps(sections[i], address, size) <==>
              exists x: nat :: Between(x, address, size) && Contains(sections[i], x)
    {
      PairMeans(sections[i], address, size);
    }
    hide SectionOverlaps, Contains, Between;
  }

  /** `std::any_of` over the sections with the overlap test. */
  method AnySectionOverlaps(sections: seq<LoadedSection>, address: nat, size: nat) returns (found: bool)
    ensures found <==> !FreeOfSections(sections, address, size)
  {
    for i := 0 to |sections|
      invariant forall j :: 0 <= j < i ==> !SectionOverlaps(sections[j], address, size)
    {
      if SectionOverlaps(sections[i], address, size) { return true; }
    }
    return false;
  }

  /** The pairwise overlap check of the loader. */
  method CheckSectionsDisjoint(sections: seq<LoadedSection>) returns (ok: bool)
    ensures ok <==> SectionsDisjoint(sections)
  {
    for i := 0 to |sections|
      invariant forall a, b :: 0 <= a < b < |sections| && a < i && sections[b].contents != [] ==>
                  !SectionOverlaps(sections[a], sections[b].address, |sections[b].contents|)
    {
      if sections[i].contents != [] {
        for j := i + 1 to |sections|
          invariant forall b :: i < b < j && sections[b].contents != [] ==>
                      !SectionOverlaps(sections[i], sections[b].address, |sections[b].contents|)
        {
          if sections[j].contents != [] &&
             sections[i].address < sections[j].address + |sections[j].contents| &&
             sections[j].address < sections[i].address + |sections[i].contents| {
            assert SectionOverlaps(sections[i], sections[j].address, |sections[j].contents|);
            return false;
          }
        }
      }
    }
    return true;
  }
}
