/** The choice of the guest heap: the gap after the image if it is free, else the longest free gap. */
module HeapGap {
  import opened Bits
  import opened RpxImage

  const HEAP_BASE: nat := 0x1000
  const RESERVE: nat := 0x1_0000

  function HeapLimit(memorySize: nat): nat {
    if memorySize > RESERVE then memorySize - RESERVE else 0
  }

  /** The lexicographic order of address pairs. */
  predicate AtMost(a: Range, b: Range) {
    a.begin < b.begin || (a.begin == b.begin && a.end <= b.end)
  }

  ghost predicate Sorted(rs: seq<Range>) {
    forall i, j :: 0 <= i < j < |rs| ==> AtMost(rs[i], rs[j])
  }

  /** The interval meets none of the ranges. */
  ghost predicate Clear(rs: seq<Range>, begin: nat, end: nat) {
    forall i :: 0 <= i < |rs| ==> end <= rs[i].begin || rs[i].end <= begin
  }

  /** A candidate heap: nonempty, 16-byte aligned, inside the flat window, clear of every range. */
  ghost predicate FreeGap(rs: seq<Range>, limit: nat, begin: nat, end: nat) {
    HEAP_BASE <= begin < end <= limit && begin % 16 == 0 && end % 16 == 0 && Clear(rs, begin, end)
  }

  /** The gap is no longer than the selected one, and starts no lower if it is as long. */
  ghost predicate NoBetter(selected: Range, begin: nat, end: nat) {
    && end - begin <= selected.end - selected.begin
    && (end - begin == selected.end - selected.begin ==> selected.begin <= begin)
  }

  /** The lowest of the longest free gaps. */
  ghost predicate Longest(rs: seq<Range>, limit: nat, selected: Range) {
    forall b: nat, e: nat :: FreeGap(rs, limit, b, e) ==> NoBetter(selected, b, e)
  }

  ghost predicate Within(rs: seq<Range>, limit: nat) {
    forall i :: 0 <= i < |rs| ==> HEAP_BASE <= rs[i].begin < rs[i].end <= limit
  }

  /** Clips a block to the heap window; blocks outside it are dropped. */
  function AddOccupied(rs: seq<Range>, limit: nat, address: nat, size: nat): seq<Range> {
    var begin, end := Max(address, HEAP_BASE), Min(address + size, limit);
    if begin < end then rs + [Range(begin, end)] else rs
  }

  /** Clipping loses nothing: clear of the clipped ranges is clear of the blocks. */
  lemma AddOccupiedMeans(rs: seq<Range>, limit: nat, address: nat, size: nat)
    requires Within(rs, limit)
    ensures Within(AddOccupied(rs, limit, address, size), limit)
    ensures forall b: nat, e: nat :: HEAP_BASE <= b < e <= limit && size > 0 ==>
              (Clear(AddOccupied(rs, limit, address, size), b, e) <==>
               Clear(rs, b, e) && (e <= address || address + size <= b))
  {
    var more := AddOccupied(rs, limit, address, size);
    forall b: nat, e: nat | HEAP_BASE <= b < e <= limit && size > 0
      ensures Clear(more, b, e) <==> Clear(rs, b, e) && (e <= address || address + size <= b)
    {
      if Clear(more, b, e) {
        assert forall i :: 0 <= i < |rs| ==> more[i] == rs[i];
        assert |more| > |rs| ==> more[|rs|] == Range(Max(address, HEAP_BASE), Min(address + size, limit));
      }
    }
  }

  method InsertRange(s: seq<Range>, r: Range) returns (t: seq<Range>)
    requires Sorted(s)
    ensures Sorted(t) && multiset(t) == multiset(s) + multiset{r}
  {
    var i := |s|;
    while i > 0 && !AtMost(s[i - 1], r)
      invariant 0 <= i <= |s|
      invariant forall j :: i <= j < |s| ==> AtMost(r, s[j])
    {
      i := i - 1;
    }
    InsertedInOrder(s, i, r);
    t := s[..i] + [r] + s[i..];
  }

  lemma InsertedInOrder(s: seq<Range>, i: nat, r: Range)
    requires Sorted(s) && i <= |s| && (i > 0 ==> AtMost(s[i - 1], r))
    requires forall j :: i <= j < |s| ==> AtMost(r, s[j])
    ensures Sorted(s[..i] + [r] + s[i..]) && multiset(s[..i] + [r] + s[i..]) == multiset(s) + multiset{r}
  {
    hide *;
    BeforeInserted(s, i, r);
    SplitOrdered(s, i, r);
    assert s == s[..i] + s[i..];
  }

  /** What is not above its neighbour is not above anything behind it. */
  lemma BeforeInserted(s: seq<Range>, i: nat, r: Range)
    requires Sorted(s) && i <= |s| && (i > 0 ==> AtMost(s[i - 1], r))
    ensures forall j :: 0 <= j < i ==> AtMost(s[j], r)
  {
    forall j | 0 <= j < i ensures AtMost(s[j], r) {
      assert j == i - 1 || AtMost(s[j], s[i - 1]);
    }
  }

  lemma SplitOrdered(s: seq<Range>, i: nat, r: Range)
    requires Sorted(s) && i <= |s| && (forall j :: 0 <= j < i ==> AtMost(s[j], r))
    requires forall j :: i <= j < |s| ==> AtMost(r, s[j])
    ensures Sorted(s[..i] + [r] + s[i..])
  {
    hide AtMost;
  }

  /** `std::sort` on the occupied ranges. */
  method SortRanges(rs: seq<Range>) returns (s: seq<Range>)
    ensures Sorted(s) && multiset(s) == multiset(rs)
  {
    s := [];
    for k := 0 to |rs|
      invariant Sorted(s) && multiset(s) == multiset(rs[..k])
    {
      assert rs[..k + 1] == rs[..k] + [rs[k]];
      s := InsertRange(s, rs[k]);
    }
    assert rs[..|rs|] == rs;
  }

  lemma SameMembersSameGaps(s: seq<Range>, rs: seq<Range>, limit: nat)
    requires multiset(s) == multiset(rs)
    ensures Within(s, limit) == Within(rs, limit)
    ensures forall b: nat, e: nat :: Clear(s, b, e) == Clear(rs, b, e)
    ensures forall b: nat, e: nat :: FreeGap(s, limit, b, e) == FreeGap(rs, limit, b, e)
  {
    forall r ensures r in s <==> r in rs {
      assert r in multiset(s) <==> r in multiset(rs);
    }
    WithinByMember(s, limit);
    WithinByMember(rs, limit);
    forall b: nat, e: nat ensures Clear(s, b, e) == Clear(rs, b, e) {
      ClearByMember(s, b, e);
      ClearByMember(rs, b, e);
    }
  }

  lemma WithinByMember(rs: seq<Range>, limit: nat)
    ensures Within(rs, limit) <==> forall r :: r in rs ==> HEAP_BASE <= r.begin < r.end <= limit
  {
  }

  lemma ClearByMember(rs: seq<Range>, begin: nat, end: nat)
    ensures Clear(rs, begin, end) <==> forall r :: r in rs ==> end <= r.begin || r.end <= begin
  {
  }

  /** `consider_gap`: shrink to 16-byte boundaries and keep the longer gap. */
  function Consider(selected: Range, begin: nat, end: nat): Range {
    var b, e := AlignUp(begin, 16), AlignDown(end, 16);
    if e > b && e - b > selected.end - selected.begin then Range(b, e) else selected
  }

  ghost predicate Choice(rs: seq<Range>, limit: nat, selected: Range) {
    selected == Range(0, 0) || FreeGap(rs, limit, selected.begin, selected.end)
  }

  lemma ConsiderMeans(rs: seq<Range>, limit: nat, selected: Range, begin: nat, end: nat)
    requires Choice(rs, limit, selected) && HEAP_BASE <= begin && end <= limit
    requires limit <= ADDRESS_SPACE_END && begin <= ADDRESS_SPACE_END && selected.begin <= begin
    requires begin < end ==> Clear(rs, begin, end)
    ensures var next := Consider(selected, begin, end);
            && Choice(rs, limit, next) && Replaces(next, selected)
            && (next.begin <= selected.begin || next.begin < end)
            && forall b: nat, e: nat :: AlignedWithin(begin, end, b, e) ==> NoBetter(next, b, e)
  {
    hide AlignDown, AlignUp, Clear;
    Align16(begin);
    Align16(end);
    var up, down := AlignUp(begin, 16), AlignDown(end, 16);
    forall b: nat, e: nat | AlignedWithin(begin, end, b, e)
      ensures up <= b && e <= down
    {
      RoundingIsTight(begin, 16, up, b);
      RoundingIsTight(end, 16, down, e);
    }
    if begin < end { ClearInside(rs, begin, end, up, down); }
  }

  lemma ClearInside(rs: seq<Range>, begin: nat, end: nat, b: nat, e: nat)
    requires Clear(rs, begin, end) && begin <= b && e <= end
    ensures Clear(rs, b, e)
  {
  }

  /** A later selection is the earlier one or a longer one. */
  ghost predicate Replaces(next: Range, selected: Range) {
    next == selected || next.end - next.begin > selected.end - selected.begin
  }

  ghost predicate AlignedWithin(begin: nat, end: nat, b: nat, e: nat) {
    b % 16 == 0 && e % 16 == 0 && begin <= b < e <= end
  }

  /** The fallback sweep over the sorted ranges. */
  method Sweep(rs: seq<Range>, limit: nat) returns (selected: Range)
    requires Sorted(rs) && Within(rs, limit) && HEAP_BASE < limit <= WORD_MAX
    ensures Choice(rs, limit, selected)
    ensures Longest(rs, limit, selected)
  {
    selected := Range(0, 0);
    var cursor := HEAP_BASE;
    hide Consider, Choice, NoBetter, AlignedWithin;
    NothingChosen(rs, limit);
    for i := 0 to |rs|
      invariant Choice(rs, limit, selected) && selected.begin <= cursor
      invariant HEAP_BASE <= cursor <= limit
      invariant forall j :: 0 <= j < i ==> rs[j].end <= cursor
      invariant cursor == HEAP_BASE || exists j :: 0 <= j < i && rs[j].end == cursor
      invariant SweptTo(rs, limit, i, selected)
    {
      GapBefore(rs, cursor, i);
      ConsiderMeans(rs, limit, selected, cursor, rs[i].begin);
      var next := Consider(selected, cursor, rs[i].begin);
      SweepStep(rs, limit, i, cursor, selected, next);
      selected := next;
      cursor := Max(cursor, rs[i].end);
    }
    GapBefore(rs, cursor, |rs|);
    ConsiderMeans(rs, limit, selected, cursor, limit);
    var last := Consider(selected, cursor, limit);
    SweepEnd(rs, limit, cursor, selected, last);
    selected := last;
  }

  lemma NothingChosen(rs: seq<Range>, limit: nat)
    ensures Choice(rs, limit, Range(0, 0))
  {
  }

  /** Free gaps that end before one of the first `i` ranges begins are no better than the selection. */
  ghost predicate SweptTo(rs: seq<Range>, limit: nat, i: nat, selected: Range)
    requires i <= |rs|
  {
    forall b: nat, e: nat, j :: FreeGap(rs, limit, b, e) && 0 <= j < i && e <= rs[j].begin ==>
      NoBetter(selected, b, e)
  }

  lemma GapBefore(rs: seq<Range>, cursor: nat, i: nat)
    requires Sorted(rs) && i <= |rs| && forall j :: 0 <= j < i ==> rs[j].end <= cursor
    ensures i < |rs| && cursor < rs[i].begin ==> Clear(rs, cursor, rs[i].begin)
    ensures i == |rs| ==> forall end: nat :: Clear(rs, cursor, end)
  {
  }

  lemma SweepStep(rs: seq<Range>, limit: nat, i: nat, cursor: nat, selected: Range, next: Range)
    requires Sorted(rs) && Within(rs, limit) && i < |rs| && SweptTo(rs, limit, i, selected)
    requires forall j :: 0 <= j < i ==> rs[j].end <= cursor
    requires cursor == HEAP_BASE || exists j :: 0 <= j < i && rs[j].end == cursor
    requires Replaces(next, selected)
    requires forall b: nat, e: nat :: AlignedWithin(cursor, rs[i].begin, b, e) ==> NoBetter(next, b, e)
    ensures SweptTo(rs, limit, i + 1, next)
  {
    forall b: nat, e: nat, j | FreeGap(rs, limit, b, e) && 0 <= j < i + 1 && e <= rs[j].begin
      ensures NoBetter(next, b, e)
    {
      CursorBelow(rs, limit, i, cursor, selected, b, e);
    }
  }

  /** A free gap not yet accounted for starts at or above the cursor. */
  lemma CursorBelow(rs: seq<Range>, limit: nat, i: nat, cursor: nat, selected: Range, b: nat, e: nat)
    requires Within(rs, limit) && i <= |rs| && SweptTo(rs, limit, i, selected) && FreeGap(rs, limit, b, e)
    requires cursor == HEAP_BASE || exists j :: 0 <= j < i && rs[j].end == cursor
    ensures NoBetter(selected, b, e) || cursor <= b
  {
    if cursor != HEAP_BASE {
      var j :| 0 <= j < i && rs[j].end == cursor;
      assert e <= rs[j].begin || rs[j].end <= b;
    }
  }

  lemma SweepEnd(rs: seq<Range>, limit: nat, cursor: nat, selected: Range, last: Range)
    requires Within(rs, limit) && SweptTo(rs, limit, |rs|, selected)
    requires cursor == HEAP_BASE || exists j :: 0 <= j < |rs| && rs[j].end == cursor
    requires Replaces(last, selected)
    requires forall b: nat, e: nat :: AlignedWithin(cursor, limit, b, e) ==> NoBetter(last, b, e)
    ensures Longest(rs, limit, last)
  {
    forall b: nat, e: nat | FreeGap(rs, limit, b, e) ensures NoBetter(last, b, e) {
      CursorBelow(rs, limit, |rs|, cursor, selected, b, e);
    }
  }

  /** Where the gap after the image starts: the first page above it. */
  function FirstPage(highest: nat): (p: nat)
    ensures p >= HEAP_BASE
  {
    Max(HEAP_BASE, AlignUp(highest, 0x1000))
  }

  /** The gap after the image, as long as it can be, when its first address is free. */
  method PreferredGap(rs: seq<Range>, limit: nat, highest: nat) returns (selected: Range)
    requires Within(rs, limit) && HEAP_BASE < limit <= WORD_MAX && highest <= ADDRESS_SPACE_END
    ensures Choice(rs, limit, selected)
    ensures selected == Range(0, 0) || selected.begin == FirstPage(highest) >= HEAP_BASE
    ensures forall e: nat :: FreeGap(rs, limit, FirstPage(highest), e) ==>
              selected.begin == FirstPage(highest) && e <= selected.end
  {
    hide AlignDown, AlignUp, Consider, Clear;
    PageRounding(highest);
    var begin: nat := Max(HEAP_BASE, AlignUp(highest, 0x1000));
    if begin >= limit { return Range(0, 0); }
    var free, end := PreferredEnd(rs, limit, begin);
    if !free { return Range(0, 0); }
    NothingChosen(rs, limit);
    ConsiderMeans(rs, limit, Range(0, 0), begin, end);
    ConsiderBegin(begin, end);
    selected := Consider(Range(0, 0), begin, end);
    LongestFrom(rs, limit, begin, end, selected);
  }

  /** Every free gap from `begin` on ends by the selected one. */
  lemma LongestFrom(rs: seq<Range>, limit: nat, begin: nat, end: nat, selected: Range)
    requires begin % 16 == 0 && begin > 0 && (selected == Range(0, 0) || selected.begin == begin)
    requires forall e: nat :: begin < e <= limit && Clear(rs, begin, e) ==> e <= end
    requires forall b: nat, e: nat :: AlignedWithin(begin, end, b, e) ==> NoBetter(selected, b, e)
    ensures forall e: nat :: FreeGap(rs, limit, begin, e) ==> selected.begin == begin && e <= selected.end
  {
    hide Clear;
    forall e: nat | FreeGap(rs, limit, begin, e) ensures selected.begin == begin && e <= selected.end {
      assert AlignedWithin(begin, end, begin, e);
    }
  }

  method PreferredEnd(rs: seq<Range>, limit: nat, begin: nat) returns (free: bool, end: nat)
    requires begin < limit && Within(rs, limit)
    ensures free ==> begin < end <= limit && Clear(rs, begin, end)
    ensures forall e: nat :: begin < e <= limit && Clear(rs, begin, e) ==> free && e <= end
  {
    end := limit;
    for i := 0 to |rs|
      invariant begin < end <= limit
      invariant forall j :: 0 <= j < i ==> rs[j].end <= begin || end <= rs[j].begin
      invariant end == limit || exists j :: 0 <= j < i && begin < rs[j].begin == end
    {
      if rs[i].begin <= begin < rs[i].end { return false, 0; }
      if rs[i].begin > begin { end := Min(end, rs[i].begin); }
    }
    return true, end;
  }

  lemma PageRounding(highest: nat)
    requires highest <= ADDRESS_SPACE_END
    ensures RoundsUp(highest, 0x1000, AlignUp(highest, 0x1000))
  {
    hide AlignUp, And;
    assert Pow2(12) == 0x1000;
    Pow2IsPowerOfTwo(12);
    AlignUpMeans(highest, 0x1000);
  }

  lemma ConsiderBegin(begin: nat, end: nat)
    requires begin % 16 == 0 && begin <= ADDRESS_SPACE_END && end <= ADDRESS_SPACE_END
    ensures Consider(Range(0, 0), begin, end) == Range(0, 0) || Consider(Range(0, 0), begin, end).begin == begin
  {
    hide AlignUp, AlignDown;
    Align16(begin);
    RoundingIsTight(begin, 16, AlignUp(begin, 16), begin);
  }

  lemma ChoiceMoves(rs: seq<Range>, occupied: seq<Range>, limit: nat, selected: Range)
    requires forall b: nat, e: nat :: FreeGap(rs, limit, b, e) == FreeGap(occupied, limit, b, e)
    requires Choice(rs, limit, selected)
    ensures Choice(occupied, limit, selected)
    ensures selected.begin != 0 ==> FreeGap(occupied, limit, selected.begin, selected.end)
  {
  }

  /**
   * The heap placement: a chosen gap is always aligned, inside the window and clear of every range.
   * The longest gap that starts at the first page above the image is taken if there is one;
   * otherwise no free aligned gap is longer than the chosen one, and none as long starts below it.
   */
  method ChooseGap(occupied: seq<Range>, limit: nat, highest: nat) returns (selected: Range, swept: bool)
    requires Within(occupied, limit) && HEAP_BASE < limit <= WORD_MAX && highest <= ADDRESS_SPACE_END
    ensures Choice(occupied, limit, selected)
    ensures swept <==> forall e: nat :: !FreeGap(occupied, limit, FirstPage(highest), e)
    ensures swept ==> Longest(occupied, limit, selected)
    ensures !swept ==> selected.begin == FirstPage(highest) &&
                       forall e: nat :: FreeGap(occupied, limit, FirstPage(highest), e) ==> e <= selected.end
  {
    hide FreeGap, Clear, Choice, FirstPage;
    var rs := SortRanges(occupied);
    SameMembersSameGaps(rs, occupied, limit);
    selected := PreferredGap(rs, limit, highest);
    ChoiceMoves(rs, occupied, limit, selected);
    swept := selected.begin == 0;
    if swept {
      selected := Sweep(rs, limit);
      ChoiceMoves(rs, occupied, limit, selected);
    }
  }
}
