/** Write counters of backing pages, and which of them a write advances. */
module PageGenerations {
  import opened Bits
  import opened MemoryImage

  /** One counter per flat page, and a lazily filled table for every other page. */
  datatype Generations = Generations(flat: seq<nat>, sparse: map<nat, nat>)

  ghost predicate Covers(g: Generations, m: Memory) {
    |g.flat| == (|m.flat| + PAGE - 1) / PAGE
  }

  function Count(g: Generations, page: nat): nat {
    if page < |g.flat| then g.flat[page]
    else if page in g.sparse then g.sparse[page] else 0
  }

  function Bump(g: Generations, page: nat): (h: Generations)
    ensures |h.flat| == |g.flat|
    ensures forall p :: Count(h, p) == Count(g, p) + (if p == page then 1 else 0)
  {
    if page < |g.flat| then g.(flat := g.flat[page := g.flat[page] + 1])
    else g.(sparse := g.sparse[page := Count(g, page) + 1])
  }

  function BackingPage(m: Memory, a: nat): nat { Resolve(m, a) / PAGE }

  /** Marks the backing pages of the guest pages first .. last (exclusive). */
  ghost function MarkPages(m: Memory, g: Generations, first: nat, last: nat): (h: Generations)
    requires first <= last
    ensures |h.flat| == |g.flat|
    decreases last
  {
    if first == last then g
    else Bump(MarkPages(m, g, first, last - 1), BackingPage(m, (last - 1) * PAGE))
  }

  /** The effect of `mark_pages_written(address, width)` for a nonempty width. */
  ghost function MarkWritten(m: Memory, g: Generations, a: nat, width: nat): (h: Generations)
    requires width > 0
    ensures |h.flat| == |g.flat|
  {
    MarkPages(m, g, a / PAGE, (a + width - 1) / PAGE + 1)
  }

  /** What `page_write_generation` returns. */
  function PageGeneration(m: Memory, g: Generations, a: nat): nat {
    Count(g, BackingPage(m, a))
  }

  lemma {:induction false} MarkedPagesAdvance(m: Memory, g: Generations, first: nat, last: nat, p: nat)
    requires first <= last
    ensures Count(MarkPages(m, g, first, last), p) >= Count(g, p)
    ensures (exists q :: first <= q < last && BackingPage(m, q * PAGE) == p) ==>
              Count(MarkPages(m, g, first, last), p) > Count(g, p)
    decreases last
  {
    if first < last {
      MarkedPagesAdvance(m, g, first, last - 1, p);
    }
  }

  /** How many of the guest pages first .. last (exclusive) the page backs. */
  ghost function Backs(m: Memory, first: nat, last: nat, p: nat): nat
    requires first <= last
    decreases last
  {
    if first == last then 0
    else Backs(m, first, last - 1, p) + if BackingPage(m, (last - 1) * PAGE) == p then 1 else 0
  }

  /** Marking advances the counter of a backing page once for each page of the span that it backs, and no other. */
  lemma {:induction false} MarkedExactly(m: Memory, g: Generations, first: nat, last: nat, p: nat)
    requires first <= last
    ensures Count(MarkPages(m, g, first, last), p) == Count(g, p) + Backs(m, first, last, p)
    ensures (forall q :: first <= q < last ==> BackingPage(m, q * PAGE) != p) ==> Backs(m, first, last, p) == 0
    decreases last
  {
    hide Count;
    if first < last { MarkedExactly(m, g, first, last - 1, p); }
  }

  /** Every byte under a marked span lies on a backing page whose counter advanced. */
  lemma MarkWrittenAdvances(m: Memory, g: Generations, a: nat, width: nat, x: nat)
    requires WellFormed(m) && a <= x < a + width
    ensures Count(MarkWritten(m, g, a, width), BackingPage(m, x)) > Count(g, BackingPage(m, x))
  {
    AliasKeepsOffset(m, x);
    assert BackingPage(m, x / PAGE * PAGE) == BackingPage(m, x);
    MarkedPagesAdvance(m, g, a / PAGE, (a + width - 1) / PAGE + 1, BackingPage(m, x));
  }
}
