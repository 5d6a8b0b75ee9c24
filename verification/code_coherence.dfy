/** Page generations validate cached code, except for byte writes through an alias. */
module CodeCoherence {
  import opened Bits
  import opened MemoryImage
  import opened PageGenerations

  datatype Tracked = Tracked(memory: Memory, generations: Generations)

  /**
   * `Wide` is write16/32/64, write_bytes and fill_bytes; `Single` is write8; `Transfer` is copy_bytes and
   * move_bytes.
   */
  datatype WriteOp =
    | Wide(address: Word, bytes: seq<Byte>)
    | Single(address: Word, value: Byte)
    | Transfer(source: Word, destination: Word, length: nat)

  ghost predicate Consistent(t: Tracked) {
    WellFormed(t.memory) && Covers(t.generations, t.memory)
  }

  /** The effect the accessors of GuestMemory promise; a refused access changes nothing. */
  ghost function Apply(t: Tracked, op: WriteOp): (u: Tracked)
    requires Consistent(t)
    ensures Consistent(u) && SameLayout(t.memory, u.memory)
    decreases op.Transfer?
  {
    match op
    case Wide(a, bs) =>
      if bs != [] && MappedRange(t.memory, a, |bs|) then
        Tracked(StoreBytes(t.memory, a, bs), MarkWritten(t.memory, t.generations, a, |bs|))
      else t
    case Single(a, v) =>
      if MappedRange(t.memory, a, 1) then
        Tracked(StoreBytes(t.memory, a, [v]), Bump(t.generations, a / PAGE))
      else t
    case Transfer(s, d, n) =>
      if MappedRange(t.memory, s, n) then Apply(t, Wide(d, LoadBytes(t.memory, s, n))) else t
  }

  ghost function Run(t: Tracked, ops: seq<WriteOp>): (u: Tracked)
    requires Consistent(t)
    ensures Consistent(u) && SameLayout(t.memory, u.memory)
    decreases |ops|
  {
    if |ops| == 0 then t else Apply(Run(t, ops[..|ops| - 1]), ops[|ops| - 1])
  }

  predicate Aliased(m: Memory, a: nat) { FindAlias(m.aliases, a) < |m.aliases| }

  ghost predicate AvoidsAliasBytes(m: Memory, ops: seq<WriteOp>) {
    forall i :: 0 <= i < |ops| && ops[i].Single? ==> !Aliased(m, ops[i].address)
  }

  /** A byte that changed lies on the backing page of some written address. */
  lemma ChangedByteWasWritten(m: Memory, a: nat, bs: seq<Byte>, y: nat)
    requires WellFormed(m) && MappedRange(m, a, |bs|) && Mapped(m, y)
    requires ByteAt(StoreBytes(m, a, bs), y) != ByteAt(m, y)
    ensures exists x :: a <= x < a + |bs| && BackingPage(m, x) == BackingPage(m, y)
  {
    hide WellFormed, CellOf, StoreBytes, ReadCell, InStore, Resolve;
    CellInStore(m, y);
    StoredCell(m, a, bs, CellOf(m, y));
    var k := LastHit(m, a, |bs|, CellOf(m, y));
    assert k >= 0;
    SharedCellResolves(m, y, a + k);
    assert BackingPage(m, a + k) == BackingPage(m, y);
  }

  lemma StepCoherent(t: Tracked, op: WriteOp, page: nat)
    requires Consistent(t) && (op.Single? ==> !Aliased(t.memory, op.address))
    ensures Count(Apply(t, op).generations, page) >= Count(t.generations, page)
    ensures Count(Apply(t, op).generations, page) == Count(t.generations, page) ==>
              forall y :: Mapped(t.memory, y) && BackingPage(t.memory, y) == page ==>
                Mapped(Apply(t, op).memory, y) && ByteAt(Apply(t, op).memory, y) == ByteAt(t.memory, y)
    decreases op.Transfer?
  {
    hide WellFormed, CellOf, Resolve, StoreBytes, ByteAt, Bump;
    if op.Transfer? {
      if MappedRange(t.memory, op.source, op.length) {
        StepCoherent(t, Wide(op.destination, LoadBytes(t.memory, op.source, op.length)), page);
      }
      return;
    }
    var m, u := t.memory, Apply(t, op);
    if u != t {
      var bs := if op.Wide? then op.bytes else [op.value];
      if op.Wide? {
        MarkedPagesAdvance(m, t.generations, op.address / PAGE, (op.address + |bs| - 1) / PAGE + 1, page);
      }
      forall y | Mapped(m, y) && BackingPage(m, y) == page &&
                 Count(u.generations, page) == Count(t.generations, page)
        ensures Mapped(u.memory, y) && ByteAt(u.memory, y) == ByteAt(m, y)
      {
        UnmarkedPageUnchanged(t, op, bs, y);
      }
    }
  }

  lemma UnmarkedPageUnchanged(t: Tracked, op: WriteOp, bs: seq<Byte>, y: nat)
    requires Consistent(t) && !op.Transfer? && (op.Single? ==> !Aliased(t.memory, op.address))
    requires bs == (if op.Wide? then op.bytes else [op.value]) && bs != []
    requires MappedRange(t.memory, op.address, |bs|) && Mapped(t.memory, y)
    requires Count(Apply(t, op).generations, BackingPage(t.memory, y)) ==
             Count(t.generations, BackingPage(t.memory, y))
    ensures Mapped(Apply(t, op).memory, y) && ByteAt(Apply(t, op).memory, y) == ByteAt(t.memory, y)
  {
    hide WellFormed, CellOf, StoreBytes, ByteAt, Bump, MarkWritten;
    var m := t.memory;
    if ByteAt(StoreBytes(m, op.address, bs), y) != ByteAt(m, y) {
      ChangedByteWasWritten(m, op.address, bs, y);
      var x :| op.address <= x < op.address + |bs| && BackingPage(m, x) == BackingPage(m, y);
      if op.Wide? {
        MarkWrittenAdvances(m, t.generations, op.address, |bs|, x);
      }
      assert false;
    }
  }

  /** Code-page coherence over any run of writes that makes no byte write through an alias. */
  lemma {:induction false} UnchangedGenerationUnchangedPage(t: Tracked, ops: seq<WriteOp>, x: nat)
    requires Consistent(t) && AvoidsAliasBytes(t.memory, ops)
    ensures PageGeneration(t.memory, Run(t, ops).generations, x) >= PageGeneration(t.memory, t.generations, x)
    ensures PageGeneration(t.memory, Run(t, ops).generations, x) == PageGeneration(t.memory, t.generations, x) ==>
              forall y :: Mapped(t.memory, y) && BackingPage(t.memory, y) == BackingPage(t.memory, x) ==>
                Mapped(Run(t, ops).memory, y) && ByteAt(Run(t, ops).memory, y) == ByteAt(t.memory, y)
    decreases |ops|
  {
    hide WellFormed, CellOf, Apply, ByteAt, Resolve, SameLayout;
    if |ops| > 0 {
      var before := Run(t, ops[..|ops| - 1]);
      UnchangedGenerationUnchangedPage(t, ops[..|ops| - 1], x);
      SameAliases(t.memory, before.memory);
      StepCoherent(before, ops[|ops| - 1], BackingPage(t.memory, x));
    }
  }

  lemma SameAliases(m: Memory, n: Memory)
    requires SameLayout(m, n)
    ensures forall a :: Resolve(m, a) == Resolve(n, a) && Aliased(m, a) == Aliased(n, a)
    ensures forall a :: Mapped(m, a) == Mapped(n, a)
  {
    LayoutDecides(m, n);
  }

  /** Two addresses that share a cell consult the same counter, whichever of them was written. */
  lemma SharedCellSharesCounter(t: Tracked, a: nat, b: nat)
    requires Consistent(t) && Mapped(t.memory, a) && CellOf(t.memory, a) == CellOf(t.memory, b)
    ensures PageGeneration(t.memory, t.generations, a) == PageGeneration(t.memory, t.generations, b)
  {
    SharedCellResolves(t.memory, a, b);
  }

  /** `write8` advances the counter that readers of its byte consult exactly when no alias is involved. */
  lemma Write8AdvancesIffNotAliased(t: Tracked, a: Word, v: Byte)
    requires Consistent(t) && MappedRange(t.memory, a, 1)
    ensures
      (PageGeneration(t.memory, Apply(t, Single(a, v)).generations, a) >
       PageGeneration(t.memory, t.generations, a)) <==> !Aliased(t.memory, a)
  {
    SingleCounts(t, a, v);
    if Aliased(t.memory, a) { AliasedElsewhere(t.memory, a); }
    hide Apply, Consistent, MappedRange, WellFormed;
  }

  lemma SingleCounts(t: Tracked, a: Word, v: Byte)
    requires Consistent(t) && MappedRange(t.memory, a, 1)
    ensures forall p :: Count(Apply(t, Single(a, v)).generations, p) ==
                        Count(t.generations, p) + (if p == a / PAGE then 1 else 0)
  {
    hide MappedRange, WellFormed, StoreBytes, Bump, Count;
  }

  /** An alias leads to a page that is not its own. */
  lemma AliasedElsewhere(m: Memory, a: nat)
    requires WellFormed(m) && Aliased(m, a)
    ensures BackingPage(m, a) != a / PAGE
  {
    assert AliasFits(m, m.aliases[FindAlias(m.aliases, a)]);
  }

  /** A byte write through an alias changes flat memory while the generation of its page stays put. */
  lemma AliasedWrite8BreaksCoherence()
    ensures exists t: Tracked, op: WriteOp ::
              && Consistent(t) && op.Single? && Mapped(t.memory, 0) && Mapped(Apply(t, op).memory, 0)
              && ByteAt(Apply(t, op).memory, 0) != ByteAt(t.memory, 0)
              && PageGeneration(t.memory, Apply(t, op).generations, 0) ==
                 PageGeneration(t.memory, t.generations, 0)
  {
    var m := Memory(seq<Byte>(PAGE, _ => 0), [], [Alias(PAGE, 0, PAGE)]);
    var t := Tracked(m, Generations([0], map[]));
    var op := Single(PAGE, 1);
    assert AliasFits(m, m.aliases[0]);
    assert CellOf(m, PAGE) == Flat(0) && CellOf(m, 0) == Flat(0);
    assert MappedRange(m, PAGE, 1);
    StoredCell(m, PAGE, [1], Flat(0));
    assert LastHit(m, PAGE, 1, Flat(0)) == 0;
    assert Consistent(t);
    assert ByteAt(Apply(t, op).memory, 0) == 1 && ByteAt(m, 0) == 0;
    assert Resolve(m, 0) == 0;
  }
}
