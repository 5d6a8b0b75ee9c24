/**
 * OSThread objects in guest memory: what the scheduler reads there, and what its stores change. A store of
 * the state byte, the suspend count or the context changes that field of the object and nothing outside it.
 */
module ThreadObjects {
  import opened Bits
  import opened MemoryImage
  import opened GuestObjects
  import opened Extents
  import opened GuestThreads
  import GuestContext

  const THREAD_SIZE: nat := 0x6A0
  const STATE: nat := 0x324
  const ATTRIBUTES: nat := 0x325
  const SUSPEND: nat := 0x328
  const PRIORITY: nat := 0x32C

  /** The OSThread in the bytes of an object. */
  ghost function ThreadIn(s: seq<Byte>): OsThread
    requires |s| == THREAD_SIZE
  {
    OsThread(s[STATE], s[ATTRIBUTES], Word32(s, SUSPEND), Word32(s, PRIORITY),
             GuestContext.Loaded(s[..GuestContext.CONTEXT_SIZE]))
  }

  ghost function ThreadAt(m: Memory, a: nat): OsThread
    requires WellFormed(m) && MappedRange(m, a, THREAD_SIZE)
  {
    ThreadIn(LoadBytes(m, a, THREAD_SIZE))
  }

  // The stores of the scheduler

  function ThreadExtent(a: nat): Extent { Extent(a, THREAD_SIZE) }

  lemma ThreadInjective(m: Memory, a: nat)
    requires WellFormed(m) && MappedRange(m, a, THREAD_SIZE)
    ensures Injective(m, a, THREAD_SIZE)
  {
    hide WellFormed, CellOf, Mapped, MappedRange;
    ShortSpansInjective(m, a, THREAD_SIZE);
  }

  /** A store of the state byte. */
  ghost function SetState(m: Memory, a: nat, v: Byte): (n: Memory)
    requires WellFormed(m) && MappedRange(m, a, THREAD_SIZE)
    ensures SameLayout(m, n) && WellFormed(n) && MappedRange(n, a, THREAD_SIZE)
  {
    hide WellFormed, CellOf, Mapped, SameLayout;
    SubRange(m, a, THREAD_SIZE, STATE, 1);
    StoreBytes(m, a + STATE, [v])
  }

  ghost function SetSuspend(m: Memory, a: nat, v: Word): (n: Memory)
    requires WellFormed(m) && MappedRange(m, a, THREAD_SIZE)
    ensures SameLayout(m, n) && WellFormed(n) && MappedRange(n, a, THREAD_SIZE)
  {
    hide WellFormed, CellOf, Mapped, SameLayout;
    SubRange(m, a, THREAD_SIZE, SUSPEND, 4);
    StoreBytes(m, a + SUSPEND, BytesOf(v, 4))
  }

  lemma StatePatched(s: seq<Byte>, v: Byte)
    requires |s| == THREAD_SIZE
    ensures ThreadIn(Patch(s, STATE, [v])) == ThreadIn(s).(state := v)
  {
    hide Field, GuestContext.Loaded;
    var t := Patch(s, STATE, [v]);
    assert t[..GuestContext.CONTEXT_SIZE] == s[..GuestContext.CONTEXT_SIZE];
    WordElsewhere(s, STATE, [v], SUSPEND);
    WordElsewhere(s, STATE, [v], PRIORITY);
  }

  lemma WordElsewhere(s: seq<Byte>, o: nat, bs: seq<Byte>, p: nat)
    requires o + |bs| <= |s| && p + 4 <= |s| && (p + 4 <= o || o + |bs| <= p)
    ensures Word32(Patch(s, o, bs), p) == Word32(s, p)
  {
    hide Field, Patch;
    PatchedElsewhere(s, o, bs, p, 4);
  }

  lemma SuspendPatched(s: seq<Byte>, v: Word)
    requires |s| == THREAD_SIZE
    ensures ThreadIn(Patch(s, SUSPEND, BytesOf(v, 4))) == ThreadIn(s).(suspend := v)
  {
    hide Field, GuestContext.Loaded, BytesOf;
    var t := Patch(s, SUSPEND, BytesOf(v, 4));
    assert t[..GuestContext.CONTEXT_SIZE] == s[..GuestContext.CONTEXT_SIZE];
    PatchedWord(s, SUSPEND, v);
    WordElsewhere(s, SUSPEND, BytesOf(v, 4), PRIORITY);
  }

  /** Storing the state of a thread changes that field of that object. */
  lemma StateStored(m: Memory, a: nat, v: Byte)
    requires WellFormed(m) && MappedRange(m, a, THREAD_SIZE)
    ensures ThreadAt(SetState(m, a, v), a) == ThreadAt(m, a).(state := v)
    ensures Keeps(m, SetState(m, a, v), [ThreadExtent(a)])
  {
    hide WellFormed, CellOf, Mapped, MappedRange, SameLayout, LoadBytes, StoreBytes, Patch, ThreadIn, Injective, Keeps;
    ThreadInjective(m, a);
    ObjectStore(m, a, THREAD_SIZE, STATE, [v]);
    StatePatched(LoadBytes(m, a, THREAD_SIZE), v);
    KeepsStore(m, ThreadExtent(a), STATE, [v]);
  }

  lemma SuspendStored(m: Memory, a: nat, v: Word)
    requires WellFormed(m) && MappedRange(m, a, THREAD_SIZE)
    ensures ThreadAt(SetSuspend(m, a, v), a) == ThreadAt(m, a).(suspend := v)
    ensures Keeps(m, SetSuspend(m, a, v), [ThreadExtent(a)])
  {
    hide WellFormed, CellOf, Mapped, MappedRange, SameLayout, LoadBytes, StoreBytes, Patch, ThreadIn, Injective, Keeps,
         BytesOf;
    ThreadInjective(m, a);
    ObjectStore(m, a, THREAD_SIZE, SUSPEND, BytesOf(v, 4));
    SuspendPatched(LoadBytes(m, a, THREAD_SIZE), v);
    KeepsStore(m, ThreadExtent(a), SUSPEND, BytesOf(v, 4));
  }

  /** Saving registers in a thread's object. */
  ghost function SetContext(m: Memory, a: nat, r: Registers, cia: Word): (n: Memory)
    requires WellFormed(m) && MappedRange(m, a, THREAD_SIZE) && ValidRegisters(r)
    ensures SameLayout(m, n) && WellFormed(n) && MappedRange(n, a, THREAD_SIZE)
  {
    hide WellFormed, CellOf, Mapped, SameLayout, GuestContext.StoreContext;
    SubRange(m, a, THREAD_SIZE, 0, GuestContext.CONTEXT_SIZE);
    GuestContext.StoreContext(m, a, r, cia, GuestContext.FIELDS)
  }

  /** An object whose context is replaced and whose other bytes stay. */
  lemma ContextReplaced(s: seq<Byte>, t: seq<Byte>, r: Registers, cia: Word)
    requires |s| == |t| == THREAD_SIZE && ValidRegisters(r)
    requires t[..GuestContext.CONTEXT_SIZE] ==
             GuestContext.SavedFields(s[..GuestContext.CONTEXT_SIZE], r, cia, GuestContext.FIELDS)
    requires t[GuestContext.CONTEXT_SIZE..] == s[GuestContext.CONTEXT_SIZE..]
    ensures ThreadIn(t) == ThreadIn(s).(context := r.(cia := cia))
  {
    hide Field, GuestContext.Loaded, GuestContext.SavedFields;
    GuestContext.SavedLoads(s[..GuestContext.CONTEXT_SIZE], r, cia);
    SuffixByte(s, t, STATE);
    SuffixByte(s, t, ATTRIBUTES);
    SuffixWord(s, t, SUSPEND);
    SuffixWord(s, t, PRIORITY);
  }

  lemma SuffixByte(s: seq<Byte>, t: seq<Byte>, o: nat)
    requires |s| == |t| && GuestContext.CONTEXT_SIZE <= o < |s|
    requires t[GuestContext.CONTEXT_SIZE..] == s[GuestContext.CONTEXT_SIZE..]
    ensures t[o] == s[o]
  {
    assert t[GuestContext.CONTEXT_SIZE..][o - GuestContext.CONTEXT_SIZE] == t[o];
    assert s[GuestContext.CONTEXT_SIZE..][o - GuestContext.CONTEXT_SIZE] == s[o];
  }

  lemma SuffixWord(s: seq<Byte>, t: seq<Byte>, o: nat)
    requires |s| == |t| && GuestContext.CONTEXT_SIZE <= o && o + 4 <= |s|
    requires t[GuestContext.CONTEXT_SIZE..] == s[GuestContext.CONTEXT_SIZE..]
    ensures Word32(t, o) == Word32(s, o)
  {
    var c := GuestContext.CONTEXT_SIZE;
    assert t[o..o + 4] == t[c..][o - c..o - c + 4] && s[o..o + 4] == s[c..][o - c..o - c + 4];
  }

  lemma OtherPart(m: Memory, a: nat, n: nat, k: nat)
    requires Injective(m, a, n) && k <= n
    ensures Separate(m, a, k, a + k, n - k)
  {
  }

  /** An object is its context and the rest. */
  lemma ObjectParts(m: Memory, a: nat)
    requires WellFormed(m) && MappedRange(m, a, THREAD_SIZE)
    ensures var c := GuestContext.CONTEXT_SIZE;
            && MappedRange(m, a, c) && MappedRange(m, a + c, THREAD_SIZE - c)
            && LoadBytes(m, a, THREAD_SIZE)[..c] == LoadBytes(m, a, c)
            && LoadBytes(m, a, THREAD_SIZE)[c..] == LoadBytes(m, a + c, THREAD_SIZE - c)
  {
    var c := GuestContext.CONTEXT_SIZE;
    hide WellFormed, CellOf, Mapped, MappedRange, LoadBytes;
    ObjectLoad(m, a, THREAD_SIZE, 0, c);
    ObjectLoad(m, a, THREAD_SIZE, c, THREAD_SIZE - c);
  }

  lemma ContextIs(m: Memory, a: nat, r: Registers, cia: Word)
    requires WellFormed(m) && MappedRange(m, a, THREAD_SIZE) && ValidRegisters(r)
    ensures MappedRange(m, a, GuestContext.CONTEXT_SIZE)
    ensures SetContext(m, a, r, cia) == GuestContext.StoreContext(m, a, r, cia, GuestContext.FIELDS)
  {
    SubRange(m, a, THREAD_SIZE, 0, GuestContext.CONTEXT_SIZE);
    hide WellFormed, CellOf, Mapped, MappedRange, SameLayout, GuestContext.StoreContext;
  }

  lemma ContextTail(m: Memory, a: nat, r: Registers, cia: Word)
    requires WellFormed(m) && MappedRange(m, a, THREAD_SIZE) && ValidRegisters(r)
    ensures var c := GuestContext.CONTEXT_SIZE;
            LoadBytes(SetContext(m, a, r, cia), a, THREAD_SIZE)[c..] == LoadBytes(m, a, THREAD_SIZE)[c..]
  {
    var c := GuestContext.CONTEXT_SIZE;
    ThreadInjective(m, a);
    OtherPart(m, a, THREAD_SIZE, c);
    ObjectParts(m, a);
    ContextIs(m, a, r, cia);
    hide WellFormed, CellOf, Mapped, MappedRange, SameLayout, LoadBytes, GuestContext.StoreContext, Injective, Separate,
         SetContext;
    ObjectParts(SetContext(m, a, r, cia), a);
    GuestContext.StoreContextFrame(m, a, r, cia, GuestContext.FIELDS, a + c, THREAD_SIZE - c);
  }

  lemma ContextHead(m: Memory, a: nat, r: Registers, cia: Word)
    requires WellFormed(m) && MappedRange(m, a, THREAD_SIZE) && ValidRegisters(r)
    ensures var c := GuestContext.CONTEXT_SIZE;
            LoadBytes(SetContext(m, a, r, cia), a, THREAD_SIZE)[..c] ==
            GuestContext.SavedFields(LoadBytes(m, a, THREAD_SIZE)[..c], r, cia, GuestContext.FIELDS)
  {
    ObjectParts(m, a);
    ContextIs(m, a, r, cia);
    hide WellFormed, CellOf, Mapped, MappedRange, SameLayout, LoadBytes, GuestContext.StoreContext,
         GuestContext.SavedFields, SetContext;
    ObjectParts(SetContext(m, a, r, cia), a);
    GuestContext.StoredContext(m, a, r, cia, GuestContext.FIELDS);
  }

  lemma ContextKept(m: Memory, a: nat, r: Registers, cia: Word, e: Extent)
    requires WellFormed(m) && MappedRange(m, a, THREAD_SIZE) && ValidRegisters(r)
    requires Inside(m, e) && ApartFromAll(m, [ThreadExtent(a)], e)
    ensures Kept(m, SetContext(m, a, r, cia), e)
  {
    ApartFromOne(m, ThreadExtent(a), e);
    assert Separate(m, a, GuestContext.CONTEXT_SIZE, e.address, e.size);
    hide WellFormed, CellOf, Mapped, MappedRange, SameLayout, LoadBytes, GuestContext.StoreContext, Separate;
    SubRange(m, a, THREAD_SIZE, 0, GuestContext.CONTEXT_SIZE);
    GuestContext.StoreContextFrame(m, a, r, cia, GuestContext.FIELDS, e.address, e.size);
  }

  /** Saving a context replaces the context of that object and changes nothing else. */
  lemma ContextStored(m: Memory, a: nat, r: Registers, cia: Word)
    requires WellFormed(m) && MappedRange(m, a, THREAD_SIZE) && ValidRegisters(r)
    ensures ThreadAt(SetContext(m, a, r, cia), a) == ThreadAt(m, a).(context := r.(cia := cia))
    ensures Keeps(m, SetContext(m, a, r, cia), [ThreadExtent(a)])
  {
    var n := SetContext(m, a, r, cia);
    forall e | Inside(m, e) && ApartFromAll(m, [ThreadExtent(a)], e) ensures Kept(m, n, e) {
      ContextKept(m, a, r, cia, e);
    }
    hide WellFormed, CellOf, Mapped, MappedRange, SameLayout, LoadBytes, ThreadIn, SetContext, Inside, ApartFromAll,
         Kept;
    ContextHead(m, a, r, cia);
    ContextTail(m, a, r, cia);
    ContextReplaced(LoadBytes(m, a, THREAD_SIZE), LoadBytes(n, a, THREAD_SIZE), r, cia);
  }
}
