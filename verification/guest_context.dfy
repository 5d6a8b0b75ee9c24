/** Register contexts in guest memory: the OSContext layout, saving and loading. */
module GuestContext {
  import opened Bits
  import opened MemoryImage
  import opened GuestObjects
  import opened GuestMemoryModel
  import opened GuestThreads

  const CONTEXT_SIZE: nat := 0x320
  const FIELDS: nat := 110

  const GPR: nat := 0x08
  const CR: nat := 0x88
  const LR: nat := 0x8C
  const CTR: nat := 0x90
  const XER: nat := 0x94
  const SRR0: nat := 0x98
  const FPSCR: nat := 0xB4
  const FPR: nat := 0xB8
  const GQR: nat := 0x1BC
  const PSF: nat := 0x1E0

  // The fields in the order in which a save writes them

  function FieldOffset(k: nat): nat
    requires k < FIELDS
  {
    if k < 32 then GPR + 4 * k
    else if k < 36 then CR + 4 * (k - 32)
    else if k == 36 then SRR0
    else if k == 37 then FPSCR
    else if k < 46 then GQR + 4 * (k - 38)
    else if k % 2 == 0 then FPR + 8 * ((k - 46) / 2)
    else PSF + 8 * ((k - 46) / 2)
  }

  function FieldWidth(k: nat): nat { if k < 46 then 4 else 8 }

  function FieldValue(r: Registers, cia: Word, k: nat): (v: nat)
    requires |r.gpr| == 32 && |r.fpr| == 32 && |r.ps1| == 32 && |r.gqr| == 8 && k < FIELDS
  {
    if k < 32 then r.gpr[k]
    else if k == 32 then r.cr
    else if k == 33 then r.lr
    else if k == 34 then r.ctr
    else if k == 35 then r.xer
    else if k == 36 then cia
    else if k == 37 then r.fpscr
    else if k < 46 then r.gqr[k - 38]
    else if k % 2 == 0 then r.fpr[(k - 46) / 2]
    else r.ps1[(k - 46) / 2]
  }

  lemma FieldsApart(j: nat, k: nat)
    requires j < k < FIELDS
    ensures FieldOffset(j) + FieldWidth(j) <= FieldOffset(k) || FieldOffset(k) + FieldWidth(k) <= FieldOffset(j)
  {
  }

  lemma FieldInside(k: nat)
    requires k < FIELDS
    ensures FieldOffset(k) + FieldWidth(k) <= CONTEXT_SIZE
  {
  }

  /** The bytes of an OSContext after the first n fields are written. */
  ghost function SavedFields(s: seq<Byte>, r: Registers, cia: Word, n: nat): (t: seq<Byte>)
    requires |s| == CONTEXT_SIZE && ValidRegisters(r) && n <= FIELDS
    ensures |t| == CONTEXT_SIZE
  {
    if n == 0 then s
    else
      FieldInside(n - 1);
      Patch(SavedFields(s, r, cia, n - 1), FieldOffset(n - 1), BytesOf(FieldValue(r, cia, n - 1), FieldWidth(n - 1)))
  }

  lemma FieldFits(r: Registers, cia: Word, k: nat)
    requires ValidRegisters(r) && k < FIELDS
    ensures FieldValue(r, cia, k) % Pow2(8 * FieldWidth(k)) == FieldValue(r, cia, k)
  {
    hide Pow2;
    WidthPowers();
  }

  lemma {:induction false} SavedField(s: seq<Byte>, r: Registers, cia: Word, n: nat, k: nat)
    requires |s| == CONTEXT_SIZE && ValidRegisters(r) && k < n <= FIELDS
    ensures FieldOffset(k) + FieldWidth(k) <= CONTEXT_SIZE
    ensures Field(SavedFields(s, r, cia, n), FieldOffset(k), FieldWidth(k)) == FieldValue(r, cia, k)
  {
    FieldInside(k);
    FieldInside(n - 1);
    if k < n - 1 { FieldsApart(k, n - 1); }
    hide FieldOffset, FieldWidth, FieldValue, Field, Patch, BytesOf, Pow2;
    var before := SavedFields(s, r, cia, n - 1);
    var bs := BytesOf(FieldValue(r, cia, n - 1), FieldWidth(n - 1));
    if k == n - 1 {
      PatchedField(before, FieldOffset(k), FieldValue(r, cia, k), FieldWidth(k));
      FieldFits(r, cia, k);
    } else {
      SavedField(s, r, cia, n - 1, k);
      PatchedElsewhere(before, FieldOffset(n - 1), bs, FieldOffset(k), FieldWidth(k));
    }
  }

  function Double(s: seq<Byte>, o: nat): DoubleWord
    requires o + 8 <= |s|
  {
    DoubleBound(s, o);
    Field(s, o, 8)
  }

  lemma DoubleBound(s: seq<Byte>, o: nat)
    requires o + 8 <= |s|
    ensures Field(s, o, 8) < TWO_TO_THE_64
  {
    hide Pow2;
    WidthPowers();
    BigEndianBound(s[o..o + 8]);
  }

  ghost function Words(s: seq<Byte>, o: nat, n: nat): (ws: seq<Word>)
    requires o + 4 * n <= |s|
    ensures |ws| == n && forall i :: 0 <= i < n ==> ws[i] == Word32(s, o + 4 * i)
  {
    seq<Word>(n, i requires 0 <= i < n => Word32(s, o + 4 * i))
  }

  ghost function Doubles(s: seq<Byte>, o: nat, n: nat): (ds: seq<DoubleWord>)
    requires o + 8 * n <= |s|
    ensures |ds| == n && forall i :: 0 <= i < n ==> ds[i] == Double(s, o + 8 * i)
  {
    seq<DoubleWord>(n, i requires 0 <= i < n => Double(s, o + 8 * i))
  }

  /** The registers in the bytes of an OSContext. */
  ghost function Loaded(s: seq<Byte>): (r: Registers)
    requires |s| == CONTEXT_SIZE
    ensures ValidRegisters(r)
  {
    hide Word32, Double;
    Registers(Words(s, GPR, 32), Doubles(s, FPR, 32), Doubles(s, PSF, 32), Words(s, GQR, 8),
              Word32(s, CR), Word32(s, LR), Word32(s, CTR), Word32(s, XER), Word32(s, FPSCR), Word32(s, SRR0))
  }

  /** Every field of the object holds its register. */
  ghost predicate Holds(t: seq<Byte>, r: Registers, cia: Word) {
    && |t| == CONTEXT_SIZE && ValidRegisters(r)
    && forall k :: 0 <= k < FIELDS ==>
         FieldOffset(k) + FieldWidth(k) <= CONTEXT_SIZE &&
         Field(t, FieldOffset(k), FieldWidth(k)) == FieldValue(r, cia, k)
  }

  lemma HeldField(t: seq<Byte>, r: Registers, cia: Word, k: nat, offset: nat, width: nat)
    requires Holds(t, r, cia) && k < FIELDS && offset == FieldOffset(k) && width == FieldWidth(k)
    ensures offset + width <= CONTEXT_SIZE && Field(t, offset, width) == FieldValue(r, cia, k)
  {
    hide FieldOffset, FieldWidth, FieldValue, Field;
  }

  lemma HeldSingles(t: seq<Byte>, r: Registers, cia: Word)
    requires Holds(t, r, cia)
    ensures Word32(t, CR) == r.cr && Word32(t, LR) == r.lr && Word32(t, CTR) == r.ctr && Word32(t, XER) == r.xer
    ensures Word32(t, SRR0) == cia && Word32(t, FPSCR) == r.fpscr
  {
    hide Field, Holds;
    HeldField(t, r, cia, 32, CR, 4);
    HeldField(t, r, cia, 33, LR, 4);
    HeldField(t, r, cia, 34, CTR, 4);
    HeldField(t, r, cia, 35, XER, 4);
    HeldField(t, r, cia, 36, SRR0, 4);
    HeldField(t, r, cia, 37, FPSCR, 4);
  }

  lemma HeldArrays(t: seq<Byte>, r: Registers, cia: Word)
    requires Holds(t, r, cia)
    ensures forall i :: 0 <= i < 32 ==> Word32(t, GPR + 4 * i) == r.gpr[i]
    ensures forall i :: 0 <= i < 8 ==> Word32(t, GQR + 4 * i) == r.gqr[i]
    ensures forall i :: 0 <= i < 32 ==> Double(t, FPR + 8 * i) == r.fpr[i]
    ensures forall i :: 0 <= i < 32 ==> Double(t, PSF + 8 * i) == r.ps1[i]
  {
    assert |t| == CONTEXT_SIZE && ValidRegisters(r);
    hide Field, Holds;
    forall i | 0 <= i < 32 ensures Word32(t, GPR + 4 * i) == r.gpr[i] {
      HeldField(t, r, cia, i, GPR + 4 * i, 4);
    }
    forall i | 0 <= i < 8 ensures Word32(t, GQR + 4 * i) == r.gqr[i] {
      HeldField(t, r, cia, 38 + i, GQR + 4 * i, 4);
    }
    forall i | 0 <= i < 32 ensures Double(t, FPR + 8 * i) == r.fpr[i] {
      HeldField(t, r, cia, 46 + 2 * i, FPR + 8 * i, 8);
    }
    forall i | 0 <= i < 32 ensures Double(t, PSF + 8 * i) == r.ps1[i] {
      HeldField(t, r, cia, 47 + 2 * i, PSF + 8 * i, 8);
    }
  }

  /** Loading what was saved gives back every register, with CIA set to the resume address. */
  lemma SavedLoads(s: seq<Byte>, r: Registers, cia: Word)
    requires |s| == CONTEXT_SIZE && ValidRegisters(r)
    ensures Loaded(SavedFields(s, r, cia, FIELDS)) == r.(cia := cia)
  {
    var t := SavedFields(s, r, cia, FIELDS);
    hide SavedFields, Field, FieldOffset, FieldWidth, FieldValue, Word32, Double;
    forall k | 0 <= k < FIELDS
      ensures FieldOffset(k) + FieldWidth(k) <= CONTEXT_SIZE
      ensures Field(t, FieldOffset(k), FieldWidth(k)) == FieldValue(r, cia, k)
    {
      SavedField(s, r, cia, FIELDS, k);
    }
    HeldSingles(t, r, cia);
    HeldArrays(t, r, cia);
    hide Holds;
    assert Loaded(t).gpr == r.gpr && Loaded(t).fpr == r.fpr && Loaded(t).ps1 == r.ps1 && Loaded(t).gqr == r.gqr;
  }

  // The same in guest memory

  ghost function StoreContext(m: Memory, thread: nat, r: Registers, cia: Word, n: nat): (u: Memory)
    requires WellFormed(m) && MappedRange(m, thread, CONTEXT_SIZE) && ValidRegisters(r) && n <= FIELDS
    ensures SameLayout(m, u) && WellFormed(u)
    ensures forall b :: CellOf(u, b) == CellOf(m, b)
    ensures forall b, k :: MappedRange(u, b, k) == MappedRange(m, b, k)
    decreases n
  {
    hide WellFormed, CellOf, FieldOffset, FieldWidth, FieldValue;
    if n == 0 then m
    else
      var before := StoreContext(m, thread, r, cia, n - 1);
      FieldInside(n - 1);
      SubRange(before, thread, CONTEXT_SIZE, FieldOffset(n - 1), FieldWidth(n - 1));
      StoreBytes(before, thread + FieldOffset(n - 1), BytesOf(FieldValue(r, cia, n - 1), FieldWidth(n - 1)))
  }

  lemma StoreContextNext(m: Memory, thread: nat, r: Registers, cia: Word, k: nat)
    requires WellFormed(m) && MappedRange(m, thread, CONTEXT_SIZE) && ValidRegisters(r) && k < FIELDS
    ensures var u := StoreContext(m, thread, r, cia, k);
            MappedRange(u, thread + FieldOffset(k), FieldWidth(k)) && thread + FieldOffset(k) < 0x1_0000_0000 &&
            StoreContext(m, thread, r, cia, k + 1) ==
            StoreBytes(u, thread + FieldOffset(k), BytesOf(FieldValue(r, cia, k), FieldWidth(k)))
  {
    FieldInside(k);
    hide WellFormed, CellOf, FieldOffset, FieldWidth, FieldValue, StoreBytes, BytesOf;
    SubRange(StoreContext(m, thread, r, cia, k), thread, CONTEXT_SIZE, FieldOffset(k), FieldWidth(k));
  }

  lemma StoreContextNone(m: Memory, thread: nat, r: Registers, cia: Word)
    requires WellFormed(m) && MappedRange(m, thread, CONTEXT_SIZE) && ValidRegisters(r)
    ensures StoreContext(m, thread, r, cia, 0) == m
  {
  }

  /** Where a saved context holds each register. */
  lemma ContextLayout(s: seq<Byte>, r: Registers, cia: Word)
    requires |s| == CONTEXT_SIZE && ValidRegisters(r)
    ensures var t := SavedFields(s, r, cia, FIELDS);
            && |t| == 0x320
            && (forall i :: 0 <= i < 32 ==> Field(t, 0x08 + 4 * i, 4) == r.gpr[i])
            && Field(t, 0x88, 4) == r.cr && Field(t, 0x8C, 4) == r.lr && Field(t, 0x90, 4) == r.ctr
            && Field(t, 0x94, 4) == r.xer && Field(t, 0x98, 4) == cia && Field(t, 0xB4, 4) == r.fpscr
            && (forall i :: 0 <= i < 8 ==> Field(t, 0x1BC + 4 * i, 4) == r.gqr[i])
            && (forall i :: 0 <= i < 32 ==> Field(t, 0xB8 + 8 * i, 8) == r.fpr[i])
            && (forall i :: 0 <= i < 32 ==> Field(t, 0x1E0 + 8 * i, 8) == r.ps1[i])
  {
    var t := SavedFields(s, r, cia, FIELDS);
    forall k: nat | k < FIELDS
      ensures FieldOffset(k) + FieldWidth(k) <= CONTEXT_SIZE
      ensures Field(t, FieldOffset(k), FieldWidth(k)) == FieldValue(r, cia, k)
    {
      SavedField(s, r, cia, FIELDS, k);
    }
    hide SavedFields, Field;
    LayoutSingles(r, cia);
    forall i: nat | i < 32 ensures Field(t, 0x08 + 4 * i, 4) == r.gpr[i] { LayoutWords(r, cia, i); }
    forall i: nat | i < 8 ensures Field(t, 0x1BC + 4 * i, 4) == r.gqr[i] { LayoutQuantizers(r, cia, i, 38 + i); }
    forall i: nat | i < 32
      ensures Field(t, 0xB8 + 8 * i, 8) == r.fpr[i] && Field(t, 0x1E0 + 8 * i, 8) == r.ps1[i]
    {
      PairPlaces(r, cia, i, 46 + 2 * i);
    }
    hide FieldOffset, FieldWidth, FieldValue;
  }

  lemma LayoutSingles(r: Registers, cia: Word)
    requires ValidRegisters(r)
    ensures FieldOffset(32) == 0x88 && FieldOffset(33) == 0x8C && FieldOffset(34) == 0x90 && FieldOffset(35) == 0x94
    ensures FieldOffset(36) == 0x98 && FieldOffset(37) == 0xB4
    ensures FieldValue(r, cia, 32) == r.cr && FieldValue(r, cia, 33) == r.lr && FieldValue(r, cia, 34) == r.ctr
    ensures FieldValue(r, cia, 35) == r.xer && FieldValue(r, cia, 36) == cia && FieldValue(r, cia, 37) == r.fpscr
    ensures forall k :: 32 <= k < 38 ==> FieldWidth(k) == 4
  {
  }

  lemma LayoutWords(r: Registers, cia: Word, i: nat)
    requires ValidRegisters(r) && i < 32
    ensures FieldOffset(i) == 0x08 + 4 * i && FieldWidth(i) == 4 && FieldValue(r, cia, i) == r.gpr[i]
  {
  }

  lemma LayoutQuantizers(r: Registers, cia: Word, i: nat, k: nat)
    requires ValidRegisters(r) && i < 8 && k == 38 + i
    ensures FieldOffset(k) == 0x1BC + 4 * i && FieldWidth(k) == 4 && FieldValue(r, cia, k) == r.gqr[i]
  {
  }

  lemma {:induction false} StoredContext(m: Memory, thread: nat, r: Registers, cia: Word, n: nat)
    requires WellFormed(m) && MappedRange(m, thread, CONTEXT_SIZE) && ValidRegisters(r) && n <= FIELDS
    ensures LoadBytes(StoreContext(m, thread, r, cia, n), thread, CONTEXT_SIZE) ==
            SavedFields(LoadBytes(m, thread, CONTEXT_SIZE), r, cia, n)
    decreases n
  {
    hide WellFormed, CellOf, FieldOffset, FieldWidth, FieldValue, LoadBytes, StoreBytes, BytesOf, Patch;
    if n > 0 {
      StoredContext(m, thread, r, cia, n - 1);
      var before := StoreContext(m, thread, r, cia, n - 1);
      FieldInside(n - 1);
      ShortSpansInjective(before, thread, CONTEXT_SIZE);
      ObjectStore(before, thread, CONTEXT_SIZE, FieldOffset(n - 1),
                  BytesOf(FieldValue(r, cia, n - 1), FieldWidth(n - 1)));
    }
  }

  lemma {:induction false} StoreContextFrame(
    m: Memory, thread: nat, r: Registers, cia: Word, n: nat, b: nat, k: nat)
    requires WellFormed(m) && MappedRange(m, thread, CONTEXT_SIZE) && ValidRegisters(r) && n <= FIELDS
    requires MappedRange(m, b, k) && Separate(m, thread, CONTEXT_SIZE, b, k)
    ensures LoadBytes(StoreContext(m, thread, r, cia, n), b, k) == LoadBytes(m, b, k)
    decreases n
  {
    hide WellFormed, CellOf, FieldOffset, FieldWidth, FieldValue, LoadBytes, StoreBytes, BytesOf;
    if n > 0 {
      StoreContextFrame(m, thread, r, cia, n - 1, b, k);
      var before := StoreContext(m, thread, r, cia, n - 1);
      FieldInside(n - 1);
      SubRange(before, thread, CONTEXT_SIZE, FieldOffset(n - 1), FieldWidth(n - 1));
      StoreFrame(before, thread + FieldOffset(n - 1), BytesOf(FieldValue(r, cia, n - 1), FieldWidth(n - 1)), b, k);
    }
  }

  /**
   * Saving and loading a context in guest memory: the same thread gets its registers back, and a thread
   * whose OSContext shares no cell with it gets back what it had.
   */
  lemma SaveThenLoad(m: Memory, thread: nat, r: Registers, cia: Word, other: nat)
    requires WellFormed(m) && MappedRange(m, thread, CONTEXT_SIZE) && ValidRegisters(r)
    requires MappedRange(m, other, CONTEXT_SIZE) && Separate(m, thread, CONTEXT_SIZE, other, CONTEXT_SIZE)
    ensures var n := StoreContext(m, thread, r, cia, FIELDS);
            Loaded(LoadBytes(n, thread, CONTEXT_SIZE)) == r.(cia := cia) &&
            Loaded(LoadBytes(n, other, CONTEXT_SIZE)) == Loaded(LoadBytes(m, other, CONTEXT_SIZE))
  {
    hide WellFormed, CellOf, LoadBytes, StoreContext, SavedFields, Loaded;
    StoredContext(m, thread, r, cia, FIELDS);
    SavedLoads(LoadBytes(m, thread, CONTEXT_SIZE), r, cia);
    StoreContextFrame(m, thread, r, cia, FIELDS, other, CONTEXT_SIZE);
  }

  /** A save in progress: the first k fields are stored. */
  ghost predicate Saving(memory: GuestMemory, m: Memory, thread: Word, r: Registers, cia: Word, k: nat)
    reads memory, memory.bytes, memory.flatGenerations
  {
    && memory.Valid() && WellFormed(m) && MappedRange(m, thread, CONTEXT_SIZE) && ValidRegisters(r) && k <= FIELDS
    && memory.Image() == StoreContext(m, thread, r, cia, k)
  }

  method SaveField(memory: GuestMemory, ghost m: Memory, thread: Word, ghost r: Registers, ghost cia: Word,
                   ghost k: nat, offset: nat, value: nat, width: nat)
    requires Saving(memory, m, thread, r, cia, k) && k < FIELDS && ValidRegisters(r)
    requires offset == FieldOffset(k) && value == FieldValue(r, cia, k) && width == FieldWidth(k)
    modifies memory, memory.bytes, memory.flatGenerations
    ensures Saving(memory, m, thread, r, cia, k + 1)
  {
    hide *;
    SavingMeans(memory, m, thread, r, cia, k);
    StoreContextNext(m, thread, r, cia, k);
    StoreField(memory, thread + offset, value, width);
    SavingMeans(memory, m, thread, r, cia, k + 1);
  }

  lemma SavingMeans(memory: GuestMemory, m: Memory, thread: Word, r: Registers, cia: Word, k: nat)
    ensures Saving(memory, m, thread, r, cia, k) <==>
      && memory.Valid() && WellFormed(m) && MappedRange(m, thread, CONTEXT_SIZE) && ValidRegisters(r) && k <= FIELDS
      && memory.Image() == StoreContext(m, thread, r, cia, k)
    ensures FIELDS == 110 && (k < FIELDS ==> 1 <= FieldWidth(k) <= 8)
  {
  }

  method StoreField(memory: GuestMemory, address: Word, value: nat, width: nat)
    requires memory.Valid() && 1 <= width <= 8 && MappedRange(memory.Image(), address, width)
    modifies memory, memory.bytes, memory.flatGenerations
    ensures memory.Valid() && memory.Image() == StoreBytes(old(memory.Image()), address, BytesOf(value, width))
  {
    var _ := memory.StoreScalar(address, value, width);
  }

  /** Where the save loops put each register. */
  lemma FieldPlaces(r: Registers, cia: Word)
    requires ValidRegisters(r)
    ensures |r.gpr| == |r.fpr| == |r.ps1| == 32 && |r.gqr| == 8 && FIELDS == 110
    ensures forall i :: 0 <= i < 38 ==> FieldWidth(i) == 4
    ensures forall i :: 0 <= i < 32 ==> FieldOffset(i) == GPR + i * 4 && FieldValue(r, cia, i) == r.gpr[i]
    ensures FieldOffset(32) == CR && FieldOffset(33) == LR && FieldOffset(34) == CTR && FieldOffset(35) == XER
    ensures FieldOffset(36) == SRR0 && FieldOffset(37) == FPSCR
    ensures FieldValue(r, cia, 32) == r.cr && FieldValue(r, cia, 33) == r.lr && FieldValue(r, cia, 34) == r.ctr
    ensures FieldValue(r, cia, 35) == r.xer && FieldValue(r, cia, 36) == cia && FieldValue(r, cia, 37) == r.fpscr
  {
  }

  lemma GqrPlaces(r: Registers, cia: Word, i: nat)
    requires ValidRegisters(r) && i < 8
    ensures FieldOffset(38 + i) == GQR + i * 4 && FieldWidth(38 + i) == 4 && FieldValue(r, cia, 38 + i) == r.gqr[i]
  {
  }

  lemma PairPlaces(r: Registers, cia: Word, i: nat, k: nat)
    requires ValidRegisters(r) && i < 32 && k == 46 + 2 * i
    ensures |r.fpr| == |r.ps1| == 32 && k + 1 < FIELDS
    ensures FieldOffset(k) == FPR + i * 8 && FieldWidth(k) == 8 && FieldValue(r, cia, k) == r.fpr[i]
    ensures FieldOffset(k + 1) == PSF + i * 8 && FieldWidth(k + 1) == 8 && FieldValue(r, cia, k + 1) == r.ps1[i]
  {
  }

  method ValidateContext(memory: GuestMemory, thread: Word) returns (ok: bool)
    requires memory.Valid()
    ensures ok <==> MappedRange(memory.Image(), thread, CONTEXT_SIZE)
  {
    ok := memory.ValidateAccess(thread, CONTEXT_SIZE);
  }

  method SaveGprs(memory: GuestMemory, ghost m: Memory, thread: Word, r: Registers, ghost cia: Word)
    requires Saving(memory, m, thread, r, cia, 0) && ValidRegisters(r)
    modifies memory, memory.bytes, memory.flatGenerations
    ensures Saving(memory, m, thread, r, cia, 32)
  {
    FieldPlaces(r, cia);
    hide *;
    for reg := 0 to 32
      invariant Saving(memory, m, thread, r, cia, reg)
    {
      SaveField(memory, m, thread, r, cia, reg, GPR + reg * 4, r.gpr[reg], 4);
    }
  }

  method SaveSpecials(memory: GuestMemory, ghost m: Memory, thread: Word, r: Registers, cia: Word)
    requires Saving(memory, m, thread, r, cia, 32) && ValidRegisters(r)
    modifies memory, memory.bytes, memory.flatGenerations
    ensures Saving(memory, m, thread, r, cia, 38)
  {
    FieldPlaces(r, cia);
    hide *;
    SaveField(memory, m, thread, r, cia, 32, CR, r.cr, 4);
    SaveField(memory, m, thread, r, cia, 33, LR, r.lr, 4);
    SaveField(memory, m, thread, r, cia, 34, CTR, r.ctr, 4);
    SaveField(memory, m, thread, r, cia, 35, XER, r.xer, 4);
    SaveField(memory, m, thread, r, cia, 36, SRR0, cia, 4);
    SaveField(memory, m, thread, r, cia, 37, FPSCR, r.fpscr, 4);
  }

  method SaveGqrs(memory: GuestMemory, ghost m: Memory, thread: Word, r: Registers, ghost cia: Word)
    requires Saving(memory, m, thread, r, cia, 38) && ValidRegisters(r)
    modifies memory, memory.bytes, memory.flatGenerations
    ensures Saving(memory, m, thread, r, cia, 46)
  {
    FieldPlaces(r, cia);
    hide *;
    for reg := 0 to 8
      invariant Saving(memory, m, thread, r, cia, 38 + reg)
    {
      GqrPlaces(r, cia, reg);
      SaveField(memory, m, thread, r, cia, 38 + reg, GQR + reg * 4, r.gqr[reg], 4);
    }
  }

  method SaveFprs(memory: GuestMemory, ghost m: Memory, thread: Word, r: Registers, ghost cia: Word)
    requires Saving(memory, m, thread, r, cia, 46) && ValidRegisters(r)
    modifies memory, memory.bytes, memory.flatGenerations
    ensures Saving(memory, m, thread, r, cia, FIELDS)
  {
    assert FIELDS == 110;
    hide *;
    ghost var k := 46;
    for reg := 0 to 32
      invariant k == 46 + 2 * reg && Saving(memory, m, thread, r, cia, k)
    {
      SavePair(memory, m, thread, r, cia, reg, k);
      k := k + 2;
    }
  }

  method SavePair(memory: GuestMemory, ghost m: Memory, thread: Word, r: Registers, ghost cia: Word, reg: nat,
                  ghost k: nat)
    requires reg < 32 && k == 46 + 2 * reg && Saving(memory, m, thread, r, cia, k) && ValidRegisters(r)
    modifies memory, memory.bytes, memory.flatGenerations
    ensures Saving(memory, m, thread, r, cia, k + 2)
  {
    hide *;
    PairPlaces(r, cia, reg, k);
    SaveField(memory, m, thread, r, cia, k, FPR + reg * 8, r.fpr[reg], 8);
    SaveField(memory, m, thread, r, cia, k + 1, PSF + reg * 8, r.ps1[reg], 8);
  }

  /** `save_guest_context`: the whole object is validated before the first field is stored. */
  method SaveGuestContext(memory: GuestMemory, thread: Word, r: Registers, cia: Word) returns (ok: bool)
    requires memory.Valid() && ValidRegisters(r)
    modifies memory, memory.bytes, memory.flatGenerations
    ensures memory.Valid()
    ensures ok <==> MappedRange(old(memory.Image()), thread, CONTEXT_SIZE)
    ensures !ok ==> memory.Image() == old(memory.Image())
    ensures ok ==> memory.Image() == StoreContext(old(memory.Image()), thread, r, cia, FIELDS)
  {
    ghost var m := memory.Image();
    ok := ValidateContext(memory, thread);
    hide WellFormed, CellOf, Mapped;
    if !ok { return; }
    StoreContextNone(m, thread, r, cia);
    hide StoreContext;
    SaveGprs(memory, m, thread, r, cia);
    SaveSpecials(memory, m, thread, r, cia);
    SaveGqrs(memory, m, thread, r, cia);
    SaveFprs(memory, m, thread, r, cia);
  }

  method LoadGuestContext(memory: GuestMemory, thread: Word) returns (ok: bool, r: Registers)
    requires memory.Valid()
    ensures ok <==> MappedRange(memory.Image(), thread, CONTEXT_SIZE)
    ensures ok ==> r == Loaded(LoadBytes(memory.Image(), thread, CONTEXT_SIZE))
  {
    hide WellFormed, CellOf, Mapped, LoadBytes, Word32, Double;
    var context: seq<Byte>;
    var gpr: seq<Word>, gqr: seq<Word>, fpr: seq<DoubleWord>, ps1: seq<DoubleWord> := [], [], [], [];
    ok, context := memory.ReadBytes(thread, CONTEXT_SIZE);
    if !ok { return false, Registers([], [], [], [], 0, 0, 0, 0, 0, 0); }
    for reg := 0 to 32
      invariant |gpr| == reg && forall i :: 0 <= i < reg ==> gpr[i] == Word32(context, GPR + 4 * i)
    {
      gpr := gpr + [Word32(context, GPR + reg * 4)];
    }
    for reg := 0 to 8
      invariant |gqr| == reg && forall i :: 0 <= i < reg ==> gqr[i] == Word32(context, GQR + 4 * i)
    {
      gqr := gqr + [Word32(context, GQR + reg * 4)];
    }
    for reg := 0 to 32
      invariant |fpr| == reg && forall i :: 0 <= i < reg ==> fpr[i] == Double(context, FPR + 8 * i)
      invariant |ps1| == reg && forall i :: 0 <= i < reg ==> ps1[i] == Double(context, PSF + 8 * i)
    {
      fpr := fpr + [Double(context, FPR + reg * 8)];
      ps1 := ps1 + [Double(context, PSF + reg * 8)];
    }
    r := Registers(gpr, fpr, ps1, gqr, Word32(context, CR), Word32(context, LR), Word32(context, CTR),
                   Word32(context, XER), Word32(context, FPSCR), Word32(context, SRR0));
    assert gpr == Words(context, GPR, 32) && gqr == Words(context, GQR, 8);
    assert fpr == Doubles(context, FPR, 32) && ps1 == Doubles(context, PSF, 32);
  }
}
