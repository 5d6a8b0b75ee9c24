/**
 * Guest objects as byte strings: what a store to one field does to the bytes of the whole object, and
 * that it leaves every range alone that shares no cell with the object. Lists of word stores describe
 * how an object is initialised; where offsets are distinct every store decides its word, and words no
 * store names keep their value.
 */
module GuestObjects {
  import opened Bits
  import opened MemoryImage

  /** `s` with the bytes at offset `o` replaced. */
  function Patch(s: seq<Byte>, o: nat, bs: seq<Byte>): (r: seq<Byte>)
    requires o + |bs| <= |s|
    ensures |r| == |s|
    ensures forall k :: 0 <= k < |s| ==> r[k] == if o <= k < o + |bs| then bs[k - o] else s[k]
  {
    s[..o] + bs + s[o + |bs|..]
  }

  /** The big-endian field of `w` bytes at offset `o`. */
  function Field(s: seq<Byte>, o: nat, w: nat): nat
    requires o + w <= |s|
  {
    BigEndian(s[o..o + w])
  }

  function Word32(s: seq<Byte>, o: nat): Word
    requires o + 4 <= |s|
  {
    FieldBound(s, o);
    Field(s, o, 4)
  }

  lemma FieldBound(s: seq<Byte>, o: nat)
    requires o + 4 <= |s|
    ensures Field(s, o, 4) < ADDRESS_SPACE_END
  {
    hide Pow2;
    WidthPowers();
    BigEndianBound(s[o..o + 4]);
  }

  lemma PatchedField(s: seq<Byte>, o: nat, v: nat, w: nat)
    requires o + w <= |s|
    ensures Field(Patch(s, o, BytesOf(v, w)), o, w) == v % Pow2(8 * w)
  {
    hide BytesOf, BigEndian, Pow2;
    assert Patch(s, o, BytesOf(v, w))[o..o + w] == BytesOf(v, w);
    BytesRoundTrip(v, w);
  }

  lemma PatchedWord(s: seq<Byte>, o: nat, v: Word)
    requires o + 4 <= |s|
    ensures Word32(Patch(s, o, BytesOf(v, 4)), o) == v
  {
    hide BytesOf, BigEndian, Pow2;
    PatchedField(s, o, v, 4);
    WidthPowers();
  }

  /** `s` with a word stored at offset `o`. */
  function SetWord(s: seq<Byte>, o: nat, v: Word): (r: seq<Byte>)
    requires o + 4 <= |s|
    ensures |r| == |s|
  {
    Patch(s, o, BytesOf(v, 4))
  }

  lemma SetWordMeans(s: seq<Byte>, o: nat, v: Word, p: nat)
    requires o + 4 <= |s| && p + 4 <= |s| && (p + 4 <= o || o + 4 <= p || p == o)
    ensures Word32(SetWord(s, o, v), p) == if p == o then v else Word32(s, p)
  {
    hide BytesOf, BigEndian, Patch;
    if p == o { PatchedWord(s, o, v); } else { PatchedElsewhere(s, o, BytesOf(v, 4), p, 4); }
  }

  lemma PatchedElsewhere(s: seq<Byte>, o: nat, bs: seq<Byte>, p: nat, w: nat)
    requires o + |bs| <= |s| && p + w <= |s| && (p + w <= o || o + |bs| <= p)
    ensures Field(Patch(s, o, bs), p, w) == Field(s, p, w)
  {
    assert Patch(s, o, bs)[p..p + w] == s[p..p + w];
  }

  lemma WordOfPrefix(s: seq<Byte>, k: nat, o: nat)
    requires o + 4 <= k <= |s|
    ensures Word32(s[..k], o) == Word32(s, o)
  {
    assert s[..k][o..o + 4] == s[o..o + 4];
  }

  lemma SubRange(m: Memory, a: nat, n: nat, o: nat, w: nat)
    requires MappedRange(m, a, n) && o + w <= n
    ensures MappedRange(m, a + o, w)
  {
  }

  lemma ObjectLoad(m: Memory, a: nat, n: nat, o: nat, w: nat)
    requires WellFormed(m) && MappedRange(m, a, n) && o + w <= n
    ensures MappedRange(m, a + o, w)
    ensures LoadBytes(m, a + o, w) == LoadBytes(m, a, n)[o..o + w]
  {
    hide WellFormed, CellOf, ByteAt;
  }

  /** A store inside an object whose cells are distinct patches its bytes. */
  lemma ObjectStore(m: Memory, a: nat, n: nat, o: nat, bs: seq<Byte>)
    requires WellFormed(m) && MappedRange(m, a, n) && Injective(m, a, n) && o + |bs| <= n
    ensures MappedRange(m, a + o, |bs|)
    ensures LoadBytes(StoreBytes(m, a + o, bs), a, n) == Patch(LoadBytes(m, a, n), o, bs)
  {
    hide WellFormed, CellOf, StoreBytes, LoadBytes, ReadCell, InStore;
    SubRange(m, a, n, o, |bs|);
    forall k | 0 <= k < n
      ensures ByteAt(StoreBytes(m, a + o, bs), a + k) == Patch(LoadBytes(m, a, n), o, bs)[k]
    {
      assert Mapped(m, a + k);
      CellInStore(m, a + k);
      StoredCell(m, a + o, bs, CellOf(m, a + k));
    }
  }

  lemma WordOfObject(m: Memory, a: nat, n: nat, o: nat)
    requires WellFormed(m) && MappedRange(m, a, n) && o + 4 <= n
    ensures MappedRange(m, a + o, 4) && WordAt(m, a + o) == Word32(LoadBytes(m, a, n), o)
  {
    hide WellFormed, CellOf, LoadBytes, BigEndian, Pow2;
    ObjectLoad(m, a, n, o, 4);
  }

  /** A mapped word with this value. */
  ghost predicate WordIs(m: Memory, a: nat, v: nat)
    requires WellFormed(m)
  {
    MappedRange(m, a, 4) && WordAt(m, a) == v
  }

  lemma WordIsField(m: Memory, a: nat, n: nat, o: nat, v: nat)
    requires WellFormed(m) && MappedRange(m, a, n) && o + 4 <= n
    ensures WordIs(m, a + o, v) <==> Word32(LoadBytes(m, a, n), o) == v
  {
    hide WellFormed, MappedRange, LoadBytes, WordAt, Word32;
    WordOfObject(m, a, n, o);
  }

  lemma LayoutChain(m: Memory, n: Memory, u: Memory)
    requires SameLayout(m, n) && SameLayout(n, u)
    ensures SameLayout(m, u)
  {
  }

  /** Everything that depends only on the layout. */
  lemma SameCells(m: Memory, n: Memory)
    requires WellFormed(m) && SameLayout(m, n)
    ensures WellFormed(n)
    ensures forall b :: CellOf(n, b) == CellOf(m, b)
    ensures forall b, k :: MappedRange(n, b, k) == MappedRange(m, b, k)
  {
    LayoutDecides(m, n);
    SameRanges(m, n);
  }

  // Initialising an object word by word

  datatype WordStore = WordStore(offset: nat, value: Word)

  ghost predicate StoresFit(ws: seq<WordStore>, n: nat) {
    forall i :: 0 <= i < |ws| ==> ws[i].offset + 4 <= n && ws[i].offset % 4 == 0
  }

  ghost function SetWords(s: seq<Byte>, ws: seq<WordStore>): (r: seq<Byte>)
    requires StoresFit(ws, |s|)
    ensures |r| == |s|
  {
    if ws == [] then s
    else SetWord(SetWords(s, ws[..|ws| - 1]), ws[|ws| - 1].offset, ws[|ws| - 1].value)
  }

  ghost function StoreWords(m: Memory, a: nat, n: nat, ws: seq<WordStore>): (u: Memory)
    requires WellFormed(m) && MappedRange(m, a, n) && StoresFit(ws, n)
    ensures SameLayout(m, u) && WellFormed(u) && MappedRange(u, a, n)
    decreases |ws|
  {
    hide WellFormed, CellOf, Mapped, SameLayout;
    if ws == [] then
      LayoutRefl(m);
      m
    else
      var before := StoreWords(m, a, n, ws[..|ws| - 1]);
      SubRange(before, a, n, ws[|ws| - 1].offset, 4);
      var after := StoreWord(before, a + ws[|ws| - 1].offset, ws[|ws| - 1].value);
      LayoutChain(m, before, after);
      after
  }

  lemma LayoutRefl(m: Memory)
    ensures SameLayout(m, m)
  {
  }

  /** A word stored in an object. */
  lemma WordStored(m: Memory, a: nat, n: nat, o: nat, v: Word)
    requires WellFormed(m) && MappedRange(m, a, n) && (n <= PAGE || Injective(m, a, n)) && o + 4 <= n
    ensures MappedRange(m, a + o, 4)
    ensures LoadBytes(StoreWord(m, a + o, v), a, n) == SetWord(LoadBytes(m, a, n), o, v)
  {
    hide WellFormed, CellOf, Mapped, LoadBytes, BytesOf, Patch, MappedRange, Injective;
    if n <= PAGE { ShortSpansInjective(m, a, n); }
    ObjectStore(m, a, n, o, BytesOf(v, 4));
  }

  /** A word stored in an object leaves what shares no cell with the object. */
  lemma WordApart(m: Memory, a: nat, n: nat, o: nat, v: Word, b: nat, k: nat)
    requires WellFormed(m) && MappedRange(m, a, n) && o + 4 <= n
    requires MappedRange(m, b, k) && Separate(m, a, n, b, k)
    ensures MappedRange(m, a + o, 4)
    ensures LoadBytes(StoreWord(m, a + o, v), b, k) == LoadBytes(m, b, k)
  {
    hide WellFormed, CellOf, Mapped, LoadBytes, BytesOf;
    SubRange(m, a, n, o, 4);
    StoreFrame(m, a + o, BytesOf(v, 4), b, k);
  }

  lemma StoreWordsNext(m: Memory, a: nat, n: nat, ws: seq<WordStore>, i: nat)
    requires WellFormed(m) && MappedRange(m, a, n) && StoresFit(ws, n) && i < |ws|
    ensures StoresFit(ws[..i], n) && StoresFit(ws[..i + 1], n)
    ensures ws[i].offset + 4 <= n
    ensures var before := StoreWords(m, a, n, ws[..i]);
            MappedRange(before, a + ws[i].offset, 4) &&
            StoreWords(m, a, n, ws[..i + 1]) == StoreWord(before, a + ws[i].offset, ws[i].value)
  {
    hide WellFormed, CellOf, Mapped, SameLayout;
    assert ws[..i + 1][..i] == ws[..i];
    SubRange(StoreWords(m, a, n, ws[..i]), a, n, ws[i].offset, 4);
  }

  lemma {:induction false} StoredWords(m: Memory, a: nat, n: nat, ws: seq<WordStore>)
    requires WellFormed(m) && MappedRange(m, a, n) && StoresFit(ws, n) && (n <= PAGE || Injective(m, a, n))
    ensures LoadBytes(StoreWords(m, a, n, ws), a, n) == SetWords(LoadBytes(m, a, n), ws)
    decreases |ws|
  {
    hide WellFormed, CellOf, Mapped, MappedRange, SameLayout, LoadBytes, StoreWord, SetWord, Injective;
    if ws != [] {
      var last := |ws| - 1;
      StoredWords(m, a, n, ws[..last]);
      LayoutKept(m, StoreWords(m, a, n, ws[..last]), a, n, a, n);
      WordStored(StoreWords(m, a, n, ws[..last]), a, n, ws[last].offset, ws[last].value);
    }
  }

  /** Ranges stay mapped and apart when only bytes change. */
  lemma LayoutKept(m: Memory, n: Memory, a: nat, size: nat, b: nat, k: nat)
    requires WellFormed(m) && SameLayout(m, n)
    ensures MappedRange(n, b, k) == MappedRange(m, b, k)
    ensures Separate(m, a, size, b, k) ==> Separate(n, a, size, b, k)
    ensures Injective(m, a, size) ==> Injective(n, a, size)
  {
    hide WellFormed, CellOf, Mapped, MappedRange, SameLayout;
    SameCells(m, n);
  }

  /** A span that shares no cell with the object still holds what it held. */
  ghost predicate SpanKept(m: Memory, u: Memory, b: nat, k: nat) {
    && WellFormed(m) && WellFormed(u) && MappedRange(m, b, k) && MappedRange(u, b, k)
    && LoadBytes(u, b, k) == LoadBytes(m, b, k)
  }

  lemma WordKept(m: Memory, before: Memory, a: nat, n: nat, o: nat, v: Word, b: nat, k: nat)
    requires SameLayout(m, before) && SpanKept(m, before, b, k)
    requires MappedRange(m, a, n) && Separate(m, a, n, b, k) && o + 4 <= n && MappedRange(before, a + o, 4)
    ensures SpanKept(m, StoreWord(before, a + o, v), b, k)
  {
    LayoutKept(m, before, a, n, b, k);
    LayoutKept(m, before, a, n, a, n);
    hide WellFormed, MappedRange, LoadBytes, Separate, SameLayout, StoreBytes;
    WordApart(before, a, n, o, v, b, k);
  }

  lemma SpanChain(m: Memory, n: Memory, u: Memory, b: nat, k: nat)
    requires SpanKept(m, n, b, k) && SpanKept(n, u, b, k)
    ensures SpanKept(m, u, b, k)
  {
    hide WellFormed, MappedRange, LoadBytes;
  }

  /** Bytes stored in an object leave what shares no cell with the object. */
  lemma BytesKept(m: Memory, a: nat, n: nat, o: nat, bs: seq<Byte>, b: nat, k: nat)
    requires WellFormed(m) && MappedRange(m, a, n) && o + |bs| <= n && MappedRange(m, a + o, |bs|)
    requires MappedRange(m, b, k) && Separate(m, a, n, b, k)
    ensures SpanKept(m, StoreBytes(m, a + o, bs), b, k)
  {
    hide WellFormed, CellOf, Mapped, LoadBytes, StoreBytes;
    StoreFrame(m, a + o, bs, b, k);
  }

  lemma StoreWordsStep(m: Memory, a: nat, n: nat, ws: seq<WordStore>, i: nat, b: nat, k: nat)
    requires WellFormed(m) && MappedRange(m, a, n) && StoresFit(ws, n) && i < |ws| && Separate(m, a, n, b, k)
    requires StoresFit(ws[..i], n) && SpanKept(m, StoreWords(m, a, n, ws[..i]), b, k)
    ensures StoresFit(ws[..i + 1], n) && SpanKept(m, StoreWords(m, a, n, ws[..i + 1]), b, k)
  {
    hide *;
    StoreWordsNext(m, a, n, ws, i);
    WordKept(m, StoreWords(m, a, n, ws[..i]), a, n, ws[i].offset, ws[i].value, b, k);
  }

  lemma {:induction false} StoreWordsFrame(m: Memory, a: nat, n: nat, ws: seq<WordStore>, i: nat, b: nat, k: nat)
    requires WellFormed(m) && MappedRange(m, a, n) && StoresFit(ws, n) && i <= |ws|
    requires MappedRange(m, b, k) && Separate(m, a, n, b, k)
    ensures StoresFit(ws[..i], n) && SpanKept(m, StoreWords(m, a, n, ws[..i]), b, k)
    decreases i
  {
    hide WellFormed, MappedRange, LoadBytes, StoreWord, Separate, SameLayout;
    if i == 0 {
      assert ws[..0] == [];
    } else {
      StoreWordsFrame(m, a, n, ws, i - 1, b, k);
      hide SpanKept;
      StoreWordsStep(m, a, n, ws, i - 1, b, k);
    }
  }

  lemma StoreNone(m: Memory, a: nat, n: nat)
    requires WellFormed(m) && MappedRange(m, a, n)
    ensures StoresFit([], n) && StoreWords(m, a, n, []) == m
  {
  }

  /** The usual initialisation: clear the object, then store its words. */
  ghost function Initialised(m: Memory, a: nat, n: nat, ws: seq<WordStore>): (u: Memory)
    requires WellFormed(m) && MappedRange(m, a, n) && StoresFit(ws, n)
    ensures SameLayout(m, u) && WellFormed(u) && MappedRange(u, a, n)
  {
    hide WellFormed, CellOf, Mapped, SameLayout, MappedRange, StoreWords;
    var zeroed := StoreBytes(m, a, seq<Byte>(n, _ => 0));
    LayoutChain(m, zeroed, StoreWords(zeroed, a, n, ws));
    StoreWords(zeroed, a, n, ws)
  }

  lemma ZeroKept(m: Memory, a: nat, n: nat, b: nat, k: nat)
    requires WellFormed(m) && MappedRange(m, a, n) && MappedRange(m, b, k) && Separate(m, a, n, b, k)
    ensures var u := StoreBytes(m, a, seq<Byte>(n, _ => 0));
            SpanKept(m, u, b, k) && MappedRange(u, a, n) && Separate(u, a, n, b, k)
  {
    var zeros := seq<Byte>(n, _ => 0);
    hide WellFormed, CellOf, Mapped, LoadBytes, StoreBytes, SameLayout;
    LayoutKept(m, StoreBytes(m, a, zeros), a, n, b, k);
    StoreFrame(m, a, zeros, b, k);
  }

  lemma InitialisedFrame(m: Memory, a: nat, n: nat, ws: seq<WordStore>, b: nat, k: nat)
    requires WellFormed(m) && MappedRange(m, a, n) && StoresFit(ws, n)
    requires MappedRange(m, b, k) && Separate(m, a, n, b, k)
    ensures SpanKept(m, Initialised(m, a, n, ws), b, k)
  {
    assert ws[..|ws|] == ws;
    ZeroKept(m, a, n, b, k);
    var zeroed := StoreBytes(m, a, seq<Byte>(n, _ => 0));
    assert MappedRange(zeroed, b, k) && WellFormed(zeroed);
    hide WellFormed, MappedRange, LoadBytes, StoreBytes, StoreWords, SameLayout, Separate, StoresFit, SpanKept;
    StoreWordsFrame(zeroed, a, n, ws, |ws|, b, k);
    SpanChain(m, zeroed, Initialised(m, a, n, ws), b, k);
  }

  lemma InitialisedBytes(m: Memory, a: nat, n: nat, ws: seq<WordStore>)
    requires WellFormed(m) && MappedRange(m, a, n) && StoresFit(ws, n) && n <= PAGE
    ensures exists s: seq<Byte> :: |s| == n && LoadBytes(Initialised(m, a, n, ws), a, n) == SetWords(s, ws)
  {
    var zeroed := StoreBytes(m, a, seq<Byte>(n, _ => 0));
    hide WellFormed, MappedRange, LoadBytes, StoreBytes, StoreWords, SetWords, StoresFit, SameLayout;
    StoredWords(zeroed, a, n, ws);
    assert |LoadBytes(zeroed, a, n)| == n;
  }

  /** The last store at an offset decides the word there. */
  lemma {:induction false} LastStoreWins(s: seq<Byte>, ws: seq<WordStore>, i: nat)
    requires StoresFit(ws, |s|) && i < |ws|
    requires forall j :: i < j < |ws| ==> ws[j].offset != ws[i].offset
    ensures Word32(SetWords(s, ws), ws[i].offset) == ws[i].value
    decreases |ws|
  {
    hide Word32, SetWord;
    var last := |ws| - 1;
    SetWordMeans(SetWords(s, ws[..last]), ws[last].offset, ws[last].value, ws[i].offset);
    if i < last { LastStoreWins(s, ws[..last], i); }
  }

  ghost predicate DistinctOffsets(ws: seq<WordStore>) {
    forall i, j :: 0 <= i < j < |ws| ==> ws[i].offset != ws[j].offset
  }

  /** Every store of a list with distinct offsets decides its word. */
  lemma EveryStoreWins(s: seq<Byte>, ws: seq<WordStore>)
    requires StoresFit(ws, |s|) && DistinctOffsets(ws)
    ensures forall i :: 0 <= i < |ws| ==> Word32(SetWords(s, ws), ws[i].offset) == ws[i].value
  {
    hide Word32, SetWords;
    forall i | 0 <= i < |ws| ensures Word32(SetWords(s, ws), ws[i].offset) == ws[i].value {
      LastStoreWins(s, ws, i);
    }
  }

  /** A word no store touches. */
  lemma {:induction false} UntouchedWord(s: seq<Byte>, ws: seq<WordStore>, o: nat)
    requires StoresFit(ws, |s|) && o + 4 <= |s| && o % 4 == 0
    requires forall j :: 0 <= j < |ws| ==> ws[j].offset != o
    ensures Word32(SetWords(s, ws), o) == Word32(s, o)
    decreases |ws|
  {
    hide Word32, SetWord;
    if ws != [] {
      var last := |ws| - 1;
      SetWordMeans(SetWords(s, ws[..last]), ws[last].offset, ws[last].value, o);
      UntouchedWord(s, ws[..last], o);
    }
  }
}
