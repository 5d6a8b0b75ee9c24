/** The FS client ring: circular links that FSAddClient keeps in guest memory. */
module FsClients {
  import opened Bits
  import opened MemoryImage
  import opened GuestObjects
  import opened GuestMemoryModel
  import opened GuestAccess

  const CLIENT_SIZE: nat := 0x1700
  const BODY_SIZE: nat := 0x1620
  const HANDLE: nat := 0x1444
  const NEXT: nat := 0x1614
  const PREV: nat := 0x1618
  const CLIENT_LINK: nat := 0x161C
  const MUTEX_TAG: Word := 0x664D_7458
  const ALARM_TAG: Word := 0x614C_724D

  datatype FsClient = FsClient(client: Word, body: Word, handle: Word)

  /** An HLE execution error, the fatal-error status, or success with the registration. */
  datatype Outcome = Fault | Refused | Added(registration: FsClient)

  /** The words of a client body that the ring is made of. */
  datatype Link = Link(handle: Word, next: Word, prev: Word, pointer: Word)

  predicate Duplicate(r: FsClient, client: Word, body: nat) {
    r.client == client || r.body == body ||
    (client < r.client + CLIENT_SIZE && r.client < client + CLIENT_SIZE)
  }

  ghost predicate AnyDuplicate(cs: seq<FsClient>, client: Word, body: nat) {
    exists i :: 0 <= i < |cs| && Duplicate(cs[i], client, body)
  }

  ghost function AddOutcome(initialised: bool, cs: seq<FsClient>, nextHandle: Word, m: Memory, client: Word):
    (o: Outcome)
    requires WellFormed(m)
    ensures o.Added? ==> o.registration.client == client && Stored(m, o.registration)
  {
    hide WellFormed, AlignUp, MappedRange, Stored;
    if !initialised || client == 0 then Refused
    else
      var body := AlignUp(client, 64);
      if body > WORD_MAX || body + BODY_SIZE > client + CLIENT_SIZE || !MappedRange(m, client, CLIENT_SIZE) then Fault
      else if AnyDuplicate(cs, client, body) || nextHandle == 0 || nextHandle > 0x7FFF_FFFF then Refused
      else
        BodyPlace(m, client, FsClient(client, body, nextHandle));
        Added(FsClient(client, body, nextHandle))
  }

  // The stores

  function ZeroRun(o: nat, words: nat): (ws: seq<WordStore>)
    ensures |ws| == words && forall i :: 0 <= i < words ==> ws[i] == WordStore(o + 4 * i, 0)
  {
    seq<WordStore>(words, i requires 0 <= i < words => WordStore(o + 4 * i, 0))
  }

  /** The body after the zero fill, in the order of the stores: handle, volume state, command queue, mutexes, alarm. */
  function BodyWords(c: FsClient): seq<WordStore> {
    [WordStore(HANDLE, c.handle), WordStore(0x1448, 1), WordStore(0x144C, 1), WordStore(0x1480, 0),
     WordStore(0x1484, 0)]
    + ZeroRun(0x1488, 11)
    + [WordStore(0x1488, MUTEX_TAG), WordStore(0x148C, 0), WordStore(0x14B4, 0), WordStore(0x14B8, 0),
       WordStore(0x14BC, 1), WordStore(0x14C0, 0), WordStore(0x14C4, 0), WordStore(0x14C8, 0)]
    + ZeroRun(0x1560, 11) + [WordStore(0x1560, MUTEX_TAG), WordStore(0x1564, 0)]
    + ZeroRun(0x1590, 22) + [WordStore(0x1590, ALARM_TAG), WordStore(0x15E8, 0), WordStore(0x15EC, 0),
                             WordStore(0x1610, 0), WordStore(CLIENT_LINK, c.client)]
  }

  lemma BodyWordsFit(c: FsClient)
    ensures |BodyWords(c)| == 64 && StoresFit(BodyWords(c), BODY_SIZE)
    ensures BodyWords(c)[0] == WordStore(HANDLE, c.handle) && BodyWords(c)[63] == WordStore(CLIENT_LINK, c.client)
    ensures forall j :: 0 < j < 64 ==> BodyWords(c)[j].offset != HANDLE
  {
  }

  /** The body lies inside the client's storage, which is mapped. */
  ghost predicate Stored(m: Memory, c: FsClient) {
    && WellFormed(m) && c.client <= c.body && c.body + BODY_SIZE <= c.client + CLIENT_SIZE
    && MappedRange(m, c.client, CLIENT_SIZE) && MappedRange(m, c.body, BODY_SIZE)
  }

  ghost predicate AllStored(m: Memory, cs: seq<FsClient>) {
    forall i :: 0 <= i < |cs| ==> Stored(m, cs[i])
  }

  lemma BodyWord(m: Memory, c: FsClient, o: nat)
    requires Stored(m, c) && o + 4 <= BODY_SIZE
    ensures MappedRange(m, c.body + o, 4)
  {
    hide WellFormed, Mapped;
  }

  lemma StoredKept(m: Memory, n: Memory, c: FsClient)
    requires Stored(m, c) && SameLayout(m, n)
    ensures Stored(n, c)
  {
    hide WellFormed, CellOf, Mapped, MappedRange, SameLayout;
    SameCells(m, n);
  }

  /** A client's storage cleared and filled in, without its links. */
  ghost function ClientStored(m: Memory, c: FsClient): (n: Memory)
    requires Stored(m, c)
    ensures SameLayout(m, n) && Stored(n, c)
  {
    hide WellFormed, CellOf, Mapped, MappedRange, SameLayout, StoreWords;
    BodyWordsFit(c);
    var zeroed := StoreBytes(m, c.client, seq<Byte>(CLIENT_SIZE, _ => 0));
    var n := StoreWords(zeroed, c.body, BODY_SIZE, BodyWords(c));
    LayoutChain(m, zeroed, n);
    StoredKept(m, n, c);
    n
  }

  /** A word of a client's body. */
  ghost function StoreBody(m: Memory, c: FsClient, o: nat, v: Word): (n: Memory)
    requires Stored(m, c) && o + 4 <= BODY_SIZE
    ensures SameLayout(m, n) && Stored(n, c)
  {
    hide WellFormed, CellOf, Mapped, MappedRange, SameLayout;
    BodyWord(m, c, o);
    StoredKept(m, StoreWord(m, c.body + o, v), c);
    StoreWord(m, c.body + o, v)
  }

  /** The first client points to itself. */
  ghost function FirstLinked(m: Memory, c: FsClient): (n: Memory)
    requires Stored(m, c)
    ensures SameLayout(m, n)
  {
    hide WellFormed, CellOf, Mapped, MappedRange, SameLayout, Stored, StoreBody;
    var next := StoreBody(m, c, NEXT, c.body);
    LayoutChain(m, next, StoreBody(next, c, PREV, c.body));
    StoreBody(next, c, PREV, c.body)
  }

  /** A later client is linked between the last one and the first one. */
  ghost function Linked(m: Memory, head: FsClient, tail: FsClient, c: FsClient): (n: Memory)
    requires Stored(m, c) && Stored(m, head) && Stored(m, tail)
    ensures SameLayout(m, n)
  {
    hide WellFormed, CellOf, Mapped, MappedRange, SameLayout, Stored, StoreBody;
    var next := StoreBody(m, c, NEXT, head.body);
    var prev := StoreBody(next, c, PREV, tail.body);
    LayoutChain(m, next, prev);
    StoredKept(m, prev, tail);
    var after := StoreBody(prev, tail, NEXT, c.body);
    LayoutChain(m, prev, after);
    StoredKept(m, after, head);
    LayoutChain(m, after, StoreBody(after, head, PREV, c.body));
    StoreBody(after, head, PREV, c.body)
  }

  /** The memory after a client is added. */
  ghost function AfterAdd(m: Memory, cs: seq<FsClient>, c: FsClient): (n: Memory)
    requires Stored(m, c) && AllStored(m, cs)
    ensures SameLayout(m, n)
  {
    hide WellFormed, CellOf, Mapped, MappedRange, SameLayout, Stored, ClientStored, FirstLinked, Linked;
    var filled := ClientStored(m, c);
    if cs == [] then
      LayoutChain(m, filled, FirstLinked(filled, c));
      FirstLinked(filled, c)
    else
      StoredKept(m, filled, cs[0]);
      StoredKept(m, filled, cs[|cs| - 1]);
      LayoutChain(m, filled, Linked(filled, cs[0], cs[|cs| - 1], c));
      Linked(filled, cs[0], cs[|cs| - 1], c)
  }

  // The ring

  ghost function LinkIn(b: seq<Byte>): Link
    requires |b| == BODY_SIZE
  {
    Link(Word32(b, HANDLE), Word32(b, NEXT), Word32(b, PREV), Word32(b, CLIENT_LINK))
  }

  ghost function LinkAt(m: Memory, c: FsClient): Link
    requires Stored(m, c)
  {
    LinkIn(LoadBytes(m, c.body, BODY_SIZE))
  }

  /** No cell of a client's storage is shared inside it or with another client's. */
  ghost predicate Clean(m: Memory, cs: seq<FsClient>) {
    && AllStored(m, cs)
    && (forall i :: 0 <= i < |cs| ==> Injective(m, cs[i].client, CLIENT_SIZE))
    && (forall i, j :: 0 <= i < |cs| && 0 <= j < |cs| && i != j ==>
          Separate(m, cs[i].client, CLIENT_SIZE, cs[j].client, CLIENT_SIZE))
  }

  /** No alias meets a client's storage. */
  ghost predicate Unaliased(m: Memory, cs: seq<FsClient>) {
    forall i, x :: 0 <= i < |cs| && cs[i].client <= x < cs[i].client + CLIENT_SIZE ==>
      FindAlias(m.aliases, x) == |m.aliases|
  }

  /** Without aliases, storage at different addresses has different cells. */
  lemma UnaliasedClean(m: Memory, cs: seq<FsClient>)
    requires WellFormed(m) && AllStored(m, cs) && Unaliased(m, cs)
    requires forall i, j :: 0 <= i < j < |cs| ==> ClientsApart(cs[i], cs[j])
    ensures Clean(m, cs)
  {
    hide WellFormed, CellOf, Stored;
    forall i, j, x, y | 0 <= i < |cs| && 0 <= j < |cs| && cs[i].client <= x < cs[i].client + CLIENT_SIZE &&
                        cs[j].client <= y < cs[j].client + CLIENT_SIZE && x != y
      ensures CellOf(m, x) != CellOf(m, y)
    {
      StoredParts(m, cs[i]);
      assert Mapped(m, x);
      SharedCellResolves(m, x, y);
    }
    hide FindAlias, Resolve, MappedRange;
  }

  ghost predicate BodiesApart(m: Memory, c: FsClient, d: FsClient) {
    Separate(m, c.client, CLIENT_SIZE, d.client, CLIENT_SIZE)
  }

  lemma BodiesSeparate(m: Memory, c: FsClient, d: FsClient)
    requires Stored(m, c) && Stored(m, d) && BodiesApart(m, c, d)
    ensures Separate(m, c.body, BODY_SIZE, d.body, BODY_SIZE) && Separate(m, c.client, CLIENT_SIZE, d.body, BODY_SIZE)
  {
    hide WellFormed, CellOf, MappedRange;
  }

  lemma BodyInjective(m: Memory, c: FsClient)
    requires Stored(m, c) && Injective(m, c.client, CLIENT_SIZE)
    ensures Injective(m, c.body, BODY_SIZE)
  {
    hide WellFormed, CellOf, MappedRange;
  }

  function WithWord(l: Link, o: nat, v: Word): Link
    requires o == NEXT || o == PREV
  {
    if o == NEXT then l.(next := v) else l.(prev := v)
  }

  /** Storing a link changes that link. */
  lemma LinkStored(m: Memory, c: FsClient, o: nat, v: Word)
    requires Stored(m, c) && Injective(m, c.client, CLIENT_SIZE) && (o == NEXT || o == PREV)
    ensures LinkAt(StoreBody(m, c, o, v), c) == WithWord(LinkAt(m, c), o, v)
  {
    hide StoreBody, Injective, Stored, LinkIn, WithWord, LoadBytes, SetWord, MappedRange, WellFormed, SameLayout;
    BodyLoaded(m, c, o, v);
    WordLinked(LoadBytes(m, c.body, BODY_SIZE), o, v);
  }

  lemma BodyLoaded(m: Memory, c: FsClient, o: nat, v: Word)
    requires Stored(m, c) && Injective(m, c.client, CLIENT_SIZE) && o + 4 <= BODY_SIZE
    ensures WellFormed(m) && MappedRange(m, c.body, BODY_SIZE)
    ensures WellFormed(StoreBody(m, c, o, v)) && MappedRange(StoreBody(m, c, o, v), c.body, BODY_SIZE)
    ensures LoadBytes(StoreBody(m, c, o, v), c.body, BODY_SIZE) == SetWord(LoadBytes(m, c.body, BODY_SIZE), o, v)
  {
    BodyInjective(m, c);
    hide WellFormed, CellOf, Mapped, MappedRange, Injective, LoadBytes, SetWord, StoreWord, SameLayout;
    WordStored(m, c.body, BODY_SIZE, o, v);
  }

  lemma WordLinked(b: seq<Byte>, o: nat, v: Word)
    requires |b| == BODY_SIZE && (o == NEXT || o == PREV)
    ensures LinkIn(SetWord(b, o, v)) == WithWord(LinkIn(b), o, v)
  {
    hide SetWord, Word32;
    SetWordMeans(b, o, v, HANDLE);
    SetWordMeans(b, o, v, NEXT);
    SetWordMeans(b, o, v, PREV);
    SetWordMeans(b, o, v, CLIENT_LINK);
  }

  lemma BodyKept(m: Memory, n: Memory, d: FsClient)
    requires Stored(m, d) && SpanKept(m, n, d.body, BODY_SIZE) && SameLayout(m, n)
    ensures Stored(n, d) && LinkAt(n, d) == LinkAt(m, d)
  {
    StoredKept(m, n, d);
    hide WellFormed, MappedRange, LoadBytes, SameLayout, LinkIn;
  }

  lemma StoredParts(m: Memory, c: FsClient)
    requires Stored(m, c)
    ensures WellFormed(m) && MappedRange(m, c.client, CLIENT_SIZE) && MappedRange(m, c.body, BODY_SIZE)
  {
  }

  lemma StoreBodyIs(m: Memory, c: FsClient, o: nat, v: Word)
    requires Stored(m, c) && o + 4 <= BODY_SIZE
    ensures WellFormed(m) && MappedRange(m, c.body + o, 4) && |BytesOf(v, 4)| == 4
    ensures StoreBody(m, c, o, v) == StoreBytes(m, c.body + o, BytesOf(v, 4))
  {
    hide WellFormed, Mapped, MappedRange, StoreBytes, BytesOf;
    BodyWord(m, c, o);
  }

  lemma WordSpanKept(m: Memory, c: FsClient, o: nat, v: Word, d: FsClient)
    requires Stored(m, c) && Stored(m, d) && o + 4 <= BODY_SIZE
    requires Separate(m, c.body, BODY_SIZE, d.body, BODY_SIZE)
    ensures SpanKept(m, StoreBody(m, c, o, v), d.body, BODY_SIZE)
  {
    hide *;
    StoreBodyIs(m, c, o, v);
    StoredParts(m, c);
    StoredParts(m, d);
    BytesKept(m, c.body, BODY_SIZE, o, BytesOf(v, 4), d.body, BODY_SIZE);
  }

  /** And no other client's. */
  lemma LinkApart(m: Memory, c: FsClient, o: nat, v: Word, d: FsClient)
    requires Stored(m, c) && Stored(m, d) && BodiesApart(m, c, d) && o + 4 <= BODY_SIZE
    ensures Stored(StoreBody(m, c, o, v), d) && LinkAt(StoreBody(m, c, o, v), d) == LinkAt(m, d)
  {
    BodiesSeparate(m, c, d);
    hide WellFormed, MappedRange, SameLayout, Separate, LinkAt, StoreBody, SpanKept, Stored;
    WordSpanKept(m, c, o, v, d);
    BodyKept(m, StoreBody(m, c, o, v), d);
  }

  /** Clearing and filling a client leaves the others' bodies. */
  lemma ClientApart(m: Memory, c: FsClient, d: FsClient)
    requires Stored(m, c) && Stored(m, d) && BodiesApart(m, c, d)
    ensures Stored(ClientStored(m, c), d) && LinkAt(ClientStored(m, c), d) == LinkAt(m, d)
  {
    BodiesSeparate(m, c, d);
    BodyWordsFit(c);
    var ws := BodyWords(c);
    assert ws[..|ws|] == ws;
    hide WellFormed, MappedRange, SameLayout, Separate, LinkAt, SpanKept, BodyWords, StoresFit, StoreWords;
    ZeroKept(m, c.client, CLIENT_SIZE, d.body, BODY_SIZE);
    var zeroed := StoreBytes(m, c.client, seq<Byte>(CLIENT_SIZE, _ => 0));
    WordsApart(m, zeroed, c, d, ws);
    BodyKept(m, ClientStored(m, c), d);
  }

  lemma WordsApart(m: Memory, zeroed: Memory, c: FsClient, d: FsClient, ws: seq<WordStore>)
    requires SpanKept(m, zeroed, d.body, BODY_SIZE) && SameLayout(m, zeroed) && Stored(m, c) && StoresFit(ws, BODY_SIZE)
    requires Separate(m, c.body, BODY_SIZE, d.body, BODY_SIZE) && MappedRange(zeroed, c.body, BODY_SIZE)
    ensures SpanKept(m, StoreWords(zeroed, c.body, BODY_SIZE, ws), d.body, BODY_SIZE)
  {
    LayoutKept(m, zeroed, c.body, BODY_SIZE, d.body, BODY_SIZE);
    assert ws[..|ws|] == ws && WellFormed(zeroed) && MappedRange(zeroed, d.body, BODY_SIZE);
    hide WellFormed, MappedRange, SameLayout, Separate, SpanKept, StoresFit, StoreWords, Stored;
    StoreWordsFrame(zeroed, c.body, BODY_SIZE, ws, |ws|, d.body, BODY_SIZE);
    SpanChain(m, zeroed, StoreWords(zeroed, c.body, BODY_SIZE, ws), d.body, BODY_SIZE);
  }

  /** A filled-in client holds its handle and the pointer to its storage. */
  lemma ClientFilled(m: Memory, c: FsClient)
    requires Stored(m, c) && Injective(m, c.client, CLIENT_SIZE)
    ensures LinkAt(ClientStored(m, c), c).handle == c.handle && LinkAt(ClientStored(m, c), c).pointer == c.client
  {
    BodyWordsFit(c);
    BodyInjective(m, c);
    var ws := BodyWords(c);
    var zeroed := StoreBytes(m, c.client, seq<Byte>(CLIENT_SIZE, _ => 0));
    LayoutKept(m, zeroed, c.body, BODY_SIZE, c.body, BODY_SIZE);
    hide WellFormed, MappedRange, SameLayout, BodyWords, StoresFit, StoreWords, Injective, LoadBytes, Word32, SetWords;
    StoredWords(zeroed, c.body, BODY_SIZE, ws);
    LastStoreWins(LoadBytes(zeroed, c.body, BODY_SIZE), ws, 0);
    LastStoreWins(LoadBytes(zeroed, c.body, BODY_SIZE), ws, 63);
  }

  // Adding a client keeps the ring

  /** Stored, with distinct cells, and any two of them equal or apart. */
  ghost predicate Related(m: Memory, xs: seq<FsClient>) {
    && (forall i :: 0 <= i < |xs| ==> Stored(m, xs[i]) && Injective(m, xs[i].client, CLIENT_SIZE))
    && (forall i, j :: 0 <= i < |xs| && 0 <= j < |xs| ==> xs[i] == xs[j] || BodiesApart(m, xs[i], xs[j]))
  }

  lemma RelatedKept(m: Memory, n: Memory, xs: seq<FsClient>)
    requires Related(m, xs) && SameLayout(m, n)
    ensures Related(n, xs)
  {
    hide WellFormed, SameLayout, Stored, Injective, Separate;
    forall i | 0 <= i < |xs| ensures Stored(n, xs[i]) && Injective(n, xs[i].client, CLIENT_SIZE) {
      StoredKept(m, n, xs[i]);
      assert WellFormed(m) by { StoredMemory(m, xs[i]); }
      LayoutKept(m, n, xs[i].client, CLIENT_SIZE, 0, 0);
    }
    forall i, j | 0 <= i < |xs| && 0 <= j < |xs| ensures xs[i] == xs[j] || BodiesApart(n, xs[i], xs[j]) {
      assert WellFormed(m) by { StoredMemory(m, xs[i]); }
      LayoutKept(m, n, xs[i].client, CLIENT_SIZE, xs[j].client, CLIENT_SIZE);
    }
  }

  lemma StoredMemory(m: Memory, c: FsClient)
    requires Stored(m, c)
    ensures WellFormed(m)
  {
  }

  /** One link store, seen from any client of the ring. */
  lemma StepLink(m: Memory, xs: seq<FsClient>, i: nat, j: nat, o: nat, v: Word)
    requires Related(m, xs) && i < |xs| && j < |xs| && (o == NEXT || o == PREV)
    ensures Related(StoreBody(m, xs[i], o, v), xs)
    ensures LinkAt(StoreBody(m, xs[i], o, v), xs[j]) ==
            if xs[j] == xs[i] then WithWord(LinkAt(m, xs[j]), o, v) else LinkAt(m, xs[j])
  {
    RelatedKept(m, StoreBody(m, xs[i], o, v), xs);
    hide StoreBody, LinkAt, Stored, Injective, BodiesApart, SameLayout;
    if xs[j] == xs[i] { LinkStored(m, xs[i], o, v); } else { LinkApart(m, xs[i], o, v, xs[j]); }
  }

  /** The link of `d` after `c` is linked between `tail` and `head`. */
  function Relinked(l: Link, head: FsClient, tail: FsClient, c: FsClient, d: FsClient): Link {
    var own := if d == c then l.(next := head.body, prev := tail.body) else l;
    var forward := if d == tail then own.(next := c.body) else own;
    if d == head then forward.(prev := c.body) else forward
  }

  lemma LinkedEffect(m: Memory, head: FsClient, tail: FsClient, c: FsClient, d: FsClient)
    requires Related(m, [head, tail, c, d])
    ensures Stored(m, d) && Stored(m, head) && Stored(m, tail) && Stored(m, c)
    ensures Stored(Linked(m, head, tail, c), d)
    ensures LinkAt(Linked(m, head, tail, c), d) == Relinked(LinkAt(m, d), head, tail, c, d)
  {
    var xs := [head, tail, c, d];
    assert Stored(m, xs[0]) && Stored(m, xs[1]) && Stored(m, xs[2]) && Stored(m, xs[3]);
    hide StoreBody, LinkAt, Stored, SameLayout, Related;
    StepLink(m, xs, 2, 3, NEXT, head.body);
    var next := StoreBody(m, c, NEXT, head.body);
    StepLink(next, xs, 2, 3, PREV, tail.body);
    var prev := StoreBody(next, c, PREV, tail.body);
    RelatedStored(prev, xs);
    StepLink(prev, xs, 1, 3, NEXT, c.body);
    var after := StoreBody(prev, tail, NEXT, c.body);
    RelatedStored(after, xs);
    StepLink(after, xs, 0, 3, PREV, c.body);
    RelatedStored(StoreBody(after, head, PREV, c.body), xs);
  }

  lemma RelatedStored(m: Memory, xs: seq<FsClient>)
    requires Related(m, xs)
    ensures forall i :: 0 <= i < |xs| ==> Stored(m, xs[i])
  {
  }

  /** The circular doubly linked list in registration order. */
  ghost predicate Ring(m: Memory, cs: seq<FsClient>) {
    forall i :: 0 <= i < |cs| ==> RingAt(m, cs, i)
  }

  ghost predicate RingAt(m: Memory, cs: seq<FsClient>, i: nat)
    requires i < |cs|
  {
    Stored(m, cs[i]) && LinkAt(m, cs[i]) == RingLink(cs, i)
  }

  function RingLink(cs: seq<FsClient>, i: nat): Link
    requires i < |cs|
  {
    Link(cs[i].handle, cs[if i + 1 == |cs| then 0 else i + 1].body, cs[if i == 0 then |cs| - 1 else i - 1].body,
         cs[i].client)
  }

  /** Clients that are apart are different. */
  lemma ApartDiffer(m: Memory, c: FsClient, d: FsClient)
    requires Stored(m, c) && BodiesApart(m, c, d)
    ensures c != d
  {
    hide WellFormed;
    assert c == d ==> CellOf(m, c.client) == CellOf(m, d.client);
  }

  lemma CleanRelated(m: Memory, cs: seq<FsClient>, i: nat, j: nat, k: nat, l: nat)
    requires Clean(m, cs) && i < |cs| && j < |cs| && k < |cs| && l < |cs|
    ensures Related(m, [cs[i], cs[j], cs[k], cs[l]])
  {
    hide Stored, Injective;
  }

  lemma CleanKept(m: Memory, n: Memory, cs: seq<FsClient>)
    requires Clean(m, cs) && SameLayout(m, n)
    ensures Clean(n, cs)
  {
    hide WellFormed, SameLayout, Stored, Injective, Separate;
    forall i | 0 <= i < |cs| ensures Stored(n, cs[i]) && Injective(n, cs[i].client, CLIENT_SIZE) {
      StoredKept(m, n, cs[i]);
      StoredMemory(m, cs[i]);
      LayoutKept(m, n, cs[i].client, CLIENT_SIZE, 0, 0);
    }
    forall i, j | 0 <= i < |cs| && 0 <= j < |cs| && i != j
      ensures Separate(n, cs[i].client, CLIENT_SIZE, cs[j].client, CLIENT_SIZE)
    {
      StoredMemory(m, cs[i]);
      LayoutKept(m, n, cs[i].client, CLIENT_SIZE, cs[j].client, CLIENT_SIZE);
    }
  }

  lemma CleanMembers(m: Memory, cs: seq<FsClient>, c: FsClient)
    requires Clean(m, cs + [c])
    ensures AllStored(m, cs) && Stored(m, c) && Injective(m, c.client, CLIENT_SIZE)
    ensures forall k :: 0 <= k < |cs| ==> BodiesApart(m, c, cs[k])
  {
    hide Stored, Injective;
    var ds := cs + [c];
    assert forall k :: 0 <= k < |cs| ==> ds[k] == cs[k];
    assert ds[|cs|] == c;
    assert forall k :: 0 <= k < |cs| ==> BodiesApart(m, ds[|cs|], ds[k]);
  }

  lemma AddedIs(m: Memory, cs: seq<FsClient>, c: FsClient)
    requires cs != [] && AllStored(m, cs) && Stored(m, c)
    ensures var filled := ClientStored(m, c);
            && Stored(filled, c) && Stored(filled, cs[0]) && Stored(filled, cs[|cs| - 1])
            && AfterAdd(m, cs, c) == Linked(filled, cs[0], cs[|cs| - 1], c)
  {
    hide ClientStored, Linked, Stored, SameLayout;
    StoredKept(m, ClientStored(m, c), cs[0]);
    StoredKept(m, ClientStored(m, c), cs[|cs| - 1]);
  }

  /** Four clients of the list, in the order in which a link step uses them. */
  lemma AddedRelated(m: Memory, ds: seq<FsClient>, n: nat, i: nat)
    requires 0 < n == |ds| - 1 && Clean(m, ds) && i <= n && Stored(m, ds[n])
    ensures Related(ClientStored(m, ds[n]), [ds[0], ds[n - 1], ds[n], ds[i]])
  {
    hide *;
    CleanKept(m, ClientStored(m, ds[n]), ds);
    CleanRelated(ClientStored(m, ds[n]), ds, 0, n - 1, n, i);
  }

  /** The links of an old or new client after the links are stored, in terms of those before. */
  lemma AddedEffect(m: Memory, cs: seq<FsClient>, c: FsClient, i: nat)
    requires cs != [] && Clean(m, cs + [c]) && i <= |cs|
    ensures AllStored(m, cs) && Stored(m, c)
    ensures var n, d := AfterAdd(m, cs, c), (cs + [c])[i];
            Stored(n, d) && Stored(ClientStored(m, c), d) &&
            LinkAt(n, d) == Relinked(LinkAt(ClientStored(m, c), d), cs[0], cs[|cs| - 1], c, d)
  {
    CleanMembers(m, cs, c);
    var ds := cs + [c];
    assert ds[0] == cs[0] && ds[|cs| - 1] == cs[|cs| - 1] && ds[|cs|] == c;
    hide *;
    AddedIs(m, cs, c);
    AddedRelated(m, ds, |cs|, i);
    LinkedEffect(ClientStored(m, c), cs[0], cs[|cs| - 1], c, ds[i]);
  }

  /** Linking the new client turns the old ring into the new one. */
  lemma RelinkedRing(cs: seq<FsClient>, c: FsClient, i: nat, l: Link)
    requires cs != [] && i <= |cs|
    requires forall j :: 0 <= j <= |cs| ==> ((cs + [c])[i] == (cs + [c])[j] <==> i == j)
    requires if i < |cs| then l == RingLink(cs, i) else l.handle == c.handle && l.pointer == c.client
    ensures Relinked(l, cs[0], cs[|cs| - 1], c, (cs + [c])[i]) == RingLink(cs + [c], i)
  {
    var ds := cs + [c];
    assert ds[0] == cs[0] && ds[|cs| - 1] == cs[|cs| - 1] && ds[|cs|] == c;
  }

  /** One client of the ring after a later one is added. */
  lemma AddedLink(m: Memory, cs: seq<FsClient>, c: FsClient, i: nat)
    requires cs != [] && Clean(m, cs + [c]) && Ring(m, cs) && i <= |cs|
    ensures AllStored(m, cs) && Stored(m, c)
    ensures var n, ds := AfterAdd(m, cs, c), cs + [c];
            RingAt(n, ds, i)
  {
    var ds := cs + [c];
    hide ClientStored, Linked, LinkAt, Stored, SameLayout, Clean, Relinked, RingLink, AfterAdd, AllStored, Ring;
    AddedEffect(m, cs, c, i);
    FilledLink(m, cs, c, i);
    forall j | 0 <= j <= |cs| ensures ds[i] == ds[j] <==> i == j { WhichClient(m, ds, i, j); }
    RelinkedRing(cs, c, i, LinkAt(ClientStored(m, c), ds[i]));
  }

  /** Positions and clients correspond. */
  lemma WhichClient(m: Memory, ds: seq<FsClient>, i: nat, j: nat)
    requires Clean(m, ds) && i < |ds| && j < |ds|
    ensures ds[i] == ds[j] <==> i == j
  {
    hide WellFormed, Injective;
    if i != j { ApartDiffer(m, ds[i], ds[j]); }
  }

  /** The links once the new client is filled in but not linked. */
  lemma FilledLink(m: Memory, cs: seq<FsClient>, c: FsClient, i: nat)
    requires Clean(m, cs + [c]) && Ring(m, cs) && i <= |cs|
    ensures Stored(m, c) && Stored(ClientStored(m, c), (cs + [c])[i])
    ensures var l := LinkAt(ClientStored(m, c), (cs + [c])[i]);
            if i < |cs| then l == RingLink(cs, i) else l.handle == c.handle && l.pointer == c.client
  {
    CleanMembers(m, cs, c);
    hide ClientStored, LinkAt, Injective, RingLink, Stored, Clean, BodiesApart;
    if i < |cs| {
      assert RingAt(m, cs, i);
      ClientApart(m, c, cs[i]);
    } else {
      ClientFilled(m, c);
    }
  }

  /** The first client alone. */
  lemma FirstLink(m: Memory, c: FsClient)
    requires Stored(m, c) && Injective(m, c.client, CLIENT_SIZE)
    ensures RingAt(AfterAdd(m, [], c), [c], 0)
  {
    var filled := ClientStored(m, c);
    LayoutKeptBy(m, filled, c);
    ClientFilled(m, c);
    hide ClientStored, LinkAt, Stored, StoreBody, Injective, SameLayout;
    LinkStored(filled, c, NEXT, c.body);
    var next := StoreBody(filled, c, NEXT, c.body);
    LayoutKeptBy(filled, next, c);
    LinkStored(next, c, PREV, c.body);
  }

  lemma LayoutKeptBy(m: Memory, n: Memory, c: FsClient)
    requires Stored(m, c) && SameLayout(m, n) && Injective(m, c.client, CLIENT_SIZE)
    ensures Stored(n, c) && Injective(n, c.client, CLIENT_SIZE)
  {
    StoredKept(m, n, c);
    hide Stored, SameLayout, Injective, WellFormed;
    StoredMemory(m, c);
    LayoutKept(m, n, c.client, CLIENT_SIZE, 0, 0);
  }

  /** Adding a client keeps one circular list, with the new client last. */
  lemma AddKeepsRing(m: Memory, cs: seq<FsClient>, c: FsClient)
    requires Clean(m, cs + [c]) && Ring(m, cs)
    ensures AllStored(m, cs) && Stored(m, c) && Ring(AfterAdd(m, cs, c), cs + [c])
  {
    CleanMembers(m, cs, c);
    hide LinkAt, Stored, RingLink, AfterAdd, Clean, RingAt, BodiesApart, Injective, AllStored;
    if cs == [] {
      assert cs + [c] == [c];
      FirstLink(m, c);
    } else {
      forall i | 0 <= i <= |cs| ensures RingAt(AfterAdd(m, cs, c), cs + [c], i) {
        AddedLink(m, cs, c, i);
      }
    }
  }

  // What a ring means for a guest that follows the links

  /** The body reached from the client at index `i` by following `k` next links. */
  ghost function Follow(m: Memory, cs: seq<FsClient>, i: nat, k: nat): (j: nat)
    requires i < |cs|
    ensures j < |cs|
  {
    if k == 0 then i
    else
      var at := Follow(m, cs, i, k - 1);
      if Stored(m, cs[at]) then IndexOf(cs, LinkAt(m, cs[at]).next, at) else at
  }

  /** The client with this body, or a default. */
  function IndexOf(cs: seq<FsClient>, body: Word, default: nat, from: nat := 0): (j: nat)
    requires default < |cs| && from <= |cs|
    ensures j < |cs|
    ensures (exists k :: from <= k < |cs| && cs[k].body == body) ==> cs[j].body == body
    decreases |cs| - from
  {
    if from == |cs| then default
    else if cs[from].body == body then from
    else IndexOf(cs, body, default, from + 1)
  }

  ghost predicate DistinctBodies(cs: seq<FsClient>) {
    forall i, j :: 0 <= i < j < |cs| ==> cs[i].body != cs[j].body
  }

  /** Following next links from any client visits the clients in registration order and comes back. */
  lemma {:induction false} FollowVisits(m: Memory, cs: seq<FsClient>, i: nat, k: nat)
    requires Ring(m, cs) && DistinctBodies(cs) && i < |cs|
    ensures Follow(m, cs, i, k) == (i + k) % |cs|
  {
    hide Stored, LinkAt, IndexOf;
    if k == 0 {
      DivisionUnique(i, |cs|, 0, i);
    } else {
      FollowVisits(m, cs, i, k - 1);
      var at := Follow(m, cs, i, k - 1);
      NextIndex(i + k - 1, |cs|);
      var next := if at + 1 == |cs| then 0 else at + 1;
      assert RingAt(m, cs, at) && LinkAt(m, cs[at]).next == cs[next].body;
      hide Ring, RingAt;
      IndexFound(cs, next, at);
    }
  }

  lemma IndexFound(cs: seq<FsClient>, j: nat, default: nat)
    requires DistinctBodies(cs) && j < |cs| && default < |cs|
    ensures IndexOf(cs, cs[j].body, default) == j
  {
    hide IndexOf;
    var k := IndexOf(cs, cs[j].body, default);
    assert cs[k].body == cs[j].body;
  }

  lemma NextIndex(i: nat, n: nat)
    requires n > 0
    ensures (i + 1) % n == if i % n + 1 == n then 0 else i % n + 1
  {
    if i % n + 1 == n {
      DivisionUnique(i + 1, n, i / n + 1, 0);
    } else {
      DivisionUnique(i + 1, n, i / n, i % n + 1);
    }
  }

  /** `d` follows `c`. */
  ghost predicate Follows(m: Memory, c: FsClient, d: FsClient) {
    Stored(m, c) && Stored(m, d) && LinkAt(m, c).next == d.body && LinkAt(m, d).prev == c.body
  }

  /** The previous link of the next client leads back, and the other way round. */
  lemma LinksInverse(m: Memory, cs: seq<FsClient>, i: nat)
    requires Ring(m, cs) && i < |cs|
    ensures Follows(m, cs[i], cs[if i + 1 == |cs| then 0 else i + 1])
    ensures Follows(m, cs[if i == 0 then |cs| - 1 else i - 1], cs[i])
  {
    hide Stored, LinkAt;
    assert RingAt(m, cs, i);
    assert RingAt(m, cs, if i + 1 == |cs| then 0 else i + 1);
    assert RingAt(m, cs, if i == 0 then |cs| - 1 else i - 1);
  }

  // The registrations

  /** What every run keeps about the list of registrations, apart from memory. */
  ghost predicate Registered(cs: seq<FsClient>, nextHandle: Word) {
    && (forall i :: 0 <= i < |cs| ==> 1 <= cs[i].handle < nextHandle)
    && (forall i, j :: 0 <= i < j < |cs| ==> cs[i].handle < cs[j].handle)
    && (forall i, j :: 0 <= i < j < |cs| ==> ClientsApart(cs[i], cs[j]))
    && DistinctBodies(cs)
  }

  predicate ClientsApart(c: FsClient, d: FsClient) {
    c.client + CLIENT_SIZE <= d.client || d.client + CLIENT_SIZE <= c.client
  }

  /** A registration that is not a duplicate extends the list; handles stay distinct and increasing. */
  lemma AddRegisters(initialised: bool, cs: seq<FsClient>, nextHandle: Word, m: Memory, client: Word)
    requires WellFormed(m) && Registered(cs, nextHandle) && AddOutcome(initialised, cs, nextHandle, m, client).Added?
    ensures nextHandle < WORD_MAX
    ensures var c := AddOutcome(initialised, cs, nextHandle, m, client).registration;
            && Registered(cs + [c], nextHandle + 1) && c.client == client && c.body % 64 == 0 && Stored(m, c)
  {
    var c := AddOutcome(initialised, cs, nextHandle, m, client).registration;
    BodyPlace(m, client, c);
    hide WellFormed, MappedRange, AlignUp, Stored;
    forall i | 0 <= i < |cs| ensures ClientsApart(cs[i], c) && cs[i].body != c.body {
      assert !Duplicate(cs[i], client, c.body);
    }
  }

  /**
   * The outcome from the arguments: with an initialised library and a client, an error if the client's storage is not
   * mapped, and a registration with the body at the next multiple of 64 if no registered client or body meets the
   * new one and handles are left.
   */
  lemma AddExact(initialised: bool, cs: seq<FsClient>, nextHandle: Word, m: Memory, client: Word, body: nat)
    requires WellFormed(m) && RoundsUp(client, 64, body)
    ensures var o := AddOutcome(initialised, cs, nextHandle, m, client);
            var usable := body <= 0xFFFF_FFFF && MappedRange(m, client, 0x1700);
            && (!initialised || client == 0 ==> o.Refused?)
            && (o.Fault? <==> initialised && client != 0 && !usable)
            && (o.Added? <==>
                  && initialised && client != 0 && usable && 1 <= nextHandle <= 0x7FFF_FFFF
                  && forall i :: 0 <= i < |cs| ==>
                       && cs[i].body != body
                       && (client + 0x1700 <= cs[i].client || cs[i].client + 0x1700 <= client))
            && (o.Added? ==> o.registration == FsClient(client, body, nextHandle))
  {
    NextBody(client, body);
    hide WellFormed, MappedRange, AlignUp;
    if exists i :: 0 <= i < |cs| && Duplicate(cs[i], client, body) {
      var i :| 0 <= i < |cs| && Duplicate(cs[i], client, body);
      assert AnyDuplicate(cs, client, body);
    }
  }

  lemma NextBody(client: Word, body: nat)
    requires RoundsUp(client, 64, body)
    ensures AlignUp(client, 64) == body && body + BODY_SIZE <= client + CLIENT_SIZE
  {
    assert Pow2(6) == 64;
    hide Pow2, AlignUp, IsPowerOfTwo;
    Pow2IsPowerOfTwo(6);
    AlignUpMeans(client, 64);
    RoundingIsTight(client, 64, AlignUp(client, 64), body);
    RoundingIsTight(client, 64, body, AlignUp(client, 64));
  }

  lemma BodyPlace(m: Memory, client: Word, c: FsClient)
    requires WellFormed(m) && c.client == client && c.body == AlignUp(client, 64)
    requires c.body + BODY_SIZE <= client + CLIENT_SIZE && MappedRange(m, client, CLIENT_SIZE)
    ensures c.body % 64 == 0 && Stored(m, c)
  {
    assert Pow2(6) == 64;
    hide WellFormed, Mapped, Pow2, AlignUp, IsPowerOfTwo;
    Pow2IsPowerOfTwo(6);
    AlignUpMeans(client, 64);
    SubRange(m, client, CLIENT_SIZE, c.body - client, BODY_SIZE);
  }

  class FsLibrary {
    var initialised: bool
    var clients: seq<FsClient>
    var nextHandle: Word

    constructor ()
      ensures !initialised && clients == [] && nextHandle == 1
    {
      initialised, clients, nextHandle := false, [], 1;
    }

    /** The duplicate test. */
    method IsDuplicate(client: Word, body: nat) returns (duplicate: bool)
      ensures duplicate <==> AnyDuplicate(clients, client, body)
    {
      for i := 0 to |clients|
        invariant forall j :: 0 <= j < i ==> !Duplicate(clients[j], client, body)
      {
        if Duplicate(clients[i], client, body) { return true; }
      }
      return false;
    }

    /** `FSAddClient`. Registered clients are mapped: guest memory is never unmapped. */
    method AddClient(memory: GuestMemory, client: Word) returns (o: Outcome)
      requires memory.Valid() && AllStored(memory.Image(), clients) && Registered(clients, nextHandle)
      modifies this, memory, memory.bytes, memory.flatGenerations
      ensures memory.Valid() && initialised == old(initialised)
      ensures o == AddOutcome(initialised, old(clients), old(nextHandle), old(memory.Image()), client)
      ensures !o.Added? ==> clients == old(clients) && nextHandle == old(nextHandle)
      ensures !o.Added? ==> memory.Image() == old(memory.Image())
      ensures o.Added? ==> nextHandle == old(nextHandle) + 1 && clients == old(clients) + [o.registration]
      ensures o.Added? ==> Stored(old(memory.Image()), o.registration) &&
                           memory.Image() == AfterAdd(old(memory.Image()), old(clients), o.registration)
    {
      o := Decide(memory, client);
      if !o.Added? { return; }
      AddRegisters(initialised, clients, nextHandle, memory.Image(), client);
      hide *;
      Register(memory, o.registration);
    }

    method Register(memory: GuestMemory, c: FsClient)
      requires memory.Valid() && Stored(memory.Image(), c) && AllStored(memory.Image(), clients)
      requires nextHandle < WORD_MAX
      modifies this, memory, memory.bytes, memory.flatGenerations
      ensures memory.Valid() && memory.Image() == AfterAdd(old(memory.Image()), old(clients), c)
      ensures initialised == old(initialised) && clients == old(clients) + [c] && nextHandle == old(nextHandle) + 1
    {
      hide *;
      StoreClient(memory, clients, c);
      Append(c);
    }

    method Append(c: FsClient)
      requires nextHandle < WORD_MAX
      modifies this
      ensures initialised == old(initialised) && clients == old(clients) + [c] && nextHandle == old(nextHandle) + 1
    {
      clients := clients + [c];
      nextHandle := nextHandle + 1;
    }

    method Decide(memory: GuestMemory, client: Word) returns (o: Outcome)
      requires memory.Valid()
      ensures o == AddOutcome(initialised, clients, nextHandle, memory.Image(), client)
    {
      hide WellFormed, MappedRange, AlignUp, AnyDuplicate;
      if !initialised || client == 0 { return Refused; }
      if client + CLIENT_SIZE > ADDRESS_SPACE_END {
        EndOfMemory(memory.Image(), client);
        return Fault;
      }
      var body := AlignUp(client, 64);
      if body > WORD_MAX || body + BODY_SIZE > client + CLIENT_SIZE { return Fault; }
      var mapped := ValidateRange(memory, client, CLIENT_SIZE);
      if !mapped { return Fault; }
      var duplicate := IsDuplicate(client, body);
      if duplicate || nextHandle == 0 || nextHandle > 0x7FFF_FFFF { return Refused; }
      return Added(FsClient(client, body, nextHandle));
    }
  }

  lemma EndOfMemory(m: Memory, client: Word)
    requires client + CLIENT_SIZE > ADDRESS_SPACE_END
    ensures !MappedRange(m, client, CLIENT_SIZE)
  {
  }

  method StoreBodyWord(memory: GuestMemory, c: FsClient, o: nat, v: Word)
    requires memory.Valid() && Stored(memory.Image(), c) && o + 4 <= BODY_SIZE
    modifies memory, memory.bytes, memory.flatGenerations
    ensures memory.Valid() && memory.Image() == StoreBody(old(memory.Image()), c, o, v)
  {
    BodyWord(memory.Image(), c, o);
    hide WellFormed, MappedRange, StoreWord, SameLayout;
    StoreWordAt(memory, c.body + o, v);
  }

  method FillClient(memory: GuestMemory, c: FsClient)
    requires memory.Valid() && Stored(memory.Image(), c)
    modifies memory, memory.bytes, memory.flatGenerations
    ensures memory.Valid() && memory.Image() == ClientStored(old(memory.Image()), c)
  {
    BodyWordsFit(c);
    hide WellFormed, MappedRange, StoreWords, SameLayout, BodyWords, StoresFit, StoreBytes;
    FillRange(memory, c.client, CLIENT_SIZE, 0);
    StoreAllWords(memory, c.body, BODY_SIZE, BodyWords(c));
  }

  /** The first client: next and previous are the client itself. */
  method LinkFirst(memory: GuestMemory, c: FsClient)
    requires memory.Valid() && Stored(memory.Image(), c)
    modifies memory, memory.bytes, memory.flatGenerations
    ensures memory.Valid() && memory.Image() == FirstLinked(old(memory.Image()), c)
  {
    hide Stored, StoreBody, SameLayout;
    StoreBodyWord(memory, c, NEXT, c.body);
    StoreBodyWord(memory, c, PREV, c.body);
  }

  method LinkLast(memory: GuestMemory, head: FsClient, tail: FsClient, c: FsClient)
    requires memory.Valid()
    requires Stored(memory.Image(), c) && Stored(memory.Image(), head) && Stored(memory.Image(), tail)
    modifies memory, memory.bytes, memory.flatGenerations
    ensures memory.Valid() && memory.Image() == Linked(old(memory.Image()), head, tail, c)
  {
    ghost var m := memory.Image();
    ghost var next := StoreBody(m, c, NEXT, head.body);
    ghost var prev := StoreBody(next, c, PREV, tail.body);
    StoredKept(m, next, tail);
    StoredKept(next, prev, tail);
    ghost var after := StoreBody(prev, tail, NEXT, c.body);
    StoredKept(m, next, head);
    StoredKept(next, prev, head);
    StoredKept(prev, after, head);
    hide Stored, StoreBody, SameLayout;
    StoreBodyWord(memory, c, NEXT, head.body);
    StoreBodyWord(memory, c, PREV, tail.body);
    StoreBodyWord(memory, tail, NEXT, c.body);
    StoreBodyWord(memory, head, PREV, c.body);
  }

  method StoreClient(memory: GuestMemory, clients: seq<FsClient>, c: FsClient)
    requires memory.Valid() && Stored(memory.Image(), c) && AllStored(memory.Image(), clients)
    modifies memory, memory.bytes, memory.flatGenerations
    ensures memory.Valid() && memory.Image() == AfterAdd(old(memory.Image()), clients, c)
  {
    hide Stored, ClientStored, FirstLinked, Linked, SameLayout;
    if |clients| > 0 { AddedIs(memory.Image(), clients, c); }
    FillClient(memory, c);
    if |clients| == 0 {
      LinkFirst(memory, c);
    } else {
      LinkLast(memory, clients[0], clients[|clients| - 1], c);
    }
  }

  // Runs

  datatype Library = Library(clients: seq<FsClient>, nextHandle: Word, memory: Memory)

  /** A registration, or guest activity that leaves the registered bodies' links alone. */
  datatype Event = Add(client: Word) | GuestActivity

  ghost predicate Steps(s: Library, e: Event, t: Library)
    requires WellFormed(s.memory) && AllStored(s.memory, s.clients)
  {
    match e
    case Add(client) =>
      var o := AddOutcome(true, s.clients, s.nextHandle, s.memory, client);
      if !o.Added? then t == s
      else
        && t == Library(s.clients + [o.registration], t.nextHandle, AfterAdd(s.memory, s.clients, o.registration))
        && t.nextHandle == s.nextHandle + 1
    case GuestActivity =>
      && t.clients == s.clients && t.nextHandle == s.nextHandle && SameLayout(s.memory, t.memory)
      && forall i :: 0 <= i < |s.clients| ==>
           SpanKept(s.memory, t.memory, s.clients[i].body, BODY_SIZE)
  }

  ghost predicate Good(s: Library) {
    WellFormed(s.memory) && Registered(s.clients, s.nextHandle) && Ring(s.memory, s.clients)
  }

  /** No alias meets the clients' storage, or at least no cell of it is shared. */
  ghost predicate Exclusive(s: Library) {
    Unaliased(s.memory, s.clients) || Clean(s.memory, s.clients)
  }

  lemma ExclusiveClean(s: Library, m: Memory)
    requires Exclusive(s) && SameLayout(m, s.memory) && WellFormed(m) && AllStored(m, s.clients)
    requires Registered(s.clients, s.nextHandle)
    ensures Clean(m, s.clients)
  {
    if Unaliased(s.memory, s.clients) {
      assert Unaliased(m, s.clients);
      UnaliasedClean(m, s.clients);
    } else {
      assert SameLayout(s.memory, m);
      CleanKept(s.memory, m, s.clients);
    }
    hide Clean, Stored, WellFormed, CellOf;
  }

  lemma RingStored(m: Memory, cs: seq<FsClient>)
    requires Ring(m, cs)
    ensures AllStored(m, cs)
  {
    hide Stored, LinkAt, RingLink;
    forall i | 0 <= i < |cs| ensures Stored(m, cs[i]) { assert RingAt(m, cs, i); }
  }

  lemma GuestKeeps(s: Library, t: Library)
    requires Good(s) && AllStored(s.memory, s.clients) && Steps(s, GuestActivity, t)
    ensures Good(t)
  {
    SameCells(s.memory, t.memory);
    hide WellFormed, Stored, LinkAt, RingLink, Registered, SpanKept, SameLayout;
    forall i | 0 <= i < |t.clients| ensures RingAt(t.memory, t.clients, i) {
      assert RingAt(s.memory, s.clients, i);
      BodyKept(s.memory, t.memory, s.clients[i]);
    }
  }

  lemma AddSteps(s: Library, t: Library, client: Word)
    requires WellFormed(s.memory) && AllStored(s.memory, s.clients) && Steps(s, Add(client), t)
    ensures var o := AddOutcome(true, s.clients, s.nextHandle, s.memory, client);
            if !o.Added? then t == s
            else && Stored(s.memory, o.registration) && t.clients == s.clients + [o.registration]
                 && t.nextHandle == s.nextHandle + 1 && t.memory == AfterAdd(s.memory, s.clients, o.registration)
                 && SameLayout(s.memory, t.memory) && AllStored(s.memory, t.clients)
  {
    hide AddOutcome, AfterAdd, Stored, WellFormed, SameLayout;
  }

  lemma AddKeeps(s: Library, t: Library, client: Word)
    requires Good(s) && AllStored(s.memory, s.clients) && Steps(s, Add(client), t) && Exclusive(t)
    ensures Good(t)
  {
    hide *;
    GoodMeans(s);
    AddSteps(s, t, client);
    var o := AddOutcome(true, s.clients, s.nextHandle, s.memory, client);
    if o.Added? {
      AddRegisters(true, s.clients, s.nextHandle, s.memory, client);
      ExclusiveClean(t, s.memory);
      AddKeepsRing(s.memory, s.clients, o.registration);
      StillWellFormed(s.memory, t.memory);
      GoodIs(t);
    }
  }

  lemma StillWellFormed(m: Memory, n: Memory)
    requires WellFormed(m) && SameLayout(m, n)
    ensures WellFormed(n)
  {
    SameCells(m, n);
  }

  lemma GoodIs(s: Library)
    requires WellFormed(s.memory) && Registered(s.clients, s.nextHandle) && Ring(s.memory, s.clients)
    ensures Good(s)
  {
  }

  ghost predicate IsRun(states: seq<Library>, events: seq<Event>) {
    && |states| == |events| + 1 && Good(states[0])
    && forall i :: 0 <= i < |events| ==>
         (Good(states[i]) && AllStored(states[i].memory, states[i].clients) ==>
            Steps(states[i], events[i], states[i + 1]))
  }

  /**
   * Over any run in which no client shares storage through an alias, the ring visits all clients in
   * registration order, apart and with distinct handles.
   */
  lemma {:induction false} RunKeepsRing(states: seq<Library>, events: seq<Event>, n: nat)
    requires IsRun(states, events) && n <= |events|
    requires forall i :: 0 <= i <= n ==> Exclusive(states[i])
    ensures Ring(states[n].memory, states[n].clients) && Registered(states[n].clients, states[n].nextHandle)
    ensures Good(states[n])
  {
    if n > 0 {
      RunKeepsRing(states, events, n - 1);
      RingStored(states[n - 1].memory, states[n - 1].clients);
      hide Good, Steps, AllStored, Ring, Exclusive;
      assert Steps(states[n - 1], events[n - 1], states[n]);
      if events[n - 1].Add? {
        AddKeeps(states[n - 1], states[n], events[n - 1].client);
      } else {
        GuestKeeps(states[n - 1], states[n]);
      }
      GoodMeans(states[n]);
    }
  }

  lemma GoodMeans(s: Library)
    requires Good(s)
    ensures Ring(s.memory, s.clients) && Registered(s.clients, s.nextHandle) && WellFormed(s.memory)
  {
  }
}
