/**
 * Accesses to guest memory as the system calls make them. A call validates the whole object first, so
 * its single accesses cannot fail: each method here requires its range to be mapped and states the
 * stores it makes over the memory image, which is what the callers' specifications are built from.
 */
module GuestAccess {
  import opened Bits
  import opened MemoryImage
  import opened GuestObjects
  import opened GuestMemoryModel

  /** `validate_read_range` and `validate_write_range` of a nonempty range, with the wrap check. */
  method ValidateRange(memory: GuestMemory, address: nat, width: nat) returns (ok: bool)
    requires memory.Valid() && width > 0
    ensures ok <==> MappedRange(memory.Image(), address, width)
  {
    if address + width > ADDRESS_SPACE_END { return false; }
    hide WellFormed, Mapped;
    ok := memory.ValidateAccess(address, width);
  }

  method LoadWord(memory: GuestMemory, address: nat) returns (v: Word)
    requires memory.Valid() && MappedRange(memory.Image(), address, 4)
    ensures v == WordAt(memory.Image(), address)
  {
    hide WellFormed, CellOf, Mapped, LoadBytes, BigEndian;
    var _, value := memory.LoadScalar(address, 4);
    assert value == WordAt(memory.Image(), address);
    v := value;
  }

  method LoadRange(memory: GuestMemory, address: nat, width: nat) returns (bs: seq<Byte>)
    requires memory.Valid() && width > 0 && MappedRange(memory.Image(), address, width)
    ensures bs == LoadBytes(memory.Image(), address, width)
  {
    hide WellFormed, CellOf, Mapped, LoadBytes;
    var _, data := memory.ReadBytes(address, width);
    bs := data;
  }

  method StoreWordAt(memory: GuestMemory, address: nat, v: Word)
    requires memory.Valid() && MappedRange(memory.Image(), address, 4)
    modifies memory, memory.bytes, memory.flatGenerations
    ensures memory.Valid() && memory.Image() == StoreWord(old(memory.Image()), address, v)
  {
    hide WellFormed, CellOf, Mapped, StoreBytes, BytesOf;
    var _ := memory.StoreScalar(address, v, 4);
  }

  method StoreRange(memory: GuestMemory, address: nat, bs: seq<Byte>)
    requires memory.Valid() && bs != [] && MappedRange(memory.Image(), address, |bs|)
    modifies memory, memory.bytes, memory.flatGenerations
    ensures memory.Valid() && memory.Image() == StoreBytes(old(memory.Image()), address, bs)
  {
    hide WellFormed, CellOf, Mapped, StoreBytes;
    var _ := memory.WriteBytes(address, bs);
  }

  method StoreNextWord(memory: GuestMemory, ghost m: Memory, address: nat, ghost size: nat, ws: seq<WordStore>, i: nat)
    requires WellFormed(m) && MappedRange(m, address, size) && StoresFit(ws, size) && i < |ws|
    requires memory.Valid() && StoresFit(ws[..i], size)
    requires memory.Image() == StoreWords(m, address, size, ws[..i])
    modifies memory, memory.bytes, memory.flatGenerations
    ensures memory.Valid() && StoresFit(ws[..i + 1], size)
    ensures memory.Image() == StoreWords(m, address, size, ws[..i + 1])
  {
    hide *;
    StoreWordsNext(m, address, size, ws, i);
    StoreWordAt(memory, address + ws[i].offset, ws[i].value);
  }

  /** The stores that initialise an object, in order. */
  method StoreAllWords(memory: GuestMemory, address: nat, ghost size: nat, ws: seq<WordStore>)
    requires memory.Valid() && WellFormed(memory.Image()) && MappedRange(memory.Image(), address, size)
    requires StoresFit(ws, size)
    modifies memory, memory.bytes, memory.flatGenerations
    ensures memory.Valid() && memory.Image() == StoreWords(old(memory.Image()), address, size, ws)
  {
    ghost var m := memory.Image();
    GuestObjects.StoreNone(m, address, size);
    assert ws[..0] == [] && ws[..|ws|] == ws;
    hide *;
    for i := 0 to |ws|
      invariant memory.Valid() && StoresFit(ws[..i], size)
      invariant memory.Image() == StoreWords(m, address, size, ws[..i])
    {
      StoreNextWord(memory, m, address, size, ws, i);
    }
  }

  method FillRange(memory: GuestMemory, address: nat, width: nat, value: Byte)
    requires memory.Valid() && width > 0 && MappedRange(memory.Image(), address, width)
    modifies memory, memory.bytes, memory.flatGenerations
    ensures memory.Valid()
    ensures memory.Image() == StoreBytes(old(memory.Image()), address, seq<Byte>(width, _ => value))
  {
    hide WellFormed, CellOf, Mapped, StoreBytes;
    var _ := memory.FillBytes(address, width, value);
  }

  /** Clears an object and stores its words. */
  method InitialiseObject(memory: GuestMemory, address: nat, size: nat, ws: seq<WordStore>)
    requires memory.Valid() && WellFormed(memory.Image()) && MappedRange(memory.Image(), address, size)
    requires size > 0 && StoresFit(ws, size)
    modifies memory, memory.bytes, memory.flatGenerations
    ensures memory.Valid() && memory.Image() == Initialised(old(memory.Image()), address, size, ws)
  {
    hide WellFormed, CellOf, Mapped, MappedRange, StoreBytes, StoreWords, SameLayout, StoresFit;
    FillRange(memory, address, size, 0);
    StoreAllWords(memory, address, size, ws);
  }
}
