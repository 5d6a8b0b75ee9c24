/** What the register shadow holds, by position in the command stream: the last write of every slot. */
module LastWrites {
  import opened RegisterState

  // Which commands set a slot

  predicate SetsVertexBuffer(c: Command, i: nat) {
    c.SetVertexBuffer? && c.vertexBuffer.Some? && c.vertexBuffer.value.index == i
  }

  predicate SetsShader(c: Command, stage: nat) {
    c.SetProgramShader? && c.programShader.Some? && c.programShader.value.stage == stage
  }

  predicate SetsTarget(c: Command, i: nat) {
    c.SetColorBuffer? && c.colorBuffer.Some? && c.colorBuffer.value.target == i
  }

  predicate SetsDepth(c: Command) { c.SetDepthBuffer? && c.depthBuffer.Some? }

  predicate Writes(c: Command, a: nat) { c.Write? && c.address == a }

  /** Slot i of the vertex buffers: the last one set with that index, or none. */
  ghost predicate VertexSlot(cs: seq<Command>, i: nat, v: Option<VertexBuffer>) {
    && ((forall k :: 0 <= k < |cs| ==> !SetsVertexBuffer(cs[k], i)) ==> v == None)
    && (forall k ::
          (0 <= k < |cs| && SetsVertexBuffer(cs[k], i) && forall j :: k < j < |cs| ==> !SetsVertexBuffer(cs[j], i)) ==>
            v == cs[k].vertexBuffer)
  }

  ghost predicate ShaderSlot(cs: seq<Command>, stage: nat, v: Option<ProgramShader>) {
    && ((forall k :: 0 <= k < |cs| ==> !SetsShader(cs[k], stage)) ==> v == None)
    && (forall k ::
          (0 <= k < |cs| && SetsShader(cs[k], stage) && forall j :: k < j < |cs| ==> !SetsShader(cs[j], stage)) ==>
            v == cs[k].programShader)
  }

  /** The fetch shader: the last one set, which may be none. */
  ghost predicate FetchSlot(cs: seq<Command>, v: Option<FetchShader>) {
    && ((forall k :: 0 <= k < |cs| ==> !cs[k].SetFetchShader?) ==> v == None)
    && (forall k ::
          (0 <= k < |cs| && cs[k].SetFetchShader? && forall j :: k < j < |cs| ==> !cs[j].SetFetchShader?) ==>
            v == cs[k].fetchShader)
  }

  /** Color target i: the last one set, and none if its address is 0. */
  ghost predicate TargetSlot(cs: seq<Command>, i: nat, v: Option<ColorBuffer>) {
    && ((forall k :: 0 <= k < |cs| ==> !SetsTarget(cs[k], i)) ==> v == None)
    && (forall k ::
          (0 <= k < |cs| && SetsTarget(cs[k], i) && forall j :: k < j < |cs| ==> !SetsTarget(cs[j], i)) ==>
            v == if cs[k].colorBuffer.value.address == 0 then None else cs[k].colorBuffer)
  }

  ghost predicate DepthSlot(cs: seq<Command>, v: Option<DepthBuffer>) {
    && ((forall k :: 0 <= k < |cs| ==> !SetsDepth(cs[k])) ==> v == None)
    && (forall k ::
          (0 <= k < |cs| && SetsDepth(cs[k]) && forall j :: k < j < |cs| ==> !SetsDepth(cs[j])) ==>
            v == if cs[k].depthBuffer.value.address == 0 then None else cs[k].depthBuffer)
  }

  /** A register: absent until written, then with the kind and the value of the last write. */
  ghost predicate RegisterSlot(cs: seq<Command>, a: nat, registers: map<nat, RegisterValue>) {
    && ((forall k :: 0 <= k < |cs| ==> !Writes(cs[k], a)) ==> a !in registers)
    && (forall k ::
          (0 <= k < |cs| && Writes(cs[k], a) && forall j :: k < j < |cs| ==> !Writes(cs[j], a)) ==>
            a in registers && registers[a] == RegisterValue(cs[k].kind, cs[k].value))
  }

  /** Every slot holds its last write. */
  ghost predicate LastWins(cs: seq<Command>, b: Bindings) {
    && |b.vertexBuffers| == 16 && (forall i :: 0 <= i < 16 ==> VertexSlot(cs, i, b.vertexBuffers[i]))
    && |b.programShaders| == 3 && (forall i :: 0 <= i < 3 ==> ShaderSlot(cs, i, b.programShaders[i]))
    && |b.colorBuffers| == 8 && (forall i :: 0 <= i < 8 ==> TargetSlot(cs, i, b.colorBuffers[i]))
    && FetchSlot(cs, b.fetchShader) && DepthSlot(cs, b.depthBuffer)
    && forall a: nat :: RegisterSlot(cs, a, b.registers)
  }

  // One more command

  lemma VertexNext(cs: seq<Command>, c: Command, i: nat, v: Option<VertexBuffer>)
    requires VertexSlot(cs, i, v)
    ensures VertexSlot(cs + [c], i, if SetsVertexBuffer(c, i) then c.vertexBuffer else v)
  {
    hide SetsVertexBuffer;
    Extend(cs, c);
  }

  lemma ShaderNext(cs: seq<Command>, c: Command, i: nat, v: Option<ProgramShader>)
    requires ShaderSlot(cs, i, v)
    ensures ShaderSlot(cs + [c], i, if SetsShader(c, i) then c.programShader else v)
  {
    hide SetsShader;
    Extend(cs, c);
  }

  lemma FetchNext(cs: seq<Command>, c: Command, v: Option<FetchShader>)
    requires FetchSlot(cs, v)
    ensures FetchSlot(cs + [c], if c.SetFetchShader? then c.fetchShader else v)
  {
    Extend(cs, c);
  }

  lemma TargetNext(cs: seq<Command>, c: Command, i: nat, v: Option<ColorBuffer>)
    requires TargetSlot(cs, i, v)
    ensures TargetSlot(cs + [c], i, if !SetsTarget(c, i) then v
                                    else if c.colorBuffer.value.address == 0 then None else c.colorBuffer)
  {
    Extend(cs, c);
  }

  lemma DepthNext(cs: seq<Command>, c: Command, v: Option<DepthBuffer>)
    requires DepthSlot(cs, v)
    ensures DepthSlot(cs + [c], if !SetsDepth(c) then v
                                else if c.depthBuffer.value.address == 0 then None else c.depthBuffer)
  {
    Extend(cs, c);
  }

  lemma RegisterNext(cs: seq<Command>, c: Command, a: nat, registers: map<nat, RegisterValue>)
    requires RegisterSlot(cs, a, registers)
    ensures RegisterSlot(cs + [c], a, if c.Write? then registers[c.address := RegisterValue(c.kind, c.value)]
                                      else registers)
  {
    Extend(cs, c);
  }

  lemma Extend(cs: seq<Command>, c: Command)
    ensures |cs + [c]| == |cs| + 1 && (cs + [c])[|cs|] == c
    ensures forall k :: 0 <= k < |cs| ==> (cs + [c])[k] == cs[k]
  {
  }

  lemma LastWinsStart()
    ensures LastWins([], FRESH.bindings)
  {
  }

  lemma BindNext(cs: seq<Command>, b: Bindings, c: Command)
    requires LastWins(cs, b)
    ensures LastWins(cs + [c], Bind(b, c))
  {
    hide VertexSlot, ShaderSlot, FetchSlot, TargetSlot, DepthSlot, RegisterSlot;
    var n := Bind(b, c);
    forall i | 0 <= i < 16 ensures VertexSlot(cs + [c], i, n.vertexBuffers[i]) {
      VertexNext(cs, c, i, b.vertexBuffers[i]);
    }
    forall i | 0 <= i < 3 ensures ShaderSlot(cs + [c], i, n.programShaders[i]) {
      ShaderNext(cs, c, i, b.programShaders[i]);
    }
    forall i | 0 <= i < 8 ensures TargetSlot(cs + [c], i, n.colorBuffers[i]) {
      TargetNext(cs, c, i, b.colorBuffers[i]);
    }
    forall a: nat ensures RegisterSlot(cs + [c], a, n.registers) { RegisterNext(cs, c, a, b.registers); }
    FetchNext(cs, c, b.fetchShader);
    DepthNext(cs, c, b.depthBuffer);
  }

  lemma OtherNext(cs: seq<Command>, b: Bindings, c: Command)
    requires LastWins(cs, b) && (c.GpuFence? || c.ScanBufferSwap? || c.Draw?)
    ensures LastWins(cs + [c], b)
  {
    BindNext(cs, b, c);
    assert Bind(b, c) == b;
    hide LastWins;
  }

  /** After any command stream from a fresh shadow every slot holds its last write. */
  lemma {:induction false} LastWriteWins(cs: seq<Command>)
    ensures LastWins(cs, ApplyAll(FRESH, cs).bindings)
    decreases |cs|
  {
    hide LastWins, Bind, RecordDraw;
    if cs == [] {
      LastWinsStart();
    } else {
      var before, c := cs[..|cs| - 1], cs[|cs| - 1];
      LastWriteWins(before);
      assert before + [c] == cs;
      var b := ApplyAll(FRESH, before).bindings;
      if c.GpuFence? || c.ScanBufferSwap? || c.Draw? { OtherNext(before, b, c); } else { BindNext(before, b, c); }
    }
  }

  /** Every draw sees, in each slot, the last write before it. */
  lemma DrawSeesLastWrites(cs: seq<Command>, p: nat) returns (seen: Bindings)
    requires p < |cs| && cs[p].Draw?
    ensures LastWins(cs[..p], seen) && EntryIs(ApplyAll(FRESH, cs).draws, CountDraws(cs[..p]), cs[p], seen)
  {
    hide LastWins, EntryIs, ApplyAll;
    seen := ApplyAll(FRESH, cs[..p]).bindings;
    LastWriteWins(cs[..p]);
    SnapshotIsReplay(cs, p);
  }

  /** Where the sampler registers of a stage start; compute samplers share those of the vertex stage. */
  function SamplerStart(stage: Stage): nat {
    if stage == Pixel then 0x3C000 else if stage == Geometry then 0x3C1B0 else 0x3C0D8
  }

  function TextureStart(stage: Stage): nat {
    if stage == Pixel then 0x38000 else if stage == Geometry then 0x3A4C0 else 0x39180
  }

  /** The last write of the register is command k, of that kind. */
  ghost predicate LastWriteAt(cs: seq<Command>, a: nat, kind: Kind, k: int) {
    && 0 <= k < |cs| && Writes(cs[k], a) && cs[k].kind == kind
    && forall j :: k < j < |cs| ==> !Writes(cs[j], a)
  }

  ghost predicate LastKind(cs: seq<Command>, a: nat, kind: Kind) { exists k :: LastWriteAt(cs, a, kind, k) }

  ghost predicate LastValue(cs: seq<Command>, a: nat, kind: Kind, value: bv32) {
    exists k :: LastWriteAt(cs, a, kind, k) && cs[k].value == value
  }

  function WordPlace(first: nat, i: nat): nat { first + 4 * i }

  /**
   * A sampler has its three words, and a texture resource its seven, exactly when the last writes of their registers
   * were sampler writes or resource writes, and then they are those values.
   */
  lemma UnitHoldsLastWrites(cs: seq<Command>, stage: Stage, unit: nat)
    requires unit < 16
    ensures var registers := ApplyAll(FRESH, cs).bindings.registers;
            && UnitIs(cs, Sampler(registers, stage, unit), SamplerStart(stage) + 12 * unit, 3, ShaderSampler)
            && UnitIs(cs, TextureResource(registers, stage, unit), TextureStart(stage) + 28 * unit, 7, ShaderResource)
  {
    LastWriteWins(cs);
    var registers := ApplyAll(FRESH, cs).bindings.registers;
    hide ApplyAll, VertexSlot, ShaderSlot, FetchSlot, TargetSlot, DepthSlot, RegisterSlot;
    WordsLast(cs, registers, SamplerStart(stage) + 12 * unit, 3, ShaderSampler);
    WordsLast(cs, registers, TextureStart(stage) + 28 * unit, 7, ShaderResource);
    hide Words, UnitIs;
  }

  ghost predicate UnitIs(cs: seq<Command>, words: Option<seq<bv32>>, first: nat, count: nat, kind: Kind) {
    && (words.Some? <==> forall i: nat :: i < count ==> LastKind(cs, WordPlace(first, i), kind))
    && (words.Some? ==> |words.value| == count &&
                        forall i: nat :: i < count ==> LastValue(cs, WordPlace(first, i), kind, words.value[i]))
  }

  lemma WordsLast(cs: seq<Command>, registers: map<nat, RegisterValue>, first: nat, count: nat, kind: Kind)
    requires forall a: nat :: RegisterSlot(cs, a, registers)
    ensures UnitIs(cs, Words(registers, first, count, kind), first, count, kind)
  {
    hide RegisterSlot, LastKind, LastValue;
    forall i: nat | i < count
      ensures first + 4 * i in registers && registers[first + 4 * i].kind == kind <==>
              LastKind(cs, WordPlace(first, i), kind)
      ensures first + 4 * i in registers && registers[first + 4 * i].kind == kind ==>
                LastValue(cs, WordPlace(first, i), kind, registers[first + 4 * i].value)
    {
      RegisterLast(cs, registers, first + 4 * i, kind);
    }
    if forall i: nat :: i < count ==> LastKind(cs, WordPlace(first, i), kind) {
      forall i | 0 <= i < count
        ensures first + 4 * i in registers && registers[first + 4 * i].kind == kind
      {
        assert LastKind(cs, WordPlace(first, i), kind);
      }
      assert Complete(registers, first, count, kind);
    }
    if Complete(registers, first, count, kind) {
      forall i: nat | i < count
        ensures LastKind(cs, WordPlace(first, i), kind)
        ensures LastValue(cs, WordPlace(first, i), kind, ValueAt(registers, first + 4 * i))
      {
        assert first + 4 * i in registers && registers[first + 4 * i].kind == kind;
      }
    }
  }

  lemma RegisterLast(cs: seq<Command>, registers: map<nat, RegisterValue>, a: nat, kind: Kind)
    requires RegisterSlot(cs, a, registers)
    ensures a in registers && registers[a].kind == kind <==> LastKind(cs, a, kind)
    ensures a in registers && registers[a].kind == kind ==> LastValue(cs, a, kind, registers[a].value)
  {
    if a in registers {
      var k := LastWriter(cs, a);
      assert LastWriteAt(cs, a, registers[a].kind, k);
    }
    if LastKind(cs, a, kind) {
      var k :| LastWriteAt(cs, a, kind, k);
      assert Writes(cs[k], a);
    }
  }

  lemma {:induction false} LastWriter(cs: seq<Command>, a: nat) returns (k: int)
    ensures -1 <= k < |cs| && (k >= 0 ==> Writes(cs[k], a))
    ensures forall j :: k < j < |cs| ==> !Writes(cs[j], a)
  {
    if cs == [] {
      k := -1;
    } else if Writes(cs[|cs| - 1], a) {
      k := |cs| - 1;
    } else {
      k := LastWriter(cs[..|cs| - 1], a);
    }
  }

  /** The fences and the buffer swaps of a stream, in order. */
  function Fences(cs: seq<Command>): seq<Command> {
    if cs == [] then [] else (if cs[0].GpuFence? then [cs[0]] else []) + Fences(cs[1..])
  }

  function Swaps(cs: seq<Command>): seq<Command> {
    if cs == [] then [] else (if cs[0].ScanBufferSwap? then [cs[0]] else []) + Swaps(cs[1..])
  }

  lemma {:induction false} FencesNext(cs: seq<Command>, c: Command)
    ensures Fences(cs + [c]) == Fences(cs) + if c.GpuFence? then [c] else []
  {
    if cs != [] {
      FencesNext(cs[1..], c);
      HeadAndRest(cs, c);
      var own := if cs[0].GpuFence? then [cs[0]] else [];
      JoinTail(own, Fences(cs[1..]), if c.GpuFence? then [c] else []);
    }
  }

  lemma {:induction false} SwapsNext(cs: seq<Command>, c: Command)
    ensures Swaps(cs + [c]) == Swaps(cs) + if c.ScanBufferSwap? then [c] else []
  {
    if cs != [] {
      SwapsNext(cs[1..], c);
      HeadAndRest(cs, c);
      var own := if cs[0].ScanBufferSwap? then [cs[0]] else [];
      JoinTail(own, Swaps(cs[1..]), if c.ScanBufferSwap? then [c] else []);
    }
  }

  lemma HeadAndRest(cs: seq<Command>, c: Command)
    requires cs != []
    ensures (cs + [c])[0] == cs[0] && (cs + [c])[1..] == cs[1..] + [c]
  {
  }

  lemma JoinTail(a: seq<Command>, b: seq<Command>, c: seq<Command>)
    ensures a + (b + c) == (a + b) + c
  {
  }

  /** No fence and no swap is lost or reordered. */
  lemma {:induction false} EventsKept(cs: seq<Command>)
    ensures ApplyAll(FRESH, cs).fences == Fences(cs) && ApplyAll(FRESH, cs).swaps == Swaps(cs)
    decreases |cs|
  {
    hide Bind, RecordDraw;
    if cs != [] {
      var before, c := cs[..|cs| - 1], cs[|cs| - 1];
      EventsKept(before);
      assert before + [c] == cs;
      FencesNext(before, c);
      SwapsNext(before, c);
    }
  }
}
