/** The shadow of Latte register writes and bindings, and the snapshots taken at every draw. */
module RegisterState {

  datatype Option<T> = None | Some(value: T)

  datatype Kind = ContextRegister | ShaderResource | ShaderSampler
  datatype Stage = Pixel | Vertex | Geometry | Compute

  datatype VertexBuffer = VertexBuffer(index: nat, size: bv32, stride: bv32, address: bv32)
  datatype FetchShader = FetchShader(data: seq<bv32>)
  datatype ProgramShader = ProgramShader(stage: nat, data: seq<bv32>)
  datatype ColorBuffer = ColorBuffer(target: nat, address: bv32, data: seq<bv32>)
  datatype DepthBuffer = DepthBuffer(address: bv32, data: seq<bv32>)

  datatype Command =
    | Write(kind: Kind, address: nat, value: bv32)
    | GpuFence(fence: seq<bv32>)
    | ScanBufferSwap(interval: bv32)
    | SetVertexBuffer(vertexBuffer: Option<VertexBuffer>)
    | SetFetchShader(fetchShader: Option<FetchShader>)
    | SetProgramShader(programShader: Option<ProgramShader>)
    | SetColorBuffer(colorBuffer: Option<ColorBuffer>)
    | SetDepthBuffer(depthBuffer: Option<DepthBuffer>)
    | Flush
    | DrawDone
    | Draw(arguments: seq<bv32>)

  datatype RegisterValue = RegisterValue(kind: Kind, value: bv32)

  /** The words bound to the texture and sampler units of the pixel, vertex and geometry stages. */
  datatype Resources = Resources(textures: seq<seq<Option<seq<bv32>>>>, samplers: seq<seq<Option<seq<bv32>>>>)

  /** What a draw depends on. */
  datatype Bindings = Bindings(
    registers: map<nat, RegisterValue>, vertexBuffers: seq<Option<VertexBuffer>>, fetchShader: Option<FetchShader>,
    programShaders: seq<Option<ProgramShader>>, colorBuffers: seq<Option<ColorBuffer>>,
    depthBuffer: Option<DepthBuffer>)

  /** The per-draw vectors. */
  datatype Draws = Draws(
    calls: seq<Command>, vertexBuffers: seq<seq<Option<VertexBuffer>>>, fetchShaders: seq<Option<FetchShader>>,
    programShaders: seq<seq<Option<ProgramShader>>>, resources: seq<Resources>,
    colorBuffers: seq<seq<Option<ColorBuffer>>>, depthBuffers: seq<Option<DepthBuffer>>,
    registers: seq<map<nat, RegisterValue>>)

  datatype Shadow = Shadow(bindings: Bindings, fences: seq<Command>, swaps: seq<Command>, draws: Draws)

  const UNITS: nat := 16
  const TEXTURE_WORDS: nat := 7
  const SAMPLER_WORDS: nat := 3

  function TextureBase(stage: Stage): nat {
    match stage
    case Pixel => 0x38000
    case Vertex => 0x39180
    case Compute => 0x39180
    case Geometry => 0x3A4C0
  }

  function SamplerBase(stage: Stage): nat {
    match stage
    case Pixel => 0x3C000
    case Vertex => 0x3C0D8
    case Compute => 0x3C0D8
    case Geometry => 0x3C1B0
  }

  predicate Complete(registers: map<nat, RegisterValue>, first: nat, count: nat, kind: Kind) {
    forall i :: 0 <= i < count ==> first + 4 * i in registers && registers[first + 4 * i].kind == kind
  }

  /** `count` consecutive register words, once all have been written as the right kind. */
  function Words(registers: map<nat, RegisterValue>, first: nat, count: nat, kind: Kind): (r: Option<seq<bv32>>)
    ensures r.Some? ==> |r.value| == count
  {
    if Complete(registers, first, count, kind)
    then Some(seq(count, i requires 0 <= i < count => ValueAt(registers, first + 4 * i))) else None
  }

  function ValueAt(registers: map<nat, RegisterValue>, address: nat): bv32 {
    if address in registers then registers[address].value else 0
  }

  function TextureResource(registers: map<nat, RegisterValue>, stage: Stage, unit: nat): Option<seq<bv32>> {
    if unit >= UNITS then None
    else Words(registers, TextureBase(stage) + unit * TEXTURE_WORDS * 4, TEXTURE_WORDS, ShaderResource)
  }

  function Sampler(registers: map<nat, RegisterValue>, stage: Stage, unit: nat): Option<seq<bv32>> {
    if unit >= UNITS then None
    else Words(registers, SamplerBase(stage) + unit * SAMPLER_WORDS * 4, SAMPLER_WORDS, ShaderSampler)
  }

  const STAGES: seq<Stage> := [Pixel, Vertex, Geometry]

  function UnitTextures(registers: map<nat, RegisterValue>, stage: Stage): seq<Option<seq<bv32>>> {
    seq(UNITS, unit requires 0 <= unit < UNITS => TextureResource(registers, stage, unit))
  }

  function UnitSamplers(registers: map<nat, RegisterValue>, stage: Stage): seq<Option<seq<bv32>>> {
    seq(UNITS, unit requires 0 <= unit < UNITS => Sampler(registers, stage, unit))
  }

  function ShaderResources(registers: map<nat, RegisterValue>): Resources {
    Resources(seq(|STAGES|, i requires 0 <= i < |STAGES| => UnitTextures(registers, STAGES[i])),
              seq(|STAGES|, i requires 0 <= i < |STAGES| => UnitSamplers(registers, STAGES[i])))
  }

  function ClearIf<T>(reset: bool, v: Option<T>): Option<T> { if reset then None else v }

  /** The effect of a command on what later draws see. */
  function Bind(b: Bindings, c: Command): Bindings {
    match c
    case Write(kind, address, value) => b.(registers := b.registers[address := RegisterValue(kind, value)])
    case SetVertexBuffer(v) =>
      if v.Some? && v.value.index < |b.vertexBuffers|
      then b.(vertexBuffers := b.vertexBuffers[v.value.index := v]) else b
    case SetFetchShader(f) => b.(fetchShader := f)
    case SetProgramShader(p) =>
      if p.Some? && p.value.stage < |b.programShaders|
      then b.(programShaders := b.programShaders[p.value.stage := p]) else b
    case SetColorBuffer(v) =>
      if v.Some? && v.value.target < |b.colorBuffers|
      then b.(colorBuffers := b.colorBuffers[v.value.target := ClearIf(v.value.address == 0, v)]) else b
    case SetDepthBuffer(v) => if v.Some? then b.(depthBuffer := ClearIf(v.value.address == 0, v)) else b
    case _ => b
  }

  function RecordDraw(d: Draws, b: Bindings, c: Command): Draws {
    Draws(d.calls + [c], d.vertexBuffers + [b.vertexBuffers], d.fetchShaders + [b.fetchShader],
          d.programShaders + [b.programShaders], d.resources + [ShaderResources(b.registers)],
          d.colorBuffers + [b.colorBuffers], d.depthBuffers + [b.depthBuffer], d.registers + [b.registers])
  }

  function ApplyOne(s: Shadow, c: Command): Shadow {
    match c
    case GpuFence(_) => s.(fences := s.fences + [c])
    case ScanBufferSwap(_) => s.(swaps := s.swaps + [c])
    case Draw(_) => s.(draws := RecordDraw(s.draws, s.bindings, c))
    case _ => s.(bindings := Bind(s.bindings, c))
  }

  function ApplyAll(s: Shadow, cs: seq<Command>): Shadow {
    if cs == [] then s else ApplyOne(ApplyAll(s, cs[..|cs| - 1]), cs[|cs| - 1])
  }

  const FRESH: Shadow :=
    Shadow(Bindings(map[], seq(16, _ => None), None, seq(3, _ => None), seq(8, _ => None), None), [], [],
           Draws([], [], [], [], [], [], [], []))

  // Chunks

  /** Applying two chunks is applying their concatenation. */
  lemma {:induction false} ApplyConcat(s: Shadow, a: seq<Command>, b: seq<Command>)
    ensures ApplyAll(s, a + b) == ApplyAll(ApplyAll(s, a), b)
    decreases |b|
  {
    hide ApplyOne;
    if b == [] {
      assert a + b == a;
    } else {
      ApplyConcat(s, a, b[..|b| - 1]);
      assert (a + b)[..|a + b| - 1] == a + b[..|b| - 1];
    }
  }

  function Flatten(chunks: seq<seq<Command>>): seq<Command> {
    if chunks == [] then [] else Flatten(chunks[..|chunks| - 1]) + chunks[|chunks| - 1]
  }

  /** One call of `apply` per chunk. */
  function ApplyChunks(s: Shadow, chunks: seq<seq<Command>>): Shadow {
    if chunks == [] then s else ApplyAll(ApplyChunks(s, chunks[..|chunks| - 1]), chunks[|chunks| - 1])
  }

  /** However a command stream is split into calls, the shadow is the same. */
  lemma {:induction false} ChunksIrrelevant(s: Shadow, chunks: seq<seq<Command>>)
    ensures ApplyChunks(s, chunks) == ApplyAll(s, Flatten(chunks))
    decreases |chunks|
  {
    hide ApplyAll;
    if chunks == [] {
      assert ApplyAll(s, []) == s by { ApplyNothing(s); }
    } else {
      ChunksIrrelevant(s, chunks[..|chunks| - 1]);
      ApplyConcat(s, Flatten(chunks[..|chunks| - 1]), chunks[|chunks| - 1]);
    }
  }

  lemma ApplyNothing(s: Shadow)
    ensures ApplyAll(s, []) == s
  {
  }

  // Snapshots

  /** All per-draw vectors have one entry per draw. */
  predicate Aligned(d: Draws) {
    |d.calls| == |d.vertexBuffers| == |d.fetchShaders| == |d.programShaders| == |d.resources| == |d.colorBuffers|
    == |d.depthBuffers| == |d.registers|
  }

  function CountDraws(cs: seq<Command>): nat {
    if cs == [] then 0 else CountDraws(cs[..|cs| - 1]) + (if cs[|cs| - 1].Draw? then 1 else 0)
  }

  lemma {:induction false} OneEntryPerDraw(cs: seq<Command>)
    ensures Aligned(ApplyAll(FRESH, cs).draws) && |ApplyAll(FRESH, cs).draws.calls| == CountDraws(cs)
    decreases |cs|
  {
    hide Bind, ShaderResources;
    if cs != [] { OneEntryPerDraw(cs[..|cs| - 1]); }
  }

  /** Entry i holds the draw call, and the state that the commands before it leave. */
  predicate EntryIs(d: Draws, i: nat, call: Command, b: Bindings) {
    && Aligned(d) && i < |d.calls| && d.calls[i] == call
    && d.vertexBuffers[i] == b.vertexBuffers && d.fetchShaders[i] == b.fetchShader
    && d.programShaders[i] == b.programShaders && d.resources[i] == ShaderResources(b.registers)
    && d.colorBuffers[i] == b.colorBuffers && d.depthBuffers[i] == b.depthBuffer && d.registers[i] == b.registers
  }

  /** Entries never change once recorded. */
  lemma EntryKept(s: Shadow, c: Command, i: nat, call: Command, b: Bindings)
    requires EntryIs(s.draws, i, call, b)
    ensures EntryIs(ApplyOne(s, c).draws, i, call, b)
  {
    hide Bind, ShaderResources;
  }

  /**
   * The snapshot of every draw is a replay: applying only the commands before it to a fresh shadow gives its
   * vertex buffers, shaders, shader resources, render targets and registers.
   */
  lemma {:induction false} SnapshotIsReplay(cs: seq<Command>, p: nat)
    requires p < |cs| && cs[p].Draw?
    ensures EntryIs(ApplyAll(FRESH, cs).draws, CountDraws(cs[..p]), cs[p], ApplyAll(FRESH, cs[..p]).bindings)
    decreases |cs|
  {
    var before := cs[..|cs| - 1];
    if p < |cs| - 1 {
      assert before[..p] == cs[..p];
      SnapshotIsReplay(before, p);
      EntryKept(ApplyAll(FRESH, before), cs[|cs| - 1], CountDraws(cs[..p]), cs[p], ApplyAll(FRESH, cs[..p]).bindings);
    } else {
      assert before == cs[..p];
      OneEntryPerDraw(before);
      hide ShaderResources, CountDraws;
    }
  }

  // The object

  datatype Entry = Entry(address: nat, kind: Kind, value: bv32)

  /** The register map that a list of entries describes. */
  function AsMap(entries: seq<Entry>): map<nat, RegisterValue> {
    if entries == [] then map[]
    else
      var e := entries[|entries| - 1];
      AsMap(entries[..|entries| - 1])[e.address := RegisterValue(e.kind, e.value)]
  }

  function AllMaps(snapshots: seq<seq<Entry>>): (ms: seq<map<nat, RegisterValue>>)
    ensures |ms| == |snapshots|
  {
    if snapshots == [] then [] else AllMaps(snapshots[..|snapshots| - 1]) + [AsMap(snapshots[|snapshots| - 1])]
  }

  lemma AppendMaps(snapshots: seq<seq<Entry>>, entries: seq<Entry>)
    ensures AllMaps(snapshots + [entries]) == AllMaps(snapshots) + [AsMap(entries)]
  {
    assert (snapshots + [entries])[..|snapshots|] == snapshots;
  }

  class Gx2RegisterState {
    var registers: map<nat, RegisterValue>
    var gpuFences: seq<Command>
    var scanBufferSwaps: seq<Command>
    const vertexBuffers: array<Option<VertexBuffer>>
    var fetchShader: Option<FetchShader>
    const programShaders: array<Option<ProgramShader>>
    const colorBuffers: array<Option<ColorBuffer>>
    var depthBuffer: Option<DepthBuffer>
    var drawCalls: seq<Command>
    var drawVertexBuffers: seq<seq<Option<VertexBuffer>>>
    var drawFetchShaders: seq<Option<FetchShader>>
    var drawProgramShaders: seq<seq<Option<ProgramShader>>>
    var drawShaderResources: seq<Resources>
    var drawColorBuffers: seq<seq<Option<ColorBuffer>>>
    var drawDepthBuffers: seq<Option<DepthBuffer>>
    var drawRegisters: seq<seq<Entry>>

    ghost predicate Valid() {
      && vertexBuffers as object != programShaders as object && vertexBuffers as object != colorBuffers as object
      && programShaders as object != colorBuffers as object
    }

    ghost function BindingsNow(): Bindings
      reads this`registers, this`fetchShader, this`depthBuffer, vertexBuffers, programShaders, colorBuffers
    {
      Bindings(registers, vertexBuffers[..], fetchShader, programShaders[..], colorBuffers[..], depthBuffer)
    }

    ghost function DrawsNow(): Draws
      reads this
    {
      Draws(drawCalls, drawVertexBuffers, drawFetchShaders, drawProgramShaders, drawShaderResources, drawColorBuffers,
            drawDepthBuffers, AllMaps(drawRegisters))
    }

    ghost function State(): Shadow
      reads this, vertexBuffers, programShaders, colorBuffers
    {
      Shadow(BindingsNow(), gpuFences, scanBufferSwaps, DrawsNow())
    }

    constructor ()
      ensures Valid() && State() == FRESH
      ensures fresh(vertexBuffers) && fresh(programShaders) && fresh(colorBuffers)
    {
      registers, gpuFences, scanBufferSwaps, fetchShader, depthBuffer := map[], [], [], None, None;
      drawCalls, drawVertexBuffers, drawFetchShaders, drawProgramShaders := [], [], [], [];
      drawShaderResources, drawColorBuffers, drawDepthBuffers, drawRegisters := [], [], [], [];
      vertexBuffers := new Option<VertexBuffer>[16](_ => None);
      programShaders := new Option<ProgramShader>[3](_ => None);
      colorBuffers := new Option<ColorBuffer>[8](_ => None);
    }

    /** `texture_resource`. */
    method FindTextureResource(stage: Stage, unit: nat) returns (r: Option<seq<bv32>>)
      ensures r == TextureResource(registers, stage, unit)
    {
      if unit >= UNITS { return None; }
      r := ReadWords(TextureBase(stage) + unit * TEXTURE_WORDS * 4, TEXTURE_WORDS, ShaderResource);
    }

    /** `sampler`. */
    method FindSampler(stage: Stage, unit: nat) returns (r: Option<seq<bv32>>)
      ensures r == Sampler(registers, stage, unit)
    {
      if unit >= UNITS { return None; }
      r := ReadWords(SamplerBase(stage) + unit * SAMPLER_WORDS * 4, SAMPLER_WORDS, ShaderSampler);
    }

    method ReadWords(first: nat, count: nat, kind: Kind) returns (r: Option<seq<bv32>>)
      ensures r == Words(registers, first, count, kind)
    {
      var result: seq<bv32> := [];
      for index := 0 to count
        invariant Complete(registers, first, index, kind) && |result| == index
        invariant forall i :: 0 <= i < index ==> result[i] == ValueAt(registers, first + 4 * i)
      {
        var a := first + index * 4;
        assert a == first + 4 * index;
        if a !in registers || registers[a].kind != kind { return None; }
        result := result + [registers[a].value];
      }
      assert result == Words(registers, first, count, kind).value;
      return Some(result);
    }

    /** `snapshot_shader_resources`. */
    method SnapshotShaderResources() returns (r: Resources)
      ensures r == ShaderResources(registers)
    {
      var textures: seq<seq<Option<seq<bv32>>>>, samplers: seq<seq<Option<seq<bv32>>>> := [], [];
      for stage := 0 to |STAGES|
        invariant |textures| == |samplers| == stage
        invariant forall i :: 0 <= i < stage ==> textures[i] == UnitTextures(registers, STAGES[i])
        invariant forall i :: 0 <= i < stage ==> samplers[i] == UnitSamplers(registers, STAGES[i])
      {
        var t, s := SnapshotStage(STAGES[stage]);
        textures, samplers := textures + [t], samplers + [s];
      }
      r := Resources(textures, samplers);
    }

    method SnapshotStage(stage: Stage) returns (textures: seq<Option<seq<bv32>>>, samplers: seq<Option<seq<bv32>>>)
      ensures textures == UnitTextures(registers, stage) && samplers == UnitSamplers(registers, stage)
    {
      textures, samplers := [], [];
      for unit := 0 to UNITS
        invariant |textures| == |samplers| == unit
        invariant forall i :: 0 <= i < unit ==> textures[i] == TextureResource(registers, stage, i)
        invariant forall i :: 0 <= i < unit ==> samplers[i] == Sampler(registers, stage, i)
      {
        var t := FindTextureResource(stage, unit);
        var s := FindSampler(stage, unit);
        textures, samplers := textures + [t], samplers + [s];
      }
    }

    /** `snapshot_registers`: every register once, in no particular order. */
    method SnapshotRegisters() returns (entries: seq<Entry>)
      ensures AsMap(entries) == registers && |entries| == |registers|
    {
      entries := [];
      var rest := registers.Keys;
      while rest != {}
        invariant rest <= registers.Keys && |entries| + |rest| == |registers|
        invariant AsMap(entries) == map a | a in registers && a !in rest :: registers[a]
        decreases rest
      {
        var a :| a in rest;
        var e := Entry(a, registers[a].kind, registers[a].value);
        assert (entries + [e])[..|entries|] == entries;
        entries := entries + [e];
        rest := rest - {a};
      }
    }

    method RecordDrawCall(c: Command)
      requires Valid()
      modifies this`drawCalls, this`drawFetchShaders, this`drawVertexBuffers, this`drawProgramShaders,
               this`drawColorBuffers, this`drawDepthBuffers, this`drawShaderResources, this`drawRegisters
      ensures DrawsNow() == RecordDraw(old(DrawsNow()), old(BindingsNow()), c)
    {
      hide ShaderResources, AllMaps, AsMap;
      var resources := SnapshotShaderResources();
      var snapshot := SnapshotRegisters();
      AppendCall(c);
      AppendBuffers();
      AppendSnapshots(resources, snapshot);
    }

    method AppendCall(c: Command)
      modifies this`drawCalls, this`drawFetchShaders
      ensures drawCalls == old(drawCalls) + [c] && drawFetchShaders == old(drawFetchShaders) + [fetchShader]
    {
      drawCalls := drawCalls + [c];
      drawFetchShaders := drawFetchShaders + [fetchShader];
    }

    method AppendBuffers()
      modifies this`drawVertexBuffers, this`drawProgramShaders, this`drawColorBuffers, this`drawDepthBuffers
      ensures drawVertexBuffers == old(drawVertexBuffers) + [vertexBuffers[..]]
      ensures drawProgramShaders == old(drawProgramShaders) + [programShaders[..]]
      ensures drawColorBuffers == old(drawColorBuffers) + [colorBuffers[..]]
      ensures drawDepthBuffers == old(drawDepthBuffers) + [depthBuffer]
    {
      drawVertexBuffers := drawVertexBuffers + [vertexBuffers[..]];
      drawProgramShaders := drawProgramShaders + [programShaders[..]];
      drawColorBuffers := drawColorBuffers + [colorBuffers[..]];
      drawDepthBuffers := drawDepthBuffers + [depthBuffer];
    }

    method AppendSnapshots(resources: Resources, snapshot: seq<Entry>)
      modifies this`drawShaderResources, this`drawRegisters
      ensures drawShaderResources == old(drawShaderResources) + [resources]
      ensures AllMaps(drawRegisters) == AllMaps(old(drawRegisters)) + [AsMap(snapshot)]
    {
      AppendMaps(drawRegisters, snapshot);
      drawShaderResources := drawShaderResources + [resources];
      drawRegisters := drawRegisters + [snapshot];
    }

    /** The binding commands and register writes. */
    method BindCommand(c: Command)
      requires Valid() && !c.Draw? && !c.GpuFence? && !c.ScanBufferSwap?
      modifies this, vertexBuffers, programShaders, colorBuffers
      ensures State() == ApplyOne(old(State()), c)
    {
      hide AllMaps;
      if c.SetVertexBuffer? {
        if c.vertexBuffer.Some? && c.vertexBuffer.value.index < vertexBuffers.Length {
          vertexBuffers[c.vertexBuffer.value.index] := c.vertexBuffer;
        }
      } else if c.SetFetchShader? {
        fetchShader := c.fetchShader;
      } else if c.SetProgramShader? {
        if c.programShader.Some? && c.programShader.value.stage < programShaders.Length {
          programShaders[c.programShader.value.stage] := c.programShader;
        }
      } else if c.SetColorBuffer? {
        if c.colorBuffer.Some? && c.colorBuffer.value.target < colorBuffers.Length {
          if c.colorBuffer.value.address == 0 {
            colorBuffers[c.colorBuffer.value.target] := None;
          } else {
            colorBuffers[c.colorBuffer.value.target] := c.colorBuffer;
          }
        }
      } else if c.SetDepthBuffer? {
        if c.depthBuffer.Some? {
          depthBuffer := if c.depthBuffer.value.address == 0 then None else c.depthBuffer;
        }
      } else if c.Write? {
        registers := registers[c.address := RegisterValue(c.kind, c.value)];
      }
    }

    /** `apply`. */
    method Apply(commands: seq<Command>)
      requires Valid()
      modifies this, vertexBuffers, programShaders, colorBuffers
      ensures State() == ApplyAll(old(State()), commands)
    {
      hide ApplyOne;
      ghost var s := State();
      assert commands[..0] == [];
      ApplyNothing(s);
      for k := 0 to |commands|
        invariant State() == ApplyAll(s, commands[..k])
      {
        assert commands[..k + 1][..k] == commands[..k];
        ApplyCommand(commands[k]);
      }
      assert commands[..|commands|] == commands;
    }

    method ApplyCommand(c: Command)
      requires Valid()
      modifies this, vertexBuffers, programShaders, colorBuffers
      ensures State() == ApplyOne(old(State()), c)
    {
      hide ShaderResources, RecordDraw, Bind, AllMaps;
      if c.GpuFence? {
        gpuFences := gpuFences + [c];
      } else if c.ScanBufferSwap? {
        scanBufferSwaps := scanBufferSwaps + [c];
      } else if c.Draw? {
        RecordDrawCall(c);
      } else {
        BindCommand(c);
      }
    }
  }
}
