/** The words the loader patches or emits: decoding, execution, the REL24 patch, the trampoline. */
module BranchEncoding {
  import opened Bits

  const REL24_MIN: int := -0x0200_0000
  const REL24_MAX: int := 0x01FF_FFFC

  /** Conversion of a signed value to its 32-bit two's complement word. */
  function ToWord(v: int): Word { v % 0x1_0000_0000 }

  function Field(value: Word, shift: nat, mask: nat): nat {
    And(Shr(value, shift), mask)
  }

  /** `(v ^ sign_bit) - sign_bit` on the low `bits` bits, read as a signed value. */
  function SignExtend(value: Word, bits: nat): int
    requires bits >= 1
  {
    var sign := Pow2(bits - 1);
    (Xor(And(value, Pow2(bits) - 1), sign) - sign) as int
  }

  datatype Instruction =
    | Branch(displacement: int, absolute: bool, link: bool)
    | AddImmediateShifted(destination: nat, base: nat, immediate: int)
    | OrImmediate(source: nat, destination: nat, low: nat)
    | MoveToCountRegister(source: nat)
    | BranchToCountRegister(options: nat, conditionBit: nat, link: bool)
    | Undecoded

  /** The rows of the decoder the loader relies on. */
  function Decode(raw: Word): Instruction {
    var opcode := Field(raw, 26, 0x3F);
    if opcode == 18 then
      Branch(SignExtend(And(raw, 0x03FF_FFFC), 26), And(raw, 2) != 0, And(raw, 1) != 0)
    else if opcode == 15 then
      AddImmediateShifted(Field(raw, 21, 0x1F), Field(raw, 16, 0x1F), SignExtend(raw, 16))
    else if opcode == 24 then
      OrImmediate(Field(raw, 21, 0x1F), Field(raw, 16, 0x1F), Field(raw, 0, 0xFFFF))
    else if opcode == 31 && Field(raw, 1, 0x3FF) == 467 &&
            Or(Field(raw, 11, 0x1F) * 32, Field(raw, 16, 0x1F)) == 9 && And(raw, 1) == 0 then
      MoveToCountRegister(Field(raw, 21, 0x1F))
    else if opcode == 19 && Field(raw, 1, 0x3FF) == 528 then
      BranchToCountRegister(Field(raw, 21, 0x1F), Field(raw, 16, 0x1F), And(raw, 1) != 0)
    else Undecoded
  }

  datatype Cpu = Cpu(gpr: seq<Word>, cr: Word, lr: Word, ctr: Word, cia: Word)

  ghost predicate ValidCpu(cpu: Cpu) { |cpu.gpr| == 32 }

  /** `conditional_branch_taken`: whether the branch is taken, and the count register after it. */
  function BranchTaken(cpu: Cpu, options: nat, conditionBit: nat): (bool, Word) {
    var conditionOk := And(options, 0x10) != 0 ||
      ((And(Shr(cpu.cr, if conditionBit <= 31 then 31 - conditionBit else 0), 1) != 0) ==
       (And(options, 0x08) != 0));
    if And(options, 0x04) != 0 then (conditionOk, cpu.ctr)
    else
      var ctr := ToWord(cpu.ctr - 1);
      (conditionOk && ((ctr != 0) != (And(options, 0x02) != 0)), ctr)
  }

  /** One interpreter step of a decoded instruction. */
  function Execute(i: Instruction, cpu: Cpu): (after: Cpu)
    requires ValidCpu(cpu)
    ensures ValidCpu(after)
  {
    var next := ToWord(cpu.cia + 4);
    match i
    case Branch(d, absolute, link) =>
      cpu.(lr := if link then next else cpu.lr,
           cia := if absolute then ToWord(d) else ToWord(cpu.cia + d))
    case AddImmediateShifted(rd, ra, imm) =>
      if rd < 32 && ra < 32 then
        var base := if ra == 0 then 0 else cpu.gpr[ra];
        cpu.(gpr := cpu.gpr[rd := ToWord(base + ToWord(ToWord(imm) * 0x1_0000))], cia := next)
      else cpu
    case OrImmediate(rs, ra, imm) =>
      if rs < 32 && ra < 32 then
        cpu.(gpr := cpu.gpr[ra := ToWord(Or(cpu.gpr[rs], imm))], cia := next)
      else cpu
    case MoveToCountRegister(rs) =>
      if rs < 32 then cpu.(ctr := cpu.gpr[rs], cia := next) else cpu
    case BranchToCountRegister(options, bit, link) =>
      var target: Word := cpu.ctr - cpu.ctr % 4;
      var (taken, ctr) := BranchTaken(cpu, options, bit);
      cpu.(lr := if link then next else cpu.lr, ctr := ctr, cia := if taken then target else next)
    case Undecoded => cpu
  }

  /** The word written by the REL24 relocation. */
  function PatchBranch(instruction: Word, displacement: int): (p: nat) {
    Or(And(instruction, 0xFC00_0003), And(ToWord(displacement), 0x03FF_FFFC))
  }

  predicate InRel24Range(displacement: int) {
    displacement % 4 == 0 && REL24_MIN <= displacement <= REL24_MAX
  }

  lemma Powers()
    ensures Pow2(0) == 1 && Pow2(1) == 2 && Pow2(2) == 4 && Pow2(3) == 8 && Pow2(4) == 16
    ensures Pow2(5) == 32 && Pow2(6) == 64 && Pow2(10) == 1024 && Pow2(11) == 0x800
    ensures Pow2(15) == 0x8000 && Pow2(16) == 0x1_0000 && Pow2(21) == 0x20_0000
    ensures Pow2(25) == 0x200_0000 && Pow2(26) == 0x400_0000 && Pow2(32) == 0x1_0000_0000
  {
    assert Pow2(5) == 32 && Pow2(11) == 0x800;
    Pow2Sum(5, 11);
    Pow2Sum(5, 16);
    Pow2Sum(1, 15);
    Pow2Sum(5, 21);
    Pow2Sum(1, 25);
    Pow2Sum(16, 16);
  }

  lemma Shifts(x: nat)
    ensures Shr(x, 0) == x && Shr(x, 16) == x / 0x1_0000 && Shr(x, 21) == x / 0x20_0000
    ensures Shr(x, 26) == x / 0x400_0000 && Shr(x, 1) == x / 2 && Shr(x, 11) == x / 0x800
  {
    hide Shr, Pow2;
    Powers();
    ShrDivides(x, 0);
    ShrDivides(x, 16);
    ShrDivides(x, 21);
    ShrDivides(x, 26);
    ShrDivides(x, 1);
    ShrDivides(x, 11);
  }

  /** Field masks as remainders. */
  lemma FieldMasks(x: nat)
    ensures And(x, 0x1F) == x % 32 && And(x, 0x3F) == x % 64 && And(x, 0x3FF) == x % 1024
    ensures And(x, 0xFFFF) == x % 0x1_0000 && And(x, 1) == x % 2
    ensures And(x, 4) == x % 8 - x % 4 && And(x, 0x10) == x % 32 - x % 16 && And(x, 2) == x % 4 - x % 2
  {
    hide And, Pow2;
    Powers();
    AndRange(x, 0, 5);
    AndRange(x, 0, 6);
    AndRange(x, 0, 10);
    AndRange(x, 0, 16);
    AndRange(x, 0, 1);
    AndRange(x, 1, 2);
    AndRange(x, 2, 3);
    AndRange(x, 4, 5);
  }

  /** The masks of the REL24 patch as arithmetic. */
  lemma Masks(x: nat)
    ensures And(x, 0x03FF_FFFC) == x % 0x400_0000 - x % 4
    ensures And(x, 0xFC00_0003) == x % 0x1_0000_0000 - x % 0x400_0000 + x % 4
  {
    hide And, Pow2;
    Powers();
    AndRange(x, 2, 26);
    AndRange(x, 0, 2);
    AndRange(x, 26, 32);
    AndRange(0xFC00_0000, 0, 2);
    AndUnion(x, 0xFC00_0000, 3);
  }

  lemma PatchedWord(instruction: Word, displacement: int)
    requires displacement % 4 == 0
    ensures PatchBranch(instruction, displacement) ==
            instruction - instruction % 0x400_0000 + displacement % 0x400_0000 + instruction % 4
    ensures PatchBranch(instruction, displacement) < 0x1_0000_0000
  {
    hide And, Or;
    Masks(0xFC00_0003);
    Masks(instruction);
    Masks(ToWord(displacement));
    MasksDisjoint(instruction, 0xFC00_0003, ToWord(displacement), 0x03FF_FFFC);
    OrDisjoint(And(instruction, 0xFC00_0003), And(ToWord(displacement), 0x03FF_FFFC));
    ModMod(displacement);
  }

  lemma ModMod(d: int)
    ensures (d % 0x1_0000_0000) % 0x400_0000 == d % 0x400_0000 && (d % 0x1_0000_0000) % 4 == d % 4
  {
    var q := d / 0x1_0000_0000;
    assert d == 0x400_0000 * (64 * q) + d % 0x1_0000_0000;
  }

  /** The patched word keeps the primary opcode and the two low bits, and holds the displacement between. */
  lemma PatchArithmetic(i: Word, d: int, p: nat)
    requires d % 4 == 0 && p == i - i % 0x400_0000 + d % 0x400_0000 + i % 4
    ensures p / 0x400_0000 == i / 0x400_0000 && p % 4 == i % 4
    ensures p % 0x400_0000 - p % 4 == d % 0x400_0000
  {
    var low := d % 0x400_0000 + i % 4;
    assert (d % 0x400_0000) % 4 == 0;
    DivisionUnique(p, 0x400_0000, i / 0x400_0000, low);
  }

  lemma SignExtendMeans(value: Word, bits: nat)
    requires 1 <= bits
    ensures SignExtend(value, bits) ==
            (var v := value % Pow2(bits); if v >= Pow2(bits - 1) then v - Pow2(bits) else v)
  {
    hide And, Xor;
    assert Pow2(0) == 1;
    AndRange(value, 0, bits);
    XorTopBit(value % Pow2(bits), bits - 1);
  }

  /** Primary opcode, AA and LK survive the patch; the displacement field decodes to the displacement. */
  lemma DecodePatched(instruction: Word, displacement: int)
    requires InRel24Range(displacement)
    ensures PatchBranch(instruction, displacement) < 0x1_0000_0000
    ensures Field(PatchBranch(instruction, displacement), 26, 0x3F) == Field(instruction, 26, 0x3F)
    ensures And(PatchBranch(instruction, displacement), 1) == And(instruction, 1)
    ensures And(PatchBranch(instruction, displacement), 2) == And(instruction, 2)
    ensures SignExtend(And(PatchBranch(instruction, displacement), 0x03FF_FFFC), 26) == displacement
  {
    var p := PatchBranch(instruction, displacement);
    hide And, Or, Xor, Pow2, PatchBranch, SignExtend, Shr;
    PatchedWord(instruction, displacement);
    PatchArithmetic(instruction, displacement, p);
    Shifts(p);
    Shifts(instruction);
    LowTwoBits(p, instruction);
    Masks(p);
    DisplacementField(displacement);
  }

  /** The low 26 bits of an in-range displacement sign-extend to the displacement. */
  lemma DisplacementField(displacement: int)
    requires InRel24Range(displacement)
    ensures SignExtend(displacement % 0x400_0000, 26) == displacement
  {
    hide SignExtend;
    Powers();
    SignExtendMeans(displacement % 0x400_0000, 26);
  }

  lemma LowTwoBits(x: nat, y: nat)
    requires x % 4 == y % 4
    ensures And(x, 1) == And(y, 1) && And(x, 2) == And(y, 2)
  {
    hide And;
    TwoMasks(x);
    TwoMasks(y);
    SameParity(x, y);
  }

  lemma TwoMasks(x: nat)
    ensures And(x, 1) == x % 2 && And(x, 2) == x % 4 - x % 2
  {
    hide And, Pow2;
    FieldMasks(x);
  }

  lemma SameParity(x: nat, y: nat)
    requires x % 4 == y % 4
    ensures x % 2 == y % 2
  {
    ModDouble(x, 2);
    ModDouble(y, 2);
  }

  predicate IsBranch(instruction: Word) { Field(instruction, 26, 0x3F) == 18 }

  /** The displacements in reach are exactly those that some branch instruction encodes. */
  lemma RangeExact(d: int)
    ensures InRel24Range(d) <==>
            exists w: Word :: IsBranch(w) && Decode(w).Branch? && Decode(w).displacement == d
  {
    hide Decode, IsBranch;
    if InRel24Range(d) {
      BranchTo(d);
    }
    forall w: Word | IsBranch(w) && Decode(w).Branch? ensures InRel24Range(Decode(w).displacement) {
      EncodedInRange(w);
    }
  }

  lemma BranchTo(d: int)
    requires InRel24Range(d)
    ensures exists w: Word :: IsBranch(w) && Decode(w).Branch? && Decode(w).displacement == d
  {
    var b: Word := 0x4800_0000;
    BranchOpcode(b);
    DecodePatched(b, d);
    hide And, Or, Xor, Pow2, Field, SignExtend, PatchBranch;
    var w: Word := PatchBranch(b, d);
    assert IsBranch(w) && Decode(w).Branch? && Decode(w).displacement == d;
  }

  lemma BranchOpcode(b: Word)
    requires b == 0x4800_0000
    ensures Field(b, 26, 0x3F) == 18
  {
    hide And, Shr;
    Shifts(b);
    FieldMasks(Shr(b, 26));
  }

  lemma EncodedInRange(w: Word)
    requires IsBranch(w)
    ensures Decode(w).Branch? && InRel24Range(Decode(w).displacement)
  {
    hide And, Or, Xor, Pow2, SignExtend, Shr;
    Powers();
    AndRange(w, 2, 26);
    var field := And(w, 0x03FF_FFFC);
    FieldBounds(w, field);
    SignExtendMeans(field, 26);
  }

  lemma FieldBounds(w: nat, field: nat)
    requires field == w % 0x400_0000 - w % 4
    ensures field < 0x400_0000 && field % 4 == 0 && field % 0x400_0000 == field
    ensures field >= 0x200_0000 ==> (field - 0x400_0000) % 4 == 0
    ensures field < 0x200_0000 ==> field <= 0x1FF_FFFC
  {
    var above, below := w / 0x400_0000, w % 0x400_0000;
    var k := below / 4;
    assert w == 4 * (above * 0x100_0000 + k) + below % 4;
    assert field == 4 * k;
    assert field - 0x400_0000 == 4 * (k - 0x100_0000);
  }

  /**
   * A patched b/bl at `site` keeps its link bit and goes to site + displacement, unless AA is set;
   * with AA set it goes to the displacement itself, which is the intended target only for site 0.
   */
  lemma PatchedBranchTarget(instruction: Word, displacement: int, cpu: Cpu)
    requires InRel24Range(displacement) && IsBranch(instruction) && ValidCpu(cpu)
    requires 0 <= cpu.cia + displacement < 0x1_0000_0000
    ensures PatchBranch(instruction, displacement) < 0x1_0000_0000
    ensures Decode(PatchBranch(instruction, displacement)) ==
            Branch(displacement, And(instruction, 2) != 0, And(instruction, 1) != 0)
    ensures Execute(Decode(PatchBranch(instruction, displacement)), cpu).cia == cpu.cia + displacement
            <==> And(instruction, 2) == 0 || cpu.cia == 0
  {
    hide And, Or, Xor, Pow2, Field, SignExtend, PatchBranch;
    DecodePatched(instruction, displacement);
  }

  /** The instructions emitted by `write_trampoline`. */
  function TrampolineWord(target: Word, i: nat): nat
    requires i < 4
  {
    match i
    case 0 => Or(0x3D60_0000, target / 0x1_0000)
    case 1 => Or(0x616B_0000, And(target, 0xFFFF))
    case 2 => 0x7D69_03A6
    case 3 => 0x4E80_0420
  }

  lemma TrampolineDecodes(target: Word)
    ensures forall i :: 0 <= i < 4 ==> TrampolineWord(target, i) < 0x1_0000_0000
    ensures Decode(TrampolineWord(target, 0)) ==
            AddImmediateShifted(11, 0, SignExtend(target / 0x1_0000, 16))
    ensures Decode(TrampolineWord(target, 1)) == OrImmediate(11, 11, target % 0x1_0000)
    ensures Decode(TrampolineWord(target, 2)) == MoveToCountRegister(11)
    ensures Decode(TrampolineWord(target, 3)) == BranchToCountRegister(20, 0, false)
  {
    hide And, Or, Decode, SignExtend;
    LisWord(target / 0x1_0000);
    FieldMasks(target);
    OriWord(target % 0x1_0000);
    MtctrWord();
    BctrWord();
  }

  lemma MtctrWord()
    ensures Decode(0x7D69_03A6) == MoveToCountRegister(11)
  {
    hide And, Or, Xor, Pow2, SignExtend, Shr;
    Shifts(0x7D69_03A6);
    FieldMasks(0x7D69_03A6 / 0x400_0000);
    FieldMasks(0x7D69_03A6 / 0x20_0000);
    FieldMasks(0x7D69_03A6 / 0x1_0000);
    FieldMasks(0x7D69_03A6 / 0x800);
    FieldMasks(0x7D69_03A6 / 2);
    FieldMasks(0x7D69_03A6);
    OrNothing(9);
  }

  lemma BctrWord()
    ensures Decode(0x4E80_0420) == BranchToCountRegister(20, 0, false)
  {
    hide And, Or, Xor, Pow2, SignExtend, Shr;
    Shifts(0x4E80_0420);
    FieldMasks(0x4E80_0420 / 0x400_0000);
    FieldMasks(0x4E80_0420 / 0x20_0000);
    FieldMasks(0x4E80_0420 / 0x1_0000);
    FieldMasks(0x4E80_0420 / 2);
    FieldMasks(0x4E80_0420);
  }

  lemma LisWord(hi: nat)
    requires hi < 0x1_0000
    ensures Or(0x3D60_0000, hi) == 0x3D60_0000 + hi
    ensures Decode(0x3D60_0000 + hi) == AddImmediateShifted(11, 0, SignExtend(hi, 16))
  {
    hide And, Or, Xor, Pow2, SignExtend, Shr;
    Shifts(0x3D60_0000 + hi);
    FieldMasks(15);
    FieldMasks(0x1EB);
    FieldMasks(0x3D60);
    Powers();
    OrConcat(0x3D60, hi, 16);
    SignExtendMeans(0x3D60_0000 + hi, 16);
    SignExtendMeans(hi, 16);
  }

  lemma OriWord(lo: nat)
    requires lo < 0x1_0000
    ensures Or(0x616B_0000, lo) == 0x616B_0000 + lo
    ensures Decode(0x616B_0000 + lo) == OrImmediate(11, 11, lo)
  {
    hide And, Or, Xor, Pow2, SignExtend, Shr;
    Shifts(0x616B_0000 + lo);
    FieldMasks(24);
    FieldMasks(0x30B);
    FieldMasks(0x616B);
    FieldMasks(0x616B_0000 + lo);
    Powers();
    OrConcat(0x616B, lo, 16);
  }

  ghost function RunTrampoline(target: Word, cpu: Cpu): Cpu
    requires ValidCpu(cpu) && forall i :: 0 <= i < 4 ==> TrampolineWord(target, i) < 0x1_0000_0000
  {
    var a := Execute(Decode(TrampolineWord(target, 0)), cpu);
    var b := Execute(Decode(TrampolineWord(target, 1)), a);
    var c := Execute(Decode(TrampolineWord(target, 2)), b);
    Execute(Decode(TrampolineWord(target, 3)), c)
  }

  /** The trampoline sets CTR and r11 to the target and jumps there; nothing else changes. */
  lemma TrampolineJumps(target: Word, cpu: Cpu)
    requires ValidCpu(cpu) && target % 4 == 0
    ensures forall i :: 0 <= i < 4 ==> TrampolineWord(target, i) < 0x1_0000_0000
    ensures RunTrampoline(target, cpu) == cpu.(gpr := cpu.gpr[11 := target], ctr := target, cia := target)
  {
    TrampolineDecodes(target);
    hide And, Or, Xor, Pow2, Decode, TrampolineWord, SignExtend, Shr;
    FieldMasks(20);
    ShiftedImmediate(target / 0x1_0000);
    Powers();
    OrConcat(target / 0x1_0000, target % 0x1_0000, 16);
    var a := Execute(Decode(TrampolineWord(target, 0)), cpu);
    assert a.gpr[11] == target / 0x1_0000 * 0x1_0000;
    var b := Execute(Decode(TrampolineWord(target, 1)), a);
    assert b.gpr == cpu.gpr[11 := target];
  }

  lemma ShiftedImmediate(hi: nat)
    requires hi < 0x1_0000
    ensures ToWord(ToWord(SignExtend(hi, 16)) * 0x1_0000) == hi * 0x1_0000
  {
    hide And, Xor, Pow2, SignExtend;
    Powers();
    SignExtendMeans(hi, 16);
  }
}
