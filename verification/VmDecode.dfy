/** The instruction decoder of the emulated CPU, and the encoder it inverts. */
module VmDecode {
  import opened Basics
  import opened Bytes

  datatype Op =
    | NOP | HLT | IN | OUT | IN_DX | OUT_DX | MOV | ADD | SUB | INC | DEC | CMP | TEST
    | PUSH | POP | JMP | JZ | JNZ | INT | IRET | RET | STOSB | MOV_CR

  /** `dst` and `src` are register numbers or -1; `imm` is the uint32_t field. */
  datatype Instr = Instr(op: Op, dst: int, src: int, imm: nat, size: nat)

  const WINDOW := 16
  const ADDRESSES := 0x1_0000_0000

  /** (uint32_t)(int8_t)b */
  function SignExtend8(b: byte): nat {
    if b < 0x80 then b else 0x1_0000_0000 - 0x100 + b
  }

  function Imm32(w: seq<byte>, i: nat): nat
    requires i + 4 <= |w|
  {
    FromLE(w[i..i + 4])
  }

  // ----- ModR/M and SIB

  datatype ModRM = ModRM(mod: nat, reg: nat, rm: nat, disp: nat, dispBytes: nat)

  /** The scale field is two bits wide, so 4 and 8 are stored as 0. */
  datatype Sib = NoSib | Sib(scale: nat, index: nat, base: nat)

  /** The two top bits of a byte and the two three-bit fields below them. */
  function Fields(b: byte): (r: (nat, nat, nat))
    ensures r.0 <= 3 && r.1 <= 7 && r.2 <= 7 && b == r.0 * 64 + r.1 * 8 + r.2
  {
    (b / 64, b / 8 % 8, b % 8)
  }

  /** The bytes consumed, and the fields, of the ModR/M byte at `i` and what follows it. */
  function DecodeModRM(w: seq<byte>, i: nat): (r: (nat, ModRM, Sib))
    requires i + 6 <= |w|
    ensures 1 <= r.0 <= 6
    ensures r.1.mod <= 3 && r.1.reg <= 7 && r.1.rm <= 7
    ensures r.1.mod == 3 ==> r.0 == 1 && r.2 == NoSib
    ensures w[i] == r.1.mod * 64 + r.1.reg * 8 + r.1.rm
  {
    var (mod, reg, rm) := Fields(w[i]);
    var (disp, n) :=
      if mod == 1 then (SignExtend8(w[i + 1]), 1)
      else if mod == 2 || (mod == 0 && rm == 5) then (Imm32(w, i + 1), 4)
      else (0, 0);
    if mod != 3 && rm == 4 then
      var (scale, index, base) := Fields(w[i + 1 + n]);
      var sib := Sib([1, 2, 0, 0][scale], index, base);
      if mod == 0 && sib.base == 5 then (6, ModRM(mod, reg, rm, Imm32(w, i + 2), 4), sib)
      else (2 + n, ModRM(mod, reg, rm, disp, n), sib)
    else (1 + n, ModRM(mod, reg, rm, disp, n), NoSib)
  }

  /** A register-to-register form: the pair (reg, rm), when the ModR/M byte has mod 3. */
  function RegForm(w: seq<byte>, i: nat): (r: Option<(nat, nat)>)
    requires i + 6 <= |w|
    ensures r == if w[i] >= 0xC0 then Some((w[i] / 8 % 8, w[i] % 8)) else None
  {
    var (_, m, _) := DecodeModRM(w, i);
    if m.mod != 3 then None else Some((m.reg, m.rm))
  }

  // ----- vm_decode

  /** The first sixteen bytes at the instruction address decide everything. */
  function Decode(w: seq<byte>): (r: Option<Instr>)
    requires |w| == WINDOW
    ensures r.Some? ==> 1 <= r.value.size <= 5
  {
    var b0, b1 := w[0], w[1];
    if b0 == 0x0F then
      if b1 != 0x20 && b1 != 0x22 then None else
        match RegForm(w, 2)
        case None => None
        case Some((reg, rm)) => Some(Instr(MOV_CR, reg, rm, if b1 == 0x20 then 0 else 1, 3))
    else if b0 == 0x90 then Some(Instr(NOP, -1, -1, 0, 1))
    else if b0 == 0xF4 then Some(Instr(HLT, -1, -1, 0, 1))
    else if b0 == 0xE4 then Some(Instr(IN, -1, -1, b1, 2))
    else if b0 == 0xE6 then Some(Instr(OUT, -1, -1, b1, 2))
    else if b0 == 0xED then Some(Instr(IN_DX, -1, -1, 0, 1))
    else if b0 == 0xEF then Some(Instr(OUT_DX, -1, -1, 0, 1))
    else if b0 == 0xEB then Some(Instr(JMP, -1, -1, SignExtend8(b1), 2))
    else if b0 == 0xC3 then Some(Instr(RET, -1, -1, 0, 1))
    else if b0 == 0xCD then Some(Instr(INT, -1, -1, b1, 2))
    else if b0 == 0xCF then Some(Instr(IRET, -1, -1, 0, 1))
    else if b0 == 0xAA then Some(Instr(STOSB, -1, -1, 0, 1))
    else if b0 == 0x3C then Some(Instr(CMP, 0, -1, b1, 2))
    else if b0 == 0xA8 then Some(Instr(TEST, 0, -1, b1, 2))
    else if b0 == 0x74 then Some(Instr(JZ, -1, -1, SignExtend8(b1), 2))
    else if b0 == 0x75 then Some(Instr(JNZ, -1, -1, SignExtend8(b1), 2))
    else if b0 == 0x01 || b0 == 0x29 || b0 == 0x03 || b0 == 0x2B || b0 == 0x83 then DecodeArith(w)
    else if 0x40 <= b0 <= 0x47 then Some(Instr(INC, b0 - 0x40, -1, 0, 1))
    else if 0x48 <= b0 <= 0x4F then Some(Instr(DEC, b0 - 0x48, -1, 0, 1))
    else if 0xB0 <= b0 <= 0xB7 then Some(Instr(MOV, b0 - 0xB0, -1, b1, 2))
    else if 0xB8 <= b0 <= 0xBF then Some(Instr(MOV, b0 - 0xB8, -1, Imm32(w, 1), 5))
    else if 0x50 <= b0 <= 0x57 then Some(Instr(PUSH, b0 - 0x50, -1, 0, 1))
    else if 0x58 <= b0 <= 0x5F then Some(Instr(POP, b0 - 0x58, -1, 0, 1))
    else None
  }

  /** The opcodes that take a ModR/M byte. */
  function DecodeArith(w: seq<byte>): (r: Option<Instr>)
    requires |w| == WINDOW
    ensures r.Some? ==> 2 <= r.value.size <= 3
  {
    match RegForm(w, 1)
    case None => None
    case Some((reg, rm)) =>
      if w[0] == 0x01 then Some(Instr(ADD, rm, reg, 0, 2))
      else if w[0] == 0x03 then Some(Instr(ADD, reg, rm, 0, 2))
      else if w[0] == 0x29 then Some(Instr(SUB, rm, reg, 0, 2))
      else if w[0] == 0x2B then Some(Instr(SUB, reg, rm, 0, 2))
      else if reg == 0 then Some(Instr(ADD, rm, -1, SignExtend8(w[2]), 3))
      else if reg == 5 then Some(Instr(SUB, rm, -1, SignExtend8(w[2]), 3))
      else None
  }

  predicate IsArith(b: byte) { b == 0x01 || b == 0x29 || b == 0x03 || b == 0x2B || b == 0x83 }

  /** The bounds tests of decode_modrm and of the immediate of 0x83, in 32-bit arithmetic. */
  predicate FieldsFit(w: seq<byte>, second: byte, a: nat, size: nat)
    requires |w| == WINDOW
  {
    if w[0] == 0x0F && (second == 0x20 || second == 0x22) then ((a + 2) % ADDRESSES + 6) % ADDRESSES <= size
    else if IsArith(w[0]) then
      ((a + 1) % ADDRESSES + 6) % ADDRESSES <= size && (w[0] == 0x83 ==> (a + 3) % ADDRESSES <= size)
    else true
  }

  /** vm_decode of the bytes `w` at any address `a` of a memory of `size` bytes. */
  function DecodeAt(w: seq<byte>, a: nat, size: nat): Option<Instr>
    requires |w| == WINDOW
  {
    var second := if (a + 1) % ADDRESSES < size then w[1] else 0;
    if !FieldsFit(w, second, a, size) then None
    else if IsArith(w[0]) || 0xB0 <= w[0] <= 0xBF then Decode(w)
    else Decode(w[1 := second])
  }

  /** Where the window lies inside the memory the bounds tests change nothing. */
  lemma DecodeInside(w: seq<byte>, a: nat, size: nat)
    requires |w| == WINDOW && a + WINDOW <= size && a + WINDOW <= ADDRESSES
    ensures DecodeAt(w, a, size) == Decode(w)
  {
    hide Decode;
    assert w[1 := w[1]] == w;
  }

  // ----- the supported instructions

  predicate IsReg(r: int) { 0 <= r <= 7 }

  /** Immediates that are a sign-extended byte. */
  predicate IsShort(imm: nat) {
    imm < 0x80 || 0x1_0000_0000 - 0x80 <= imm < 0x1_0000_0000
  }

  predicate Plain(i: Instr) { i.dst == -1 && i.src == -1 && i.imm == 0 && i.size == 1 }

  /** The instruction table. */
  predicate Supported(i: Instr) {
    match i.op
    case NOP => Plain(i)
    case HLT => Plain(i)
    case IN_DX => Plain(i)
    case OUT_DX => Plain(i)
    case RET => Plain(i)
    case IRET => Plain(i)
    case STOSB => Plain(i)
    case IN => i.dst == i.src == -1 && i.imm < 0x100 && i.size == 2
    case OUT => i.dst == i.src == -1 && i.imm < 0x100 && i.size == 2
    case INT => i.dst == i.src == -1 && i.imm < 0x100 && i.size == 2
    case JMP => i.dst == i.src == -1 && IsShort(i.imm) && i.size == 2
    case JZ => i.dst == i.src == -1 && IsShort(i.imm) && i.size == 2
    case JNZ => i.dst == i.src == -1 && IsShort(i.imm) && i.size == 2
    case CMP => i.dst == 0 && i.src == -1 && i.imm < 0x100 && i.size == 2
    case TEST => i.dst == 0 && i.src == -1 && i.imm < 0x100 && i.size == 2
    case INC => IsReg(i.dst) && i.src == -1 && i.imm == 0 && i.size == 1
    case DEC => IsReg(i.dst) && i.src == -1 && i.imm == 0 && i.size == 1
    case PUSH => IsReg(i.dst) && i.src == -1 && i.imm == 0 && i.size == 1
    case POP => IsReg(i.dst) && i.src == -1 && i.imm == 0 && i.size == 1
    case MOV => IsReg(i.dst) && i.src == -1 && ((i.imm < 0x100 && i.size == 2) || (i.imm < 0x1_0000_0000 && i.size == 5))
    case ADD => ArithForm(i)
    case SUB => ArithForm(i)
    case MOV_CR => IsReg(i.dst) && IsReg(i.src) && i.imm <= 1 && i.size == 3
  }

  predicate ArithForm(i: Instr) {
    && IsReg(i.dst)
    && ((IsReg(i.src) && i.imm == 0 && i.size == 2) || (i.src == -1 && IsShort(i.imm) && i.size == 3))
  }

  // ----- an encoder

  function RegByte(reg: int, rm: int): byte
    requires IsReg(reg) && IsReg(rm)
  {
    0xC0 + reg * 8 + rm
  }

  function Encode(i: Instr): (e: seq<byte>)
    requires Supported(i)
    ensures |e| == i.size
  {
    match i.op
    case NOP => [0x90]
    case HLT => [0xF4]
    case IN_DX => [0xED]
    case OUT_DX => [0xEF]
    case RET => [0xC3]
    case IRET => [0xCF]
    case STOSB => [0xAA]
    case IN => [0xE4, i.imm]
    case OUT => [0xE6, i.imm]
    case INT => [0xCD, i.imm]
    case JMP => [0xEB, i.imm % 256]
    case JZ => [0x74, i.imm % 256]
    case JNZ => [0x75, i.imm % 256]
    case CMP => [0x3C, i.imm]
    case TEST => [0xA8, i.imm]
    case INC => [0x40 + i.dst]
    case DEC => [0x48 + i.dst]
    case PUSH => [0x50 + i.dst]
    case POP => [0x58 + i.dst]
    case MOV => if i.size == 2 then [0xB0 + i.dst, i.imm] else [0xB8 + i.dst] + ToLE(i.imm, 4)
    case ADD => if i.size == 2 then [0x01, RegByte(i.src, i.dst)] else [0x83, RegByte(0, i.dst), i.imm % 256]
    case SUB => if i.size == 2 then [0x29, RegByte(i.src, i.dst)] else [0x83, RegByte(5, i.dst), i.imm % 256]
    case MOV_CR => [0x0F, if i.imm == 0 then 0x20 else 0x22, RegByte(i.dst, i.src)]
  }

  lemma ShortRoundTrip(imm: nat)
    requires IsShort(imm)
    ensures SignExtend8(imm % 256) == imm
  {
  }

  lemma RegByteRoundTrip(reg: int, rm: int)
    requires IsReg(reg) && IsReg(rm)
    ensures RegByte(reg, rm) / 8 % 8 == reg && RegByte(reg, rm) % 8 == rm
  {
  }

  /** Every supported instruction, encoded and followed by anything, decodes to itself. */
  lemma DecodeInvertsEncode(i: Instr, rest: seq<byte>)
    requires Supported(i) && |Encode(i)| + |rest| == WINDOW
    ensures Decode(Encode(i) + rest) == Some(i)
  {
    var w := Encode(i) + rest;
    assert forall k :: 0 <= k < |Encode(i)| ==> w[k] == Encode(i)[k];
    match i.op
    case JMP => ShortRoundTrip(i.imm);
    case JZ => ShortRoundTrip(i.imm);
    case JNZ => ShortRoundTrip(i.imm);
    case MOV =>
      if i.size == 5 {
        assert w[1..5] == ToLE(i.imm, 4);
        assert Pow256(4) == 0x1_0000_0000;
        LERoundTrip(i.imm, 4);
      }
    case ADD => ArithRoundTrip(i, rest);
    case SUB => ArithRoundTrip(i, rest);
    case MOV_CR => RegByteRoundTrip(i.dst, i.src);
    case _ =>
  }

  lemma ArithRoundTrip(i: Instr, rest: seq<byte>)
    requires Supported(i) && (i.op == ADD || i.op == SUB) && |Encode(i)| + |rest| == WINDOW
    ensures Decode(Encode(i) + rest) == Some(i)
  {
    if i.size == 2 {
      RegByteRoundTrip(i.src, i.dst);
    } else {
      RegByteRoundTrip(0, i.dst);
      RegByteRoundTrip(5, i.dst);
      ShortRoundTrip(i.imm);
    }
  }

  /** Whatever decodes is in the table. */
  lemma DecodedIsSupported(w: seq<byte>)
    requires |w| == WINDOW && Decode(w).Some?
    ensures Supported(Decode(w).value)
  {
    hide RegForm, Imm32, DecodeArith, FromLE;
    Imm32Bound(w);
    if w[0] in {0x01, 0x29, 0x03, 0x2B, 0x83} { ArithSupported(w); }
  }

  lemma ArithSupported(w: seq<byte>)
    requires |w| == WINDOW && w[0] in {0x01, 0x29, 0x03, 0x2B, 0x83} && DecodeArith(w).Some?
    ensures Supported(DecodeArith(w).value)
  {
    hide RegForm;
  }

  lemma Imm32Bound(w: seq<byte>)
    requires |w| == WINDOW
    ensures Imm32(w, 1) < 0x1_0000_0000
  {
    FromLEBound(w[1..5]);
    assert Pow256(4) == 0x1_0000_0000;
  }

  lemma {:induction false} FromLEBound(bs: seq<byte>)
    ensures FromLE(bs) < Pow256(|bs|)
  {
    if bs != [] { FromLEBound(bs[1..]); }
  }

  /** A decoded instruction depends on its own bytes alone: nothing after them matters. */
  lemma DecodeIsLocal(w: seq<byte>, v: seq<byte>)
    requires |w| == |v| == WINDOW && Decode(w).Some?
    requires w[..Decode(w).value.size] == v[..Decode(w).value.size]
    ensures Decode(v) == Decode(w)
  {
    var n := Decode(w).value.size;
    assert forall k :: 0 <= k < n ==> w[k] == w[..n][k] == v[k];
    if n == 5 { assert w[1..5] == w[..5][1..] == v[1..5]; }
  }
}
