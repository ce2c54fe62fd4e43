/** What the instructions of the emulated CPU do, as laws between them. */
module VmLaws {
  import opened Basics
  import opened Bytes
  import Seqs
  import opened VmDecode
  import opened VmMachine

  // ----- registers

  predicate EightRegs(c: Cpu) {
    |c.regs| == 8 && forall r :: 0 <= r < 8 ==> c.regs[r] < W
  }

  /** The two CPUs agree in everything but register `r`, the flags and the instruction pointer. */
  predicate SameBut(c: Cpu, d: Cpu, r: int) {
    && |d.regs| == |c.regs| && (forall k :: 0 <= k < |c.regs| && k != r ==> d.regs[k] == c.regs[k])
    && d.cs == c.cs && d.ds == c.ds && d.es == c.es && d.ss == c.ss && d.fs == c.fs && d.gs == c.gs
    && d.cr0 == c.cr0 && d.cr3 == c.cr3 && d.halted == c.halted
  }

  /** All of the machine but its CPU. */
  predicate SameOutside(m: Machine, n: Machine) { n == m.(host := m.host.(cpu := n.host.cpu)) }

  // ----- moves and arithmetic

  /** MOV puts the immediate into its register and changes nothing else. */
  lemma MoveLoads(o: Oracle, m: Machine, r: int, imm: nat, size: nat)
    requires EightRegs(m.host.cpu) && 0 <= r < 8 && imm < W
    ensures var n := Exec(o, m, Instr(MOV, r, -1, imm, size));
            && SameOutside(m, n) && SameBut(m.host.cpu, n.host.cpu, r) && n.host.cpu.regs[r] == imm
            && n.host.cpu.eflags == m.host.cpu.eflags && n.host.cpu.eip == m.host.cpu.eip
  {
  }

  /** The sum of two words, without the carry. */
  function Plus(a: nat, b: nat): nat { if a + b < W then a + b else a + b - W }

  /** The difference of two words, with a borrow from 2^32. */
  function Minus(a: nat, b: nat): nat
    requires a < W && b < W
  {
    if a >= b then a - b else a + W - b
  }

  lemma WordSum(a: nat, b: nat)
    requires a < W && b < W
    ensures (a + b) % W == Plus(a, b) && (a - b) % W == Minus(a, b)
  {
    DivModUnique(a + b, W, if a + b < W then 0 else 1, Plus(a, b));
    DivModUnique(a - b, W, if a >= b then 0 else -1, Minus(a, b));
  }

  /** The second operand: a register, or a sign-extended byte. */
  function Second(c: Cpu, src: int, imm: byte): (v: nat)
    requires EightRegs(c) && src < 8
    ensures v < W
  {
    if src >= 0 then c.regs[src] else if imm < 0x80 then imm else W - 0x100 + imm
  }

  lemma OperandIs(c: Cpu, i: Instr)
    requires EightRegs(c) && i.src < 8 && i.imm < 0x100
    ensures Operand(c, i) == Second(c, i.src, i.imm)
  {
    if i.src < 0 && i.imm >= 0x80 { WordSum(0, 0x100 - i.imm); }
  }

  lemma FlagParts(high: nat, z: bool, low: nat)
    requires low < 0x40
    ensures var x := high * 0x80 + (if z then 0x40 else 0) + low;
            x / 0x80 == high && x % 0x40 == low && x / 0x40 % 2 == if z then 1 else 0
  {
    var bit := if z then 1 else 0;
    var x := high * 0x80 + bit * 0x40 + low;
    DivModUnique(x, 0x80, high, bit * 0x40 + low);
    DivModUnique(x, 0x40, high * 2 + bit, low);
    DivModUnique(high * 2 + bit, 2, high, bit);
  }

  lemma ZeroFlag(flags: nat, z: bool)
    ensures Z(SetZ(flags, z)) == z
    ensures SetZ(flags, z) / 0x80 == flags / 0x80 && SetZ(flags, z) % 0x40 == flags % 0x40
  {
    FlagParts(flags / 0x80, z, flags % 0x40);
  }

  /** ADD and SUB: the result, the zero flag exactly when it is zero, and nothing else. */
  lemma AddsAndSubtracts(o: Oracle, m: Machine, r: int, src: int, imm: byte, size: nat)
    requires EightRegs(m.host.cpu) && 0 <= r < 8 && src < 8
    ensures var c := m.host.cpu;
            var a, s := Exec(o, m, Instr(ADD, r, src, imm, size)), Exec(o, m, Instr(SUB, r, src, imm, size));
            && SameOutside(m, a) && SameBut(c, a.host.cpu, r) && EightRegs(a.host.cpu)
            && SameOutside(m, s) && SameBut(c, s.host.cpu, r) && EightRegs(s.host.cpu)
            && a.host.cpu.regs[r] == Plus(c.regs[r], Second(c, src, imm))
            && s.host.cpu.regs[r] == Minus(c.regs[r], Second(c, src, imm))
            && (Z(a.host.cpu.eflags) <==> a.host.cpu.regs[r] == 0)
            && (Z(s.host.cpu.eflags) <==> s.host.cpu.regs[r] == 0)
            && a.host.cpu.eip == s.host.cpu.eip == c.eip
  {
    var c := m.host.cpu;
    var i, j := Instr(ADD, r, src, imm, size), Instr(SUB, r, src, imm, size);
    OperandIs(c, i);
    OperandIs(c, j);
    var a, b := c.regs[r], Second(c, src, imm);
    WordSum(a, b);
    assert Plus(a, b) < W && Minus(a, b) < W && Reg(c, r) == a;
    hide Z, Operand, Plus, Minus, Second, SameBut, EightRegs, Arith, Reg;
    ArithSets(c, i, Plus(a, b));
    ArithSets(c, j, Minus(a, b));
  }

  lemma ArithSets(c: Cpu, i: Instr, v: nat)
    requires EightRegs(c) && 0 <= i.dst < 8 && v < W
    ensures var d := Arith(c, i, v);
            && SameBut(c, d, i.dst) && EightRegs(d) && d.eip == c.eip
            && d.regs[i.dst] == v && (Z(d.eflags) <==> v == 0)
  {
    ZeroFlag(c.eflags, v == 0);
    hide Z, SetZ;
  }

  lemma PlusMinus(a: nat, b: nat)
    requires a < W && b < W
    ensures Plus(a, b) < W && Minus(Plus(a, b), b) == a && Plus(Minus(a, b), b) == a
  {
  }

  /** SUB undoes ADD of another register or of a constant. */
  lemma SubUndoesAdd(o: Oracle, m: Machine, r: int, src: int, imm: byte, size: nat)
    requires EightRegs(m.host.cpu) && 0 <= r < 8 && src < 8 && src != r
    ensures var n := Exec(o, Exec(o, m, Instr(ADD, r, src, imm, size)), Instr(SUB, r, src, imm, size));
            n.host.cpu.regs == m.host.cpu.regs && n.host.ram == m.host.ram && n.host.cpu.eip == m.host.cpu.eip
  {
    var c := m.host.cpu;
    var m1 := Exec(o, m, Instr(ADD, r, src, imm, size));
    AddsAndSubtracts(o, m, r, src, imm, size);
    AddsAndSubtracts(o, m1, r, src, imm, size);
    PlusMinus(c.regs[r], Second(c, src, imm));
    hide Exec, Plus, Minus, Z;
    assert Second(m1.host.cpu, src, imm) == Second(c, src, imm);
  }

  /** INC and DEC add and take away one, leave the flags alone, and undo each other. */
  lemma DecUndoesInc(o: Oracle, m: Machine, r: int, size: nat)
    requires EightRegs(m.host.cpu) && 0 <= r < 8
    ensures var n := Exec(o, m, Instr(INC, r, -1, 0, size));
            && SameOutside(m, n) && SameBut(m.host.cpu, n.host.cpu, r) && n.host.cpu.eflags == m.host.cpu.eflags
            && n.host.cpu.regs[r] == Plus(m.host.cpu.regs[r], 1)
            && Exec(o, n, Instr(DEC, r, -1, 0, size)) == m
  {
    var c := m.host.cpu;
    WordSum(c.regs[r], 1);
    WordSum(Plus(c.regs[r], 1), 1);
    PlusMinus(c.regs[r], 1);
    assert c.regs[r := Plus(c.regs[r], 1)][r := c.regs[r]] == c.regs;
  }

  // ----- compare, test and jump

  /** The signed value of a displacement byte. */
  function Signed(b: byte): int { if b < 0x80 then b else b - 0x100 }

  lemma Rel8Is(b: byte)
    ensures Rel8(SignExtend8(b)) == Signed(b)
  {
    if b >= 0x80 { DivModUnique(SignExtend8(b), 0x100, 0xFF_FFFF, b); }
  }

  /** A jump goes to the next instruction plus its signed displacement. */
  lemma JumpGoes(o: Oracle, m: Machine, b: byte)
    ensures var n := Exec(o, m, Instr(JMP, -1, -1, SignExtend8(b), 2));
            n == WithCpu(m, m.host.cpu.(eip := (m.host.cpu.eip + 2 + Signed(b)) % W))
  {
    Rel8Is(b);
  }

  /** After CMP exactly one of JZ and JNZ jumps: JZ when AL is the immediate, JNZ when it is not. */
  lemma CompareDecides(o: Oracle, m: Machine, imm: byte, b: byte)
    requires EightRegs(m.host.cpu)
    ensures var n := Exec(o, m, Instr(CMP, 0, -1, imm, 2));
            var jump := Exec(o, n, Instr(JMP, -1, -1, SignExtend8(b), 2));
            && SameOutside(m, n) && SameBut(m.host.cpu, n.host.cpu, -1) && n.host.cpu.eip == m.host.cpu.eip
            && (Z(n.host.cpu.eflags) <==> m.host.cpu.regs[0] % 256 == imm)
            && Exec(o, n, Instr(JZ, -1, -1, SignExtend8(b), 2)) == (if m.host.cpu.regs[0] % 256 == imm then jump else n)
            && Exec(o, n, Instr(JNZ, -1, -1, SignExtend8(b), 2)) == (if m.host.cpu.regs[0] % 256 == imm then n else jump)
  {
    ZeroFlag(m.host.cpu.eflags, m.host.cpu.regs[0] % 256 == imm);
    hide Z, SetZ;
  }

  /** TEST sets the zero flag exactly when AL and the immediate have no bit in common. */
  lemma TestDecides(o: Oracle, m: Machine, imm: byte)
    requires EightRegs(m.host.cpu)
    ensures var n := Exec(o, m, Instr(TEST, 0, -1, imm, 2));
            && SameOutside(m, n) && SameBut(m.host.cpu, n.host.cpu, -1) && n.host.cpu.eip == m.host.cpu.eip
            && (Z(n.host.cpu.eflags) <==> NoCommonBit(m.host.cpu.regs[0] % 256, imm))
  {
    DivModUnique(imm, 256, 0, imm);
    hide Z, SetZ, NoCommonBit;
    ZeroFlag(m.host.cpu.eflags, NoCommonBit(m.host.cpu.regs[0] % 256, imm));
  }

  /** A byte has a bit in common with all ones, or with itself, exactly when it is not zero; with none it has none. */
  lemma CommonBits(a: byte)
    ensures NoCommonBit(a, 0xFF) <==> a == 0
    ensures NoCommonBit(a, a) <==> a == 0
    ensures NoCommonBit(a, 0)
  {
  }

  // ----- control registers

  /** What is moved into CR0 or CR3 comes back out, and the other of the two is not touched. */
  lemma ControlComesBack(o: Oracle, m: Machine, cr: int, r: int, s: int)
    requires EightRegs(m.host.cpu) && 0 <= r < 8 && 0 <= s < 8 && (cr == 0 || cr == 3)
    ensures var n := Exec(o, m, Instr(MOV_CR, cr, r, 1, 3));
            && n.host.cpu == (if cr == 0 then m.host.cpu.(cr0 := m.host.cpu.regs[r]) else m.host.cpu.(cr3 := m.host.cpu.regs[r]))
            && SameOutside(m, n)
            && Exec(o, n, Instr(MOV_CR, cr, s, 0, 3)) == WithCpu(n, n.host.cpu.(regs := m.host.cpu.regs[s := m.host.cpu.regs[r]]))
  {
  }

  /** Moving to another control register does nothing, and reading one gives 0. */
  lemma OtherControls(o: Oracle, m: Machine, cr: int, r: int)
    requires EightRegs(m.host.cpu) && 0 <= r < 8 && cr != 0 && cr != 3
    ensures Exec(o, m, Instr(MOV_CR, cr, r, 1, 3)) == m
    ensures Exec(o, m, Instr(MOV_CR, cr, r, 0, 3)) == WithCpu(m, m.host.cpu.(regs := m.host.cpu.regs[r := 0]))
  {
  }

  // ----- the stack, without paging

  /** The address that the stack pointer stands for. */
  function StackTop(c: Cpu): nat { c.ss * 16 + Reg(c, ESP) }

  /** There are `n` bytes of RAM below the stack pointer, and no address wraps. */
  predicate RoomBelow(m: Machine, n: nat) {
    && EightRegs(m.host.cpu) && !Paging(m.host.ram, m.host.cpu.cr0)
    && n <= Reg(m.host.cpu, ESP) && StackTop(m.host.cpu) <= |m.host.ram| && |m.host.ram| < W
  }

  /** There are `n` bytes of RAM from the stack pointer on. */
  predicate RoomAbove(m: Machine, n: nat) {
    && EightRegs(m.host.cpu) && !Paging(m.host.ram, m.host.cpu.cr0)
    && Reg(m.host.cpu, ESP) + n < W && StackTop(m.host.cpu) + n <= |m.host.ram| && |m.host.ram| < W
  }

  /** The machine with the stack pointer moved and the bytes below its old place replaced. */
  function Stacked(m: Machine, bs: seq<byte>): Machine
    requires RoomBelow(m, |bs|)
  {
    var c, top := m.host.cpu, StackTop(m.host.cpu);
    m.(host := m.host.(cpu := c.(regs := c.regs[ESP := c.regs[ESP] - |bs|]),
                       ram := m.host.ram[..top - |bs|] + bs + m.host.ram[top..]))
  }

  lemma LowerStack(c: Cpu, n: nat)
    requires EightRegs(c) && n <= Reg(c, ESP) && StackTop(c) < W
    ensures var d := AddTo(c, ESP, -(n as int));
            && d == c.(regs := c.regs[ESP := c.regs[ESP] - n]) && Reg(d, ESP) == c.regs[ESP] - n
            && Linear(d.ss, Reg(d, ESP)) == StackTop(c) - n
  {
    WordSum(c.regs[ESP], n);
    DivModUnique(c.ss * 16 + c.regs[ESP] - n, W, 0, StackTop(c) - n);
  }

  lemma PushStores(o: Oracle, m: Machine, v: nat, n: nat)
    requires RoomBelow(m, n)
    ensures Push(o, m, v, n) == Stacked(m, ToLE(v, n))
  {
    hide AddTo, Linear, ToLE, Paging;
    LowerStack(m.host.cpu, n);
  }

  lemma TopReads(o: Oracle, m: Machine, n: nat)
    requires RoomAbove(m, n)
    ensures Top(o, m, n) == FromLE(m.host.ram[StackTop(m.host.cpu)..StackTop(m.host.cpu) + n])
    ensures Drop(m, n).host.cpu == m.host.cpu.(regs := m.host.cpu.regs[ESP := m.host.cpu.regs[ESP] + n])
    ensures SameOutside(m, Drop(m, n))
  {
    var c := m.host.cpu;
    DivModUnique(c.ss * 16 + Reg(c, ESP), W, 0, StackTop(c));
    WordSum(c.regs[ESP], n);
  }

  /** Dropping what was stacked brings the CPU back. */
  lemma DropAfterStack(m: Machine, bs: seq<byte>)
    requires RoomBelow(m, |bs|)
    ensures RoomAbove(Stacked(m, bs), |bs|) && Dropped(Stacked(m, bs), |bs|) == WithRam(m, Stacked(m, bs).host.ram)
  {
    var c := m.host.cpu;
    assert c.regs[ESP := c.regs[ESP] - |bs|][ESP := c.regs[ESP]] == c.regs;
  }

  /** What was stacked is found at the new top, and the machine above it is as it was. */
  lemma StackedTop(m: Machine, bs: seq<byte>)
    requires RoomBelow(m, |bs|) && m.host.cpu.regs[ESP] < W
    ensures var n := Stacked(m, bs);
            && RoomAbove(n, |bs|) && StackTop(n.host.cpu) == StackTop(m.host.cpu) - |bs|
            && n.host.ram[StackTop(n.host.cpu)..StackTop(n.host.cpu) + |bs|] == bs
            && |n.host.ram| == |m.host.ram| && n.host.ram[StackTop(m.host.cpu)..] == m.host.ram[StackTop(m.host.cpu)..]
  {
  }

  /** The machine with the stack pointer moved up. */
  function Dropped(m: Machine, n: nat): Machine
    requires RoomAbove(m, n)
  {
    WithCpu(m, m.host.cpu.(regs := m.host.cpu.regs[ESP := m.host.cpu.regs[ESP] + n]))
  }

  lemma DropIs(m: Machine, n: nat)
    requires RoomAbove(m, n)
    ensures Drop(m, n) == Dropped(m, n)
  {
    WordSum(m.host.cpu.regs[ESP], n);
  }

  /** PUSH stores its register below the stack pointer; of the stack pointer itself it stores the new value. */
  lemma PushStacks(o: Oracle, m: Machine, r: int)
    requires RoomBelow(m, 4) && 0 <= r < 8
    ensures var c := m.host.cpu;
            var v := if r == ESP then c.regs[ESP] - 4 else c.regs[r];
            Exec(o, m, Instr(PUSH, r, -1, 0, 1)) == Stacked(m, ToLE(v, 4))
  {
    var c := m.host.cpu;
    var v := if r == ESP then c.regs[ESP] - 4 else c.regs[r];
    WordSum(c.regs[ESP], 4);
    assert Reg(AddTo(c, ESP, -4), r) == v;
    PushStores(o, m, v, 4);
    hide Push, Stacked, ToLE, AddTo;
  }

  /** POP takes the four bytes at the stack pointer, low byte first. */
  lemma PopTakes(o: Oracle, m: Machine, s: int, v: nat)
    requires RoomAbove(m, 4) && 0 <= s < 8 && s != ESP && v < W
    requires m.host.ram[StackTop(m.host.cpu)..StackTop(m.host.cpu) + 4] == ToLE(v, 4)
    ensures var n := Dropped(m, 4);
            Exec(o, m, Instr(POP, s, -1, 0, 1)) == WithCpu(n, n.host.cpu.(regs := n.host.cpu.regs[s := v]))
  {
    TopReads(o, m, 4);
    DropIs(m, 4);
    FourBytes(v);
    DivModUnique(v, W, 0, v);
    hide Top, Drop, ToLE, FromLE;
  }

  /** POP after PUSH moves the value to the other register and puts the stack pointer back. */
  lemma PopAfterPush(o: Oracle, m: Machine, r: int, s: int)
    requires RoomBelow(m, 4) && 0 <= r < 8 && 0 <= s < 8 && s != ESP
    ensures var c := m.host.cpu;
            var v := if r == ESP then c.regs[ESP] - 4 else c.regs[r];
            var n := Exec(o, Exec(o, m, Instr(PUSH, r, -1, 0, 1)), Instr(POP, s, -1, 0, 1));
            n == WithCpu(WithRam(m, Stacked(m, ToLE(v, 4)).host.ram), c.(regs := c.regs[s := v]))
  {
    var c := m.host.cpu;
    var v := if r == ESP then c.regs[ESP] - 4 else c.regs[r];
    hide Exec, ToLE, Stacked, Dropped;
    PushStacks(o, m, r);
    StackedTop(m, ToLE(v, 4));
    DropAfterStack(m, ToLE(v, 4));
    PopTakes(o, Stacked(m, ToLE(v, 4)), s, v);
  }

  lemma FourBytes(v: nat)
    requires v < W
    ensures FromLE(ToLE(v, 4)) == v
  {
    assert Pow256(4) == W;
    LERoundTrip(v, 4);
  }

  lemma TwoBytes(v: nat)
    requires v < 0x1_0000
    ensures FromLE(ToLE(v, 2)) == v
  {
    assert Pow256(2) == 0x1_0000;
    LERoundTrip(v, 2);
  }

  /** The two bytes at an address as a number, low byte first. */
  function Word16(ram: seq<byte>, a: nat): (v: nat)
    requires a + 2 <= |ram|
    ensures v < 0x1_0000
  {
    (ram[a] as int) + 256 * (ram[a + 1] as int)
  }

  lemma PairLE(ram: seq<byte>, a: nat)
    requires a + 2 <= |ram|
    ensures FromLE(ram[a..a + 2]) == Word16(ram, a)
  {
    var p := ram[a..a + 2];
    assert p[1..] == [ram[a + 1]] && p[1..][1..] == [];
    assert FromLE(p[1..]) == ram[a + 1];
  }

  /** RET takes the instruction pointer from the top of the stack, low byte first. */
  lemma ReturnGoes(o: Oracle, m: Machine)
    requires RoomAbove(m, 2)
    ensures var top, n := StackTop(m.host.cpu), Dropped(m, 2);
            var ip := Word16(m.host.ram, top);
            Exec(o, m, Instr(RET, -1, -1, 0, 1)) == WithCpu(n, n.host.cpu.(eip := ip))
  {
    TopReads(o, m, 2);
    DropIs(m, 2);
    PairLE(m.host.ram, StackTop(m.host.cpu));
    hide Top, Drop, FromLE;
  }

  // ----- interrupts

  /** The six bytes that INT stacks: instruction pointer, code segment and flags, from low addresses to high. */
  function Frame(c: Cpu): seq<byte> {
    ToLE(c.eip % 0x1_0000, 2) + (ToLE(c.cs % 0x1_0000, 2) + ToLE(c.eflags % 0x1_0000, 2))
  }

  lemma SpliceTwice(ram: seq<byte>, top: nat, a: seq<byte>, b: seq<byte>)
    requires |a| + |b| <= top <= |ram|
    ensures var once := ram[..top - |b|] + b + ram[top..];
            once[..top - |b| - |a|] + a + once[top - |b|..] == ram[..top - |a + b|] + (a + b) + ram[top..]
  {
    var once, low := ram[..top - |b|] + b + ram[top..], ram[..top - |b| - |a|];
    assert once[..top - |b| - |a|] == low && once[top - |b|..] == b + ram[top..];
    Seqs.ConcatAssoc(low, a, b + ram[top..]);
    Seqs.ConcatAssoc(a, b, ram[top..]);
    Seqs.ConcatAssoc(low, a + b, ram[top..]);
  }

  lemma StackedRoom(m: Machine, a: seq<byte>, b: seq<byte>)
    requires RoomBelow(m, |a| + |b|)
    ensures var c, n := m.host.cpu, Stacked(m, b);
            && RoomBelow(n, |a|) && |n.host.ram| == |m.host.ram|
            && StackTop(n.host.cpu) == StackTop(c) - |b| && StackTop(c) <= |m.host.ram|
            && |a| + |b| <= c.regs[ESP] <= StackTop(c)
            && n.host.cpu == c.(regs := c.regs[ESP := c.regs[ESP] - |b|])
  {
  }

  lemma StackTwice(m: Machine, a: seq<byte>, b: seq<byte>)
    requires RoomBelow(m, |a| + |b|)
    ensures RoomBelow(Stacked(m, b), |a|) && Stacked(Stacked(m, b), a) == Stacked(m, a + b)
  {
    var c := m.host.cpu;
    StackedRoom(m, a, b);
    hide Paging, RoomBelow, StackTop;
    SpliceTwice(m.host.ram, StackTop(c), a, b);
    assert c.regs[ESP := c.regs[ESP] - |b|][ESP := c.regs[ESP] - |b| - |a|] == c.regs[ESP := c.regs[ESP] - |b| - |a|];
  }

  /** The three pushes of INT. */
  lemma FrameStacked(o: Oracle, m: Machine)
    requires RoomBelow(m, 6)
    ensures var c := m.host.cpu;
            Push(o, Push(o, Push(o, m, c.eflags % 0x1_0000, 2), c.cs % 0x1_0000, 2), c.eip % 0x1_0000, 2)
            == Stacked(m, Frame(c))
  {
    var c := m.host.cpu;
    var f, s, p := ToLE(c.eflags % 0x1_0000, 2), ToLE(c.cs % 0x1_0000, 2), ToLE(c.eip % 0x1_0000, 2);
    PushStores(o, m, c.eflags % 0x1_0000, 2);
    StackTwice(m, s, f);
    PushStores(o, Stacked(m, f), c.cs % 0x1_0000, 2);
    StackTwice(m, p, s + f);
    PushStores(o, Stacked(m, s + f), c.eip % 0x1_0000, 2);
    hide Push, Stacked, ToLE;
  }

  lemma StackedBelow(m: Machine, bs: seq<byte>, a: nat)
    requires RoomBelow(m, |bs|) && a + 2 <= StackTop(m.host.cpu) - |bs|
    ensures var n := Stacked(m, bs);
            && |n.host.ram| == |m.host.ram| && FromLE(n.host.ram[a..a + 2]) == Word16(m.host.ram, a)
            && !Paging(n.host.ram, n.host.cpu.cr0)
  {
    PairLE(Stacked(m, bs).host.ram, a);
  }

  lemma TranslateOff(o: Oracle, m: Machine, linear: nat)
    requires !Paging(m.host.ram, m.host.cpu.cr0)
    ensures Translate(o, m.latches, m.host.ram, m.host.cpu.cr0, m.host.cpu.cr3, linear) == linear
  {
  }

  /** Where an interrupt goes once its frame is on the stack. */
  lemma VectorRead(o: Oracle, m: Machine, n: Machine, v: byte, ip: nat, cs: nat)
    requires var c := m.host.cpu;
             n == Push(o, Push(o, Push(o, m, c.eflags % 0x1_0000, 2), c.cs % 0x1_0000, 2), c.eip % 0x1_0000, 2)
    requires !Paging(n.host.ram, n.host.cpu.cr0) && 4 * (v as int) + 4 <= |n.host.ram| && |n.host.ram| < W
    requires ip == FromLE(n.host.ram[4 * (v as int)..4 * (v as int) + 2])
    requires cs == FromLE(n.host.ram[4 * (v as int) + 2..4 * (v as int) + 4])
    ensures Interrupt(o, m, v) == WithCpu(n, n.host.cpu.(eip := ip, cs := cs))
  {
    var a := 4 * (v as int);
    TranslateOff(o, n, a);
    DivModUnique(a + 4, W, 0, a + 4);
    DivModUnique(a + 2, W, 0, a + 2);
    hide Push, FromLE, Translate, Paging;
  }

  lemma IntIsInterrupt(o: Oracle, m: Machine, v: byte)
    ensures Exec(o, m, Instr(INT, -1, -1, v, 2)) == Interrupt(o, m, v)
  {
    DivModUnique(v, 256, 0, v);
    hide Interrupt;
  }

  /** INT stacks its frame and goes to the address in its vector, offset first, when the stack leaves the vector alone. */
  lemma InterruptGoes(o: Oracle, m: Machine, v: byte)
    requires RoomBelow(m, 6) && 4 * (v as int) + 4 <= StackTop(m.host.cpu) - 6
    ensures var ram, n, a := m.host.ram, Stacked(m, Frame(m.host.cpu)), 4 * (v as int);
            var ip, cs := Word16(ram, a), Word16(ram, a + 2);
            Exec(o, m, Instr(INT, -1, -1, v, 2)) == WithCpu(n, n.host.cpu.(eip := ip, cs := cs))
  {
    var a, n := 4 * (v as int), Stacked(m, Frame(m.host.cpu));
    IntIsInterrupt(o, m, v);
    assert |Frame(m.host.cpu)| == 6;
    hide Exec, Push, Frame, Stacked, FromLE, Paging, Interrupt, Word16;
    FrameStacked(o, m);
    StackedBelow(m, Frame(m.host.cpu), a);
    StackedBelow(m, Frame(m.host.cpu), a + 2);
    VectorRead(o, m, n, v, FromLE(n.host.ram[a..a + 2]), FromLE(n.host.ram[a + 2..a + 4]));
  }

  lemma DroppedTwice(m: Machine, k: nat)
    requires RoomAbove(m, k + 2)
    ensures RoomAbove(Dropped(m, k), 2) && Dropped(Dropped(m, k), 2) == Dropped(m, k + 2)
    ensures StackTop(Dropped(m, k).host.cpu) == StackTop(m.host.cpu) + k && Dropped(m, k).host.ram == m.host.ram
  {
    var c := m.host.cpu;
    assert c.regs[ESP := c.regs[ESP] + k][ESP := c.regs[ESP] + k + 2] == c.regs[ESP := c.regs[ESP] + k + 2];
  }

  lemma TopAt(o: Oracle, m: Machine, k: nat)
    requires RoomAbove(m, k + 2)
    ensures var n := Dropped(m, k);
            && RoomAbove(n, 2) && Top(o, n, 2) == Word16(m.host.ram, StackTop(m.host.cpu) + k)
            && Dropped(n, 2) == Dropped(m, k + 2)
  {
    DroppedTwice(m, k);
    hide Top, FromLE, Drop, Word16, Dropped;
    TopReads(o, Dropped(m, k), 2);
    PairLE(m.host.ram, StackTop(m.host.cpu) + k);
  }

  lemma RoomForFewer(m: Machine)
    requires RoomAbove(m, 6)
    ensures RoomAbove(m, 2) && RoomAbove(m, 4) && Dropped(m, 0) == m && StackTop(m.host.cpu) + 6 <= |m.host.ram|
  {
    assert m.host.cpu.regs[ESP := m.host.cpu.regs[ESP]] == m.host.cpu.regs;
  }

  lemma ThreeDrops(o: Oracle, m: Machine)
    requires RoomAbove(m, 6)
    ensures var ram, top := m.host.ram, StackTop(m.host.cpu);
            var m1 := Drop(m, 2);
            var m2 := Drop(m1, 2);
            && Top(o, m, 2) == Word16(ram, top) && Top(o, m1, 2) == Word16(ram, top + 2)
            && Top(o, m2, 2) == Word16(ram, top + 4) && Drop(m2, 2) == Dropped(m, 6)
  {
    hide Top, Drop, RoomAbove, Dropped, Word16, StackTop, Paging;
    RoomForFewer(m);
    TopAt(o, m, 0);
    TopAt(o, m, 2);
    TopAt(o, m, 4);
    DropIs(m, 2);
    DropIs(Dropped(m, 2), 2);
    DropIs(Dropped(m, 4), 2);
  }

  /** IRET takes instruction pointer, code segment and low half of the flags from the stack, in this order. */
  lemma InterruptReturns(o: Oracle, m: Machine)
    requires RoomAbove(m, 6)
    ensures var c, ram, top := m.host.cpu, m.host.ram, StackTop(m.host.cpu);
            var ip, cs, flags := Word16(ram, top), Word16(ram, top + 2), Word16(ram, top + 4);
            Exec(o, m, Instr(IRET, -1, -1, 0, 1)) ==
               WithCpu(m, Dropped(m, 6).host.cpu.(eip := ip, cs := cs, eflags := c.eflags / 0x1_0000 * 0x1_0000 + flags))
  {
    ThreeDrops(o, m);
    hide Exec, Top, Drop, FromLE, RoomAbove, Dropped, Word16;
    DroppedCpu(m, 6);
    IretIs(o, m);
  }

  lemma DroppedCpu(m: Machine, n: nat)
    requires RoomAbove(m, n)
    ensures Dropped(m, n) == WithCpu(m, Dropped(m, n).host.cpu) && Dropped(m, n).host.cpu.eflags == m.host.cpu.eflags
  {
  }

  lemma IretIs(o: Oracle, m: Machine)
    ensures var m1 := Drop(m, 2);
            var m2 := Drop(m1, 2);
            var m3 := Drop(m2, 2);
            var c := m3.host.cpu;
            Exec(o, m, Instr(IRET, -1, -1, 0, 1)) ==
            WithCpu(m3, c.(eip := Top(o, m, 2), cs := Top(o, m1, 2), eflags := c.eflags / 0x1_0000 * 0x1_0000 + Top(o, m2, 2)))
  {
    hide Top, Drop;
  }

  lemma FrameBytes(c: Cpu)
    ensures var f := Frame(c);
            && |f| == 6 && Word16(f, 0) == c.eip % 0x1_0000 && Word16(f, 2) == c.cs % 0x1_0000
            && Word16(f, 4) == c.eflags % 0x1_0000
  {
    TwoOf(c.eip % 0x1_0000);
    TwoOf(c.cs % 0x1_0000);
    TwoOf(c.eflags % 0x1_0000);
    hide ToLE;
  }

  lemma TwoOf(v: nat)
    requires v < 0x1_0000
    ensures |ToLE(v, 2)| == 2 && Word16(ToLE(v, 2), 0) == v
  {
    TwoBytes(v);
    var p := ToLE(v, 2);
    assert p[0..2] == p;
    PairLE(p, 0);
    hide ToLE, FromLE;
  }

  /**
   * IRET undoes INT: stack pointer and flags are back, and code segment and instruction pointer are the old ones up to
   * 2^16; of RAM only the six bytes below the stack pointer have changed.
   */
  lemma ReturnUndoesInterrupt(o: Oracle, m: Machine, v: byte)
    requires RoomBelow(m, 6) && 4 * (v as int) + 4 <= StackTop(m.host.cpu) - 6
    ensures var c := m.host.cpu;
            Exec(o, Exec(o, m, Instr(INT, -1, -1, v, 2)), Instr(IRET, -1, -1, 0, 1)) ==
            WithCpu(WithRam(m, Stacked(m, Frame(c)).host.ram), c.(eip := c.eip % 0x1_0000, cs := c.cs % 0x1_0000))
  {
    var c, f := m.host.cpu, Stacked(m, Frame(m.host.cpu));
    var n := Exec(o, m, Instr(INT, -1, -1, v, 2));
    InterruptGoes(o, m, v);
    assert |Frame(c)| == 6;
    hide Exec, Frame, Word16, Stacked, RoomBelow;
    FrameFound(m);
    DropAfterStack(m, Frame(c));
    SameStack(f, n);
    InterruptReturns(o, n);
    FlagsBack(f.host.cpu.eflags);
    StackedFlags(m, Frame(c));
    hide RoomAbove, Dropped;
  }

  lemma StackedFlags(m: Machine, bs: seq<byte>)
    requires RoomBelow(m, |bs|)
    ensures Stacked(m, bs).host.cpu.eflags == m.host.cpu.eflags
  {
  }

  lemma FlagsBack(x: nat)
    ensures x / 0x1_0000 * 0x1_0000 + x % 0x1_0000 == x
  {
  }

  lemma FrameFound(m: Machine)
    requires RoomBelow(m, 6)
    ensures |Frame(m.host.cpu)| == 6
    ensures var c, n := m.host.cpu, Stacked(m, Frame(m.host.cpu));
            var ram, top := n.host.ram, StackTop(n.host.cpu);
            && RoomAbove(n, 6) && top == StackTop(c) - 6
            && Word16(ram, top) == c.eip % 0x1_0000 && Word16(ram, top + 2) == c.cs % 0x1_0000
            && Word16(ram, top + 4) == c.eflags % 0x1_0000
  {
    var c, n := m.host.cpu, Stacked(m, Frame(m.host.cpu));
    FrameBytes(c);
    StackedTop(m, Frame(c));
    var ram, top := n.host.ram, StackTop(n.host.cpu);
    hide Frame, Word16, Stacked;
    PartWord(ram, top, Frame(c), 0);
    PartWord(ram, top, Frame(c), 2);
    PartWord(ram, top, Frame(c), 4);
  }

  lemma PartWord(ram: seq<byte>, a: nat, bs: seq<byte>, k: nat)
    requires a + |bs| <= |ram| && ram[a..a + |bs|] == bs && k + 2 <= |bs|
    ensures Word16(ram, a + k) == Word16(bs, k)
  {
    assert ram[a..a + |bs|][k] == ram[a + k] && ram[a..a + |bs|][k + 1] == ram[a + k + 1];
  }

  /** Segment and instruction pointer do not matter to the stack. */
  lemma SameStack(m: Machine, n: Machine)
    requires RoomAbove(m, 6) && n == WithCpu(m, m.host.cpu.(eip := n.host.cpu.eip, cs := n.host.cpu.cs))
    ensures RoomAbove(n, 6) && StackTop(n.host.cpu) == StackTop(m.host.cpu)
    ensures Dropped(n, 6).host.cpu == Dropped(m, 6).host.cpu.(eip := n.host.cpu.eip, cs := n.host.cpu.cs)
    ensures n.host.cpu.eflags == m.host.cpu.eflags && SameOutside(m, n) && SameOutside(m, Dropped(m, 6))
  {
  }

  // ----- strings, ports and the rest

  /** STOSB stores AL at es:di and moves DI on, within its 16 bits. */
  lemma StoreStringStores(o: Oracle, m: Machine, di: nat)
    requires EightRegs(m.host.cpu) && !Paging(m.host.ram, m.host.cpu.cr0) && |m.host.ram| < W
    requires di == m.host.cpu.regs[EDI] % 0x1_0000 && m.host.cpu.es * 16 + di < |m.host.ram|
    ensures var c := m.host.cpu;
            var high := c.regs[EDI] - di;
            var next := if di == 0xFFFF then high else c.regs[EDI] + 1;
            Exec(o, m, Instr(STOSB, -1, -1, 0, 1)) ==
            WithCpu(WithRam(m, m.host.ram[c.es * 16 + di := c.regs[0] % 256]), c.(regs := c.regs[EDI := next]))
  {
    var c, a := m.host.cpu, m.host.cpu.es * 16 + di;
    var edi := c.regs[EDI];
    DivModUnique(a, W, 0, a);
    NextIndex(edi, di);
    var ram := m.host.ram;
    assert ram[..a] + [c.regs[0] % 256] + ram[a + 1..] == ram[a := c.regs[0] % 256];
    hide NoCommonBit;
  }

  lemma NextIndex(edi: nat, di: nat)
    requires edi < W && di == edi % 0x1_0000
    ensures var next := if di == 0xFFFF then edi - di else edi + 1;
            edi / 0x1_0000 * 0x1_0000 + (edi + 1) % 0x1_0000 == next && next % W == next
  {
    var q := edi / 0x1_0000;
    DivModUnique(edi + 1, 0x1_0000, if di == 0xFFFF then q + 1 else q, if di == 0xFFFF then 0 else di + 1);
    var next := if di == 0xFFFF then edi - di else edi + 1;
    DivModUnique(next, W, 0, next);
  }

  /** IN fills AL from the port of its immediate and leaves the rest of EAX; IN EAX, DX fills all of it from port DX. */
  lemma InFills(o: Oracle, m: Machine, port: byte)
    requires EightRegs(m.host.cpu)
    ensures var c := m.host.cpu;
            var (v, head, latches) := o.input(m.host, m.latches, port, 1);
            var n := Exec(o, m, Instr(IN, -1, -1, port, 2));
            && SameBut(c, n.host.cpu, 0) && n.host.cpu.regs[0] / 256 == c.regs[0] / 256 && n.host.cpu.regs[0] % 256 == v % 256
            && n == m.(latches := latches, host := m.host.(kbdHead := head, cpu := n.host.cpu))
    ensures var c := m.host.cpu;
            var (v, head, latches) := o.input(m.host, m.latches, c.regs[2] % 0x1_0000, 4);
            var n := Exec(o, m, Instr(IN_DX, -1, -1, 0, 1));
            && SameBut(c, n.host.cpu, 0) && n.host.cpu.regs[0] == v % W
            && n == m.(latches := latches, host := m.host.(kbdHead := head, cpu := n.host.cpu))
  {
    var c := m.host.cpu;
    var (v, head, latches) := o.input(m.host, m.latches, port, 1);
    LowByte(c.regs[0], v % 256);
  }

  lemma LowByte(x: nat, b: nat)
    requires x < W && b < 256
    ensures var y := x / 256 * 256 + b; y < W && y % W == y && y / 256 == x / 256 && y % 256 == b
  {
    var y := x / 256 * 256 + b;
    DivModUnique(y, 256, x / 256, b);
    DivModUnique(y, W, 0, y);
  }

  /** OUT sends AL to the port of its immediate, and OUT DX, EAX all of EAX to port DX; the serial port records a byte. */
  lemma OutSends(o: Oracle, m: Machine, port: byte)
    requires EightRegs(m.host.cpu)
    ensures Exec(o, m, Instr(OUT, -1, -1, port, 2)) == Out(o, m, port, m.host.cpu.regs[0] % 256, 1)
    ensures Exec(o, m, Instr(OUT_DX, -1, -1, 0, 1)) == Out(o, m, m.host.cpu.regs[2] % 0x1_0000, m.host.cpu.regs[0], 4)
    ensures port == 0xF8 ==> Exec(o, m, Instr(OUT, -1, -1, port, 2)) == m.(serial := m.serial + [m.host.cpu.regs[0] % 256])
    ensures m.host.cpu.regs[2] % 0x1_0000 == 0x3F8 ==>
              Exec(o, m, Instr(OUT_DX, -1, -1, 0, 1)) == m.(serial := m.serial + [m.host.cpu.regs[0] % 256])
  {
  }

  /** HLT stops the machine for good, and NOP does nothing. */
  lemma HaltStops(o: Oracle, m: Machine, n: nat)
    ensures var h := Exec(o, m, Instr(HLT, -1, -1, 0, 1));
            h == WithCpu(m, m.host.cpu.(halted := true)) && RunStep(o, h, n) == h
    ensures Exec(o, m, Instr(NOP, -1, -1, 0, 1)) == m
  {
  }

  // ----- one round of the loop

  /** Without paging, the instruction pointer stands in front of the bytes of `i`. */
  predicate Fetches(m: Machine, i: Instr) {
    var a := m.host.cpu.cs * 16 + m.host.cpu.eip;
    && !Paging(m.host.ram, m.host.cpu.cr0) && |m.host.ram| < W
    && a + 16 <= |m.host.ram| && Decode(m.host.ram[a..a + 16]) == Some(i)
  }

  lemma FetchIs(o: Oracle, m: Machine)
    requires !Paging(m.host.ram, m.host.cpu.cr0) && m.host.cpu.cs * 16 + m.host.cpu.eip < W
    ensures FetchAddr(o, m) == m.host.cpu.cs * 16 + m.host.cpu.eip
  {
    var a := m.host.cpu.cs * 16 + m.host.cpu.eip;
    DivModUnique(a, W, 0, a);
    TranslateOff(o, m, a);
    hide Translate, Paging;
  }

  /** An instruction is fetched, decoded, executed and stepped over. */
  lemma StepRuns(o: Oracle, m: Machine, i: Instr)
    requires Fetches(m, i)
    ensures Step(o, m) == Some(Advance(Exec(o, m, i), i))
  {
    var a := m.host.cpu.cs * 16 + m.host.cpu.eip;
    FetchIs(o, m);
    WindowIs(o, m, a);
    DivModUnique(a + 16, W, 0, a + 16);
    hide Exec, Decode, DecodeAt, FetchBytes, FetchAddr, Paging, Advance;
  }

  /** Quanta compose, and a quantum of one is a step: how the instructions are grouped does not matter. */
  lemma {:induction false} QuantaCompose(o: Oracle, m: Machine, a: nat, b: nat)
    ensures RunStep(o, m, a + b) == RunStep(o, RunStep(o, m, a), b)
    ensures RunStep(o, m, 1) == if !m.host.cpu.halted && Step(o, m).Some? then Step(o, m).value else m
    decreases a
  {
    hide Step;
    if !m.host.cpu.halted {
      match Step(o, m)
      case None =>
        assert RunStep(o, m, a) == m && RunStep(o, m, a + b) == m && RunStep(o, m, b) == m;
      case Some(m1) =>
        assert RunStep(o, m, 1) == RunStep(o, m1, 0);
        if a > 0 {
          assert RunStep(o, m, a + b) == RunStep(o, m1, a - 1 + b) && RunStep(o, m, a) == RunStep(o, m1, a - 1);
          QuantaCompose(o, m1, a - 1, b);
        }
    }
  }

  /** JMP is not stepped over, and everything else is. */
  lemma StepsOver(m: Machine, i: Instr)
    ensures Advance(m, i) == if i.op == JMP then m else WithCpu(m, m.host.cpu.(eip := (m.host.cpu.eip + i.size) % W))
  {
  }

  lemma WindowIs(o: Oracle, m: Machine, a: nat)
    requires a + 16 <= |m.host.ram| < W
    ensures DecodeAt(FetchBytes(o, m, a), a, |m.host.ram|) == Decode(m.host.ram[a..a + 16])
  {
    var w := FetchBytes(o, m, a);
    forall i | 0 <= i < 16 ensures w[i] == m.host.ram[a..a + 16][i] { DivModUnique(a + i, W, 0, a + i); }
    assert w == m.host.ram[a..a + 16];
    hide FetchBytes, DecodeAt, Decode;
    DecodeInside(w, a, |m.host.ram|);
  }

  predicate Conditional(i: Instr, b: byte) {
    i == Instr(JZ, -1, -1, SignExtend8(b), 2) || i == Instr(JNZ, -1, -1, SignExtend8(b), 2)
  }

  /** JZ jumps when the zero flag is set, JNZ when it is not. */
  predicate Taken(c: Cpu, i: Instr) { (i.op == JZ) == Z(c.eflags) }

  /**
   * A conditional jump that is taken is stepped over as well, so it lands two bytes behind the place where JMP with the
   * same displacement lands.
   */
  lemma ConditionalJumpOvershoots(o: Oracle, m: Machine, i: Instr, b: byte)
    requires Fetches(m, i) && Conditional(i, b) && Taken(m.host.cpu, i)
    ensures var target := (m.host.cpu.eip + 2 + Signed(b)) % W;
            && Exec(o, m, Instr(JMP, -1, -1, SignExtend8(b), 2)) == WithCpu(m, m.host.cpu.(eip := target))
            && Step(o, m) == Some(WithCpu(m, m.host.cpu.(eip := (target + 2) % W)))
  {
    hide Exec, SignExtend8, Step, Fetches, Advance, Signed, Z;
    JumpGoes(o, m, b);
    ConditionalIs(o, m, i, b);
    StepRuns(o, m, i);
    StepsOver(Exec(o, m, i), i);
  }

  lemma ConditionalIs(o: Oracle, m: Machine, i: Instr, b: byte)
    requires Conditional(i, b)
    ensures Exec(o, m, i) == if Taken(m.host.cpu, i) then Exec(o, m, Instr(JMP, -1, -1, SignExtend8(b), 2)) else m
  {
    hide SignExtend8, Z;
  }

  lemma TwoFurther(x: int)
    ensures (x % W + 2) % W != x % W
  {
    var r := x % W;
    if r + 2 < W { DivModUnique(r + 2, W, 0, r + 2); } else { DivModUnique(r + 2, W, 1, r + 2 - W); }
  }

  /** The exact condition: a conditional jump goes where it should if and only if it is not taken. */
  lemma ConditionalJumpRightIff(o: Oracle, m: Machine, i: Instr, b: byte)
    requires Fetches(m, i) && Conditional(i, b)
    ensures Step(o, m).Some?
    ensures var c := m.host.cpu;
            var should := (c.eip + 2 + if Taken(c, i) then Signed(b) else 0) % W;
            Step(o, m).value.host.cpu.eip == should <==> !Taken(c, i)
  {
    hide Exec, SignExtend8, Step, Fetches, Advance, Signed, Z;
    StepRuns(o, m, i);
    if Taken(m.host.cpu, i) {
      ConditionalJumpOvershoots(o, m, i, b);
      TwoFurther(m.host.cpu.eip + 2 + Signed(b));
    } else {
      ConditionalIs(o, m, i, b);
      StepsOver(m, i);
    }
  }

  lemma StepEip(o: Oracle, m: Machine, i: Instr)
    requires Fetches(m, i) && i.op != JMP
    ensures Step(o, m).Some?
    ensures Step(o, m).value.host.cpu.eip == (Exec(o, m, i).host.cpu.eip + i.size) % W
    ensures Step(o, m).value.host.cpu.cs == Exec(o, m, i).host.cpu.cs
  {
    hide Exec, Step, Fetches;
    StepRuns(o, m, i);
  }

  lemma InterruptEip(o: Oracle, m: Machine, v: byte)
    requires RoomBelow(m, 6) && 4 * (v as int) + 4 <= StackTop(m.host.cpu) - 6
    ensures var c, b := Exec(o, m, Instr(INT, -1, -1, v, 2)).host.cpu, 4 * (v as int);
            c.eip == Word16(m.host.ram, b) && c.cs == Word16(m.host.ram, b + 2)
  {
    hide Exec, Word16, Stacked, Frame, RoomBelow;
    InterruptGoes(o, m, v);
  }

  /** INT is stepped over after it has gone to its vector, so the handler starts two bytes behind its address. */
  lemma InterruptSkips(o: Oracle, m: Machine, v: byte)
    requires RoomBelow(m, 6) && 4 * (v as int) + 4 <= StackTop(m.host.cpu) - 6 && Fetches(m, Instr(INT, -1, -1, v, 2))
    ensures Step(o, m).Some?
    ensures var b, c := 4 * (v as int), Step(o, m).value.host.cpu;
            c.eip == Word16(m.host.ram, b) + 2 && c.cs == Word16(m.host.ram, b + 2)
  {
    hide Exec, Step, Fetches, Word16, Paging;
    var ip := Word16(m.host.ram, 4 * (v as int));
    hide RoomBelow, StackTop;
    StepEip(o, m, Instr(INT, -1, -1, v, 2));
    InterruptEip(o, m, v);
    DivModUnique(ip + 2, W, 0, ip + 2);
  }

  lemma ReturnEip(o: Oracle, m: Machine, i: Instr)
    requires RoomAbove(m, 6) && (i == Instr(IRET, -1, -1, 0, 1) || i == Instr(RET, -1, -1, 0, 1))
    ensures Exec(o, m, i).host.cpu.eip == Word16(m.host.ram, StackTop(m.host.cpu))
  {
    assert RoomAbove(m, 2);
    hide Exec, Word16, Dropped;
    if i.op == IRET { InterruptReturns(o, m); } else { ReturnGoes(o, m); }
  }

  /** So are IRET and RET: they resume one byte behind the address on the stack. */
  lemma ReturnsSkip(o: Oracle, m: Machine, i: Instr)
    requires RoomAbove(m, 6) && Fetches(m, i) && (i == Instr(IRET, -1, -1, 0, 1) || i == Instr(RET, -1, -1, 0, 1))
    ensures Step(o, m).Some? && Step(o, m).value.host.cpu.eip == Word16(m.host.ram, StackTop(m.host.cpu)) + 1
  {
    hide Exec, Step, Fetches, Word16, Paging;
    var ip := Word16(m.host.ram, StackTop(m.host.cpu));
    hide RoomAbove, StackTop;
    StepEip(o, m, i);
    ReturnEip(o, m, i);
    DivModUnique(ip + 1, W, 0, ip + 1);
  }

  // ----- paging

  lemma Digits(dir: nat, tab: nat, off: nat)
    requires dir < 1024 && tab < 1024 && off < 4096
    ensures var linear := dir * 0x40_0000 + tab * 0x1000 + off;
            linear / 0x40_0000 % 1024 == dir && linear / 0x1000 % 1024 == tab && linear % 4096 == off
  {
    var linear := dir * 0x40_0000 + tab * 0x1000 + off;
    DivModUnique(linear, 0x40_0000, dir, tab * 0x1000 + off);
    DivModUnique(linear, 0x1000, dir * 1024 + tab, off);
    DivModUnique(dir * 1024 + tab, 1024, dir, tab);
  }

  lemma PageAndFlags(page: nat, flags: nat)
    requires flags < 4096
    ensures PageBase(page * 4096 + flags) == page * 4096
  {
    DivModUnique(page * 4096 + flags, 4096, page, flags);
  }

  /** A present entry: its page number and its flags, the lowest of which is set. */
  predicate Entry(ram: seq<byte>, a: nat, page: nat, flags: nat) {
    a + 4 <= |ram| && flags < 4096 && flags % 2 == 1 && FromLE(ram[a..a + 4]) == page * 4096 + flags
  }

  lemma EntryPeeked(o: Oracle, latches: nat, ram: seq<byte>, a: nat)
    requires a + 4 <= |ram|
    ensures PeekWord(o, latches, ram, a) == FromLE(ram[a..a + 4])
  {
    assert PeekBytes(o, latches, ram, a, 4) == ram[a..a + 4];
  }

  lemma OddEntry(page: nat, flags: nat)
    requires flags % 2 == 1
    ensures (page * 4096 + flags) % 2 == 1
  {
    DivModUnique(page * 4096 + flags, 2, page * 2048 + flags / 2, 1);
  }

  /**
   * A walk: directory entry number `dir` of the page that CR3 names gives the page of the table, and entry number `tab`
   * of that gives the page in which the offset stays.
   */
  lemma WalkFinds(o: Oracle, latches: nat, ram: seq<byte>, cr0: nat, root: nat, low: nat, dir: nat, tab: nat, off: nat,
                  table: nat, f: nat, page: nat, g: nat)
    requires Paging(ram, cr0) && |ram| < W && low < 4096 && dir < 1024 && tab < 1024 && off < 4096
    requires Entry(ram, root * 4096 + dir * 4, table, f) && Entry(ram, table * 4096 + tab * 4, page, g)
    requires page * 4096 + off < W
    ensures Translate(o, latches, ram, cr0, root * 4096 + low, dir * 0x40_0000 + tab * 0x1000 + off) == page * 4096 + off
  {
    hide FromLE, PeekWord, PageBase, Paging, PdeAddr, PteAddr;
    EntryAddresses(root, low, dir, tab, off, |ram|);
    TableAddress(table, f, dir, tab, off, |ram|);
    PageAndFlags(page, g);
    Digits(dir, tab, off);
    OddEntry(table, f);
    OddEntry(page, g);
    EntryPeeked(o, latches, ram, root * 4096 + dir * 4);
    EntryPeeked(o, latches, ram, table * 4096 + tab * 4);
    DivModUnique(page * 4096 + off, W, 0, page * 4096 + off);
  }

  lemma EntryAddresses(root: nat, low: nat, dir: nat, tab: nat, off: nat, size: nat)
    requires low < 4096 && dir < 1024 && tab < 1024 && off < 4096 && root * 4096 + dir * 4 + 4 <= size < W
    ensures var a := root * 4096 + dir * 4;
            PdeAddr(root * 4096 + low, dir * 0x40_0000 + tab * 0x1000 + off) == a && (a + 4) % W == a + 4
  {
    var a := root * 4096 + dir * 4;
    Digits(dir, tab, off);
    PageAndFlags(root, low);
    DivModUnique(a, W, 0, a);
    DivModUnique(a + 4, W, 0, a + 4);
    hide PageBase;
  }

  lemma TableAddress(table: nat, f: nat, dir: nat, tab: nat, off: nat, size: nat)
    requires f < 4096 && dir < 1024 && tab < 1024 && off < 4096 && table * 4096 + tab * 4 + 4 <= size < W
    ensures var a := table * 4096 + tab * 4;
            PteAddr(table * 4096 + f, dir * 0x40_0000 + tab * 0x1000 + off) == a && (a + 4) % W == a + 4
  {
    var a := table * 4096 + tab * 4;
    Digits(dir, tab, off);
    PageAndFlags(table, f);
    DivModUnique(a, W, 0, a);
    DivModUnique(a + 4, W, 0, a + 4);
    hide PageBase;
  }

  /** An absent directory entry, and no paging at all, leave the address as it is. */
  lemma NoWalk(o: Oracle, latches: nat, ram: seq<byte>, cr0: nat, root: nat, low: nat, dir: nat, tab: nat, off: nat)
    requires |ram| < W && low < 4096 && dir < 1024 && tab < 1024 && off < 4096 && root * 4096 + dir * 4 + 4 <= |ram|
    requires FromLE(ram[root * 4096 + dir * 4..root * 4096 + dir * 4 + 4]) % 2 == 0 || cr0 < 0x8000_0000
    ensures var linear := dir * 0x40_0000 + tab * 0x1000 + off;
            Translate(o, latches, ram, cr0, root * 4096 + low, linear) == linear
  {
    EntryAddresses(root, low, dir, tab, off, |ram|);
    EntryPeeked(o, latches, ram, root * 4096 + dir * 4);
    if cr0 < 0x8000_0000 { DivModUnique(cr0, 0x8000_0000, 0, cr0); }
    hide FromLE, PeekWord, PageBase, PdeAddr, PteAddr;
  }

  // ----- the two directions of ADD and SUB

  lemma RegisterForm(w: seq<byte>, reg: nat, rm: nat)
    requires |w| == WINDOW && reg < 8 && rm < 8 && w[1] == 0xC0 + reg * 8 + rm
    ensures RegForm(w, 1) == Some((reg, rm))
  {
    var b := 0xC0 + reg * 8 + rm;
    DivModUnique(b, 8, 24 + reg, rm);
    DivModUnique(24 + reg, 8, 3, reg);
  }

  /** Opcodes 01 and 29 work on the r/m register, 03 and 2B on the other one. */
  lemma Directions(w: seq<byte>, reg: nat, rm: nat)
    requires |w| == WINDOW && reg < 8 && rm < 8 && w[1] == 0xC0 + reg * 8 + rm
    ensures w[0] == 0x01 ==> Decode(w) == Some(Instr(ADD, rm, reg, 0, 2))
    ensures w[0] == 0x03 ==> Decode(w) == Some(Instr(ADD, reg, rm, 0, 2))
    ensures w[0] == 0x29 ==> Decode(w) == Some(Instr(SUB, rm, reg, 0, 2))
    ensures w[0] == 0x2B ==> Decode(w) == Some(Instr(SUB, reg, rm, 0, 2))
  {
    RegisterForm(w, reg, rm);
    hide RegForm;
  }
}
