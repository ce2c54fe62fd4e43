/** The emulated machine: CPU, guest memory, address translation and the effect of one instruction. */
module VmMachine {
  import opened Basics
  import opened Bytes
  import opened VmDecode

  const W := 0x1_0000_0000    // uint32_t

  /** General registers in the order EAX, ECX, EDX, EBX, ESP, EBP, ESI, EDI. */
  datatype Cpu = Cpu(regs: seq<nat>, eip: nat, cs: nat, ds: nat, es: nat, ss: nat, fs: nat, gs: nat,
                     eflags: nat, cr0: nat, cr3: nat, halted: bool)

  datatype Host = Host(cpu: Cpu, ram: seq<byte>, kbd: seq<byte>, kbdHead: nat, kbdTail: nat, ticks: nat)

  /** `latches` stands for all device registers that no snapshot holds; `reset` is the one the run loop reads. */
  datatype Machine = Machine(host: Host, latches: nat, reset: bool, serial: seq<byte>)

  /**
   * What the model does not decide: bytes read from outside guest RAM or from variables no read
   * has filled, the answers of the emulated devices, and what a port write does to them and,
   * through system calls, to guest RAM.
   */
  datatype Oracle = Oracle(
    garbage: (nat, nat) -> byte,
    input: (Host, nat, nat, nat) -> (nat, nat, nat),
    output: (seq<byte>, nat, nat, nat, nat) -> (seq<byte>, nat, bool))

  const ESP := 4
  const EDI := 7

  function Reg(c: Cpu, r: int): nat {
    if 0 <= r < 8 && r < |c.regs| then c.regs[r] else 0
  }

  function SetReg(c: Cpu, r: int, v: nat): Cpu {
    if 0 <= r < 8 && r < |c.regs| then c.(regs := c.regs[r := v % W]) else c
  }

  function AddTo(c: Cpu, r: int, delta: int): Cpu {
    SetReg(c, r, (Reg(c, r) + delta) % W)
  }

  // ----- guest memory

  /** vm_mem_read of `n` bytes as a little-endian number; nothing when any byte is out of range. */
  function ReadMem(ram: seq<byte>, a: nat, n: nat): Option<nat> {
    if a + n > |ram| then None else Some(FromLE(ram[a..a + n]))
  }

  /** vm_mem_write: no effect unless every byte is in range. */
  function WriteMem(ram: seq<byte>, a: nat, bs: seq<byte>): (r: seq<byte>)
    ensures |r| == |ram|
    ensures forall i :: 0 <= i < |ram| && !(a <= i < a + |bs|) ==> r[i] == ram[i]
    ensures a + |bs| <= |ram| ==> r[a..a + |bs|] == bs
  {
    if a + |bs| > |ram| then ram else ram[..a] + bs + ram[a + |bs|..]
  }

  /** A raw byte access with no bounds check. */
  function Peek(o: Oracle, latches: nat, ram: seq<byte>, i: nat): byte {
    if i < |ram| then ram[i] else o.garbage(latches, i)
  }

  function PeekBytes(o: Oracle, latches: nat, ram: seq<byte>, a: nat, n: nat): (r: seq<byte>)
    ensures |r| == n
    ensures forall i :: 0 <= i < n ==> r[i] == Peek(o, latches, ram, a + i)
  {
    seq<byte>(n, i requires 0 <= i < n => Peek(o, latches, ram, a + i))
  }

  /** A 32-bit word with no bounds check. */
  function PeekWord(o: Oracle, latches: nat, ram: seq<byte>, a: nat): nat {
    FromLE(PeekBytes(o, latches, ram, a, 4))
  }

  // ----- addresses

  /** vm_cpu_linear_addr */
  function Linear(seg: nat, offset: nat): nat { (seg * 16 + offset) % W }

  function PageBase(x: nat): nat { x - x % 4096 }

  function PdeAddr(cr3: nat, linear: nat): nat { (PageBase(cr3) + linear / 0x40_0000 % 1024 * 4) % W }

  function PteAddr(pde: nat, linear: nat): nat { (PageBase(pde) + linear / 0x1000 % 1024 * 4) % W }

  predicate Paging(ram: seq<byte>, cr0: nat) { cr0 / 0x8000_0000 % 2 == 1 && |ram| >= 4096 }

  /** vm_cpu_translate: a walk that leaves RAM or meets an absent entry yields the linear address itself. */
  function Translate(o: Oracle, latches: nat, ram: seq<byte>, cr0: nat, cr3: nat, linear: nat): nat {
    if !Paging(ram, cr0) then linear else
      var pdeAddr := PdeAddr(cr3, linear);
      if (pdeAddr + 4) % W > |ram| then linear else
        var pde := PeekWord(o, latches, ram, pdeAddr);
        if pde % 2 == 0 then linear else
          var pteAddr := PteAddr(pde, linear);
          if (pteAddr + 4) % W > |ram| then linear else
            var pte := PeekWord(o, latches, ram, pteAddr);
            if pte % 2 == 0 then linear else (PageBase(pte) + linear % 4096) % W
  }

  function Phys(o: Oracle, m: Machine, seg: nat, offset: nat): nat {
    Translate(o, m.latches, m.host.ram, m.host.cpu.cr0, m.host.cpu.cr3, Linear(seg, offset))
  }

  // ----- pieces of instructions

  function WithCpu(m: Machine, c: Cpu): Machine { m.(host := m.host.(cpu := c)) }

  function WithRam(m: Machine, ram: seq<byte>): Machine { m.(host := m.host.(ram := ram)) }

  /** Moves the stack pointer down by `n` bytes and stores there. */
  function Push(o: Oracle, m: Machine, v: nat, n: nat): Machine {
    var m1 := WithCpu(m, AddTo(m.host.cpu, ESP, -(n as int)));
    WithRam(m1, WriteMem(m1.host.ram, Phys(o, m1, m1.host.cpu.ss, Reg(m1.host.cpu, ESP)), ToLE(v, n)))
  }

  /** The word at the top of the stack; unspecified when it is out of range. */
  function Top(o: Oracle, m: Machine, n: nat): nat {
    match ReadMem(m.host.ram, Phys(o, m, m.host.cpu.ss, Reg(m.host.cpu, ESP)), n)
    case Some(v) => v
    case None => FromLE(PeekBytes(o, m.latches, [], 0, n))
  }

  function Drop(m: Machine, n: nat): Machine { WithCpu(m, AddTo(m.host.cpu, ESP, n)) }

  /** eflags with the zero flag set or cleared. */
  function SetZ(flags: nat, z: bool): nat {
    flags / 0x80 * 0x80 + (if z then 0x40 else 0) + flags % 0x40
  }

  /** (a & b) == 0 on bytes */
  predicate NoCommonBit(a: byte, b: byte) { a as bv8 & b as bv8 == 0 }

  predicate Z(flags: nat) { flags / 0x40 % 2 == 1 }

  /** (int32_t)(int8_t)imm */
  function Rel8(imm: nat): int {
    var b := imm % 256;
    if b < 0x80 then b else b - 0x100
  }

  function Jump(c: Cpu, i: Instr): Cpu {
    c.(eip := (c.eip + Rel8(i.imm) + i.size) % W)
  }

  predicate IsSerial(port: nat) { port == 0x3F8 || port == 0xF8 }

  function Out(o: Oracle, m: Machine, port: nat, value: nat, size: nat): Machine {
    if IsSerial(port) then m.(serial := m.serial + [value % 256])
    else
      var (ram, latches, reset) := o.output(m.host.ram, m.latches, port, value, size);
      WithRam(m.(latches := latches, reset := m.reset || reset), if |ram| == |m.host.ram| then ram else m.host.ram)
  }

  function In(o: Oracle, m: Machine, port: nat, size: nat): (nat, Machine) {
    var (v, kbdHead, latches) := o.input(m.host, m.latches, port, size);
    (v, m.(latches := latches, host := m.host.(kbdHead := kbdHead)))
  }

  /** The second operand of ADD and SUB. */
  function Operand(c: Cpu, i: Instr): nat {
    if 0 <= i.src < 8 then Reg(c, i.src) else Rel8(i.imm) % W
  }

  function Arith(c: Cpu, i: Instr, r: nat): Cpu {
    if 0 <= i.dst < 8 then SetReg(c, i.dst, r).(eflags := SetZ(c.eflags, r == 0)) else c
  }

  // ----- execute

  function Interrupt(o: Oracle, m: Machine, vector: nat): Machine {
    var c := m.host.cpu;
    var m3 := Push(o, Push(o, Push(o, m, c.eflags % 0x1_0000, 2), c.cs % 0x1_0000, 2), c.eip % 0x1_0000, 2);
    var c3 := m3.host.cpu;
    var ivt := Translate(o, m3.latches, m3.host.ram, c3.cr0, c3.cr3, vector * 4);
    if (ivt + 4) % W > |m3.host.ram| then m3
    else
      // a vector that straddles the end of the address space keeps the pushed values
      var ip := match ReadMem(m3.host.ram, ivt, 2) case Some(v) => v case None => c.eip % 0x1_0000;
      var cs := match ReadMem(m3.host.ram, (ivt + 2) % W, 2) case Some(v) => v case None => c.cs % 0x1_0000;
      WithCpu(m3, c3.(eip := ip, cs := cs))
  }

  function Return16(o: Oracle, m: Machine): Machine {
    var m1 := Drop(m, 2);
    WithCpu(m1, m1.host.cpu.(eip := Top(o, m, 2)))
  }

  function InterruptReturn(o: Oracle, m: Machine): Machine {
    var ip, m1 := Top(o, m, 2), Drop(m, 2);
    var cs, m2 := Top(o, m1, 2), Drop(m1, 2);
    var flags, m3 := Top(o, m2, 2), Drop(m2, 2);
    var c := m3.host.cpu;
    WithCpu(m3, c.(eip := ip, cs := cs, eflags := c.eflags / 0x1_0000 * 0x1_0000 + flags))
  }

  function StoreString(o: Oracle, m: Machine): Machine {
    var c := m.host.cpu;
    var edi := Reg(c, EDI);
    var m1 := WithRam(m, WriteMem(m.host.ram, Phys(o, m, c.es, edi % 0x1_0000), [Reg(c, 0) % 256]));
    WithCpu(m1, SetReg(c, EDI, edi / 0x1_0000 * 0x1_0000 + (edi + 1) % 0x1_0000))
  }

  function MoveControl(c: Cpu, i: Instr): Cpu {
    if i.imm == 0 then
      SetReg(c, i.src, if i.dst == 0 then c.cr0 else if i.dst == 3 then c.cr3 else 0)
    else
      var v := Reg(c, i.src);
      if i.dst == 0 then c.(cr0 := v) else if i.dst == 3 then c.(cr3 := v) else c
  }

  function Exec(o: Oracle, m: Machine, i: Instr): Machine {
    var c := m.host.cpu;
    match i.op
    case NOP => m
    case HLT => WithCpu(m, c.(halted := true))
    case IN =>
      var (v, m1) := In(o, m, i.imm, 1);
      WithCpu(m1, SetReg(c, 0, Reg(c, 0) / 256 * 256 + v % 256))
    case OUT => Out(o, m, i.imm, Reg(c, 0) % 256, 1)
    case IN_DX =>
      var (v, m1) := In(o, m, Reg(c, 2) % 0x1_0000, 4);
      WithCpu(m1, SetReg(c, 0, v))
    case OUT_DX => Out(o, m, Reg(c, 2) % 0x1_0000, Reg(c, 0), 4)
    case MOV => if i.dst >= 0 && i.src < 0 then WithCpu(m, SetReg(c, i.dst, i.imm)) else m
    case PUSH => Push(o, m, Reg(AddTo(c, ESP, -4), i.dst), 4)
    case POP =>
      var m1 := Drop(m, 4);
      WithCpu(m1, SetReg(m1.host.cpu, i.dst, Top(o, m, 4)))
    case JMP => WithCpu(m, Jump(c, i))
    case RET => Return16(o, m)
    case INT => Interrupt(o, m, i.imm % 256)
    case IRET => InterruptReturn(o, m)
    case STOSB => StoreString(o, m)
    case INC => if 0 <= i.dst < 8 then WithCpu(m, AddTo(c, i.dst, 1)) else m
    case DEC => if 0 <= i.dst < 8 then WithCpu(m, AddTo(c, i.dst, -1)) else m
    case CMP => WithCpu(m, c.(eflags := SetZ(c.eflags, Reg(c, 0) % 256 == i.imm % 256)))
    case TEST => WithCpu(m, c.(eflags := SetZ(c.eflags, NoCommonBit(Reg(c, 0) % 256, i.imm % 256))))
    case JZ => if Z(c.eflags) then WithCpu(m, Jump(c, i)) else m
    case JNZ => if Z(c.eflags) then m else WithCpu(m, Jump(c, i))
    case ADD => WithCpu(m, Arith(c, i, (Reg(c, i.dst) + Operand(c, i)) % W))
    case SUB => WithCpu(m, Arith(c, i, (Reg(c, i.dst) - Operand(c, i)) % W))
    case MOV_CR => WithCpu(m, MoveControl(c, i))
  }

  // ----- fetch, decode, execute

  function FetchAddr(o: Oracle, m: Machine): nat { Phys(o, m, m.host.cpu.cs, m.host.cpu.eip) }

  /** The bytes that vm_decode may look at: 32-bit indices, no bounds check. */
  function FetchBytes(o: Oracle, m: Machine, phys: nat): (r: seq<byte>)
    ensures |r| == 16
    ensures forall i :: 0 <= i < 16 ==> r[i] == Peek(o, m.latches, m.host.ram, (phys + i) % W)
  {
    seq<byte>(16, i requires 0 <= i < 16 => Peek(o, m.latches, m.host.ram, (phys + i) % W))
  }

  function Advance(m: Machine, i: Instr): Machine {
    if i.op == JMP then m else WithCpu(m, m.host.cpu.(eip := (m.host.cpu.eip + i.size) % W))
  }

  /** One round of vm_run_step's loop; None where the loop breaks. */
  function Step(o: Oracle, m: Machine): Option<Machine> {
    var phys := FetchAddr(o, m);
    if (phys + 16) % W > |m.host.ram| then None else
      match DecodeAt(FetchBytes(o, m, phys), phys, |m.host.ram|)
      case None => None
      case Some(i) => Some(Advance(Exec(o, m, i), i))
  }

  /** vm_run_step: up to `n` instructions, stopping at HLT or at an address that cannot be decoded. */
  function RunStep(o: Oracle, m: Machine, n: nat): Machine
    decreases n
  {
    if n == 0 || m.host.cpu.halted then m else
      match Step(o, m)
      case None => m
      case Some(m1) => RunStep(o, m1, n - 1)
  }

  /** What instructions leave alone: the clock, the size of RAM and the keyboard queue except for its head. */
  predicate Kept(h: Host, h': Host) {
    h'.ticks == h.ticks && |h'.ram| == |h.ram| && h'.kbd == h.kbd && h'.kbdTail == h.kbdTail
  }

  lemma ExecKeeps(o: Oracle, m: Machine, i: Instr)
    ensures Kept(m.host, Exec(o, m, i).host)
  {
    hide Phys, Top, AddTo, SetReg, Translate, Reg, Linear, Rel8, SetZ, Z, Jump, Arith, Operand, ReadMem, MoveControl;
    match i.op
    case INT => InterruptKeeps(o, m, i.imm % 256);
    case IRET =>
    case _ =>
  }

  lemma InterruptKeeps(o: Oracle, m: Machine, vector: nat)
    ensures Kept(m.host, Interrupt(o, m, vector).host)
  {
    hide Phys, AddTo, Translate, Reg, ReadMem, WriteMem;
  }

  lemma StepKeeps(o: Oracle, m: Machine)
    requires Step(o, m).Some?
    ensures Kept(m.host, Step(o, m).value.host)
  {
    hide Exec, DecodeAt, FetchAddr;
    var i := DecodeAt(FetchBytes(o, m, FetchAddr(o, m)), FetchAddr(o, m), |m.host.ram|).value;
    ExecKeeps(o, m, i);
  }

  lemma {:induction false} RunStepKeeps(o: Oracle, m: Machine, n: nat)
    ensures Kept(m.host, RunStep(o, m, n).host)
    decreases n
  {
    hide Step;
    if n > 0 && !m.host.cpu.halted && Step(o, m).Some? {
      StepKeeps(o, m);
      RunStepKeeps(o, Step(o, m).value, n - 1);
    }
  }
}
