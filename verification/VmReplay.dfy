/**
 * Guests whose behaviour is a function of what a snapshot holds: they use no port but the serial
 * output, and every byte they fetch, walk or pop lies inside guest RAM.
 */
module VmReplay {
  import opened Basics
  import opened Bytes
  import opened VmDecode
  import opened VmMachine

  /** Reads zeros and talks to no device; a tame guest cannot tell it from any other. */
  function Quiet(): Oracle {
    Oracle((l: nat, i: nat) => 0,
           (h: Host, l: nat, p: nat, s: nat) => (0, h.kbdHead, l),
           (ram: seq<byte>, l: nat, p: nat, v: nat, s: nat) => (ram, l, false))
  }

  function Alone(h: Host): Machine { Machine(h, 0, false, []) }

  // ----- tame accesses

  function QuietPhys(h: Host, seg: nat, offset: nat): nat { Phys(Quiet(), Alone(h), seg, offset) }

  function QuietWord(ram: seq<byte>, a: nat): nat { PeekWord(Quiet(), 0, ram, a) }

  /** Every table entry that a translation reads lies inside RAM. */
  predicate WalkInRam(ram: seq<byte>, cr0: nat, cr3: nat, linear: nat) {
    Paging(ram, cr0) && (PdeAddr(cr3, linear) + 4) % W <= |ram| ==>
      && PdeAddr(cr3, linear) + 4 <= |ram|
      && var pde := QuietWord(ram, PdeAddr(cr3, linear));
      (pde % 2 == 1 && (PteAddr(pde, linear) + 4) % W <= |ram| ==> PteAddr(pde, linear) + 4 <= |ram|)
  }

  predicate Walk(h: Host, seg: nat, offset: nat) {
    WalkInRam(h.ram, h.cpu.cr0, h.cpu.cr3, Linear(seg, offset))
  }

  function Sp(h: Host): nat { Reg(h.cpu, ESP) }

  predicate TamePush(h: Host, n: nat) {
    Walk(h, h.cpu.ss, Reg(AddTo(h.cpu, ESP, -(n as int)), ESP))
  }

  predicate TameTop(h: Host, n: nat) {
    Walk(h, h.cpu.ss, Sp(h)) && QuietPhys(h, h.cpu.ss, Sp(h)) + n <= |h.ram|
  }

  function Pushed(h: Host, v: nat, n: nat): Host { Push(Quiet(), Alone(h), v, n).host }

  function Dropped(h: Host, n: nat): Host { Drop(Alone(h), n).host }

  predicate TameInterrupt(h: Host, vector: nat) {
    var h1 := Pushed(h, h.cpu.eflags % 0x1_0000, 2);
    var h2 := Pushed(h1, h.cpu.cs % 0x1_0000, 2);
    var h3 := Pushed(h2, h.cpu.eip % 0x1_0000, 2);
    && TamePush(h, 2) && TamePush(h1, 2) && TamePush(h2, 2)
    && WalkInRam(h3.ram, h3.cpu.cr0, h3.cpu.cr3, vector * 4)
  }

  predicate TameInterruptReturn(h: Host) {
    TameTop(h, 2) && TameTop(Dropped(h, 2), 2) && TameTop(Dropped(Dropped(h, 2), 2), 2)
  }

  predicate TameInstr(h: Host, i: Instr) {
    match i.op
    case IN => false
    case IN_DX => false
    case OUT => IsSerial(i.imm)
    case OUT_DX => IsSerial(Reg(h.cpu, 2) % 0x1_0000)
    case PUSH => TamePush(h, 4)
    case POP => TameTop(h, 4)
    case RET => TameTop(h, 2)
    case INT => TameInterrupt(h, i.imm % 256)
    case IRET => TameInterruptReturn(h)
    case STOSB => Walk(h, h.cpu.es, Reg(h.cpu, EDI) % 0x1_0000)
    case _ => true
  }

  // ----- tame accesses do not depend on the oracle

  lemma PeekInside(o: Oracle, latches: nat, ram: seq<byte>, a: nat, n: nat)
    requires a + n <= |ram|
    ensures PeekBytes(o, latches, ram, a, n) == ram[a..a + n]
  {
    var p := PeekBytes(o, latches, ram, a, n);
    assert forall i :: 0 <= i < n ==> p[i] == ram[a..a + n][i];
  }

  lemma SameTranslate(o: Oracle, latches: nat, ram: seq<byte>, cr0: nat, cr3: nat, linear: nat)
    requires WalkInRam(ram, cr0, cr3, linear)
    ensures Translate(o, latches, ram, cr0, cr3, linear) == Translate(Quiet(), 0, ram, cr0, cr3, linear)
  {
    hide FromLE, PdeAddr, PteAddr, PageBase;
    if Paging(ram, cr0) && (PdeAddr(cr3, linear) + 4) % W <= |ram| {
      var a := PdeAddr(cr3, linear);
      PeekInside(o, latches, ram, a, 4);
      PeekInside(Quiet(), 0, ram, a, 4);
      var pde := QuietWord(ram, a);
      if pde % 2 == 1 && (PteAddr(pde, linear) + 4) % W <= |ram| {
        PeekInside(o, latches, ram, PteAddr(pde, linear), 4);
        PeekInside(Quiet(), 0, ram, PteAddr(pde, linear), 4);
      }
    }
  }

  lemma SamePhys(o: Oracle, m: Machine, seg: nat, offset: nat)
    requires Walk(m.host, seg, offset)
    ensures Phys(o, m, seg, offset) == QuietPhys(m.host, seg, offset)
  {
    SameTranslate(o, m.latches, m.host.ram, m.host.cpu.cr0, m.host.cpu.cr3, Linear(seg, offset));
  }

  lemma SamePush(o: Oracle, m: Machine, v: nat, n: nat)
    requires TamePush(m.host, n)
    ensures Push(o, m, v, n) == m.(host := Pushed(m.host, v, n))
  {
    hide Phys, AddTo, WriteMem;
    var c := AddTo(m.host.cpu, ESP, -(n as int));
    var m1 := WithCpu(m, c);
    PushWalk(m.host, n);
    SamePhys(o, m1, c.ss, Reg(c, ESP));
  }

  /** Moving the stack pointer changes neither the tables nor the segment. */
  lemma PushWalk(h: Host, n: nat)
    requires TamePush(h, n)
    ensures var c := AddTo(h.cpu, ESP, -(n as int));
            Walk(h.(cpu := c), c.ss, Reg(c, ESP))
  {
  }

  lemma SameTop(o: Oracle, m: Machine, n: nat)
    requires TameTop(m.host, n)
    ensures Top(o, m, n) == Top(Quiet(), Alone(m.host), n)
  {
    SamePhys(o, m, m.host.cpu.ss, Sp(m.host));
    hide Phys;
  }

  // ----- one instruction, one quantum

  lemma SameInterrupt(o: Oracle, m: Machine, vector: nat)
    requires TameInterrupt(m.host, vector)
    ensures Interrupt(o, m, vector) == m.(host := Interrupt(Quiet(), Alone(m.host), vector).host)
  {
    hide Push, Translate, TamePush, ReadMem, WalkInRam;
    var c, q := m.host.cpu, Quiet();
    var f, s, p := c.eflags % 0x1_0000, c.cs % 0x1_0000, c.eip % 0x1_0000;
    SamePush(o, m, f, 2);
    SamePush(q, Alone(m.host), f, 2);
    var m1, a1 := Push(o, m, f, 2), Push(q, Alone(m.host), f, 2);
    SamePush(o, m1, s, 2);
    SamePush(q, a1, s, 2);
    var m2, a2 := Push(o, m1, s, 2), Push(q, a1, s, 2);
    SamePush(o, m2, p, 2);
    SamePush(q, a2, p, 2);
    var m3 := Push(o, m2, p, 2);
    SameTranslate(o, m3.latches, m3.host.ram, m3.host.cpu.cr0, m3.host.cpu.cr3, vector * 4);
  }

  lemma SameInterruptReturn(o: Oracle, m: Machine)
    requires TameInterruptReturn(m.host)
    ensures InterruptReturn(o, m) == m.(host := InterruptReturn(Quiet(), Alone(m.host)).host)
  {
    hide Top, TameTop, AddTo;
    SameTop(o, m, 2);
    SameTop(o, Drop(m, 2), 2);
    SameTop(o, Drop(Drop(m, 2), 2), 2);
  }

  lemma SameStoreString(o: Oracle, m: Machine)
    requires Walk(m.host, m.host.cpu.es, Reg(m.host.cpu, EDI) % 0x1_0000)
    ensures StoreString(o, m) == m.(host := StoreString(Quiet(), Alone(m.host)).host)
  {
    SamePhys(o, m, m.host.cpu.es, Reg(m.host.cpu, EDI) % 0x1_0000);
    hide Phys, WriteMem;
  }

  /** What a tame instruction does to the host, and to the reset line, is the same whatever the devices hold. */
  lemma SameExec(o: Oracle, m: Machine, i: Instr)
    requires TameInstr(m.host, i)
    ensures Exec(o, m, i).host == Exec(Quiet(), Alone(m.host), i).host
    ensures Exec(o, m, i).reset == m.reset
  {
    hide Push, Top, Interrupt, InterruptReturn, StoreString, TameTop, TamePush, TameInterrupt, TameInterruptReturn, Walk,
         Arith, Operand, MoveControl, Jump, SetZ, Z, AddTo, SetReg, Reg, NoCommonBit, In, Out;
    match i.op
    case PUSH => SamePush(o, m, Reg(AddTo(m.host.cpu, ESP, -4), i.dst), 4);
    case POP => SameTop(o, m, 4);
    case RET => SameTop(o, m, 2);
    case INT => SameInterrupt(o, m, i.imm % 256);
    case IRET => SameInterruptReturn(o, m);
    case STOSB => SameStoreString(o, m);
    case OUT => SerialOnly(o, m, i.imm, Reg(m.host.cpu, 0) % 256, 1);
    case OUT_DX => SerialOnly(o, m, Reg(m.host.cpu, 2) % 0x1_0000, Reg(m.host.cpu, 0), 4);
    case _ =>
  }

  lemma SerialOnly(o: Oracle, m: Machine, port: nat, value: nat, size: nat)
    requires IsSerial(port)
    ensures Out(o, m, port, value, size).host == m.host && Out(o, m, port, value, size).reset == m.reset
    ensures Out(Quiet(), Alone(m.host), port, value, size).host == m.host
  {
  }

  /** The sixteen bytes at the instruction pointer. */
  function QuietFetch(h: Host): nat { FetchAddr(Quiet(), Alone(h)) }

  predicate TameStep(h: Host) {
    && Walk(h, h.cpu.cs, h.cpu.eip)
    && ((QuietFetch(h) + 16) % W <= |h.ram| ==>
          && QuietFetch(h) + 16 <= |h.ram| && QuietFetch(h) + 16 <= W
          && match Decode(h.ram[QuietFetch(h)..QuietFetch(h) + 16])
             case None => true
             case Some(i) => TameInstr(h, i))
  }

  function QuietStep(h: Host): Option<Machine> { Step(Quiet(), Alone(h)) }

  /** Inside RAM a fetch decodes the sixteen bytes that are there. */
  lemma FetchInside(o: Oracle, m: Machine, phys: nat)
    requires phys + 16 <= |m.host.ram| && phys + 16 <= W
    ensures DecodeAt(FetchBytes(o, m, phys), phys, |m.host.ram|) == Decode(m.host.ram[phys..phys + 16])
  {
    var w := FetchBytes(o, m, phys);
    forall i | 0 <= i < 16 ensures w[i] == m.host.ram[phys..phys + 16][i] { assert (phys + i) % W == phys + i; }
    assert w == m.host.ram[phys..phys + 16];
    DecodeInside(w, phys, |m.host.ram|);
    hide DecodeAt, Decode, FetchBytes;
  }

  lemma SameStep(o: Oracle, m: Machine)
    requires TameStep(m.host)
    ensures Step(o, m).None? <==> QuietStep(m.host).None?
    ensures Step(o, m).Some? ==> Step(o, m).value.host == QuietStep(m.host).value.host && Step(o, m).value.reset == m.reset
  {
    hide Exec, Decode, DecodeAt, FetchBytes, TameInstr, Phys, Walk;
    var h := m.host;
    SamePhys(o, m, h.cpu.cs, h.cpu.eip);
    var phys := QuietFetch(h);
    if (phys + 16) % W <= |h.ram| {
      FetchInside(o, m, phys);
      FetchInside(Quiet(), Alone(h), phys);
      match Decode(h.ram[phys..phys + 16])
      case None =>
      case Some(i) => SameExec(o, m, i);
    }
  }

  /** The next `n` instructions are tame. */
  predicate TameQuantum(h: Host, n: nat)
    decreases n
  {
    n == 0 || h.cpu.halted ||
    (TameStep(h) && (QuietStep(h).Some? ==> TameQuantum(QuietStep(h).value.host, n - 1)))
  }

  function QuietQuantum(h: Host, n: nat): Host { RunStep(Quiet(), Alone(h), n).host }

  lemma {:induction false} SameQuantum(o: Oracle, m: Machine, n: nat)
    requires TameQuantum(m.host, n)
    ensures RunStep(o, m, n).host == QuietQuantum(m.host, n) && RunStep(o, m, n).reset == m.reset
    decreases n
  {
    hide Step, TameStep;
    if n > 0 && !m.host.cpu.halted {
      SameStep(o, m);
      if Step(o, m).Some? {
        var m1, q1 := Step(o, m).value, QuietStep(m.host).value;
        SameQuantum(o, m1, n - 1);
        SameQuantum(Quiet(), q1, n - 1);
      }
    }
  }
}
