/** Checkpoints: copies of everything in the host that a guest can observe, devices excepted. */
module VmSnapshot {
  import opened Basics
  import opened Bytes
  import opened VmMachine

  /** The static buffers; `ram` is None until the first allocation and after one that failed. */
  datatype Snapshot = Snapshot(
    ram: Option<seq<byte>>, size: nat, cpu: Cpu, kbd: seq<byte>, kbdHead: nat, kbdTail: nat, ticks: nat, has: bool)

  const NO_CPU := Cpu([], 0, 0, 0, 0, 0, 0, 0, 0, 0, 0, false)

  const EMPTY := Snapshot(None, 0, NO_CPU, [], 0, 0, 0, false)

  /** vm_snapshot_save; `room` says whether a buffer for guest RAM can be allocated. */
  function Save(sn: Snapshot, h: Host, room: bool): (r: (Snapshot, int)) {
    if |h.ram| == 0 then (sn, -1) else
      var sn1 := if sn.ram.Some? && sn.size != |h.ram| then sn.(ram := None) else sn;
      if sn1.ram.None? && !room then (sn1, -1)
      else (Snapshot(Some(h.ram), |h.ram|, h.cpu, h.kbd, h.kbdHead, h.kbdTail, h.ticks, true), 0)
  }

  /** vm_snapshot_restore */
  function Restore(sn: Snapshot, h: Host): (r: (Host, int)) {
    if !sn.has || sn.ram.None? || |h.ram| == 0 || |h.ram| != sn.size || |sn.ram.value| != sn.size then (h, -1)
    else (Host(sn.cpu, sn.ram.value, sn.kbd, sn.kbdHead, sn.kbdTail, sn.ticks), 0)
  }

  /** A checkpoint taken brings the host back exactly, whatever has happened to it since. */
  lemma RestoreInvertsSave(sn: Snapshot, h: Host, room: bool, later: Host)
    requires Save(sn, h, room).1 == 0 && |later.ram| == |h.ram|
    ensures Restore(Save(sn, h, room).0, later) == (h, 0)
  {
  }
}

/** The run loop: a layer scan over the multi-level queue that drives CPU, display, timer and checkpoints. */
module VmRun {
  import opened Basics
  import opened Bytes
  import opened VmDecode
  import opened VmMachine
  import opened VmSnapshot
  import opened VmReplay
  import VmLaws

  const QUANTUM := 64
  const CHECKPOINT_INTERVAL := 500
  const TICKS := 0x1_0000_0000_0000_0000

  // ----- host reset

  /** "Flinstone VM" and a newline */
  const GREETING: seq<byte> := [0x46, 0x6C, 0x69, 0x6E, 0x73, 0x74, 0x6F, 0x6E, 0x65, 0x20, 0x56, 0x4D, 0x0A]

  /** A guest that sends each byte of a text to the serial port (MOV AL, b; OUT 0xF8, AL) and halts. */
  function Printer(text: seq<byte>): (p: seq<byte>)
    ensures |p| == 4 * |text| + 1
  {
    if text == [] then [0xF4] else [0xB0, text[0], 0xE6, 0xF8] + Printer(text[1..])
  }

  /** The built-in guest. */
  const MINIMAL_GUEST: seq<byte> := Printer(GREETING)

  const VGA_MESSAGE: seq<byte> := [
    0x46, 0x07, 0x6C, 0x07, 0x69, 0x07, 0x6E, 0x07, 0x73, 0x07, 0x74, 0x07,
    0x6F, 0x07, 0x6E, 0x07, 0x65, 0x07, 0x20, 0x07, 0x56, 0x07, 0x4D, 0x07]

  const LOAD_ADDR := 0x7C00
  const VGA_BASE := 0xB8000
  const BOOT_CPU := Cpu([0, 0, 0, 0, 0, 0, 0, 0], 0, 0x07C0, 0, 0, 0, 0, 0, 0, 0, 0, false)

  function BootRam(size: nat): (r: seq<byte>)
    ensures |r| == size
  {
    WriteMem(WriteMem(seq(size, i => 0), LOAD_ADDR, MINIMAL_GUEST), VGA_BASE, VGA_MESSAGE)
  }

  /** vm_host_reset keeps the clock and the keyboard queue. */
  function HostReset(h: Host): Host { h.(ram := BootRam(|h.ram|), cpu := BOOT_CPU) }

  function HandleReset(m: Machine): Machine { m.(reset := false, host := HostReset(m.host)) }

  // ----- what the loop computes

  /** Machine, checkpoint buffers and s_run_cycles. */
  datatype Vm = Vm(m: Machine, snap: Snapshot, cycles: nat)

  function Halted(v: Vm): bool { v.m.host.cpu.halted }

  function Tick(m: Machine): Machine { m.(host := m.host.(ticks := (m.host.ticks + 1) % TICKS)) }

  function Checkpoint(v: Vm, room: bool): Vm {
    if v.cycles % CHECKPOINT_INTERVAL == 0 then v.(snap := Save(v.snap, v.m.host, room).0) else v
  }

  /** One round of the scan: a CPU quantum, then, unless the CPU has halted, display, tick and checkpoint. */
  function Round(o: Oracle, room: bool, v: Vm): Vm {
    var m1 := RunStep(o, v.m, QUANTUM);
    if m1.host.cpu.halted then v.(m := m1)
    else Checkpoint(Vm(Tick(m1), v.snap, v.cycles + 1), room)
  }

  /** vm_run_cycles from a loop head: the remaining cycles decrease, or a pending reset is served. */
  function RunCycles(o: Oracle, room: bool, v: Vm, max: nat): Vm
    decreases if v.cycles < max then max - v.cycles else 0, !Halted(v), v.m.reset
  {
    if Halted(v) || v.cycles >= max then v
    else if v.m.reset then RunCycles(o, room, v.(m := HandleReset(v.m)), max)
    else RunCycles(o, room, Round(o, room, v), max)
  }

  /**
   * A round either halts the CPU and counts nothing, or counts one cycle and one tick, and saves a
   * checkpoint of the host as it then is exactly when the count is a multiple of the interval.
   */
  lemma RoundCounts(o: Oracle, room: bool, v: Vm)
    ensures var r := Round(o, room, v);
            if Halted(r) then r.cycles == v.cycles && r.snap == v.snap && r.m.host.ticks == v.m.host.ticks
            else && r.cycles == v.cycles + 1 && r.m.host.ticks == (v.m.host.ticks + 1) % TICKS
                 && r.snap == if r.cycles % CHECKPOINT_INTERVAL == 0 then Save(v.snap, r.m.host, room).0 else v.snap
  {
    hide RunStep, Save;
    RunStepKeeps(o, v.m, QUANTUM);
  }

  /** What a round does to the machine, the clock aside, is 64 instructions. */
  lemma RoundRuns(o: Oracle, room: bool, v: Vm)
    ensures var r, m1 := Round(o, room, v), RunStep(o, v.m, 64);
            r.m == m1.(host := m1.host.(ticks := r.m.host.ticks))
  {
    hide RunStep, Save;
  }

  lemma TickSum(t: nat, k: nat)
    ensures ((t + 1) % TICKS + k) % TICKS == (t + (k + 1)) % TICKS
  {
  }

  /** Ticks advance with the cycles, one each, and never more cycles are run than asked for. */
  lemma {:induction false} TicksCountCycles(o: Oracle, room: bool, v: Vm, max: nat)
    ensures var r := RunCycles(o, room, v, max);
            && v.cycles <= r.cycles && (v.cycles <= max ==> r.cycles <= max)
            && r.m.host.ticks % TICKS == (v.m.host.ticks + (r.cycles - v.cycles)) % TICKS
            && (Halted(r) || r.cycles >= max)
    decreases if v.cycles < max then max - v.cycles else 0, !Halted(v), v.m.reset
  {
    hide Round, BootRam, RunStep, Save;
    if Halted(v) || v.cycles >= max {
    } else if v.m.reset {
      TicksCountCycles(o, room, v.(m := HandleReset(v.m)), max);
    } else {
      RoundCounts(o, room, v);
      var w := Round(o, room, v);
      TicksCountCycles(o, room, w, max);
      TickSum(v.m.host.ticks, RunCycles(o, room, w, max).cycles - w.cycles);
    }
  }

  /** Fewer cycles than the interval leave the checkpoint alone. */
  lemma {:induction false} ShortRunKeepsCheckpoint(o: Oracle, room: bool, v: Vm, max: nat)
    requires v.cycles <= max < CHECKPOINT_INTERVAL
    ensures RunCycles(o, room, v, max).snap == v.snap
    decreases if v.cycles < max then max - v.cycles else 0, !Halted(v), v.m.reset
  {
    hide Round, BootRam;
    if Halted(v) || v.cycles >= max {
    } else if v.m.reset {
      ShortRunKeepsCheckpoint(o, room, v.(m := HandleReset(v.m)), max);
    } else {
      RoundCounts(o, room, v);
      ShortRunKeepsCheckpoint(o, room, Round(o, room, v), max);
    }
  }

  // ----- replay

  /** The next `n` cycles are tame. */
  predicate TameRun(h: Host, n: nat)
    decreases n
  {
    if n == 0 || h.cpu.halted then true else
      var h1 := QuietQuantum(h, QUANTUM);
      TameQuantum(h, QUANTUM) && (h1.cpu.halted || TameRun(h1.(ticks := (h1.ticks + 1) % TICKS), n - 1))
  }

  lemma SameRound(o: Oracle, room: bool, v: Vm)
    requires TameQuantum(v.m.host, QUANTUM) && !v.m.reset
    ensures var h1 := QuietQuantum(v.m.host, QUANTUM);
            var r := Round(o, room, v);
            && !r.m.reset
            && r.m.host == (if h1.cpu.halted then h1 else h1.(ticks := (h1.ticks + 1) % TICKS))
            && r.cycles == (if h1.cpu.halted then v.cycles else v.cycles + 1)
  {
    hide RunStep, TameQuantum, Save;
    SameQuantum(o, v.m, QUANTUM);
  }

  /** Two machines that agree on the host and have no reset pending run a tame guest alike. */
  lemma {:induction false} SameRun(o: Oracle, o': Oracle, room: bool, room': bool, v: Vm, v': Vm, max: nat)
    requires v.m.host == v'.m.host && v.cycles == v'.cycles <= max
    requires !v.m.reset && !v'.m.reset && TameRun(v.m.host, max - v.cycles)
    ensures RunCycles(o, room, v, max).m.host == RunCycles(o', room', v', max).m.host
    ensures RunCycles(o, room, v, max).cycles == RunCycles(o', room', v', max).cycles
    decreases max - v.cycles, !Halted(v)
  {
    hide Round, TameQuantum, QuietQuantum, HandleReset;
    if !Halted(v) && v.cycles < max {
      SameRound(o, room, v);
      SameRound(o', room', v');
      SameRun(o, o', room, room', Round(o, room, v), Round(o', room', v'), max);
    }
  }

  /** No run changes the size of guest RAM. */
  lemma RoundKeepsRamSize(o: Oracle, room: bool, v: Vm)
    ensures |Round(o, room, v).m.host.ram| == |v.m.host.ram|
  {
    hide RunStep, Save;
    RunStepKeeps(o, v.m, QUANTUM);
  }

  lemma {:induction false} RunKeepsRamSize(o: Oracle, room: bool, v: Vm, max: nat)
    ensures |RunCycles(o, room, v, max).m.host.ram| == |v.m.host.ram|
    decreases if v.cycles < max then max - v.cycles else 0, !Halted(v), v.m.reset
  {
    hide Round, BootRam;
    if Halted(v) || v.cycles >= max {
    } else if v.m.reset {
      RunKeepsRamSize(o, room, v.(m := HandleReset(v.m)), max);
    } else {
      RoundCounts(o, room, v);
      RoundKeepsRamSize(o, room, v);
      RunKeepsRamSize(o, room, Round(o, room, v), max);
    }
  }

  /** The host from which the loop really starts: a pending reset is served before the first round. */
  function Served(m: Machine): Host {
    if m.reset && !m.host.cpu.halted then HostReset(m.host) else m.host
  }

  /** A first run of `cycles` from a checkpoint taken at `m`. */
  function FirstRun(o: Oracle, room: bool, before: Snapshot, m: Machine, cycles: nat): Vm {
    RunCycles(o, room, Vm(m, Save(before, m.host, room).0, 0), cycles)
  }

  /** The run repeated from the restored checkpoint, with device registers as they then are. */
  function SecondRun(o: Oracle, room: bool, first: Vm, devices: Machine, cycles: nat): Vm {
    RunCycles(o, room, Vm(devices.(host := Restore(first.snap, first.m.host).0), first.snap, 0), cycles)
  }

  /** The checkpoint was taken, no later one replaces it during the run, and the guest is tame. */
  predicate Replayable(before: Snapshot, m: Machine, room: bool, cycles: nat) {
    cycles < CHECKPOINT_INTERVAL && Save(before, m.host, room).1 == 0 && TameRun(Served(m), cycles)
  }

  /** The checkpoint brings the host back, and the repeated run ends where the first one did. */
  predicate Replays(o: Oracle, o': Oracle, room: bool, room': bool, before: Snapshot, m: Machine, devices: Machine,
                    cycles: nat)
  {
    var first := FirstRun(o, room, before, m, cycles);
    var second := SecondRun(o', room', first, devices, cycles);
    && Restore(first.snap, first.m.host) == (m.host, 0)
    && second.m.host == first.m.host && second.cycles == first.cycles
  }

  /**
   * Replay: save, run fewer cycles than the checkpoint interval, restore, run the same number again.
   * CPU, RAM, keyboard queue and clock end the same, whatever else the devices hold and answer the
   * second time, as long as the reset line is the same at both starts.
   */
  lemma Replay(o: Oracle, o': Oracle, room: bool, room': bool, before: Snapshot, m: Machine, devices: Machine,
               cycles: nat)
    requires Replayable(before, m, room, cycles) && m.reset == devices.reset
    ensures Replays(o, o', room, room', before, m, devices, cycles)
  {
    hide BootRam, Round, TameRun;
    var v := Vm(m, Save(before, m.host, room).0, 0);
    var first := FirstRun(o, room, before, m, cycles);
    ShortRunKeepsCheckpoint(o, room, v, cycles);
    RunKeepsRamSize(o, room, v, cycles);
    RestoreInvertsSave(before, m.host, room, first.m.host);
    hide Save, Restore, HostReset;
    var v' := Vm(devices.(host := m.host), first.snap, 0);
    if m.reset && !m.host.cpu.halted && cycles > 0 {
      SameRun(o, o', room, room', v.(m := HandleReset(v.m)), v'.(m := HandleReset(v'.m)), cycles);
    } else if !m.reset {
      SameRun(o, o', room, room', v, v', cycles);
    }
  }

  // ----- the reset line

  const GUEST_RAM := 0x100_0000
  const KBD_PLACES := 32

  /** The sizes that every host has. */
  predicate Real(h: Host) { |h.ram| == GUEST_RAM && |h.kbd| == KBD_PLACES && |h.cpu.regs| == 8 }

  lemma {:induction false} PrinterAt(text: seq<byte>, k: nat)
    requires k <= |text|
    ensures if k == |text| then Printer(text)[4 * k] == 0xF4
            else && Printer(text)[4 * k] == 0xB0 && Printer(text)[4 * k + 1] == text[k]
                 && Printer(text)[4 * k + 2] == 0xE6 && Printer(text)[4 * k + 3] == 0xF8
  {
    if text != [] {
      var rest := Printer(text[1..]);
      assert Printer(text) == [0xB0, text[0], 0xE6, 0xF8] + rest;
      if k > 0 {
        PrinterAt(text[1..], k - 1);
        hide Printer;
        assert Printer(text)[4..] == rest;
      }
    }
  }

  /** RAM holds the guest that prints `text` at the load address. */
  ghost predicate Holds(ram: seq<byte>, text: seq<byte>) {
    && |ram| == GUEST_RAM && |text| < 0x100
    && forall i :: 0 <= i < |Printer(text)| ==> ram[LOAD_ADDR + i] == Printer(text)[i]
  }

  /** The boot image holds the built-in guest. */
  lemma BootHolds()
    ensures Holds(BootRam(GUEST_RAM), GREETING)
  {
    hide Printer;
    var loaded := WriteMem(seq<byte>(GUEST_RAM, i => 0), LOAD_ADDR, MINIMAL_GUEST);
    assert BootRam(GUEST_RAM) == WriteMem(loaded, VGA_BASE, VGA_MESSAGE);
    hide BootRam, WriteMem;
    forall i | 0 <= i < |MINIMAL_GUEST| ensures BootRam(GUEST_RAM)[LOAD_ADDR + i] == MINIMAL_GUEST[i] {
      assert loaded[LOAD_ADDR..LOAD_ADDR + |MINIMAL_GUEST|][i] == MINIMAL_GUEST[i];
    }
  }

  /** The instruction pointer of a guest in real mode, without paging. */
  lemma FetchPlain(h: Host)
    requires h.cpu.cs == 0x07C0 && h.cpu.eip < 0x1000 && h.cpu.cr0 == 0
    ensures QuietFetch(h) == LOAD_ADDR + h.cpu.eip && Walk(h, h.cpu.cs, h.cpu.eip)
  {
  }

  lemma DecodesPrinter(w: seq<byte>)
    requires |w| == WINDOW
    ensures w[0] == 0xB0 ==> Decode(w) == Some(Instr(MOV, 0, -1, w[1], 2))
    ensures w[0] == 0xE6 ==> Decode(w) == Some(Instr(OUT, -1, -1, w[1], 2))
    ensures w[0] == 0xF4 ==> Decode(w) == Some(Instr(HLT, -1, -1, 0, 1))
  {
    hide RegForm, Imm32, DecodeArith;
  }

  /** The guest that prints `text` stands at its byte `i`. */
  ghost predicate InGuest(h: Host, text: seq<byte>, i: nat) {
    && Holds(h.ram, text) && h.cpu.cs == 0x07C0 && h.cpu.eip == i < |Printer(text)|
    && h.cpu.cr0 == 0 && !h.cpu.halted
  }

  function Window(h: Host): seq<byte>
    requires LOAD_ADDR + h.cpu.eip + 16 <= |h.ram|
  {
    h.ram[LOAD_ADDR + h.cpu.eip..LOAD_ADDR + h.cpu.eip + 16]
  }

  /** Fetching finds the guest's own bytes. */
  lemma FetchGuest(h: Host, text: seq<byte>, i: nat)
    requires InGuest(h, text, i)
    ensures LOAD_ADDR + h.cpu.eip + 16 <= |h.ram| && Window(h)[0] == Printer(text)[i]
    ensures i + 1 < |Printer(text)| ==> Window(h)[1] == Printer(text)[i + 1]
  {
    hide Printer;
    assert h.ram[LOAD_ADDR + i] == Printer(text)[i];
    if i + 1 < |Printer(text)| { assert h.ram[LOAD_ADDR + (i + 1)] == Printer(text)[i + 1]; }
  }

  /** An instruction of the guest that is tame where it stands is the next step. */
  lemma GuestStep(h: Host, text: seq<byte>, i: nat, instr: Instr)
    requires InGuest(h, text, i) && TameInstr(h, instr)
    requires LOAD_ADDR + h.cpu.eip + 16 <= |h.ram| && Decode(Window(h)) == Some(instr)
    ensures TameStep(h) && QuietStep(h) == Some(Advance(Exec(Quiet(), Alone(h), instr), instr))
  {
    hide Printer, TameInstr, Decode, DecodeAt, FetchBytes, Exec;
    FetchPlain(h);
    FetchInside(Quiet(), Alone(h), LOAD_ADDR + i);
    hide Phys, Walk, Holds;
  }

  /** The two instructions change neither RAM nor mode, and go on to the next. */
  lemma PrinterInstr(h: Host, instr: Instr)
    requires h.cpu.eip < 0x1000 && instr.imm < 0x100
    requires instr == Instr(MOV, 0, -1, instr.imm, 2) || instr == Instr(OUT, -1, -1, 0xF8, 2)
    ensures TameInstr(h, instr)
    ensures var t := Advance(Exec(Quiet(), Alone(h), instr), instr).host;
            t.ram == h.ram && t.cpu.eip == h.cpu.eip + 2 && t.cpu.cs == h.cpu.cs && t.cpu.cr0 == h.cpu.cr0
            && t.cpu.halted == h.cpu.halted
  {
  }

  /** MOV AL, b */
  lemma LoadsByte(h: Host, text: seq<byte>, i: nat)
    requires InGuest(h, text, i) && i + 2 < |Printer(text)| && Printer(text)[i] == 0xB0
    ensures TameStep(h) && QuietStep(h).Some? && InGuest(QuietStep(h).value.host, text, i + 2)
  {
    assert i < 0x1000;
    hide Printer, TameStep, QuietStep, Decode, Holds, Exec, Advance, TameInstr;
    FetchGuest(h, text, i);
    DecodesPrinter(Window(h));
    PrinterInstr(h, Instr(MOV, 0, -1, Window(h)[1], 2));
    GuestStep(h, text, i, Instr(MOV, 0, -1, Window(h)[1], 2));
  }

  /** OUT 0xF8, AL */
  lemma SendsByte(h: Host, text: seq<byte>, i: nat)
    requires InGuest(h, text, i) && i + 2 < |Printer(text)| && Printer(text)[i] == 0xE6 && Printer(text)[i + 1] == 0xF8
    ensures TameStep(h) && QuietStep(h).Some? && InGuest(QuietStep(h).value.host, text, i + 2)
  {
    assert i < 0x1000;
    hide Printer, TameStep, QuietStep, Decode, Holds, Exec, Advance, TameInstr;
    FetchGuest(h, text, i);
    DecodesPrinter(Window(h));
    PrinterInstr(h, Instr(OUT, -1, -1, 0xF8, 2));
    GuestStep(h, text, i, Instr(OUT, -1, -1, 0xF8, 2));
  }

  lemma Halts(h: Host, text: seq<byte>, i: nat)
    requires InGuest(h, text, i) && Printer(text)[i] == 0xF4
    ensures TameStep(h) && QuietStep(h).Some? && QuietStep(h).value.host.cpu.halted
  {
    hide Printer, TameStep, QuietStep, Decode, Holds;
    FetchGuest(h, text, i);
    DecodesPrinter(Window(h));
    GuestStep(h, text, i, Instr(HLT, -1, -1, 0, 1));
  }

  /** A guest that prints a text is tame from any of its bytes on, for as many instructions as one likes. */
  lemma {:induction false} GuestIsTame(h: Host, text: seq<byte>, k: nat, n: nat)
    requires k <= |text| && InGuest(h, text, 4 * k)
    ensures TameQuantum(h, n)
    decreases n
  {
    hide Printer, InGuest, TameStep, QuietStep;
    PrinterAt(text, k);
    if n == 0 {
    } else if k == |text| {
      Halts(h, text, 4 * k);
    } else {
      LoadsByte(h, text, 4 * k);
      if n > 1 {
        var h1 := QuietStep(h).value.host;
        SendsByte(h1, text, 4 * k + 2);
        GuestIsTame(QuietStep(h1).value.host, text, k + 1, n - 2);
        assert TameQuantum(h1, n - 1);
      }
    }
  }

  lemma QuantumStep(h: Host, n: nat)
    requires n > 0 && !h.cpu.halted && QuietStep(h).Some? && TameQuantum(QuietStep(h).value.host, n - 1)
    ensures QuietQuantum(h, n) == QuietQuantum(QuietStep(h).value.host, n - 1)
  {
    hide Step, TameQuantum;
    SameQuantum(Quiet(), QuietStep(h).value, n - 1);
  }

  /** It halts: two instructions for each byte left to send, and one more. */
  lemma {:induction false} GuestHalts(h: Host, text: seq<byte>, k: nat, n: nat)
    requires k <= |text| && InGuest(h, text, 4 * k) && n > 2 * (|text| - k)
    ensures QuietQuantum(h, n).cpu.halted
    decreases n
  {
    hide Printer, Holds, TameStep, QuietStep, QuietQuantum, TameQuantum;
    PrinterAt(text, k);
    if k == |text| {
      Halts(h, text, 4 * k);
      HaltedStays(QuietStep(h).value.host, n - 1);
      QuantumStep(h, n);
    } else {
      LoadsByte(h, text, 4 * k);
      var h1 := QuietStep(h).value.host;
      SendsByte(h1, text, 4 * k + 2);
      var h2 := QuietStep(h1).value.host;
      GuestIsTame(h2, text, k + 1, n - 2);
      TameBefore(h1, n - 1);
      QuantumStep(h, n);
      QuantumStep(h1, n - 1);
      GuestHalts(h2, text, k + 1, n - 2);
    }
  }

  lemma HaltedStays(h: Host, n: nat)
    requires h.cpu.halted
    ensures TameQuantum(h, n) && QuietQuantum(h, n) == h
  {
  }

  lemma TameBefore(h: Host, n: nat)
    requires n > 0 && TameStep(h) && QuietStep(h).Some? && TameQuantum(QuietStep(h).value.host, n - 1)
    ensures TameQuantum(h, n)
  {
    hide TameStep, QuietStep;
  }

  /** Any number of rounds of the built-in guest, from its start: it is tame and halts in the first. */
  lemma BootRun(h: Host, n: nat)
    requires h.ram == BootRam(GUEST_RAM) && h.cpu == BOOT_CPU
    ensures TameRun(h, n) && QuietQuantum(h, QUANTUM).cpu.halted && TameQuantum(h, QUANTUM)
  {
    BootHolds();
    hide BootRam, Printer, QuietQuantum, TameQuantum, Holds;
    GuestIsTame(h, GREETING, 0, QUANTUM);
    GuestHalts(h, GREETING, 0, QUANTUM);
  }

  // ----- what the built-in guest prints

  /** A step of the guest decodes and executes its own bytes, whatever the devices do. */
  lemma GuestRuns(o: Oracle, m: Machine, text: seq<byte>, i: nat)
    requires InGuest(m.host, text, i) && LOAD_ADDR + m.host.cpu.eip + 16 <= |m.host.ram|
    requires Decode(Window(m.host)).Some?
    ensures var instr := Decode(Window(m.host)).value;
            Step(o, m) == Some(Advance(Exec(o, m, instr), instr))
  {
    hide Printer, Decode, Exec, Step, Advance;
    VmLaws.StepRuns(o, m, Decode(Window(m.host)).value);
  }

  lemma LoadThenSend(o: Oracle, m: Machine, b: byte)
    requires |m.host.cpu.regs| == 8 && m.host.cpu.eip < 0x1000
    ensures var load, send := Instr(MOV, 0, -1, b, 2), Instr(OUT, -1, -1, 0xF8, 2);
            var m1 := Advance(Exec(o, m, load), load);
            var m2 := Advance(Exec(o, m1, send), send);
            && m1.host.ram == m2.host.ram == m.host.ram && m2.serial == m.serial + [b]
            && m1.host.cpu == m.host.cpu.(regs := m1.host.cpu.regs, eip := m.host.cpu.eip + 2)
            && m2.host.cpu == m1.host.cpu.(eip := m.host.cpu.eip + 4) && |m2.host.cpu.regs| == 8
  {
    var load, send := Instr(MOV, 0, -1, b, 2), Instr(OUT, -1, -1, 0xF8, 2);
    var m1 := Advance(Exec(o, m, load), load);
    assert m1 == WithCpu(m, m.host.cpu.(regs := m.host.cpu.regs[0 := b as int], eip := m.host.cpu.eip + 2)) by {
      hide Out;
    }
    assert Exec(o, m1, send) == m1.(serial := m1.serial + [b]);
    hide Exec;
  }

  /** Two instructions send one byte. */
  lemma PrintsByte(o: Oracle, m: Machine, text: seq<byte>, k: nat)
    requires k < |text| && InGuest(m.host, text, 4 * k) && |m.host.cpu.regs| == 8
    ensures Step(o, m).Some? && !Step(o, m).value.host.cpu.halted && Step(o, Step(o, m).value).Some?
    ensures var r := Step(o, Step(o, m).value).value;
            InGuest(r.host, text, 4 * k + 4) && |r.host.cpu.regs| == 8 && r.serial == m.serial + [text[k]]
  {
    PrinterAt(text, k);
    LoadThenSend(o, m, text[k]);
    hide Printer, Decode, Exec, Step, Advance, Holds;
    FetchGuest(m.host, text, 4 * k);
    DecodesPrinter(Window(m.host));
    GuestRuns(o, m, text, 4 * k);
    var m1 := Step(o, m).value;
    FetchGuest(m1.host, text, 4 * k + 2);
    DecodesPrinter(Window(m1.host));
    GuestRuns(o, m1, text, 4 * k + 2);
  }

  lemma StopsThere(o: Oracle, m: Machine, text: seq<byte>)
    requires InGuest(m.host, text, 4 * |text|)
    ensures Step(o, m).Some? && Step(o, m).value.host.cpu.halted && Step(o, m).value.serial == m.serial
  {
    PrinterAt(text, |text|);
    hide Printer, Decode, Step, Holds;
    FetchGuest(m.host, text, 4 * |text|);
    DecodesPrinter(Window(m.host));
    GuestRuns(o, m, text, 4 * |text|);
  }

  lemma TwoSteps(o: Oracle, m: Machine, n: nat)
    requires n >= 2 && !m.host.cpu.halted && Step(o, m).Some? && !Step(o, m).value.host.cpu.halted
    requires Step(o, Step(o, m).value).Some?
    ensures RunStep(o, m, n) == RunStep(o, Step(o, Step(o, m).value).value, n - 2)
  {
    hide Step;
    assert RunStep(o, m, n) == RunStep(o, Step(o, m).value, n - 1);
  }

  /** Given enough instructions, the guest sends what is left of its text to the serial port, in order, and halts. */
  lemma {:induction false} GuestPrints(o: Oracle, m: Machine, text: seq<byte>, k: nat, n: nat)
    requires k <= |text| && InGuest(m.host, text, 4 * k) && |m.host.cpu.regs| == 8 && n > 2 * (|text| - k)
    ensures var r := RunStep(o, m, n);
            r.host.cpu.halted && r.serial == m.serial + text[k..]
    decreases |text| - k
  {
    hide Step, Printer, Holds;
    if k == |text| {
      StopsThere(o, m, text);
      assert RunStep(o, m, n) == RunStep(o, Step(o, m).value, n - 1) == Step(o, m).value;
    } else {
      PrintsByte(o, m, text, k);
      TwoSteps(o, m, n);
      hide InGuest, RunStep;
      GuestPrints(o, Step(o, Step(o, m).value).value, text, k + 1, n - 2);
      assert text[k..] == [text[k]] + text[k + 1..];
    }
  }

  /**
   * A machine that has just booted, or that has a reset pending, prints the greeting and halts within the first
   * round, so that no cycle is counted; checkpoint, clock and keyboard queue stay as they are.
   */
  lemma BootPrints(o: Oracle, room: bool, v: Vm, max: nat)
    requires v.cycles < max && !Halted(v) && |v.m.host.ram| == GUEST_RAM
    requires v.m.reset || (v.m.host.ram == BootRam(GUEST_RAM) && v.m.host.cpu == BOOT_CPU)
    ensures var r := RunCycles(o, room, v, max);
            && Halted(r) && r.m.serial == v.m.serial + GREETING && r.cycles == v.cycles && r.snap == v.snap
            && r.m.host.ticks == v.m.host.ticks
            && r.m.host.kbd == v.m.host.kbd && r.m.host.kbdTail == v.m.host.kbdTail
  {
    BootHolds();
    hide BootRam, Printer, Holds, RunStep;
    var w := if v.m.reset then v.(m := HandleReset(v.m)) else v;
    assert RunCycles(o, room, v, max) == RunCycles(o, room, w, max);
    assert InGuest(w.m.host, GREETING, 0);
    GuestPrints(o, w.m, GREETING, 0, QUANTUM);
    assert GREETING[0..] == GREETING;
    RunStepKeeps(o, w.m, QUANTUM);
    assert Halted(Round(o, room, w));
  }

  // ----- a loaded image

  /** The host of vm_host_create once vm_load_binary has put an image over the built-in guest. */
  function Loaded(image: seq<byte>): Host {
    Host(BOOT_CPU, WriteMem(BootRam(GUEST_RAM), LOAD_ADDR, image), seq<byte>(KBD_PLACES, i => 0), 0, 0, 0)
  }

  /** An image of one byte, which is no instruction. */
  const STUCK := Loaded([0x00])

  lemma StuckIsReal()
    ensures Real(STUCK) && STUCK.cpu == BOOT_CPU && STUCK.ram[LOAD_ADDR] == 0
  {
    hide BootRam;
    var ram := WriteMem(BootRam(GUEST_RAM), LOAD_ADDR, [0x00]);
    assert ram[LOAD_ADDR..LOAD_ADDR + 1][0] == 0;
    hide WriteMem;
  }

  lemma NoInstruction(w: seq<byte>)
    requires |w| == WINDOW && w[0] == 0
    ensures Decode(w) == None
  {
  }

  lemma StuckStep(h: Host)
    requires |h.ram| == GUEST_RAM && h.cpu == BOOT_CPU && h.ram[LOAD_ADDR] == 0
    ensures QuietStep(h).None? && TameStep(h)
  {
    FetchPlain(h);
    FetchInside(Quiet(), Alone(h), LOAD_ADDR);
    NoInstruction(h.ram[LOAD_ADDR..LOAD_ADDR + 16]);
    hide Exec, FetchBytes, Decode, DecodeAt, TameInstr, Phys, Walk;
  }

  /** A quantum of the stuck guest does nothing. */
  lemma StuckQuantum(h: Host)
    requires |h.ram| == GUEST_RAM && h.cpu == BOOT_CPU && h.ram[LOAD_ADDR] == 0
    ensures TameQuantum(h, QUANTUM) && QuietQuantum(h, QUANTUM) == h
  {
    StuckStep(h);
    hide Step, TameStep;
    assert RunStep(Quiet(), Alone(h), QUANTUM) == Alone(h);
  }

  /** One cycle of the stuck guest: it goes on, or a pending reset puts the built-in guest there, which halts. */
  lemma StuckRun(o: Oracle, m: Machine, snap: Snapshot)
    requires m.host == STUCK
    ensures RunCycles(o, true, Vm(m, snap, 0), 1).m.host.cpu.halted == m.reset
    ensures TameRun(Served(m), 1)
  {
    StuckIsReal();
    hide STUCK, TameQuantum, QuietQuantum, BootRam, Round, Loaded;
    var v := Vm(m, snap, 0);
    if m.reset {
      var w := v.(m := HandleReset(m));
      BootRun(HostReset(STUCK), 1);
      SameRound(o, true, w);
      assert RunCycles(o, true, w, 1) == Round(o, true, w);
    } else {
      StuckQuantum(STUCK);
      SameRound(o, true, v);
    }
  }

  /** The latch matters: with a reset pending at one start only, one image ends in two different states. */
  lemma ResetLatchBreaksReplay(o: Oracle, o': Oracle, reset: bool)
    ensures var m, devices := Machine(STUCK, 0, reset, []), Machine(STUCK, 0, !reset, []);
            Real(STUCK) && Replayable(EMPTY, m, true, 1) && !Replays(o, o', true, true, EMPTY, m, devices, 1)
  {
    StuckIsReal();
    hide TameRun, RunCycles, BootRam;
    var m, devices := Machine(STUCK, 0, reset, []), Machine(STUCK, 0, !reset, []);
    var v := Vm(m, Save(EMPTY, STUCK, true).0, 0);
    StuckRun(o, m, v.snap);
    ShortRunKeepsCheckpoint(o, true, v, 1);
    RunKeepsRamSize(o, true, v, 1);
    var first := FirstRun(o, true, EMPTY, m, 1);
    RestoreInvertsSave(EMPTY, STUCK, true, first.m.host);
    StuckRun(o', devices, first.snap);
  }

  /** Every real and tame guest replays from the given reset lines. */
  ghost predicate AllReplay(o: Oracle, o': Oracle, reset: bool, reset': bool) {
    forall room, room', before, m: Machine, devices: Machine, cycles ::
      Real(m.host) && m.reset == reset && devices.reset == reset' && Replayable(before, m, room, cycles) ==>
        Replays(o, o', room, room', before, m, devices, cycles)
  }

  lemma NotAllReplay(o: Oracle, o': Oracle, reset: bool)
    ensures !AllReplay(o, o', reset, !reset)
  {
    ResetLatchBreaksReplay(o, o', reset);
    hide Real, Replayable, Replays, Loaded, BootRam, STUCK;
    var m, devices := Machine(STUCK, 0, reset, []), Machine(STUCK, 0, !reset, []);
    assert Real(m.host) && Replayable(EMPTY, m, true, 1) && !Replays(o, o', true, true, EMPTY, m, devices, 1);
  }

  /** The exact condition: all tame guests replay if and only if the reset line is the same at both starts. */
  lemma ReplayIffSameResetLine(o: Oracle, o': Oracle, reset: bool, reset': bool)
    ensures AllReplay(o, o', reset, reset') <==> reset == reset'
  {
    if reset == reset' {
      hide Real, Replayable, Replays;
      forall room, room', before, m: Machine, devices: Machine, cycles
        | Real(m.host) && m.reset == reset && devices.reset == reset' && Replayable(before, m, room, cycles)
        ensures Replays(o, o', room, room', before, m, devices, cycles)
      {
        Replay(o, o', room, room', before, m, devices, cycles);
      }
    } else {
      hide AllReplay;
      NotAllReplay(o, o', reset);
    }
  }

  /** A reset brings a host that has just booted back to itself. */
  lemma ResetOfBooted(o: Oracle, room: bool, v: Vm, max: nat)
    requires v.m.host.ram == BootRam(GUEST_RAM) && v.m.host.cpu == BOOT_CPU
    ensures var r, q := RunCycles(o, room, v, max), RunCycles(o, room, v.(m := v.m.(reset := false)), max);
            r.m.host == q.m.host && r.snap == q.snap && r.cycles == q.cycles
  {
    hide BootRam, Round;
    if v.m.reset && v.cycles < max {
      assert HandleReset(v.m) == v.m.(reset := false);
    }
  }

  /** The built-in guest itself replays from its start whatever the reset lines are. */
  lemma BootedReplays(o: Oracle, o': Oracle, room: bool, room': bool, before: Snapshot, m: Machine, devices: Machine,
                      cycles: nat)
    requires m.host.ram == BootRam(GUEST_RAM) && m.host.cpu == BOOT_CPU
    requires cycles < CHECKPOINT_INTERVAL && Save(before, m.host, room).1 == 0
    ensures Replays(o, o', room, room', before, m, devices, cycles)
  {
    var m0, devices0 := m.(reset := false), devices.(reset := false);
    BootRun(m.host, cycles);
    hide BootRam, RunCycles, TameRun, Save;
    Replay(o, o', room, room', before, m0, devices0, cycles);
    var start := Vm(m, Save(before, m.host, room).0, 0);
    ResetOfBooted(o, room, start, cycles);
    var first := FirstRun(o, room, before, m0, cycles);
    ResetOfBooted(o', room', Vm(devices.(host := m.host), first.snap, 0), cycles);
  }
}
