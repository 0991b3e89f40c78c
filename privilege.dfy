/**
 * The behaviour of the trap-and-emulate layer as functions on its state: the
 * virtual machine record and the part of the trapping process it touches.
 * These functions are the specification the imperative handlers in module
 * TrapEmulate are proved against, and the lemmas below state what the
 * handlers promise about privilege modes, CSR accesses and the reset.
 *
 * The status bits are those of the RISC-V Privileged Architecture
 * (sstatus, section 4.1.1: SPP = bit 8, SPIE = bit 5, SIE = bit 1;
 * mstatus, section 3.1.6: MPP = bits 12:11, MPIE = bit 7, MIE = bit 3), but the
 * updates are the source's, not the standard's: they only ever set bits.
 */
module Privilege {
  import opened Wrappers
  import opened PageTable
  import opened VmRegs
  import opened ShadowTables
  import opened Decode

  /** vm_state: registers, current mode, PMP flag, shadow and restricted tables. */
  datatype Vm = Vm(regs: seq<VmReg>, mode: Mode, pmpConfigured: bool,
                   oldPtable: Option<PageMap>, newPtable: Option<PageMap>)

  /** The trapping process: trapframe epc, the 31 trapframe registers
      ra .. t6 (x1 .. x31), its live page table, its size, its killed flag. */
  datatype Guest = Guest(epc: bv64, gprs: seq<bv64>, pagetable: Option<PageMap>,
                         sz: nat, killed: bool)

  datatype World = World(vm: Vm, guest: Guest)

  const NUM_GPRS: nat := 31

  /** The state trap_and_emulate_init establishes. */
  function InitVm(): Vm {
    Vm(InitRegs(), MACHINE, false, None, None)
  }

  ghost predicate WellFormed(w: World) {
    SameLayout(w.vm.regs) && |w.guest.gprs| == NUM_GPRS
  }

  function Val(vm: Vm, slot: nat): bv64
    requires SameLayout(vm.regs) && slot < NUM_REGS
  {
    vm.regs[slot].val
  }

  function SetVal(vm: Vm, slot: nat, v: bv64): Vm
    requires SameLayout(vm.regs) && slot < NUM_REGS
  {
    vm.(regs := vm.regs[slot := vm.regs[slot].(val := v)])
  }

  /** A protocol violation: setkilled(p), then trap_and_emulate_init(). */
  function Kill(w: World): World {
    World(InitVm(), w.guest.(killed := true))
  }

  lemma KillWellFormed(w: World)
    requires |w.guest.gprs| == NUM_GPRS
    ensures WellFormed(Kill(w))
  {
    InitLayout();
  }

  lemma SetValWellFormed(w: World, slot: nat, v: bv64)
    requires WellFormed(w) && slot < NUM_REGS
    ensures WellFormed(w.(vm := SetVal(w.vm, slot, v)))
    ensures forall csr :: FindReg(SetVal(w.vm, slot, v).regs, csr) == FindReg(w.vm.regs, csr)
  {
    forall csr ensures FindReg(SetVal(w.vm, slot, v).regs, csr) == FindReg(w.vm.regs, csr) {
      FindAfterWrite(w.vm.regs, slot, v, csr);
    }
  }

  /** The pc of the instruction after a 4-byte one (64-bit wrap-around). */
  function NextPc(pc: bv64): bv64 { pc + 4 }

  function Spp(sstatus: bv64): bv64 { (sstatus >> 8) & 1 }
  function Mpp(mstatus: bv64): bv64 { (mstatus >> 11) & 3 }

  /** sstatus after SRET: SPIE copied into SIE by OR, then SPIE set. */
  function SretStatus(s: bv64): bv64 {
    s | (((s >> 5) & 1) << 1) | (1 << 5)
  }

  /** mstatus after MRET: MPIE copied into MIE by OR, then MPIE set. */
  function MretStatus(m: bv64): bv64 {
    m | (((m >> 7) & 1) << 3) | (1 << 7)
  }

  /** handle_ecall: U traps to S through sepc/stvec, S traps to M through
      mepc/mtvec and gets the shadow table back, M is a violation. The
      status words the source computes are never stored. */
  function Ecall(w: World): World
    requires WellFormed(w)
  {
    var vm := w.vm;
    if vm.mode == USER then
      World(SetVal(vm, SEPC, w.guest.epc).(mode := SUPERVISOR),
            w.guest.(epc := Val(vm, STVEC)))
    else if vm.mode == SUPERVISOR then
      World(SetVal(vm, MEPC, w.guest.epc).(mode := MACHINE),
            w.guest.(epc := Val(vm, MTVEC), pagetable := vm.oldPtable))
    else
      Kill(w)
  }

  /** handle_sret: valid only in S; drops to U when SPP is 0. Anywhere else
      the shadow table is restored before the kill. */
  function Sret(w: World): World
    requires WellFormed(w)
  {
    var vm := w.vm;
    if vm.mode == SUPERVISOR then
      var s := Val(vm, SSTATUS);
      World(SetVal(vm, SSTATUS, SretStatus(s)).(mode := if Spp(s) < 1 then USER else vm.mode),
            w.guest.(epc := Val(vm, SEPC)))
    else
      Kill(w.(guest := w.guest.(pagetable := vm.oldPtable)))
  }

  /** The first half of handle_mret: valid from mode 2 up; drops to MPP when
      MPP is below 2. */
  function MretReturn(w: World): World
    requires WellFormed(w)
  {
    var vm := w.vm;
    if vm.mode >= MACHINE then
      var m := Val(vm, MSTATUS);
      var mpp := Mpp(m);
      World(SetVal(vm, MSTATUS, MretStatus(m)).(mode := if mpp < 2 then mpp as nat else vm.mode),
            w.guest.(epc := Val(vm, MEPC)))
    else
      Kill(w)
  }

  /** What the PMP rebuild needs of the live table: a valid entry on every
      page it copies. */
  ghost predicate CanCopy(g: Guest) {
    g.pagetable.Some? && Covers(g.pagetable.value, 0, g.sz) &&
    Covers(g.pagetable.value, KWIN_START, KWIN_END)
  }

  function PmpAddrs(vm: Vm): (a: seq<bv64>)
    requires SameLayout(vm.regs)
    ensures |a| == NUM_PMPADDR
  {
    [Val(vm, PMPADDR0), Val(vm, PMPADDR0 + 1), Val(vm, PMPADDR0 + 2), Val(vm, PMPADDR0 + 3)]
  }

  /** The second half of handle_mret: with the PMP flag set, build the
      restricted table from the live one and install it. */
  function PmpRebuild(w: World, base: PageMap): World
    requires WellFormed(w)
    requires w.vm.pmpConfigured ==> CanCopy(w.guest)
  {
    if w.vm.pmpConfigured then
      var t := PmpTable(w.guest.pagetable.value, base, w.guest.sz, PmpAddrs(w.vm), Val(w.vm, PMPCFG0));
      World(w.vm.(newPtable := Some(t)), w.guest.(pagetable := Some(t)))
    else
      w
  }

  /** The rebuild touches the tables only. */
  lemma PmpRebuildKeeps(w: World, base: PageMap)
    requires WellFormed(w)
    requires w.vm.pmpConfigured ==> CanCopy(w.guest)
    ensures var w' := PmpRebuild(w, base);
      w'.vm.regs == w.vm.regs && w'.vm.mode == w.vm.mode &&
      w'.vm.pmpConfigured == w.vm.pmpConfigured && w'.vm.oldPtable == w.vm.oldPtable &&
      w'.guest.epc == w.guest.epc && w'.guest.gprs == w.guest.gprs &&
      w'.guest.killed == w.guest.killed && w'.guest.sz == w.guest.sz
  {
  }

  ghost predicate MretAllowed(w: World) {
    w.vm.mode >= MACHINE && w.vm.pmpConfigured ==> CanCopy(w.guest)
  }

  function Mret(w: World, base: PageMap): World
    requires WellFormed(w) && MretAllowed(w)
  {
    InitLayout();
    PmpRebuild(MretReturn(w), base)
  }

  predicate IsPmpCsr(csr: CsrId) {
    csr == 0x3a0 || csr == 0x3b0 || csr == 0x3b1 || csr == 0x3b2 || csr == 0x3b3
  }

  /** handle_csrw: store x[rs1] when the register exists and the current mode
      may access it, otherwise kill; then set the PMP flag for a PMP register
      whatever happened, and step past the instruction. */
  function CsrWrite(w: World, rs1: bv5, csr: CsrId): World
    requires WellFormed(w) && rs1 != 0
  {
    InitLayout();
    var v := w.guest.gprs[rs1 as nat - 1];
    var r := FindReg(w.vm.regs, csr);
    var w1 := if r.Some? && w.vm.regs[r.value].mode <= w.vm.mode
              then w.(vm := SetVal(w.vm, r.value, v))
              else Kill(w);
    var w2 := if IsPmpCsr(csr) then w1.(vm := w1.vm.(pmpConfigured := true)) else w1;
    w2.(guest := w2.guest.(epc := NextPc(w2.guest.epc)))
  }

  /** handle_csrr: copy the register into x[rd] when the current mode may
      access it, otherwise kill; then step past the instruction. */
  function CsrRead(w: World, rd: bv5, csr: CsrId): World
    requires WellFormed(w) && rd != 0 && FindReg(w.vm.regs, csr).Some?
  {
    var i := FindReg(w.vm.regs, csr).value;
    var w1 := if w.vm.regs[i].mode <= w.vm.mode
              then w.(guest := w.guest.(gprs := w.guest.gprs[rd as nat - 1 := w.vm.regs[i].val]))
              else Kill(w);
    w1.(guest := w1.guest.(epc := NextPc(w1.guest.epc)))
  }

  /** Trap entry: build the shadow table the first time a process with a
      page table traps. */
  function Prepare(w: World, base: PageMap): World
    requires w.vm.oldPtable.None? && w.guest.pagetable.Some? ==> CanCopy(w.guest)
  {
    if w.vm.oldPtable.None? && w.guest.pagetable.Some? then
      w.(vm := w.vm.(oldPtable := Some(Shadow(w.guest.pagetable.value, base, w.guest.sz))))
    else
      w
  }

  /** What each operation demands of the state it runs in. */
  ghost predicate OpAllowed(w: World, op: Op) {
    match op
    case Mret => MretAllowed(w)
    case Csrw(rs1, _) => rs1 != 0
    case Csrr(rd, csr) => rd != 0 && FindReg(w.vm.regs, csr).Some?
    case _ => true
  }

  function Step(w: World, op: Op, base: PageMap): World
    requires WellFormed(w) && OpAllowed(w, op)
  {
    match op
    case Sret => Sret(w)
    case Mret => Mret(w, base)
    case Ecall => Ecall(w)
    case Csrw(rs1, csr) => CsrWrite(w, rs1, csr)
    case Csrr(rd, csr) => CsrRead(w, rd, csr)
    case Ignored => w
  }

  ghost predicate TrapAllowed(w: World, instr: bv32) {
    WellFormed(w) && w.guest.pagetable.Some? &&
    (w.vm.oldPtable.None? ==> CanCopy(w.guest)) &&
    OpAllowed(w, Classify(DecodeFields(instr)))
  }

  /** One privileged-instruction trap, from entry to return. */
  function TrapAndEmulate(w: World, instr: bv32, base: PageMap): World
    requires TrapAllowed(w, instr)
  {
    Step(Prepare(w, base), Classify(DecodeFields(instr)), base)
  }
}
