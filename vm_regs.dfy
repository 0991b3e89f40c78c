/**
 * The virtual register file of the trap-and-emulate layer: one entry per
 * emulated CSR, each with its CSR number, the lowest privilege mode allowed to
 * access it, and its current 64-bit value.
 */
module VmRegs {
  import opened Wrappers

  /** Privilege modes as the source numbers them: 0 = U, 1 = S, 2 = M. */
  type Mode = m: nat | m <= 2

  const USER: Mode := 0
  const SUPERVISOR: Mode := 1
  const MACHINE: Mode := 2

  /** A CSR number: the 12-bit csr field of a Zicsr instruction. */
  type CsrId = bv12

  datatype VmReg = VmReg(code: CsrId, mode: Mode, val: bv64)

  const NUM_REGS: nat := 35

  /** Slots of the registers the handlers use, in declaration order. */
  const SSTATUS: nat := 0
  const STVEC: nat := 2
  const SEPC: nat := 5
  const MVENDORID: nat := 10
  const MSTATUS: nat := 15
  const MTVEC: nat := 20
  const MEPC: nat := 24
  const PMPCFG0: nat := 30
  const PMPADDR0: nat := 31

  /** The machine vendor id the hypervisor reports. */
  const VENDOR_TAG: bv64 := 0x637365353336

  /** The CSR number of each slot, in the order the registers are declared:
      supervisor registers, machine registers, then pmpcfg0 and pmpaddr0..3. */
  function CodeAt(i: nat): CsrId
    requires i < NUM_REGS
  {
    match i
    case 0 => 0x100  case 1 => 0x104  case 2 => 0x105  case 3 => 0x106  case 4 => 0x140
    case 5 => 0x141  case 6 => 0x142  case 7 => 0x144  case 8 => 0x143  case 9 => 0x180
    case 10 => 0xf11 case 11 => 0xf12 case 12 => 0xf13 case 13 => 0xf14 case 14 => 0xf15
    case 15 => 0x300 case 16 => 0x301 case 17 => 0x302 case 18 => 0x303 case 19 => 0x304
    case 20 => 0x305 case 21 => 0x306 case 22 => 0x310 case 23 => 0x340 case 24 => 0x341
    case 25 => 0x342 case 26 => 0x343 case 27 => 0x344 case 28 => 0x34A case 29 => 0x34B
    case 30 => 0x3a0 case 31 => 0x3b0 case 32 => 0x3b1 case 33 => 0x3b2 case _ => 0x3b3
  }

  /** The lowest mode that may access each slot: supervisor registers need
      S, machine registers M, and the PMP registers only U. */
  function ModeAt(i: nat): Mode {
    if i < MVENDORID then SUPERVISOR else if i < PMPCFG0 then MACHINE else USER
  }

  /** The register file as trap_and_emulate_init leaves it: every value 0
      except the machine vendor id. */
  function InitRegs(): (r: seq<VmReg>)
    ensures |r| == NUM_REGS
  {
    seq(NUM_REGS, i requires 0 <= i < NUM_REGS =>
      VmReg(CodeAt(i), ModeAt(i), if i == MVENDORID then VENDOR_TAG else 0))
  }

  /** The slot that holds a CSR number, or -1: the inverse of CodeAt, used
      only to prove that no two slots share a number. */
  function SlotOf(c: CsrId): int {
    match c
    case 0x100 => 0  case 0x104 => 1  case 0x105 => 2  case 0x106 => 3  case 0x140 => 4
    case 0x141 => 5  case 0x142 => 6  case 0x144 => 7  case 0x143 => 8  case 0x180 => 9
    case 0xf11 => 10 case 0xf12 => 11 case 0xf13 => 12 case 0xf14 => 13 case 0xf15 => 14
    case 0x300 => 15 case 0x301 => 16 case 0x302 => 17 case 0x303 => 18 case 0x304 => 19
    case 0x305 => 20 case 0x306 => 21 case 0x310 => 22 case 0x340 => 23 case 0x341 => 24
    case 0x342 => 25 case 0x343 => 26 case 0x344 => 27 case 0x34A => 28 case 0x34B => 29
    case 0x3a0 => 30 case 0x3b0 => 31 case 0x3b1 => 32 case 0x3b2 => 33 case 0x3b3 => 34
    case _ => -1
  }

  lemma SlotOfCode(i: nat)
    requires i < NUM_REGS
    ensures SlotOf(CodeAt(i)) == i
  {
  }

  /** A register file laid out as InitRegs: same numbers and same modes in
      every slot; only the values may differ. */
  ghost predicate SameLayout(regs: seq<VmReg>) {
    |regs| == NUM_REGS &&
    forall i :: 0 <= i < NUM_REGS ==>
      regs[i].code == CodeAt(i) && regs[i].mode == ModeAt(i)
  }

  /** The first slot, from `from` on, whose number is csr. */
  function FindFrom(regs: seq<VmReg>, csr: CsrId, from: nat): (r: Option<nat>)
    requires from <= |regs|
    ensures r.Some? ==> from <= r.value < |regs| && regs[r.value].code == csr &&
                        forall j :: from <= j < r.value ==> regs[j].code != csr
    ensures r.None? ==> forall j :: from <= j < |regs| ==> regs[j].code != csr
    decreases |regs| - from
  {
    if from == |regs| then None
    else if regs[from].code == csr then Some(from)
    else FindFrom(regs, csr, from + 1)
  }

  /** What get_vm_reg finds: the first register whose number is csr, if any. */
  function FindReg(regs: seq<VmReg>, csr: CsrId): (r: Option<nat>)
    ensures r.Some? ==> r.value < |regs| && regs[r.value].code == csr &&
                        forall j :: 0 <= j < r.value ==> regs[j].code != csr
    ensures r.None? ==> forall j :: 0 <= j < |regs| ==> regs[j].code != csr
  {
    FindFrom(regs, csr, 0)
  }

  /** No two registers of the file share a CSR number. */
  lemma CodesDistinct()
    ensures forall i, j :: 0 <= i < j < NUM_REGS ==> CodeAt(i) != CodeAt(j)
  {
    forall i, j | 0 <= i < j < NUM_REGS ensures CodeAt(i) != CodeAt(j) {
      SlotOfCode(i);
      SlotOfCode(j);
    }
  }

  lemma InitLayout()
    ensures SameLayout(InitRegs())
  {
  }

  /** In a file laid out as InitRegs, the lookup finds slot i exactly when
      slot i holds csr: the register it returns is the unique one. */
  lemma {:induction false} FindRegUnique(regs: seq<VmReg>, csr: CsrId, i: nat)
    requires SameLayout(regs) && i < NUM_REGS
    ensures FindReg(regs, csr) == Some(i) <==> regs[i].code == csr
  {
    CodesDistinct();
  }

  /** The lookup of a number the file declares finds that number's slot. */
  lemma FindKnown(regs: seq<VmReg>, i: nat)
    requires SameLayout(regs) && i < NUM_REGS
    ensures FindReg(regs, CodeAt(i)) == Some(i)
  {
    FindRegUnique(regs, CodeAt(i), i);
  }

  /** Changing a value does not move any register: lookups are unaffected. */
  lemma FindAfterWrite(regs: seq<VmReg>, i: nat, v: bv64, csr: CsrId)
    requires SameLayout(regs) && i < NUM_REGS
    ensures SameLayout(regs[i := regs[i].(val := v)])
    ensures FindReg(regs[i := regs[i].(val := v)], csr) == FindReg(regs, csr)
  {
    var regs' := regs[i := regs[i].(val := v)];
    assert forall j :: 0 <= j < NUM_REGS ==> regs'[j].code == regs[j].code;
  }
}
