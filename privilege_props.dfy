/**
 * What the trap-and-emulate layer promises, stated over the specification
 * functions of module Privilege.
 */
module PrivilegeProps {
  import opened Wrappers
  import opened PageTable
  import opened VmRegs
  import opened ShadowTables
  import Decode
  import opened Privilege

  /** SRET only sets bits: SIE gains SPIE, SPIE becomes 1, nothing else moves
      (in particular SPP stays as it was). */
  lemma SretStatusBits(s: bv64)
    ensures SretStatus(s) & s == s
    ensures (SretStatus(s) >> 5) & 1 == 1
    ensures (SretStatus(s) >> 1) & 1 == ((s >> 1) | (s >> 5)) & 1
    ensures SretStatus(s) & !0x22 == s & !0x22
    ensures Spp(SretStatus(s)) == Spp(s)
  {
  }

  /** MRET only sets bits: MIE gains MPIE, MPIE becomes 1, MPP stays. */
  lemma MretStatusBits(m: bv64)
    ensures MretStatus(m) & m == m
    ensures (MretStatus(m) >> 7) & 1 == 1
    ensures (MretStatus(m) >> 3) & 1 == ((m >> 3) | (m >> 7)) & 1
    ensures MretStatus(m) & !0x88 == m & !0x88
    ensures Mpp(MretStatus(m)) == Mpp(m)
  {
  }

  /** A violation kills the process and puts every register, the mode, the
      flag and both tables back to their initial values. */
  lemma KillResets(w: World)
    ensures Kill(w).guest.killed
    ensures Kill(w).vm.mode == MACHINE && !Kill(w).vm.pmpConfigured
    ensures Kill(w).vm.oldPtable.None? && Kill(w).vm.newPtable.None?
    ensures forall i :: 0 <= i < NUM_REGS ==>
      Kill(w).vm.regs[i].val == (if i == MVENDORID then VENDOR_TAG else 0)
    ensures Kill(w).guest.epc == w.guest.epc && Kill(w).guest.gprs == w.guest.gprs
  {
    assert forall i :: 0 <= i < NUM_REGS ==> Kill(w).vm.regs[i] == InitRegs()[i];
  }

  /** ECALL from U: sepc takes the trapping pc, the mode becomes S, the pc
      jumps to stvec; ECALL from S: mepc, mode M, mtvec, and the shadow table
      becomes live; ECALL from M kills and resets. The first two change no
      other register, the PMP flag, the stored tables, the general registers,
      the size or the killed flag. */
  lemma EcallTransitions(w: World)
    requires WellFormed(w)
    ensures var w' := Ecall(w);
      (w.vm.mode == USER ==>
        w'.vm.mode == SUPERVISOR && Val(w'.vm, SEPC) == w.guest.epc &&
        w'.guest.epc == Val(w.vm, STVEC) && w'.guest.pagetable == w.guest.pagetable &&
        (forall i :: 0 <= i < NUM_REGS && i != SEPC ==> w'.vm.regs[i] == w.vm.regs[i])) &&
      (w.vm.mode == SUPERVISOR ==>
        w'.vm.mode == MACHINE && Val(w'.vm, MEPC) == w.guest.epc &&
        w'.guest.epc == Val(w.vm, MTVEC) && w'.guest.pagetable == w.vm.oldPtable &&
        (forall i :: 0 <= i < NUM_REGS && i != MEPC ==> w'.vm.regs[i] == w.vm.regs[i])) &&
      (w.vm.mode != MACHINE ==>
        WellFormed(w') && |w'.vm.regs| == NUM_REGS &&
        w'.vm.pmpConfigured == w.vm.pmpConfigured &&
        w'.vm.oldPtable == w.vm.oldPtable && w'.vm.newPtable == w.vm.newPtable &&
        w'.guest.gprs == w.guest.gprs && w'.guest.sz == w.guest.sz &&
        w'.guest.killed == w.guest.killed) &&
      (w.vm.mode == MACHINE ==> w' == Kill(w))
  {
  }

  /** SRET in S mode: the mode becomes U exactly when SPP is 0 (and stays S
      otherwise), the pc becomes sepc, and sstatus is updated as SretStatus
      says (it only gains bits, by SretStatusBits); no other register, table,
      general register or the size changes. In any other mode the
      shadow table is restored and the process killed. */
  lemma SretTransitions(w: World)
    requires WellFormed(w)
    ensures var w' := Sret(w);
      (w.vm.mode == SUPERVISOR ==>
        (w'.vm.mode == USER <==> Spp(Val(w.vm, SSTATUS)) == 0) &&
        (w'.vm.mode == SUPERVISOR <==> Spp(Val(w.vm, SSTATUS)) != 0) &&
        w'.guest.epc == Val(w.vm, SEPC) &&
        Val(w'.vm, SSTATUS) == SretStatus(Val(w.vm, SSTATUS)) &&
        (forall i :: 0 <= i < NUM_REGS && i != SSTATUS ==> w'.vm.regs[i] == w.vm.regs[i]) &&
        w'.vm.pmpConfigured == w.vm.pmpConfigured &&
        w'.vm.oldPtable == w.vm.oldPtable && w'.vm.newPtable == w.vm.newPtable &&
        w'.guest.pagetable == w.guest.pagetable &&
        w'.guest.gprs == w.guest.gprs && w'.guest.sz == w.guest.sz &&
        w'.guest.killed == w.guest.killed) &&
      (w.vm.mode != SUPERVISOR ==>
        w'.guest.killed && w'.vm == InitVm() && w'.guest.pagetable == w.vm.oldPtable)
  {
  }

  /** MRET in M mode: the mode becomes MPP when MPP is below 2 and stays M
      otherwise, the pc becomes mepc, and mstatus is updated as MretStatus
      says (it only gains bits, by MretStatusBits); no other register,
      general register, the size or the saved table changes, and with the
      PMP flag clear the live and restricted tables stay as they were. */
  lemma MretFromMachine(w: World, base: PageMap)
    requires WellFormed(w) && MretAllowed(w) && w.vm.mode == MACHINE
    ensures var w' := Mret(w, base);
      var mpp := Mpp(Val(w.vm, MSTATUS));
      w'.vm.mode == (if mpp < 2 then mpp as nat else MACHINE) &&
      w'.guest.epc == Val(w.vm, MEPC) &&
      w'.vm.regs[MSTATUS].val == MretStatus(Val(w.vm, MSTATUS)) &&
      (forall i :: 0 <= i < NUM_REGS && i != MSTATUS ==> w'.vm.regs[i] == w.vm.regs[i]) &&
      w'.guest.killed == w.guest.killed &&
      w'.vm.pmpConfigured == w.vm.pmpConfigured &&
      w'.vm.oldPtable == w.vm.oldPtable &&
      w'.guest.gprs == w.guest.gprs && w'.guest.sz == w.guest.sz &&
      (!w.vm.pmpConfigured ==>
        w'.guest.pagetable == w.guest.pagetable && w'.vm.newPtable == w.vm.newPtable)
  {
    var m := Val(w.vm, MSTATUS);
    SetValWellFormed(w, MSTATUS, MretStatus(m));
    var w1 := MretReturn(w);
    assert w1.vm.regs[MSTATUS].val == MretStatus(m);
    PmpRebuildKeeps(w1, base);
  }

  /** MRET below M is a violation; the reset clears the PMP flag, so no
      restricted table is built and the live table stays as it was. */
  lemma MretBelowMachine(w: World, base: PageMap)
    requires WellFormed(w) && w.vm.mode < MACHINE
    ensures Mret(w, base) == Kill(w)
    ensures Mret(w, base).guest.pagetable == w.guest.pagetable
  {
    KillWellFormed(w);
    assert MretReturn(w) == Kill(w);
  }

  /** With the PMP flag set, a valid MRET installs the restricted table as
      the live one, built from the table that was live before. */
  lemma MretInstallsPmpTable(w: World, base: PageMap)
    requires WellFormed(w) && MretAllowed(w)
    requires w.vm.mode == MACHINE && w.vm.pmpConfigured
    ensures var w' := Mret(w, base);
      var t := PmpTable(w.guest.pagetable.value, base, w.guest.sz, PmpAddrs(w.vm), Val(w.vm, PMPCFG0));
      w'.guest.pagetable == Some(t) && w'.vm.newPtable == Some(t) &&
      w'.vm.oldPtable == w.vm.oldPtable
  {
  }

  /** A write at a mode that may access the register stores x[rs1] in it
      and changes no other register, the mode, the killed flag or the tables;
      a PMP register also marks the PMP configuration as written. */
  lemma CsrWriteStores(w: World, rs1: bv5, csr: CsrId)
    requires WellFormed(w) && rs1 != 0
    requires FindReg(w.vm.regs, csr).Some?
    requires w.vm.regs[FindReg(w.vm.regs, csr).value].mode <= w.vm.mode
    ensures var w' := CsrWrite(w, rs1, csr);
      var i := FindReg(w.vm.regs, csr).value;
      WellFormed(w') && FindReg(w'.vm.regs, csr) == Some(i) &&
      w'.vm.regs == w.vm.regs[i := w.vm.regs[i].(val := w.guest.gprs[rs1 as nat - 1])] &&
      w'.vm.mode == w.vm.mode && w'.guest.killed == w.guest.killed &&
      w'.guest.gprs == w.guest.gprs && w'.guest.epc == NextPc(w.guest.epc) &&
      w'.vm.oldPtable == w.vm.oldPtable && w'.vm.newPtable == w.vm.newPtable &&
      w'.guest.pagetable == w.guest.pagetable && w'.guest.sz == w.guest.sz &&
      w'.vm.pmpConfigured == (w.vm.pmpConfigured || IsPmpCsr(csr))
  {
    var i := FindReg(w.vm.regs, csr).value;
    var v := w.guest.gprs[rs1 as nat - 1];
    SetValWellFormed(w, i, v);
    var w0 := w.(vm := SetVal(w.vm, i, v));
    var w1 := if IsPmpCsr(csr) then w0.(vm := w0.vm.(pmpConfigured := true)) else w0;
    assert CsrWrite(w, rs1, csr) == w1.(guest := w1.guest.(epc := NextPc(w1.guest.epc)));
  }

  /** A read at a mode that may access the register copies its value into
      x[rd], changes no other general register, no register of the file,
      the live table or the size. */
  lemma CsrReadLoads(w: World, rd: bv5, csr: CsrId)
    requires WellFormed(w) && rd != 0 && FindReg(w.vm.regs, csr).Some?
    requires w.vm.regs[FindReg(w.vm.regs, csr).value].mode <= w.vm.mode
    ensures var w' := CsrRead(w, rd, csr);
      w'.guest.gprs == w.guest.gprs[rd as nat - 1 := w.vm.regs[FindReg(w.vm.regs, csr).value].val] &&
      w'.vm == w.vm && w'.guest.killed == w.guest.killed &&
      w'.guest.epc == NextPc(w.guest.epc) &&
      w'.guest.pagetable == w.guest.pagetable && w'.guest.sz == w.guest.sz
  {
  }

  /** Writing a register and reading it back, at a mode that may access it,
      returns what was written; nothing is killed and each access advances
      the pc by 4. */
  lemma CsrWriteThenRead(w: World, rs1: bv5, rd: bv5, csr: CsrId)
    requires WellFormed(w) && rs1 != 0 && rd != 0
    requires FindReg(w.vm.regs, csr).Some?
    requires w.vm.regs[FindReg(w.vm.regs, csr).value].mode <= w.vm.mode
    ensures var w1 := CsrWrite(w, rs1, csr);
      WellFormed(w1) && FindReg(w1.vm.regs, csr).Some? &&
      var w2 := CsrRead(w1, rd, csr);
      w2.guest.gprs[rd as nat - 1] == w.guest.gprs[rs1 as nat - 1] &&
      w2.vm.mode == w.vm.mode && w2.guest.killed == w.guest.killed &&
      w2.guest.epc == NextPc(NextPc(w.guest.epc))
  {
    CsrWriteStores(w, rs1, csr);
    var w1 := CsrWrite(w, rs1, csr);
    CsrReadLoads(w1, rd, csr);
  }

  /** A write the mode may not make (or to a register that does not exist)
      kills and resets; the PMP flag still ends up set for a PMP register,
      and the pc still advances by 4. */
  lemma CsrWriteDenied(w: World, rs1: bv5, csr: CsrId)
    requires WellFormed(w) && rs1 != 0
    requires FindReg(w.vm.regs, csr).None? ||
             w.vm.regs[FindReg(w.vm.regs, csr).value].mode > w.vm.mode
    ensures var w' := CsrWrite(w, rs1, csr);
      w'.guest.killed && w'.vm == InitVm().(pmpConfigured := IsPmpCsr(csr)) &&
      w'.guest.epc == NextPc(w.guest.epc) && w'.guest.gprs == w.guest.gprs
  {
  }

  /** Every write advances the pc by exactly 4 and leaves the flag set when
      it names pmpcfg0 or pmpaddr0..3. */
  lemma CsrWriteAlwaysSteps(w: World, rs1: bv5, csr: CsrId)
    requires WellFormed(w) && rs1 != 0
    ensures CsrWrite(w, rs1, csr).guest.epc == NextPc(w.guest.epc)
    ensures IsPmpCsr(csr) ==> CsrWrite(w, rs1, csr).vm.pmpConfigured
    ensures WellFormed(CsrWrite(w, rs1, csr))
  {
    var r := FindReg(w.vm.regs, csr);
    if r.Some? && w.vm.regs[r.value].mode <= w.vm.mode {
      SetValWellFormed(w, r.value, w.guest.gprs[rs1 as nat - 1]);
    } else {
      KillWellFormed(w);
    }
  }

  /** A read the mode may not make kills and resets, and still advances the
      pc by 4; the destination register keeps its value. */
  lemma CsrReadDenied(w: World, rd: bv5, csr: CsrId)
    requires WellFormed(w) && rd != 0 && FindReg(w.vm.regs, csr).Some?
    requires w.vm.regs[FindReg(w.vm.regs, csr).value].mode > w.vm.mode
    ensures var w' := CsrRead(w, rd, csr);
      w'.guest.killed && w'.vm == InitVm() &&
      w'.guest.epc == NextPc(w.guest.epc) && w'.guest.gprs == w.guest.gprs
  {
  }

  /** ECALL from U followed by SRET returns to U at the trapping pc, as long
      as the guest left SPP clear (ECALL does not set it). SPP stays clear,
      so the round trip can be repeated. */
  lemma EcallSretRoundTrip(w: World)
    requires WellFormed(w) && w.vm.mode == USER
    requires Spp(Val(w.vm, SSTATUS)) == 0
    ensures WellFormed(Ecall(w))
    ensures var w' := Sret(Ecall(w));
      w'.vm.mode == USER && w'.guest.epc == w.guest.epc &&
      w'.guest.killed == w.guest.killed && w'.guest.pagetable == w.guest.pagetable &&
      Spp(Val(w'.vm, SSTATUS)) == 0
  {
    var w1 := Ecall(w);
    assert Val(w1.vm, SSTATUS) == Val(w.vm, SSTATUS);
    SretStatusBits(Val(w1.vm, SSTATUS));
  }

  /** ECALL from S followed by MRET returns to the mode MPP names (S when the
      guest set MPP to 1; ECALL itself never writes MPP) at the trapping pc. */
  lemma EcallMretRoundTrip(w: World, base: PageMap)
    requires WellFormed(w) && w.vm.mode == SUPERVISOR
    requires w.vm.pmpConfigured ==>
      w.vm.oldPtable.Some? && CanCopy(w.guest.(pagetable := w.vm.oldPtable))
    ensures WellFormed(Ecall(w)) && MretAllowed(Ecall(w))
    ensures var w' := Mret(Ecall(w), base);
      var mpp := Mpp(Val(w.vm, MSTATUS));
      w'.vm.mode == (if mpp < 2 then mpp as nat else MACHINE) &&
      w'.guest.epc == w.guest.epc && w'.guest.killed == w.guest.killed
  {
    var w1 := Ecall(w);
    assert Val(w1.vm, MSTATUS) == Val(w.vm, MSTATUS);
  }

  /** The shadow table is built only while there is none: once it exists,
      trap entry leaves it alone, and every operation either keeps it or is
      a violation that resets the whole record. */
  lemma ShadowBuiltOnce(w: World, op: Decode.Op, base: PageMap)
    requires WellFormed(w) && OpAllowed(w, op)
    requires w.vm.oldPtable.None? && w.guest.pagetable.Some? ==> CanCopy(w.guest)
    ensures Prepare(w, base).vm.oldPtable.Some? || w.guest.pagetable.None?
    ensures Prepare(Prepare(w, base), base) == Prepare(w, base)
    ensures var w' := Step(w, op, base);
      w'.vm.oldPtable == w.vm.oldPtable || w'.vm == InitVm() ||
      w'.vm == InitVm().(pmpConfigured := true)
  {
  }

  /** An instruction whose funct3 is above 2 changes nothing but the trap
      entry's shadow table. */
  lemma IgnoredInstruction(w: World, instr: bv32, base: PageMap)
    requires TrapAllowed(w, instr) && Decode.DecodeFields(instr).funct3 > 2
    ensures TrapAndEmulate(w, instr, base) == Prepare(w, base)
  {
  }

  /** Once the file is laid out as at init, every operation keeps it that way
      (only values change) and the mode stays one of U, S, M. */
  lemma StepKeepsWellFormed(w: World, op: Decode.Op, base: PageMap)
    requires WellFormed(w) && OpAllowed(w, op)
    ensures WellFormed(Step(w, op, base))
  {
    KillWellFormed(w);
    match op
    case Sret =>
      if w.vm.mode == SUPERVISOR {
        SetValWellFormed(w, SSTATUS, SretStatus(Val(w.vm, SSTATUS)));
      } else {
        KillWellFormed(w.(guest := w.guest.(pagetable := w.vm.oldPtable)));
      }
    case Mret =>
      if w.vm.mode == MACHINE {
        SetValWellFormed(w, MSTATUS, MretStatus(Val(w.vm, MSTATUS)));
        PmpRebuildKeeps(MretReturn(w), base);
      } else {
        PmpRebuildKeeps(Kill(w), base);
      }
    case Ecall =>
      if w.vm.mode == USER {
        SetValWellFormed(w, SEPC, w.guest.epc);
      } else if w.vm.mode == SUPERVISOR {
        SetValWellFormed(w, MEPC, w.guest.epc);
      }
    case Csrw(rs1, csr) => CsrWriteAlwaysSteps(w, rs1, csr);
    case Csrr(rd, csr) =>
    case Ignored =>
  }
}
