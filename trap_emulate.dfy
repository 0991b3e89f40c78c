/**
 * The trap-and-emulate handlers as the kernel runs them: the global vm_state
 * record is an object whose fields the handlers update in place, and so is the
 * part of the trapping process they touch. Every handler is proved to leave
 * the pair in exactly the state the matching function of module Privilege
 * computes from the state it started in.
 */
module TrapEmulate {
  import opened Wrappers
  import opened PageTable
  import opened VmRegs
  import opened ShadowTables
  import opened Privilege
  import Decode

  /** The fields of struct proc (and its trapframe) the handlers read or write. */
  class Proc {
    var epc: bv64
    var gprs: seq<bv64>
    var pagetable: Option<PageMap>
    var sz: nat
    var killed: bool

    function Abs(): Guest
      reads this
    {
      Guest(epc, gprs, pagetable, sz, killed)
    }

    constructor(epc: bv64, gprs: seq<bv64>, pagetable: Option<PageMap>, sz: nat)
      ensures Abs() == Guest(epc, gprs, pagetable, sz, false)
    {
      this.epc := epc;
      this.gprs := gprs;
      this.pagetable := pagetable;
      this.sz := sz;
      this.killed := false;
    }
  }

  /** copy_pagetable_region: copy the leaf entry of every page of [start, end)
      from src into dst, keeping its physical page and flags. Every page must
      have a valid entry in src; the source panics otherwise. */
  method CopyPagetableRegion(src: PageMap, dst: PageMap, start: nat, end: nat)
    returns (r: PageMap)
    requires Covers(src, start, end)
    ensures r == dst + Copied(src, start, end)
  {
    r := dst;
    var i := start;
    while i < end
      invariant start <= i && (i - start) % PGSIZE == 0
      invariant i == start || i < end + PGSIZE
      invariant r == dst + Copied(src, start, i)
    {
      assert OnGrid(i, start, end);
      var e := src[i];
      CopiedStep(src, start, i);
      r := MapPage(r, i, e.pa, e.flags);
      assert e.flags | PTE_V == e.flags;
      i := i + PGSIZE;
    }
    CopiedDone(src, start, i, end);
  }

  /** apply_pmp_restrictions: unmap, without freeing, every page of
      [start, end). */
  method ApplyPmpRestrictions(t: PageMap, start: nat, end: nat) returns (r: PageMap)
    ensures r == Unmapped(t, start, end)
  {
    r := t;
    var i := start;
    while i < end
      invariant start <= i && (i - start) % PGSIZE == 0
      invariant i == start || i < end + PGSIZE
      invariant r == Unmapped(t, start, i)
    {
      UnmappedStep(t, start, i);
      r := UnmapPage(r, i);
      i := i + PGSIZE;
    }
    UnmappedDone(t, start, i, end);
  }

  /** The three-step build of a shadow table: proc_pagetable's table, then the
      guest's [0, sz) and the kernel window copied into it. */
  method BuildShadow(src: PageMap, base: PageMap, sz: nat) returns (t: PageMap)
    requires Covers(src, 0, sz) && Covers(src, KWIN_START, KWIN_END)
    ensures t == Shadow(src, base, sz)
  {
    t := CopyPagetableRegion(src, base, 0, sz);
    t := CopyPagetableRegion(src, t, KWIN_START, KWIN_END);
  }

  /** The PMP pass of handle_mret, over the values of pmpaddr0..3 and
      pmpcfg0: starting from the shadow t, unmap the region of each pmpaddr
      register before the first zero one whose pmpcfg0 byte does not grant
      RWX. */
  method RestrictByPmp(t: PageMap, pmpaddr: seq<bv64>, cfg: bv64) returns (r: PageMap)
    requires |pmpaddr| == NUM_PMPADDR
    ensures r == RestrictAll(t, Restrictions(pmpaddr, cfg, ActiveCount(pmpaddr)))
  {
    var start: nat := KWIN_START;
    var end: nat := KWIN_START;
    r := t;
    var i := 0;
    while i < 4
      invariant i <= NUM_PMPADDR
      invariant i <= ActiveCount(pmpaddr)
      invariant i == 0 ==> start == KWIN_START
      invariant r == RestrictAll(t, Restrictions(pmpaddr, cfg, i))
    {
      if pmpaddr[i] == 0 {
        break;
      }
      var rwx := Perm(cfg, i);
      if i > 0 {
        start := Boundary(pmpaddr[i - 1]);
      }
      end := Boundary(pmpaddr[i]);
      assert Region(start, end) == RegionOf(pmpaddr, i);
      RestrictStep(t, pmpaddr, cfg, i);
      if rwx != 0x07 {
        r := ApplyPmpRestrictions(r, start, end);
      }
      i := i + 1;
    }
  }

  /** vm_state. */
  class VmState {
    var regs: seq<VmReg>
    var currentMode: Mode
    var pmpConfiguration: bool
    var oldPtable: Option<PageMap>
    var newPtable: Option<PageMap>

    function Abs(): Vm
      reads this
    {
      Vm(regs, currentMode, pmpConfiguration, oldPtable, newPtable)
    }

    /** The handlers' state: the registers and the trapping process. */
    function WorldOf(p: Proc): World
      reads this, p
    {
      World(Abs(), p.Abs())
    }

    ghost predicate Valid(p: Proc)
      reads this, p
    {
      WellFormed(WorldOf(p))
    }

    /** The record as the kernel allocates it, then trap_and_emulate_init. */
    constructor()
      ensures Abs() == InitVm()
    {
      regs := InitRegs();
      currentMode := MACHINE;
      pmpConfiguration := false;
      oldPtable := None;
      newPtable := None;
    }

    /** trap_and_emulate_init: every register back to its reset value, mode
        M, no PMP configuration, no tables. */
    method Init()
      modifies this
      ensures Abs() == InitVm()
    {
      regs := InitRegs();
      currentMode := MACHINE;
      pmpConfiguration := false;
      oldPtable := None;
      newPtable := None;
    }

    /** get_vm_reg: the first register, in declaration order, whose number is
        csr, or none. */
    method GetVmReg(csr: CsrId) returns (r: Option<nat>)
      ensures r == FindReg(regs, csr)
    {
      var i := 0;
      while i < |regs|
        invariant i <= |regs|
        invariant forall j :: 0 <= j < i ==> regs[j].code != csr
      {
        if regs[i].code == csr {
          return Some(i);
        }
        i := i + 1;
      }
      return None;
    }

    /** setkilled(p) followed by trap_and_emulate_init. */
    method KillGuest(p: Proc)
      modifies this, p
      ensures WorldOf(p) == Kill(old(WorldOf(p)))
    {
      p.killed := true;
      Init();
    }

    /** handle_ecall: the trap goes one level up, and from M it is a
        violation. */
    method HandleEcall(p: Proc)
      requires Valid(p)
      modifies this, p
      ensures WorldOf(p) == Ecall(old(WorldOf(p)))
    {
      if currentMode == USER {
        TrapToSupervisor(p);
      } else if currentMode == SUPERVISOR {
        TrapToMachine(p);
      } else {
        KillGuest(p);
      }
    }

    /** handle_ecall from U: save the pc in sepc, enter S at stvec. The source
        also computes an updated sstatus here but never stores it, so the
        register keeps its value. */
    method TrapToSupervisor(p: Proc)
      requires Valid(p) && currentMode == USER
      modifies this, p
      ensures WorldOf(p) == Ecall(old(WorldOf(p)))
    {
      var sepc := GetVmReg(0x141);
      var stvec := GetVmReg(0x105);
      FindKnown(regs, SEPC);
      FindKnown(regs, STVEC);
      assert sepc == Some(SEPC) && stvec == Some(STVEC);
      regs := regs[sepc.value := regs[sepc.value].(val := p.epc)];
      currentMode := SUPERVISOR;
      p.epc := regs[stvec.value].val;
    }

    /** handle_ecall from S: save the pc in mepc, enter M at mtvec, and make
        the shadow table live. As above, the computed mstatus is dropped. */
    method TrapToMachine(p: Proc)
      requires Valid(p) && currentMode == SUPERVISOR
      modifies this, p
      ensures WorldOf(p) == Ecall(old(WorldOf(p)))
    {
      var mepc := GetVmReg(0x341);
      var mtvec := GetVmReg(0x305);
      FindKnown(regs, MEPC);
      FindKnown(regs, MTVEC);
      assert mepc == Some(MEPC) && mtvec == Some(MTVEC);
      regs := regs[mepc.value := regs[mepc.value].(val := p.epc)];
      currentMode := MACHINE;
      p.epc := regs[mtvec.value].val;
      p.pagetable := oldPtable;
    }

    /** handle_sret. */
    method HandleSret(p: Proc)
      requires Valid(p)
      modifies this, p
      ensures WorldOf(p) == Sret(old(WorldOf(p)))
    {
      if currentMode == SUPERVISOR {
        var sstatus := GetVmReg(0x100);
        var sepc := GetVmReg(0x141);
        FindKnown(regs, SSTATUS);
        FindKnown(regs, SEPC);
        assert sstatus == Some(SSTATUS) && sepc == Some(SEPC);
        var s := regs[sstatus.value].val;
        var spp := Spp(s);
        if spp < 1 {
          currentMode := USER;
        }
        regs := regs[sstatus.value := regs[sstatus.value].(val := SretStatus(s))];
        p.epc := regs[sepc.value].val;
      } else {
        p.pagetable := oldPtable;
        KillGuest(p);
      }
    }

    /** handle_mret: return to the mode MPP names, then, when a PMP register
        has been written, rebuild the restricted table from the live one and
        install it. */
    method HandleMret(p: Proc, base: PageMap)
      requires Valid(p) && MretAllowed(WorldOf(p))
      modifies this, p
      ensures WorldOf(p) == Mret(old(WorldOf(p)), base)
    {
      ReturnFromMachine(p);
      InitLayout();
      RebuildPmpTable(p, base);
    }

    /** The first half of handle_mret: from M, restore the mode from MPP
        (when it is below 2) and the pc from mepc; below M, kill. */
    method ReturnFromMachine(p: Proc)
      requires Valid(p)
      modifies this, p
      ensures WorldOf(p) == MretReturn(old(WorldOf(p)))
    {
      if currentMode >= MACHINE {
        var mstatus := GetVmReg(0x300);
        var mepc := GetVmReg(0x341);
        FindKnown(regs, MSTATUS);
        FindKnown(regs, MEPC);
        assert mstatus == Some(MSTATUS) && mepc == Some(MEPC);
        var m := regs[mstatus.value].val;
        var mpp := Mpp(m);
        if mpp < 2 {
          currentMode := mpp as nat;
        }
        regs := regs[mstatus.value := regs[mstatus.value].(val := MretStatus(m))];
        p.epc := regs[mepc.value].val;
      } else {
        KillGuest(p);
      }
    }

    /** The second half of handle_mret: with the PMP flag set, copy the live
        table into proc_pagetable's new table (base), unmap the PMP regions,
        and make the result both the restricted table and the live one. */
    method RebuildPmpTable(p: Proc, base: PageMap)
      requires Valid(p) && (pmpConfiguration ==> CanCopy(p.Abs()))
      modifies this, p
      ensures WorldOf(p) == PmpRebuild(old(WorldOf(p)), base)
    {
      if pmpConfiguration {
        var t := BuildShadow(p.pagetable.value, base, p.sz);
        t := RestrictByPmp(t, PmpAddrs(Abs()), regs[PMPCFG0].val);
        newPtable := Some(t);
        p.pagetable := Some(t);
      }
    }

    /** handle_csrw: write x[rs1] into the register numbered uimm. */
    method HandleCsrw(p: Proc, rs1: bv5, uimm: CsrId)
      requires Valid(p) && rs1 != 0
      modifies this, p
      ensures WorldOf(p) == CsrWrite(old(WorldOf(p)), rs1, uimm)
    {
      var v := p.gprs[rs1 as nat - 1];
      var reg := GetVmReg(uimm);
      if reg.Some? && regs[reg.value].mode <= currentMode {
        regs := regs[reg.value := regs[reg.value].(val := v)];
      } else {
        KillGuest(p);
      }
      if uimm == 0x3a0 || uimm == 0x3b0 || uimm == 0x3b1 || uimm == 0x3b2 || uimm == 0x3b3 {
        pmpConfiguration := true;
      }
      p.epc := NextPc(p.epc);
    }

    /** handle_csrr: copy the register numbered uimm into x[rd]. The register
        must exist; the source dereferences the lookup's result unchecked. */
    method HandleCsrr(p: Proc, rd: bv5, uimm: CsrId)
      requires Valid(p) && rd != 0 && FindReg(regs, uimm).Some?
      modifies this, p
      ensures WorldOf(p) == CsrRead(old(WorldOf(p)), rd, uimm)
    {
      var reg := GetVmReg(uimm);
      if regs[reg.value].mode <= currentMode {
        p.gprs := p.gprs[rd as nat - 1 := regs[reg.value].val];
      } else {
        KillGuest(p);
      }
      p.epc := NextPc(p.epc);
    }

    /** switch_page_table: make the shadow table the live one again. */
    method SwitchPageTable(p: Proc)
      modifies p
      ensures p.Abs() == old(p.Abs()).(pagetable := oldPtable)
    {
      p.pagetable := oldPtable;
    }

    /** trap_and_emulate: build the shadow table on the first trap, decode
        the instruction the guest trapped on, and dispatch on funct3. The
        fetch of the instruction through sepc and the guest's page table is
        not modelled: the word is a parameter. */
    method TrapAndEmulate(p: Proc, instr: bv32, base: PageMap)
      requires TrapAllowed(WorldOf(p), instr)
      modifies this, p
      ensures WorldOf(p) == Privilege.TrapAndEmulate(old(WorldOf(p)), instr, base)
    {
      if oldPtable.None? && p.pagetable.Some? {
        var t := BuildShadow(p.pagetable.value, base, p.sz);
        oldPtable := Some(t);
      }
      assert WorldOf(p) == Prepare(old(WorldOf(p)), base);
      var rd := ((instr >> 7) & 0x1f) as bv5;
      var funct3 := ((instr >> 12) & 0x7) as bv3;
      var rs1 := ((instr >> 15) & 0x1f) as bv5;
      var uimm := ((instr >> 20) & 0xfff) as bv12;
      assert Decode.DecodeFields(instr).funct3 == funct3;
      assert Decode.DecodeFields(instr).uimm == uimm;
      match funct3 {
        case 0 =>
          if uimm == 0x102 {
            HandleSret(p);
          } else if uimm == 0x302 {
            HandleMret(p, base);
          } else {
            HandleEcall(p);
          }
        case 1 =>
          HandleCsrw(p, rs1, uimm);
        case 2 =>
          HandleCsrr(p, rd, uimm);
        case _ =>
      }
    }
  }
}
