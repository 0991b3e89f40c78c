/**
 * The page tables the trap-and-emulate layer builds: the shadow copy of the
 * guest's table, and the restricted copy derived from the virtual PMP
 * registers. PMP boundaries follow the address encoding of the RISC-V
 * Privileged Architecture, section 3.7: a pmpaddr register holds bits 55:2 of
 * a physical address, so the boundary is the register shifted left by two.
 */
module ShadowTables {
  import opened PageTable

  /** The low kernel window copied into every shadow table. */
  const KWIN_START: nat := 0x8000_0000
  const KWIN_END: nat := 0x8040_0000

  /** Number of virtual pmpaddr registers. */
  const NUM_PMPADDR: nat := 4

  /** proc_pagetable's new table (base), then [0, sz) and the kernel window copied
      from src, in that order. */
  function Shadow(src: PageMap, base: PageMap, sz: nat): PageMap {
    base + Copied(src, 0, sz) + Copied(src, KWIN_START, KWIN_END)
  }

  /** A shadow holds exactly the guest's entries on both ranges and keeps
      the base table's other entries. */
  lemma ShadowAt(src: PageMap, base: PageMap, sz: nat, va: nat)
    ensures var t := Shadow(src, base, sz);
      var copied := va in src && (OnGrid(va, 0, sz) || OnGrid(va, KWIN_START, KWIN_END));
      (va in t <==> copied || va in base) &&
      (copied ==> t[va] == src[va]) &&
      (!copied && va in base ==> t[va] == base[va])
  {
  }

  /** The shadow of a table that covers both ranges covers them too, so the
      shadow can itself be the source of a later copy. */
  lemma ShadowCovers(src: PageMap, base: PageMap, sz: nat)
    requires Covers(src, 0, sz) && Covers(src, KWIN_START, KWIN_END)
    ensures Covers(Shadow(src, base, sz), 0, sz)
    ensures Covers(Shadow(src, base, sz), KWIN_START, KWIN_END)
  {
    var t := Shadow(src, base, sz);
    forall va | OnGrid(va, 0, sz) ensures va in t && IsValid(t[va]) {
      ShadowAt(src, base, sz, va);
    }
    forall va | OnGrid(va, KWIN_START, KWIN_END) ensures va in t && IsValid(t[va]) {
      ShadowAt(src, base, sz, va);
    }
  }

  /** A PMP boundary: `pmpaddr << 2` in 64-bit arithmetic. */
  function Boundary(a: bv64): nat {
    (a << 2) as nat
  }

  /** The R, W and X bits of the i-th byte of pmpcfg0, with the byte picked
      out by a constant shift. */
  function Perm(cfg: bv64, i: nat): bv64
    requires i < NUM_PMPADDR
  {
    var entry := if i == 0 then cfg & 0xff
                 else if i == 1 then (cfg >> 8) & 0xff
                 else if i == 2 then (cfg >> 16) & 0xff
                 else (cfg >> 24) & 0xff;
    entry & 0x07
  }

  /** Perm is the source's `(pmpcfg0 >> (i*8)) & 0xFF`, masked with 0x07. */
  lemma PermIsByte(cfg: bv64, i: nat)
    requires i < NUM_PMPADDR
    ensures Perm(cfg, i) == ((cfg >> (8 * i)) & 0xff) & 0x07
  {
    if i == 0 {
      assert cfg >> (8 * i) == cfg >> 0;
    } else if i == 1 {
      assert cfg >> (8 * i) == cfg >> 8;
    } else if i == 2 {
      assert cfg >> (8 * i) == cfg >> 16;
    } else {
      assert cfg >> (8 * i) == cfg >> 24;
    }
  }

  /** The number of pmpaddr registers the rebuild looks at: it stops at the
      first one that is zero. */
  function ActiveCount(addrs: seq<bv64>): (n: nat)
    requires |addrs| == NUM_PMPADDR
    ensures n <= NUM_PMPADDR
    ensures forall j :: 0 <= j < n ==> addrs[j] != 0
    ensures n < NUM_PMPADDR ==> addrs[n] == 0
  {
    if addrs[0] == 0 then 0 else if addrs[1] == 0 then 1
    else if addrs[2] == 0 then 2 else if addrs[3] == 0 then 3 else 4
  }

  datatype Region = Region(start: nat, end: nat)

  /** Region i runs from the previous register's boundary (the kernel window
      base for i = 0) to register i's boundary. */
  function RegionOf(addrs: seq<bv64>, i: nat): Region
    requires |addrs| == NUM_PMPADDR && i < NUM_PMPADDR
  {
    Region(if i == 0 then KWIN_START else Boundary(addrs[i - 1]), Boundary(addrs[i]))
  }

  /** The regions unmapped for registers 0 .. n-1: those whose permission
      is not all of read, write and execute, in ascending order. */
  function Restrictions(addrs: seq<bv64>, cfg: bv64, n: nat): seq<Region>
    requires |addrs| == NUM_PMPADDR && n <= NUM_PMPADDR
  {
    if n == 0 then []
    else Restrictions(addrs, cfg, n - 1) +
         (if Perm(cfg, n - 1) != 7 then [RegionOf(addrs, n - 1)] else [])
  }

  lemma {:induction false} RestrictionsAre(addrs: seq<bv64>, cfg: bv64, n: nat, r: Region)
    requires |addrs| == NUM_PMPADDR && n <= NUM_PMPADDR
    ensures r in Restrictions(addrs, cfg, n) <==>
            exists i :: 0 <= i < n && Perm(cfg, i) != 7 && r == RegionOf(addrs, i)
  {
    if n > 0 {
      RestrictionsAre(addrs, cfg, n - 1, r);
    }
  }

  /** Unmap the regions one after the other. */
  function RestrictAll(t: PageMap, rs: seq<Region>): PageMap
  {
    if rs == [] then t
    else Unmapped(RestrictAll(t, rs[..|rs| - 1]), rs[|rs| - 1].start, rs[|rs| - 1].end)
  }

  /** A page that lies on one of the regions is zeroed, every other entry is
      kept, and no entry appears or disappears. */
  lemma {:induction false} RestrictAllAt(t: PageMap, rs: seq<Region>, va: nat)
    ensures va in RestrictAll(t, rs) <==> va in t
    ensures va in t ==>
      RestrictAll(t, rs)[va] == if exists r :: r in rs && OnGrid(va, r.start, r.end) then ZERO_PTE else t[va]
  {
    if rs != [] {
      var front := rs[..|rs| - 1];
      var last := rs[|rs| - 1];
      RestrictAllAt(t, front, va);
      assert rs == front + [last];
      if va in t && (exists r :: r in rs && OnGrid(va, r.start, r.end)) {
        var r :| r in rs && OnGrid(va, r.start, r.end);
        if !OnGrid(va, last.start, last.end) {
          assert r in front;
        }
      }
    }
  }

  /** One more register: its region, when its permission is not RWX, is
      unmapped from what the previous registers left. */
  lemma RestrictStep(t: PageMap, addrs: seq<bv64>, cfg: bv64, i: nat)
    requires |addrs| == NUM_PMPADDR && i < NUM_PMPADDR
    ensures RestrictAll(t, Restrictions(addrs, cfg, i + 1)) ==
      if Perm(cfg, i) != 7
      then Unmapped(RestrictAll(t, Restrictions(addrs, cfg, i)), RegionOf(addrs, i).start, RegionOf(addrs, i).end)
      else RestrictAll(t, Restrictions(addrs, cfg, i))
  {
    var before := Restrictions(addrs, cfg, i);
    if Perm(cfg, i) != 7 {
      var rs := Restrictions(addrs, cfg, i + 1);
      assert rs == before + [RegionOf(addrs, i)];
      assert rs[..|rs| - 1] == before;
    } else {
      assert Restrictions(addrs, cfg, i + 1) == before;
    }
  }

  /** The table MRET installs when the PMP registers have been written. */
  function PmpTable(src: PageMap, base: PageMap, sz: nat, addrs: seq<bv64>, cfg: bv64): PageMap
    requires |addrs| == NUM_PMPADDR
  {
    RestrictAll(Shadow(src, base, sz), Restrictions(addrs, cfg, ActiveCount(addrs)))
  }

  /** A page is zeroed in the restricted table exactly when it lies in the
      region of a configured register (one before the first zero register)
      whose permission is not RWX; every other page is as in the shadow. */
  lemma PmpTableAt(src: PageMap, base: PageMap, sz: nat, addrs: seq<bv64>, cfg: bv64, va: nat)
    requires |addrs| == NUM_PMPADDR
    ensures var t := PmpTable(src, base, sz, addrs, cfg);
      var s := Shadow(src, base, sz);
      var restricted := exists i :: 0 <= i < ActiveCount(addrs) && Perm(cfg, i) != 7 &&
                                   OnGrid(va, RegionOf(addrs, i).start, RegionOf(addrs, i).end);
      (va in t <==> va in s) &&
      (va in s ==> t[va] == if restricted then ZERO_PTE else s[va])
  {
    var rs := Restrictions(addrs, cfg, ActiveCount(addrs));
    var s := Shadow(src, base, sz);
    RestrictAllAt(s, rs, va);
    var inRs := exists r :: r in rs && OnGrid(va, r.start, r.end);
    var restricted := exists i :: 0 <= i < ActiveCount(addrs) && Perm(cfg, i) != 7 &&
                                 OnGrid(va, RegionOf(addrs, i).start, RegionOf(addrs, i).end);
    if inRs {
      var r :| r in rs && OnGrid(va, r.start, r.end);
      RestrictionsAre(addrs, cfg, ActiveCount(addrs), r);
    }
    if restricted {
      var i :| 0 <= i < ActiveCount(addrs) && Perm(cfg, i) != 7 &&
               OnGrid(va, RegionOf(addrs, i).start, RegionOf(addrs, i).end);
      RestrictionsAre(addrs, cfg, ActiveCount(addrs), RegionOf(addrs, i));
    }
  }

  /** With every PMP entry granting RWX, or pmpaddr0 unset, the restricted
      table is the plain shadow. */
  lemma PmpTableUnrestricted(src: PageMap, base: PageMap, sz: nat, addrs: seq<bv64>, cfg: bv64)
    requires |addrs| == NUM_PMPADDR
    requires addrs[0] == 0 || forall i :: 0 <= i < NUM_PMPADDR ==> Perm(cfg, i) == 7
    ensures PmpTable(src, base, sz, addrs, cfg) == Shadow(src, base, sz)
  {
    var n := ActiveCount(addrs);
    assert Restrictions(addrs, cfg, n) == [] by {
      if addrs[0] != 0 {
        assert Restrictions(addrs, cfg, 0) == [];
        assert Restrictions(addrs, cfg, 1) == [];
        assert Restrictions(addrs, cfg, 2) == [];
        assert Restrictions(addrs, cfg, 3) == [];
      }
    }
  }
}
