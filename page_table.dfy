/**
 * An abstract RISC-V (Sv39) page table: a finite map from a virtual address
 * to the leaf page-table entry that a walk without allocation reaches.
 *
 * A key that is present stands for a leaf PTE slot that exists (walk(t, va, 0)
 * is not NULL); the entry's flags say whether it is valid (PTE_V). A key that
 * is absent stands for a walk that returns NULL. The multi-level walk itself is
 * not modelled.
 */
module PageTable {

  /** Bytes per page (riscv.h). */
  const PGSIZE: nat := 4096

  /** PTE flag bits (riscv.h): the low ten bits of a PTE. */
  const PTE_V: bv10 := 1
  const PTE_W: bv10 := 4

  /** A leaf entry, split into PTE2PA and PTE_FLAGS. */
  datatype Pte = Pte(pa: nat, flags: bv10)

  /** The entry uvmunmap leaves behind: `*pte = 0`. */
  const ZERO_PTE: Pte := Pte(0, 0)

  type PageMap = map<nat, Pte>

  predicate IsValid(e: Pte) {
    e.flags & PTE_V != 0
  }

  /** va is one of start, start + PGSIZE, start + 2*PGSIZE, ... below end:
      the addresses a `for(i = start; i < end; i += PGSIZE)` loop visits. */
  predicate OnGrid(va: nat, start: nat, end: nat) {
    start <= va < end && (va - start) % PGSIZE == 0
  }

  /** Every page the loop over [start, end) visits has a valid entry in t. */
  ghost predicate Covers(t: PageMap, start: nat, end: nat) {
    forall va :: OnGrid(va, start, end) ==> va in t && IsValid(t[va])
  }

  /** The entries of src at the pages of [start, end). */
  function Copied(src: PageMap, start: nat, end: nat): PageMap {
    map va | va in src && OnGrid(va, start, end) :: src[va]
  }

  /** t with every page of [start, end) that has an entry zeroed. */
  function Unmapped(t: PageMap, start: nat, end: nat): PageMap {
    map va | va in t :: if OnGrid(va, start, end) then ZERO_PTE else t[va]
  }

  /** mappages(t, va, PGSIZE, pa, flags): install one leaf entry. */
  function MapPage(t: PageMap, va: nat, pa: nat, flags: bv10): (r: PageMap)
    ensures va in r && r[va] == Pte(pa, flags | PTE_V)
    ensures forall k :: k != va ==> (k in r <==> k in t)
    ensures forall k :: k != va && k in t ==> r[k] == t[k]
  {
    t[va := Pte(pa, flags | PTE_V)]
  }

  /** uvmunmap(t, va, 1, 0): zero one leaf entry, keep the backing page. */
  function UnmapPage(t: PageMap, va: nat): (r: PageMap)
    ensures r.Keys == t.Keys
    ensures va in t ==> r[va] == ZERO_PTE && !IsValid(r[va])
    ensures forall k :: k != va && k in t ==> r[k] == t[k]
  {
    if va in t then t[va := ZERO_PTE] else t
  }

  /** The grid of [start, end) is the grid of [start, i) plus i, when i is on it. */
  lemma GridStep(va: nat, start: nat, i: nat)
    requires start <= i && (i - start) % PGSIZE == 0
    ensures OnGrid(va, start, i + PGSIZE) <==> OnGrid(va, start, i) || va == i
  {
  }

  /** A loop that stopped at the first grid point at or past end has seen the whole grid. */
  lemma GridExhausted(va: nat, start: nat, i: nat, end: nat)
    requires start <= i && (i - start) % PGSIZE == 0
    requires end <= i && (i == start || i < end + PGSIZE)
    ensures OnGrid(va, start, i) <==> OnGrid(va, start, end)
  {
  }

  /** Copying one more page extends the copy of the region by that page. */
  lemma {:induction false} CopiedStep(src: PageMap, start: nat, i: nat)
    requires start <= i && (i - start) % PGSIZE == 0 && i in src
    ensures Copied(src, start, i + PGSIZE) == Copied(src, start, i)[i := src[i]]
  {
    forall va ensures OnGrid(va, start, i + PGSIZE) <==> OnGrid(va, start, i) || va == i {
      GridStep(va, start, i);
    }
  }

  /** Unmapping one more page extends the unmapping of the region by that page. */
  lemma {:induction false} UnmappedStep(t: PageMap, start: nat, i: nat)
    requires start <= i && (i - start) % PGSIZE == 0
    ensures Unmapped(t, start, i + PGSIZE) == UnmapPage(Unmapped(t, start, i), i)
  {
    forall va ensures OnGrid(va, start, i + PGSIZE) <==> OnGrid(va, start, i) || va == i {
      GridStep(va, start, i);
    }
  }

  lemma {:induction false} CopiedDone(src: PageMap, start: nat, i: nat, end: nat)
    requires start <= i && (i - start) % PGSIZE == 0
    requires end <= i && (i == start || i < end + PGSIZE)
    ensures Copied(src, start, i) == Copied(src, start, end)
  {
    forall va ensures OnGrid(va, start, i) <==> OnGrid(va, start, end) {
      GridExhausted(va, start, i, end);
    }
  }

  lemma {:induction false} UnmappedDone(t: PageMap, start: nat, i: nat, end: nat)
    requires start <= i && (i - start) % PGSIZE == 0
    requires end <= i && (i == start || i < end + PGSIZE)
    ensures Unmapped(t, start, i) == Unmapped(t, start, end)
  {
    forall va ensures OnGrid(va, start, i) <==> OnGrid(va, start, end) {
      GridExhausted(va, start, i, end);
    }
  }
}
