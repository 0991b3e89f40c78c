/**
 * The copy-on-write fork copy (uvmcopy_cow): walk the parent's pages below
 * sz, map every valid one into the child at the same physical page with
 * PTE_W cleared, clear PTE_W in the parent, and record the page in the
 * parent's group. A mapping failure stops the walk and unmaps what the child
 * got so far.
 *
 * Run gives the walk page by page, the way the loop does it. Its partner is
 * the closed form below it (ClearW, Shared, Recorded): what the whole walk
 * leaves behind, stated without the loop.
 */
module CowCopy {
  import opened Wrappers
  import opened PageTable
  import opened CowGroups

  /** An entry with the write bit cleared: `flags &= ~PTE_W`. */
  function ReadOnly(e: Pte): Pte {
    Pte(e.pa, e.flags & !PTE_W)
  }

  /** What the child gains over [0, end): every valid page of the parent,
      read-only. */
  function Shared(t: PageMap, end: nat): PageMap {
    map va | va in t && OnGrid(va, 0, end) && IsValid(t[va]) :: ReadOnly(t[va])
  }

  /** The parent's table after the walk over [0, end): the same entries,
      with PTE_W cleared on every valid page. */
  function ClearW(t: PageMap, end: nat): PageMap {
    t + Shared(t, end)
  }

  /** q is a nonzero physical page that a valid page of [0, end) maps. */
  ghost predicate Recorded(t: PageMap, end: nat, q: nat) {
    q != 0 && exists va :: OnGrid(va, 0, end) && va in t && IsValid(t[va]) && t[va].pa == q
  }

  /** The number of pages `for(i = 0; i < sz; i += PGSIZE)` visits. */
  function Pages(sz: nat): nat {
    (sz + PGSIZE - 1) / PGSIZE
  }

  /** The walk's state: both tables, the group's list, and the page whose
      mapping failed, if one did. */
  datatype Pass = Pass(parent: PageMap, child: PageMap, shmem: seq<nat>, failedAt: Option<nat>)

  /** One iteration of the loop at page va; None where the source panics
      (no PTE slot) or overruns the list. record is false for group -1,
      whose add_shmem does nothing; oom holds the pages whose mappages
      fails. */
  function StepPage(s: Pass, record: bool, oom: set<nat>, va: nat): Option<Pass> {
    if s.failedAt.Some? then Some(s)
    else if va !in s.parent then None
    else if !IsValid(s.parent[va]) then Some(s)
    else if va in oom then Some(s.(failedAt := Some(va)))
    else CopyPage(s, record, va)
  }

  /** The body of the loop for a valid page whose mapping succeeds: the
      child maps it read-only, the parent's entry loses PTE_W, and the page
      goes into the group's list. */
  function CopyPage(s: Pass, record: bool, va: nat): Option<Pass>
    requires va in s.parent
  {
    var e := s.parent[va];
    if record && !CanAdd(s.shmem, e.pa) then None
    else Some(Pass(s.parent[va := ReadOnly(e)], MapPage(s.child, va, e.pa, e.flags & !PTE_W),
                   if record then ShmemAdd(s.shmem, e.pa) else s.shmem, None))
  }

  /** The walk over the first n pages. */
  function Run(parent: PageMap, child: PageMap, sh: seq<nat>, record: bool, oom: set<nat>, n: nat)
    : Option<Pass>
  {
    if n == 0 then Some(Pass(parent, child, sh, None))
    else match Run(parent, child, sh, record, oom, n - 1)
      case None => None
      case Some(s) => StepPage(s, record, oom, (n - 1) * PGSIZE)
  }

  datatype CowResult = CowResult(status: int, parent: PageMap, child: PageMap, shmem: seq<nat>)

  /** uvmcopy_cow: 0 after a full walk; -1 after a failed mapping, with the
      child's pages below the failing one unmapped (uvmunmap with do_free). */
  function UvmCopyCow(parent: PageMap, child: PageMap, sh: seq<nat>, record: bool,
                      oom: set<nat>, sz: nat): Option<CowResult>
  {
    match Run(parent, child, sh, record, oom, Pages(sz))
    case None => None
    case Some(s) =>
      if s.failedAt.Some? then Some(CowResult(-1, s.parent, Unmapped(s.child, 0, s.failedAt.value), s.shmem))
      else Some(CowResult(0, s.parent, s.child, s.shmem))
  }

  // ------------------------------------------------------------------ lemmas

  /** Extending the walked region by one invalid page changes nothing. */
  lemma {:induction false} SkipStep(t: PageMap, i: nat)
    requires i % PGSIZE == 0 && i in t && !IsValid(t[i])
    ensures ClearW(t, i + PGSIZE) == ClearW(t, i)
    ensures Shared(t, i + PGSIZE) == Shared(t, i)
    ensures forall q :: Recorded(t, i + PGSIZE, q) <==> Recorded(t, i, q)
  {
    forall va ensures OnGrid(va, 0, i + PGSIZE) <==> OnGrid(va, 0, i) || va == i {
      GridStep(va, 0, i);
    }
  }

  /** Extending the walked region by one valid page adds that page. */
  lemma {:induction false} ClearWStep(t: PageMap, i: nat)
    requires i % PGSIZE == 0 && i in t && IsValid(t[i])
    ensures ClearW(t, i + PGSIZE) == ClearW(t, i)[i := ReadOnly(t[i])]
  {
    SharedStep(t, i);
    MergeUpdate(t, Shared(t, i), i, ReadOnly(t[i]));
  }

  lemma {:induction false} SharedStep(t: PageMap, i: nat)
    requires i % PGSIZE == 0 && i in t && IsValid(t[i])
    ensures Shared(t, i + PGSIZE) == Shared(t, i)[i := ReadOnly(t[i])]
  {
    var a, b := Shared(t, i + PGSIZE), Shared(t, i)[i := ReadOnly(t[i])];
    forall va ensures va in a <==> va in b {
      GridStep(va, 0, i);
    }
    forall va | va in a ensures a[va] == b[va] {
      GridStep(va, 0, i);
    }
  }

  lemma {:induction false} RecordedStep(t: PageMap, i: nat, q: nat)
    requires i % PGSIZE == 0 && i in t && IsValid(t[i])
    ensures Recorded(t, i + PGSIZE, q) <==> Recorded(t, i, q) || (q == t[i].pa && q != 0)
  {
    forall va ensures OnGrid(va, 0, i + PGSIZE) <==> OnGrid(va, 0, i) || va == i {
      GridStep(va, 0, i);
    }
    if q == t[i].pa && q != 0 {
      assert OnGrid(i, 0, i + PGSIZE);
    }
  }

  /** Both tables as the closed forms give them for the walk over [0, end). */
  ghost predicate TablesAt(parent: PageMap, child: PageMap, end: nat, s: Pass) {
    s.parent == ClearW(parent, end) && s.child == child + Shared(parent, end)
  }

  /** No valid page of [0, end) is one whose mapping fails. */
  ghost predicate NoFailBelow(parent: PageMap, oom: set<nat>, end: nat) {
    forall va :: OnGrid(va, 0, end) && va in parent && IsValid(parent[va]) ==> va !in oom
  }

  /** The list records exactly what sh had plus the pages copied from [0,
      end), and stays packed; for group -1 it is untouched. */
  ghost predicate ListAt(parent: PageMap, sh: seq<nat>, record: bool, end: nat, l: seq<nat>) {
    (record && Packed(sh) ==>
       Packed(l) && forall q :: Listed(l, q) <==> Listed(sh, q) || Recorded(parent, end, q)) &&
    (!record ==> l == sh)
  }

  /** What the walk up to address top leaves: the closed forms over the
      pages before the failing one (all pages below top when none failed), and
      a failure only at a valid page the walk reached whose mapping fails. */
  ghost predicate PassMeaning(parent: PageMap, child: PageMap, sh: seq<nat>, record: bool,
                              oom: set<nat>, top: nat, s: Pass)
  {
    var end := if s.failedAt.Some? then s.failedAt.value else top;
    end % PGSIZE == 0 && end <= top &&
    TablesAt(parent, child, end, s) && NoFailBelow(parent, oom, end) &&
    (s.failedAt.Some? ==> end < top && end in parent && IsValid(parent[end]) && end in oom) &&
    ListAt(parent, sh, record, end, s.shmem)
  }

  lemma {:induction false} RunMeaning(parent: PageMap, child: PageMap, sh: seq<nat>, record: bool,
                                      oom: set<nat>, n: nat)
    requires Run(parent, child, sh, record, oom, n).Some?
    ensures PassMeaning(parent, child, sh, record, oom, n * PGSIZE, Run(parent, child, sh, record, oom, n).value)
  {
    if n == 0 {
      RunStart(parent, child, sh, record, oom);
    } else {
      RunUnfold(parent, child, sh, record, oom, n);
      RunMeaning(parent, child, sh, record, oom, n - 1);
      StepAt(parent, child, sh, record, oom, n, Run(parent, child, sh, record, oom, n - 1).value);
    }
  }

  /** StepMeaning at the n-th page. */
  lemma StepAt(parent: PageMap, child: PageMap, sh: seq<nat>, record: bool, oom: set<nat>, n: nat, s: Pass)
    requires n > 0 && PassMeaning(parent, child, sh, record, oom, (n - 1) * PGSIZE, s)
    requires StepPage(s, record, oom, (n - 1) * PGSIZE).Some?
    ensures PassMeaning(parent, child, sh, record, oom, n * PGSIZE, StepPage(s, record, oom, (n - 1) * PGSIZE).value)
  {
    PageArith(n);
    StepMeaning(parent, child, sh, record, oom, (n - 1) * PGSIZE, n * PGSIZE, s);
  }

  lemma PageArith(n: nat)
    requires n > 0
    ensures (n - 1) * PGSIZE + PGSIZE == n * PGSIZE && ((n - 1) * PGSIZE) % PGSIZE == 0
  {
  }

  lemma RunStart(parent: PageMap, child: PageMap, sh: seq<nat>, record: bool, oom: set<nat>)
    ensures PassMeaning(parent, child, sh, record, oom, 0, Pass(parent, child, sh, None))
  {
    assert ClearW(parent, 0) == parent;
    assert Shared(parent, 0) == map[];
  }

  lemma RunUnfold(parent: PageMap, child: PageMap, sh: seq<nat>, record: bool, oom: set<nat>, n: nat)
    requires n > 0 && Run(parent, child, sh, record, oom, n).Some?
    ensures Run(parent, child, sh, record, oom, n - 1).Some?
    ensures Run(parent, child, sh, record, oom, n) ==
            StepPage(Run(parent, child, sh, record, oom, n - 1).value, record, oom, (n - 1) * PGSIZE)
  {
  }

  /** One iteration keeps PassMeaning, one page further on. */
  lemma StepMeaning(parent: PageMap, child: PageMap, sh: seq<nat>, record: bool,
                    oom: set<nat>, i: nat, top: nat, s: Pass)
    requires i % PGSIZE == 0 && top == i + PGSIZE && PassMeaning(parent, child, sh, record, oom, i, s)
    requires StepPage(s, record, oom, i).Some?
    ensures PassMeaning(parent, child, sh, record, oom, top, StepPage(s, record, oom, i).value)
  {
    if s.failedAt.None? {
      assert s.parent[i] == parent[i];
      var e := parent[i];
      if !IsValid(e) {
        SkipStep(parent, i);
      } else if i !in oom {
        CopyMeaning(parent, child, sh, record, oom, i, s, CopyPage(s, record, i).value);
      }
    }
  }

  /** The iteration that copies a valid page. */
  lemma CopyMeaning(parent: PageMap, child: PageMap, sh: seq<nat>, record: bool,
                    oom: set<nat>, i: nat, s: Pass, s': Pass)
    requires i % PGSIZE == 0 && PassMeaning(parent, child, sh, record, oom, i, s) && s.failedAt.None?
    requires i in parent && IsValid(parent[i]) && i !in oom
    requires s'.parent == s.parent[i := ReadOnly(parent[i])]
    requires s'.child == MapPage(s.child, i, parent[i].pa, parent[i].flags & !PTE_W)
    requires record ==> CanAdd(s.shmem, parent[i].pa) && s'.shmem == ShmemAdd(s.shmem, parent[i].pa)
    requires !record ==> s'.shmem == s.shmem
    requires s'.failedAt.None?
    ensures PassMeaning(parent, child, sh, record, oom, i + PGSIZE, s')
  {
    CopyTables(parent, child, i, s, s');
    NoFailureStep(parent, oom, i);
    CopyList(parent, sh, record, i, s.shmem, s'.shmem);
  }

  /** A page whose mapping succeeded extends the failure-free region. */
  lemma NoFailureStep(parent: PageMap, oom: set<nat>, i: nat)
    requires i % PGSIZE == 0 && (i in parent && IsValid(parent[i]) ==> i !in oom)
    requires NoFailBelow(parent, oom, i)
    ensures NoFailBelow(parent, oom, i + PGSIZE)
  {
    forall va | OnGrid(va, 0, i + PGSIZE) && va in parent && IsValid(parent[va]) ensures va !in oom {
      GridStep(va, 0, i);
    }
  }

  /** Copying a valid page moves both closed forms one page on. */
  lemma CopyTables(parent: PageMap, child: PageMap, i: nat, s: Pass, s': Pass)
    requires i % PGSIZE == 0 && i in parent && IsValid(parent[i])
    requires TablesAt(parent, child, i, s)
    requires s'.parent == s.parent[i := ReadOnly(parent[i])]
    requires s'.child == MapPage(s.child, i, parent[i].pa, parent[i].flags & !PTE_W)
    ensures TablesAt(parent, child, i + PGSIZE, s')
  {
    ClearWStep(parent, i);
    ChildStep(parent, child, i);
  }

  lemma ChildStep(parent: PageMap, child: PageMap, i: nat)
    requires i % PGSIZE == 0 && i in parent && IsValid(parent[i])
    ensures MapPage(child + Shared(parent, i), i, parent[i].pa, parent[i].flags & !PTE_W)
         == child + Shared(parent, i + PGSIZE)
  {
    var e := parent[i];
    SharedStep(parent, i);
    ReadOnlyStaysValid(e.flags);
    MergeUpdate(child, Shared(parent, i), i, ReadOnly(e));
  }

  /** Clearing PTE_W keeps PTE_V, so mappages stores the flags unchanged. */
  lemma ReadOnlyStaysValid(f: bv10)
    requires f & PTE_V != 0
    ensures (f & !PTE_W) | PTE_V == f & !PTE_W
  {
  }

  lemma MergeUpdate(a: PageMap, b: PageMap, k: nat, v: Pte)
    ensures (a + b)[k := v] == a + b[k := v]
  {
  }

  /** Recording a copied page moves the list's meaning one page on. */
  lemma CopyList(parent: PageMap, sh: seq<nat>, record: bool, i: nat, l: seq<nat>, l': seq<nat>)
    requires i % PGSIZE == 0 && i in parent && IsValid(parent[i])
    requires ListAt(parent, sh, record, i, l)
    requires record ==> CanAdd(l, parent[i].pa) && l' == ShmemAdd(l, parent[i].pa)
    requires !record ==> l' == l
    ensures ListAt(parent, sh, record, i + PGSIZE, l')
  {
    if record && Packed(sh) {
      var pa := parent[i].pa;
      forall q ensures Listed(l', q) <==> Listed(sh, q) || Recorded(parent, i + PGSIZE, q) {
        AddThenListed(l, pa, q);
        RecordedStep(parent, i, q);
      }
      AddThenListed(l, pa, 0);
    }
  }

  /** The walk has no result for n pages only if it has none for more. */
  lemma {:induction false} RunPrefix(parent: PageMap, child: PageMap, sh: seq<nat>, record: bool,
                                     oom: set<nat>, n: nat, m: nat)
    requires n <= m && Run(parent, child, sh, record, oom, m).Some?
    ensures Run(parent, child, sh, record, oom, n).Some?
    decreases m - n
  {
    if n < m {
      RunPrefix(parent, child, sh, record, oom, n + 1, m);
    }
  }

  /** After a failure the walk changes nothing more. */
  lemma {:induction false} FailedStays(parent: PageMap, child: PageMap, sh: seq<nat>, record: bool,
                                       oom: set<nat>, n: nat, m: nat)
    requires n <= m && Run(parent, child, sh, record, oom, n).Some?
    requires Run(parent, child, sh, record, oom, n).value.failedAt.Some?
    ensures Run(parent, child, sh, record, oom, m) == Run(parent, child, sh, record, oom, n)
    decreases m - n
  {
    if n < m {
      FailedStays(parent, child, sh, record, oom, n, m - 1);
    }
  }

  /** The loop's last index is the first multiple of PGSIZE at or past sz. */
  lemma PagesGrid(sz: nat, va: nat)
    ensures OnGrid(va, 0, Pages(sz) * PGSIZE) <==> OnGrid(va, 0, sz)
  {
    GridExhausted(va, 0, Pages(sz) * PGSIZE, sz);
  }

  /** uvmcopy_cow returns 0 or -1. With 0, the parent keeps every page with
      PTE_W cleared on the valid ones below sz, the child gains exactly those
      pages read-only, and no valid page's mapping failed. With -1, the same
      holds below the first valid page whose mapping failed, and the child's
      pages below it are unmapped again. Either way, when recording, the
      group's list records exactly what it had plus every nonzero page copied
      and stays packed; when not recording, the list is left as it was. */
  lemma {:induction false} UvmCopyCowMeaning(parent: PageMap, child: PageMap, sh: seq<nat>, record: bool,
                                             oom: set<nat>, sz: nat)
    requires UvmCopyCow(parent, child, sh, record, oom, sz).Some?
    ensures var r := UvmCopyCow(parent, child, sh, record, oom, sz).value;
      (r.status == 0 || r.status == -1) &&
      (!record ==> r.shmem == sh) &&
      (r.status == 0 <==> forall va :: OnGrid(va, 0, sz) && va in parent && IsValid(parent[va]) ==> va !in oom) &&
      (r.status == 0 ==>
         r.parent == ClearW(parent, sz) && r.child == child + Shared(parent, sz) &&
         (record && Packed(sh) ==>
            Packed(r.shmem) &&
            forall q :: Listed(r.shmem, q) <==> Listed(sh, q) || Recorded(parent, sz, q))) &&
      (r.status == -1 ==> exists f ::
         OnGrid(f, 0, sz) && f in parent && IsValid(parent[f]) && f in oom &&
         (forall va :: OnGrid(va, 0, f) && va in parent && IsValid(parent[va]) ==> va !in oom) &&
         r.parent == ClearW(parent, f) &&
         r.child == Unmapped(child + Shared(parent, f), 0, f) &&
         (record && Packed(sh) ==>
            Packed(r.shmem) &&
            forall q :: Listed(r.shmem, q) <==> Listed(sh, q) || Recorded(parent, f, q)))
  {
    var n := Pages(sz);
    RunMeaning(parent, child, sh, record, oom, n);
    var s := Run(parent, child, sh, record, oom, n).value;
    forall va ensures OnGrid(va, 0, n * PGSIZE) <==> OnGrid(va, 0, sz) {
      PagesGrid(sz, va);
    }
    if s.failedAt.None? {
      assert ClearW(parent, n * PGSIZE) == ClearW(parent, sz);
      assert Shared(parent, n * PGSIZE) == Shared(parent, sz);
      forall q ensures Recorded(parent, n * PGSIZE, q) <==> Recorded(parent, sz, q) {
      }
    } else {
      var f := s.failedAt.value;
      assert OnGrid(f, 0, sz);
    }
  }

  // ------------------------------------------------------------- the loop

  /** The list of a group's slot; empty for group -1, which records nothing. */
  function GroupList(s: seq<CowGroup>, group: int): seq<nat> {
    match FindGroup(s, group)
    case Some(k) => s[k].shmem
    case None => []
  }

  /** The table with the group's list replaced by l (unchanged for group -1). */
  function WithList(s: seq<CowGroup>, group: int, l: seq<nat>): seq<CowGroup> {
    match FindGroup(s, group)
    case Some(k) => s[k := s[k].(shmem := l)]
    case None => s
  }

  /** Replacing a list moves no group. */
  lemma WithListKeeps(s: seq<CowGroup>, group: int, l: seq<nat>, g: int)
    ensures FindGroup(WithList(s, group, l), g) == FindGroup(s, g)
  {
    if g != NO_GROUP && FindGroup(s, group).Some? {
      FirstWithSameIds(s, WithList(s, group, l), g, 0);
    }
  }

}
