/**
 * uvmcopy_cow as the kernel runs it: the loop over the parent's pages, with
 * the caller's group list updated in place in the global group table.
 */
module CowFork {
  import opened Wrappers
  import opened PageTable
  import opened CowGroups
  import opened CowCopy

  /** add_shmem(p->cow_group, pa) seen through WithList: the caller's list
      gains pa, and nothing else in the table changes. */
  method RecordPage(tbl: CowTable, group: int, pa: nat, ghost s0: seq<CowGroup>, ghost sh: seq<nat>)
    requires tbl.Valid() && tbl.slots[..] == WithList(s0, group, sh)
    requires group == NO_GROUP || FindGroup(s0, group).Some?
    requires group != NO_GROUP ==> CanAdd(sh, pa)
    modifies tbl.slots
    ensures tbl.Valid()
    ensures tbl.slots[..] == WithList(s0, group, if group != NO_GROUP then ShmemAdd(sh, pa) else sh)
  {
    WithListKeeps(s0, group, sh, group);
    tbl.AddShmem(group, pa);
  }

  /** uvmcopy_cow on the group table: the walk over the parent's pages below
      sz, recording copied pages in the list of the caller's group (p->cow_group,
      here group). The tables are values: the parent's and the child's table
      after the call are returned. */
  method UvmCopyCowIn(tbl: CowTable, parent: PageMap, child: PageMap, sz: nat, group: int,
                      oom: set<nat>)
    returns (r: int, parent': PageMap, child': PageMap)
    requires tbl.Valid() && (group == NO_GROUP || FindGroup(tbl.slots[..], group).Some?)
    requires UvmCopyCow(parent, child, GroupList(tbl.slots[..], group), group != NO_GROUP, oom, sz).Some?
    modifies tbl.slots
    ensures tbl.Valid()
    ensures var o := UvmCopyCow(parent, child, GroupList(old(tbl.slots[..]), group), group != NO_GROUP, oom, sz).value;
      r == o.status && parent' == o.parent && child' == o.child &&
      tbl.slots[..] == WithList(old(tbl.slots[..]), group, o.shmem)
  {
    ghost var s0 := tbl.slots[..];
    ghost var sh0 := GroupList(s0, group);
    ghost var record := group != NO_GROUP;
    ghost var n: nat := 0;
    ghost var sh := sh0;
    assert WithList(s0, group, sh0) == s0;
    parent', child' := parent, child;
    var i: nat := 0;
    while i < sz
      invariant i == n * PGSIZE && (i == 0 || i < sz + PGSIZE)
      invariant Run(parent, child, sh0, record, oom, n) == Some(Pass(parent', child', sh, None))
      invariant tbl.Valid() && tbl.slots[..] == WithList(s0, group, sh)
      decreases sz - i
    {
      assert n + 1 <= Pages(sz);
      RunPrefix(parent, child, sh0, record, oom, n + 1, Pages(sz));
      var failed;
      failed, parent', child', sh := VisitPage(tbl, group, oom, i, parent', child', s0, sh);
      if failed {
        FailedStays(parent, child, sh0, record, oom, n + 1, Pages(sz));
        child' := Unmapped(child', 0, i);
        r := -1;
        return;
      }
      i, n := i + PGSIZE, n + 1;
    }
    assert n == Pages(sz);
    r := 0;
  }

  /** One iteration of the loop, at page i: skip an invalid page, stop at a
      failed mapping, otherwise share the page read-only and record it. */
  method VisitPage(tbl: CowTable, group: int, oom: set<nat>, i: nat, p: PageMap, c: PageMap,
                   ghost s0: seq<CowGroup>, ghost sh: seq<nat>)
    returns (failed: bool, p': PageMap, c': PageMap, ghost sh': seq<nat>)
    requires tbl.Valid() && tbl.slots[..] == WithList(s0, group, sh)
    requires group == NO_GROUP || FindGroup(s0, group).Some?
    requires StepPage(Pass(p, c, sh, None), group != NO_GROUP, oom, i).Some?
    modifies tbl.slots
    ensures StepPage(Pass(p, c, sh, None), group != NO_GROUP, oom, i)
         == Some(Pass(p', c', sh', if failed then Some(i) else None))
    ensures tbl.Valid() && tbl.slots[..] == WithList(s0, group, sh')
  {
    p', c', sh' := p, c, sh;
    var e := p[i];
    if e.flags & PTE_V == 0 {
      return false, p', c', sh';
    }
    if i in oom {
      return true, p', c', sh';
    }
    var flags := e.flags & !PTE_W;
    c' := MapPage(c, i, e.pa, flags);
    p' := p[i := ReadOnly(e)];
    RecordPage(tbl, group, e.pa, s0, sh);
    sh' := if group != NO_GROUP then ShmemAdd(sh, e.pa) else sh;
    failed := false;
  }
}
