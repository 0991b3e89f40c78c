/**
 * The copy-on-write group table: one slot per possible group, each holding
 * the group id, the list of physical pages the group shares and the number
 * of processes in it. The functions give the meaning of each table
 * operation on the slot sequence; class CowTable runs them in place on the
 * kernel's global array.
 *
 * A shared-page list is a fixed array of SHMEM_MAX addresses read up to its
 * first 0 entry: the pages before that entry are the group's shared pages.
 */
module CowGroups {
  import opened Wrappers

  /** Process-table size of xv6 (param.h), which bounds the number of groups. */
  const NPROC: nat := 64
  const SHMEM_MAX: nat := 100

  /** The group id that means "not in a copy-on-write group". */
  const NO_GROUP: int := -1

  datatype CowGroup = CowGroup(group: int, shmem: seq<nat>, count: int)

  function Zeros(): (z: seq<nat>)
    ensures |z| == SHMEM_MAX && forall j :: 0 <= j < SHMEM_MAX ==> z[j] == 0
  {
    seq(SHMEM_MAX, _ => 0)
  }

  /** A slot as cow_init leaves it. */
  function EmptySlot(): CowGroup {
    CowGroup(NO_GROUP, Zeros(), 0)
  }

  /** A table of the declared size whose lists have the declared length. */
  predicate Sized(s: seq<CowGroup>) {
    |s| == NPROC && forall i :: 0 <= i < |s| ==> |s[i].shmem| == SHMEM_MAX
  }

  // ---------------------------------------------------------------- lookup

  /** The first slot, from `from` on, whose group id is g. */
  function FirstWith(s: seq<CowGroup>, g: int, from: nat): (r: Option<nat>)
    requires from <= |s|
    ensures r.Some? ==> from <= r.value < |s| && s[r.value].group == g &&
                        forall j :: from <= j < r.value ==> s[j].group != g
    ensures r.None? ==> forall j :: from <= j < |s| ==> s[j].group != g
    decreases |s| - from
  {
    if from == |s| then None
    else if s[from].group == g then Some(from)
    else FirstWith(s, g, from + 1)
  }

  /** get_cow_group: no group for -1, otherwise the first slot with that id. */
  function FindGroup(s: seq<CowGroup>, g: int): (r: Option<nat>)
    ensures g == NO_GROUP ==> r.None?
    ensures r.Some? ==> r.value < |s| && s[r.value].group == g &&
                        forall j :: 0 <= j < r.value ==> s[j].group != g
    ensures r.None? && g != NO_GROUP ==> forall j :: 0 <= j < |s| ==> s[j].group != g
  {
    if g == NO_GROUP then None else FirstWith(s, g, 0)
  }

  /** cow_group_init: the first slot whose id is 0 takes groupno. */
  function Claim(s: seq<CowGroup>, groupno: int): seq<CowGroup> {
    match FirstWith(s, 0, 0)
    case None => s
    case Some(k) => s[k := s[k].(group := groupno)]
  }

  /** cow_group_init as evidently intended: the first slot whose id is -1,
      the id cow_init gives every free slot, takes groupno. */
  function ClaimFree(s: seq<CowGroup>, groupno: int): seq<CowGroup> {
    match FirstWith(s, NO_GROUP, 0)
    case None => s
    case Some(k) => s[k := s[k].(group := groupno)]
  }

  /** incr_cow_group_count (d = 1) and decr_cow_group_count (d = -1). */
  function Bump(s: seq<CowGroup>, g: int, d: int): seq<CowGroup>
    requires FindGroup(s, g).Some?
  {
    var k := FindGroup(s, g).value;
    s[k := s[k].(count := s[k].count + d)]
  }

  // ------------------------------------------------------ shared-page lists

  /** The index of the first 0 entry of sh at or after from, or |sh|. */
  function ZeroFrom(sh: seq<nat>, from: nat): (n: nat)
    requires from <= |sh|
    ensures from <= n <= |sh|
    ensures forall j :: from <= j < n ==> sh[j] != 0
    ensures n < |sh| ==> sh[n] == 0
    decreases |sh| - from
  {
    if from == |sh| || sh[from] == 0 then from else ZeroFrom(sh, from + 1)
  }

  /** The length of the used part of a list. */
  function FirstZero(sh: seq<nat>): (n: nat)
    ensures n <= |sh|
    ensures forall j :: 0 <= j < n ==> sh[j] != 0
    ensures n < |sh| ==> sh[n] == 0
  {
    ZeroFrom(sh, 0)
  }

  /** The pages a list records: those before its first 0 entry. */
  predicate Listed(sh: seq<nat>, pa: nat) {
    pa in sh[..FirstZero(sh)]
  }

  /** The shape add_shmem keeps: distinct pages, then nothing but zeros. */
  ghost predicate Packed(sh: seq<nat>) {
    (forall j :: FirstZero(sh) <= j < |sh| ==> sh[j] == 0) &&
    (forall i, j :: 0 <= i < j < FirstZero(sh) ==> sh[i] != sh[j])
  }

  /** add_shmem stays inside the list: it finds pa or a 0 entry before the end. */
  predicate CanAdd(sh: seq<nat>, pa: nat) {
    FirstZero(sh) < |sh| || Listed(sh, pa)
  }

  /** add_shmem on one list: a page already recorded, or the address 0, leaves
      it as it is; any other page goes into the first 0 entry. */
  function ShmemAdd(sh: seq<nat>, pa: nat): (r: seq<nat>)
    requires CanAdd(sh, pa)
    ensures |r| == |sh|
  {
    if Listed(sh, pa) || pa == 0 then sh else sh[FirstZero(sh) := pa]
  }

  // ------------------------------------------------------------------ lemmas

  /** After cow_init every id is -1, so cow_group_init finds no slot with id
      0 and changes nothing, and no group can be found. */
  lemma InitClaimsNothing(s: seq<CowGroup>, groupno: int, g: int)
    requires forall i :: 0 <= i < |s| ==> s[i] == EmptySlot()
    ensures Claim(s, groupno) == s
    ensures FindGroup(s, g).None?
  {
  }

  /** A successful claim for an id no slot held makes that id found, in the
      claimed slot; every other slot keeps its id. */
  lemma ClaimThenFind(s: seq<CowGroup>, groupno: int)
    requires groupno != NO_GROUP && groupno != 0
    requires FindGroup(s, groupno).None? && FirstWith(s, 0, 0).Some?
    ensures FindGroup(Claim(s, groupno), groupno) == FirstWith(s, 0, 0)
    ensures |Claim(s, groupno)| == |s|
    ensures forall j :: 0 <= j < |s| && Some(j) != FirstWith(s, 0, 0) ==>
              Claim(s, groupno)[j] == s[j]
  {
    var k := FirstWith(s, 0, 0).value;
    var s' := Claim(s, groupno);
    assert s'[k].group == groupno;
    assert forall j :: 0 <= j < k ==> s'[j].group != groupno;
  }

  /** The corrected claim, for an id no slot holds and a table with a free
      slot, makes that id found in the first free slot and changes no other
      slot; in particular, right after cow_init it takes slot 0. */
  lemma ClaimFreeThenFind(s: seq<CowGroup>, groupno: int)
    requires groupno != NO_GROUP
    requires FindGroup(s, groupno).None? && FirstWith(s, NO_GROUP, 0).Some?
    ensures FindGroup(ClaimFree(s, groupno), groupno) == FirstWith(s, NO_GROUP, 0)
    ensures |ClaimFree(s, groupno)| == |s|
    ensures forall j :: 0 <= j < |s| && Some(j) != FirstWith(s, NO_GROUP, 0) ==>
              ClaimFree(s, groupno)[j] == s[j]
    ensures (forall i :: 0 <= i < |s| ==> s[i] == EmptySlot()) ==>
              FirstWith(s, NO_GROUP, 0) == Some(0)
  {
    var k := FirstWith(s, NO_GROUP, 0).value;
    var s' := ClaimFree(s, groupno);
    assert s'[k].group == groupno;
    assert forall j :: 0 <= j < k ==> s'[j].group != groupno;
  }

  /** A count change touches the matched group's count only: every lookup
      is as before, and a decrement undoes an increment. */
  lemma BumpKeepsGroups(s: seq<CowGroup>, g: int, d: int, g': int)
    requires FindGroup(s, g).Some?
    ensures |Bump(s, g, d)| == |s|
    ensures FindGroup(Bump(s, g, d), g') == FindGroup(s, g')
    ensures Bump(s, g, d)[FindGroup(s, g).value].count == s[FindGroup(s, g).value].count + d
    ensures forall j :: 0 <= j < |s| ==>
              Bump(s, g, d)[j].group == s[j].group && Bump(s, g, d)[j].shmem == s[j].shmem
    ensures FindGroup(Bump(s, g, d), g).Some? && Bump(Bump(s, g, d), g, -d) == s
  {
    var s' := Bump(s, g, d);
    assert forall j :: 0 <= j < |s| ==> s'[j].group == s[j].group;
    if g' != NO_GROUP {
      FirstWithSameIds(s, s', g', 0);
    }
    FirstWithSameIds(s, s', g, 0);
  }

  lemma {:induction false} FirstWithSameIds(s: seq<CowGroup>, s': seq<CowGroup>, g: int, from: nat)
    requires |s| == |s'| && from <= |s|
    requires forall j :: 0 <= j < |s| ==> s'[j].group == s[j].group
    ensures FirstWith(s', g, from) == FirstWith(s, g, from)
    decreases |s| - from
  {
    if from < |s| && s[from].group != g {
      FirstWithSameIds(s, s', g, from + 1);
    }
  }

  /** A scan that met no 0 before n and a 0 (or the end) at n has found the
      first 0 entry. */
  lemma ScanFirstZero(sh: seq<nat>, n: nat)
    requires n <= |sh|
    requires forall j :: 0 <= j < n ==> sh[j] != 0
    requires n < |sh| ==> sh[n] == 0
    ensures FirstZero(sh) == n
  {
  }

  /** After add_shmem(pa) with pa not 0, is_shmem(pa) holds; the list keeps
      every page it had, gains no other page, and keeps its packed shape. */
  lemma AddThenListed(sh: seq<nat>, pa: nat, q: nat)
    requires Packed(sh) && CanAdd(sh, pa)
    ensures Packed(ShmemAdd(sh, pa))
    ensures Listed(ShmemAdd(sh, pa), q) <==> Listed(sh, q) || (q == pa && pa != 0)
  {
    if !(Listed(sh, pa) || pa == 0) {
      var n := FirstZero(sh);
      var r := sh[n := pa];
      assert n < |sh|;
      var m := if n + 1 < |sh| then n + 1 else |sh|;
      ScanFirstZero(r, m);
      assert r[..m] == sh[..n] + [pa];
    }
  }

  /** A list of zeros records nothing and is packed. */
  lemma ZerosPacked(q: nat)
    ensures Packed(Zeros()) && !Listed(Zeros(), q)
  {
    ScanFirstZero(Zeros(), 0);
  }

  /** The global array cow_group[NPROC]. */
  class CowTable {
    var slots: array<CowGroup>

    ghost predicate Valid()
      reads this, slots
    {
      Sized(slots[..])
    }

    /** The array as a static kernel global starts: every field 0. */
    constructor()
      ensures Valid() && fresh(slots)
      ensures forall i :: 0 <= i < NPROC ==> slots[i] == CowGroup(0, Zeros(), 0)
    {
      slots := new CowGroup[NPROC](_ => CowGroup(0, Zeros(), 0));
    }

    /** cow_init: count 0, id -1 and an all-zero list in every slot. */
    method CowInit()
      requires Valid()
      modifies slots
      ensures Valid()
      ensures forall i :: 0 <= i < NPROC ==> slots[i] == EmptySlot()
    {
      var i := 0;
      while i < NPROC
        invariant i <= NPROC && Valid()
        invariant forall k :: 0 <= k < i ==> slots[k] == EmptySlot()
      {
        slots[i] := slots[i].(count := 0, group := NO_GROUP);
        var j := 0;
        while j < SHMEM_MAX
          invariant j <= SHMEM_MAX && Valid()
          invariant slots[i].count == 0 && slots[i].group == NO_GROUP
          invariant forall k :: 0 <= k < i ==> slots[k] == EmptySlot()
          invariant forall k :: 0 <= k < j ==> slots[i].shmem[k] == 0
        {
          slots[i] := slots[i].(shmem := slots[i].shmem[j := 0]);
          j := j + 1;
        }
        assert slots[i].shmem == Zeros();
        i := i + 1;
      }
    }

    /** get_cow_group: the index of the group's slot, or none for -1 and for
        an id no slot holds. */
    method GetCowGroup(group: int) returns (r: Option<nat>)
      requires Valid()
      ensures r == FindGroup(slots[..], group)
    {
      if group == NO_GROUP {
        return None;
      }
      var i := 0;
      while i < NPROC
        invariant i <= NPROC
        invariant FirstWith(slots[..], group, 0) == FirstWith(slots[..], group, i)
      {
        if slots[i].group == group {
          return Some(i);
        }
        i := i + 1;
      }
      return None;
    }

    /** cow_group_init. */
    method CowGroupInit(groupno: int)
      requires Valid()
      modifies slots
      ensures Valid() && slots[..] == Claim(old(slots[..]), groupno)
    {
      var i := 0;
      while i < NPROC
        invariant i <= NPROC
        invariant FirstWith(slots[..], 0, 0) == FirstWith(slots[..], 0, i)
      {
        if slots[i].group == 0 {
          slots[i] := slots[i].(group := groupno);
          return;
        }
        i := i + 1;
      }
    }

    /** get_cow_group_count: the group must exist, as the source dereferences
        the lookup unchecked. */
    method GetCowGroupCount(group: int) returns (c: int)
      requires Valid() && FindGroup(slots[..], group).Some?
      ensures c == slots[FindGroup(slots[..], group).value].count
    {
      var g := GetCowGroup(group);
      c := slots[g.value].count;
    }

    method IncrCowGroupCount(group: int)
      requires Valid() && FindGroup(slots[..], group).Some?
      modifies slots
      ensures Valid() && slots[..] == Bump(old(slots[..]), group, 1)
    {
      var g := GetCowGroup(group);
      var c := GetCowGroupCount(group);
      slots[g.value] := slots[g.value].(count := c + 1);
    }

    method DecrCowGroupCount(group: int)
      requires Valid() && FindGroup(slots[..], group).Some?
      modifies slots
      ensures Valid() && slots[..] == Bump(old(slots[..]), group, -1)
    {
      var g := GetCowGroup(group);
      var c := GetCowGroupCount(group);
      slots[g.value] := slots[g.value].(count := c - 1);
    }

    /** What add_shmem demands: the group exists (the source dereferences the
        lookup) and the scan stops inside the list. */
    ghost predicate AddAllowed(group: int, pa: nat)
      reads this, slots
    {
      group == NO_GROUP ||
      (FindGroup(slots[..], group).Some? &&
       CanAdd(slots[FindGroup(slots[..], group).value].shmem, pa))
    }

    /** add_shmem: record pa in the group's list, unless the group is -1. */
    method AddShmem(group: int, pa: nat)
      requires Valid() && AddAllowed(group, pa)
      modifies slots
      ensures Valid()
      ensures group == NO_GROUP ==> slots[..] == old(slots[..])
      ensures group != NO_GROUP ==>
        var k := FindGroup(old(slots[..]), group).value;
        slots[..] == old(slots[..])[k := old(slots[k]).(shmem := ShmemAdd(old(slots[k].shmem), pa))]
    {
      if group == NO_GROUP {
        return;
      }
      var g := GetCowGroup(group);
      var sh := slots[g.value].shmem;
      var index := 0;
      while index < SHMEM_MAX
        invariant index <= SHMEM_MAX
        invariant forall j :: 0 <= j < index ==> sh[j] != pa && sh[j] != 0
      {
        if sh[index] == pa {
          assert Listed(sh, pa) || pa == 0 by {
            if pa != 0 {
              assert index < FirstZero(sh);
              assert sh[..FirstZero(sh)][index] == pa;
            }
          }
          return;
        }
        if sh[index] == 0 {
          break;
        }
        index := index + 1;
      }
      assert index < SHMEM_MAX && FirstZero(sh) == index && !Listed(sh, pa) by {
        ScanFirstZero(sh, index);
      }
      slots[g.value] := slots[g.value].(shmem := sh[index := pa]);
    }

    /** is_shmem: 1 when the group's list records pa, else 0; always 0 for
        group -1. */
    method IsShmem(group: int, pa: nat) returns (r: int)
      requires Valid() && (group == NO_GROUP || FindGroup(slots[..], group).Some?)
      ensures r == 0 || r == 1
      ensures r == 1 <==> group != NO_GROUP && Listed(slots[FindGroup(slots[..], group).value].shmem, pa)
    {
      if group == NO_GROUP {
        return 0;
      }
      var g := GetCowGroup(group);
      var sh := slots[g.value].shmem;
      var i := 0;
      while i < SHMEM_MAX
        invariant i <= SHMEM_MAX
        invariant forall j :: 0 <= j < i ==> sh[j] != pa && sh[j] != 0
      {
        if sh[i] == 0 {
          ScanFirstZero(sh, i);
          return 0;
        }
        if sh[i] == pa {
          assert sh[..FirstZero(sh)][i] == pa;
          return 1;
        }
        i := i + 1;
      }
      ScanFirstZero(sh, i);
      return 0;
    }
  }
}
