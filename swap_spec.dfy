/**
 * The bookkeeping of heap paging: the swap-area block tracker (one flag per
 * disk block, true when used) and the per-process heap tracker (one entry per
 * heap page). The functions say what eviction, retrieval and the heap path of
 * the page-fault handler do to both; module Pager runs them in place.
 *
 * The source's `loaded` flag is true while a page is on disk: eviction sets
 * it and retrieval clears it.
 */
module SwapSpec {
  import opened Wrappers

  const PGSIZE: bv64 := 4096

  /** One entry of p->heap_tracker. */
  datatype HeapPage = HeapPage(addr: bv64, lastLoadTime: bv64, loaded: bool, startblock: int)

  /** Blocks taken by one evicted page. */
  const PAGE_BLOCKS: nat := 4

  /** The state the paging code touches: the swap-area tracker, the heap
      tracker, the resident-page counter and the process size. */
  datatype Paging = Paging(psa: seq<bool>, heap: seq<HeapPage>, resident: int, sz: bv64)

  // ------------------------------------------------------------ free block

  /** The first free block in [from, limit), if any. */
  function FreeFrom(psa: seq<bool>, limit: int, from: nat): (r: Option<nat>)
    requires limit <= |psa|
    ensures r.Some? ==> from <= r.value < limit && !psa[r.value] &&
                        forall j :: from <= j < r.value ==> psa[j]
    ensures r.None? ==> forall j :: from <= j < limit ==> psa[j]
    decreases |psa| - from
  {
    if from as int >= limit then None
    else if !psa[from] then Some(from)
    else FreeFrom(psa, limit, from + 1)
  }

  /** The block eviction writes to: the first free one below limit
      (PSASIZE - PSASTART), or block 0 when none is free. */
  function FreeBlock(psa: seq<bool>, limit: int): nat
    requires limit <= |psa|
  {
    match FreeFrom(psa, limit, 0)
    case Some(b) => b
    case None => 0
  }

  /** psa with the blocks b .. b+3 set to v. */
  function MarkBlocks(psa: seq<bool>, b: nat, v: bool): (r: seq<bool>)
    requires b + PAGE_BLOCKS <= |psa|
    ensures |r| == |psa|
    ensures forall k :: 0 <= k < |psa| ==> r[k] == if b <= k < b + PAGE_BLOCKS then v else psa[k]
  {
    psa[..b] + [v, v, v, v] + psa[b + PAGE_BLOCKS..]
  }

  // ---------------------------------------------------------------- victim

  /** The load time of an entry, compared as the unsigned value it is. */
  function Age(e: HeapPage): nat {
    e.lastLoadTime as nat
  }

  /** The FIFO victim among the first n entries, as the scan leaves it: the
      entry in memory (loaded false) with the strictly smallest load time,
      the earliest one winning ties (VictimOldest). */
  function VictimUpTo(heap: seq<HeapPage>, n: nat): (v: Option<nat>)
    requires n <= |heap|
    ensures v.Some? ==> v.value < n && !heap[v.value].loaded
    ensures v.None? <==> forall j :: 0 <= j < n ==> heap[j].loaded
  {
    if n == 0 then None
    else
      var v := VictimUpTo(heap, n - 1);
      if !heap[n - 1].loaded && (v.None? || Age(heap[n - 1]) < Age(heap[v.value]))
      then Some(n - 1)
      else v
  }

  /** The victim is the oldest page in memory, and every page in memory
      before it is strictly younger. */
  lemma {:induction false} VictimOldest(heap: seq<HeapPage>, n: nat)
    requires n <= |heap| && VictimUpTo(heap, n).Some?
    ensures var v := VictimUpTo(heap, n).value;
            (forall j :: 0 <= j < n && !heap[j].loaded ==>
               Age(heap[v]) <= Age(heap[j])) &&
            (forall j :: 0 <= j < v && !heap[j].loaded ==> Age(heap[v]) < Age(heap[j]))
  {
    var w := VictimUpTo(heap, n - 1);
    if w.Some? {
      VictimOldest(heap, n - 1);
    }
  }

  function Victim(heap: seq<HeapPage>): Option<nat> {
    VictimUpTo(heap, |heap|)
  }

  // ------------------------------------------------------------- eviction

  /** What evict_page_to_disk needs: a victim exists (the source indexes
      with -1 otherwise) and the four blocks fit in the tracker. */
  predicate CanEvict(s: Paging, limit: int) {
    limit <= |s.psa| && Victim(s.heap).Some? && FreeBlock(s.psa, limit) + PAGE_BLOCKS <= |s.psa|
  }

  /** evict_page_to_disk: blocks b .. b+3 become used, and the victim is
      marked as on disk at b. */
  function Evict(s: Paging, limit: int): Paging
    requires CanEvict(s, limit)
  {
    var b := FreeBlock(s.psa, limit);
    var v := Victim(s.heap).value;
    s.(psa := MarkBlocks(s.psa, b, true),
       heap := s.heap[v := s.heap[v].(loaded := true, startblock := b)])
  }

  // ------------------------------------------------------------ retrieval

  /** Is entry k the page at uvaddr that is on disk? */
  predicate OnDisk(e: HeapPage, uvaddr: bv64) {
    e.addr == uvaddr && e.loaded
  }

  /** The last entry below n that holds uvaddr on disk: the scan keeps
      overwriting blockno, so the last match decides. */
  function LastOnDisk(heap: seq<HeapPage>, uvaddr: bv64, n: nat): (r: Option<nat>)
    requires n <= |heap|
    ensures r.Some? ==> r.value < n && OnDisk(heap[r.value], uvaddr) &&
                        forall j :: r.value < j < n ==> !OnDisk(heap[j], uvaddr)
    ensures r.None? ==> forall j :: 0 <= j < n ==> !OnDisk(heap[j], uvaddr)
  {
    if n == 0 then None
    else if OnDisk(heap[n - 1], uvaddr) then Some(n - 1)
    else LastOnDisk(heap, uvaddr, n - 1)
  }

  /** The block retrieval reads from, or -1 when uvaddr is not on disk. */
  function RetrieveBlock(heap: seq<HeapPage>, uvaddr: bv64): int {
    match LastOnDisk(heap, uvaddr, |heap|)
    case Some(k) => heap[k].startblock
    case None => -1
  }

  /** The heap tracker with every entry holding uvaddr on disk marked back in
      memory. */
  function Reload(heap: seq<HeapPage>, uvaddr: bv64): (r: seq<HeapPage>)
    ensures |r| == |heap|
  {
    seq(|heap|, k requires 0 <= k < |heap| =>
      if OnDisk(heap[k], uvaddr) then heap[k].(loaded := false) else heap[k])
  }

  /** What retrieve_page_from_disk needs: the block it frees lies inside the
      tracker. */
  predicate CanRetrieve(s: Paging, uvaddr: bv64) {
    var b := RetrieveBlock(s.heap, uvaddr);
    b == -1 || (0 <= b && b + PAGE_BLOCKS <= |s.psa|)
  }

  /** retrieve_page_from_disk: the page's entries come back to memory and its
      four blocks are freed. */
  function Retrieve(s: Paging, uvaddr: bv64): Paging
    requires CanRetrieve(s, uvaddr)
  {
    var b := RetrieveBlock(s.heap, uvaddr);
    var heap := Reload(s.heap, uvaddr);
    if b == -1 then s.(heap := heap)
    else s.(heap := heap, psa := MarkBlocks(s.psa, b as nat, false))
  }

  // ---------------------------------------------------------- heap faults

  /** The page of a faulting address: `stval & ~(PGSIZE-1)`. */
  function PageOf(stval: bv64): bv64 {
    stval & !(PGSIZE - 1)
  }

  /** The first heap entry for a page, which sends the fault down the heap
      path. */
  function HeapIndex(heap: seq<HeapPage>, page: bv64, from: nat): (r: Option<nat>)
    requires from <= |heap|
    ensures r.Some? ==> from <= r.value < |heap| && heap[r.value].addr == page &&
                        forall j :: from <= j < r.value ==> heap[j].addr != page
    ensures r.None? ==> forall j :: from <= j < |heap| ==> heap[j].addr != page
    decreases |heap| - from
  {
    if from == |heap| then None
    else if heap[from].addr == page then Some(from)
    else HeapIndex(heap, page, from + 1)
  }

  /** Every entry for the page gets the load time now. */
  function Stamp(heap: seq<HeapPage>, page: bv64, now: bv64): (r: seq<HeapPage>)
    ensures |r| == |heap|
  {
    seq(|heap|, k requires 0 <= k < |heap| =>
      if heap[k].addr == page then heap[k].(lastLoadTime := now) else heap[k])
  }

  /** The state after the eviction step of the heap path: when the resident
      count has reached maxRes, evict one page and count it out. */
  function MakeRoom(s: Paging, limit: int, maxRes: int): Paging
    requires s.resident == maxRes ==> CanEvict(s, limit)
  {
    if s.resident == maxRes then
      var s1 := Evict(s, limit);
      s1.(resident := s1.resident - 1)
    else s
  }

  /** What the heap path needs of its state, at the entry k it matched. */
  predicate HeapFaultAllowed(s: Paging, page: bv64, k: nat, limit: int, maxRes: int) {
    k < |s.heap| && (s.resident == maxRes ==> CanEvict(s, limit)) &&
    (s.resident == maxRes ==> |Evict(s, limit).heap| == |s.heap|) &&
    var s1 := MakeRoom(s, limit, maxRes);
    k < |s1.heap| && (s1.heap[k].loaded ==> CanRetrieve(s1, page))
  }

  /** The heap path of page_fault_handler for the page at entry k: make room,
      bring the page back from disk or grow the process by a page (grown is
      what uvmalloc returned), stamp the page's entries, count it in. */
  function HeapFault(s: Paging, page: bv64, k: nat, now: bv64, limit: int, maxRes: int, grown: bv64)
    : Paging
    requires HeapFaultAllowed(s, page, k, limit, maxRes)
  {
    CountIn(BringIn(MakeRoom(s, limit, maxRes), page, k, grown), page, now)
  }

  /** The page comes back from disk if it is there; otherwise the process
      grows to grown. */
  function BringIn(s: Paging, page: bv64, k: nat, grown: bv64): Paging
    requires k < |s.heap| && (s.heap[k].loaded ==> CanRetrieve(s, page))
  {
    if s.heap[k].loaded then Retrieve(s, page) else s.(sz := grown)
  }

  /** The page's entries get the load time now and it is counted resident. */
  function CountIn(s: Paging, page: bv64, now: bv64): Paging {
    s.(heap := Stamp(s.heap, page, now), resident := s.resident + 1)
  }

  // ---------------------------------------------------------------- lemmas

  /** The page of a fault is page-aligned and holds the faulting address. */
  lemma PageOfAligned(stval: bv64)
    ensures PageOf(stval) & (PGSIZE - 1) == 0
    ensures PageOf(stval) <= stval && stval - PageOf(stval) < PGSIZE
  {
  }

  /** Retrieval of a page that is not on disk changes nothing. */
  lemma RetrieveMissed(s: Paging, uvaddr: bv64)
    requires forall j :: 0 <= j < |s.heap| ==> !OnDisk(s.heap[j], uvaddr)
    ensures CanRetrieve(s, uvaddr) && Retrieve(s, uvaddr) == s
  {
    assert Reload(s.heap, uvaddr) == s.heap;
  }

  /** Evicting a page and then retrieving it restores both trackers: the
      blocks it took are free again and it is back in memory. Only its
      startblock keeps the trace of the trip. This needs the four blocks to
      have been free and no other entry to hold the same page on disk. */
  lemma EvictThenRetrieve(s: Paging, limit: int)
    requires CanEvict(s, limit)
    requires var b := FreeBlock(s.psa, limit);
             forall k :: b <= k < b + PAGE_BLOCKS ==> !s.psa[k]
    requires var v := Victim(s.heap).value;
             forall j :: 0 <= j < |s.heap| ==> !OnDisk(s.heap[j], s.heap[v].addr)
    ensures var v := Victim(s.heap).value;
            var e := Evict(s, limit);
            CanRetrieve(e, s.heap[v].addr) &&
            Retrieve(e, s.heap[v].addr) ==
              s.(heap := s.heap[v := s.heap[v].(startblock := FreeBlock(s.psa, limit))])
  {
    var v := Victim(s.heap).value;
    var b := FreeBlock(s.psa, limit);
    var a := s.heap[v].addr;
    var e := Evict(s, limit);
    assert OnDisk(e.heap[v], a);
    assert forall j :: 0 <= j < |e.heap| && j != v ==> !OnDisk(e.heap[j], a);
    assert LastOnDisk(e.heap, a, |e.heap|) == Some(v);
    assert RetrieveBlock(e.heap, a) == b;
    var r := Retrieve(e, a);
    assert r.psa == s.psa;
    assert r.heap == s.heap[v := s.heap[v].(startblock := b)];
  }

  /** The heap path never lets the resident count pass maxRes: it evicts
      first when the count is at the limit. */
  lemma HeapFaultBounded(s: Paging, page: bv64, k: nat, now: bv64, limit: int, maxRes: int, grown: bv64)
    requires HeapFaultAllowed(s, page, k, limit, maxRes)
    requires s.resident <= maxRes
    ensures HeapFault(s, page, k, now, limit, maxRes, grown).resident <= maxRes
    ensures s.resident < maxRes ==> HeapFault(s, page, k, now, limit, maxRes, grown).resident == s.resident + 1
  {
  }

  /** The entries of a and b hold the same pages with the same load times. */
  predicate SameTimes(a: seq<HeapPage>, b: seq<HeapPage>) {
    |a| == |b| &&
    forall j :: 0 <= j < |a| ==> a[j].addr == b[j].addr && a[j].lastLoadTime == b[j].lastLoadTime
  }

  /** Neither making room nor retrieval touches addresses or load times. */
  lemma MoveKeepsTimes(s: Paging, page: bv64, k: nat, limit: int, maxRes: int, grown: bv64)
    requires HeapFaultAllowed(s, page, k, limit, maxRes)
    ensures SameTimes(s.heap, BringIn(MakeRoom(s, limit, maxRes), page, k, grown).heap)
  {
    var s1 := MakeRoom(s, limit, maxRes);
    assert SameTimes(s.heap, s1.heap);
    if s1.heap[k].loaded {
      assert Retrieve(s1, page).heap == Reload(s1.heap, page);
    }
  }

  /** After the heap path, every entry for the page carries the load time
      now and the others keep theirs. */
  lemma HeapFaultStamps(s: Paging, page: bv64, k: nat, now: bv64, limit: int, maxRes: int, grown: bv64, j: nat)
    requires HeapFaultAllowed(s, page, k, limit, maxRes)
    requires j < |s.heap|
    ensures var r := HeapFault(s, page, k, now, limit, maxRes, grown);
            j < |r.heap| &&
            (s.heap[j].addr == page ==> r.heap[j].lastLoadTime == now) &&
            (s.heap[j].addr != page ==> r.heap[j].lastLoadTime == s.heap[j].lastLoadTime)
  {
    MoveKeepsTimes(s, page, k, limit, maxRes, grown);
  }
}
