/**
 * Heap paging in place: the swap-area tracker psa_tracker and a process's
 * heap tracker, resident-page counter and size, updated by the scans of
 * init_psa_regions, evict_page_to_disk, retrieve_page_from_disk and the heap
 * path of page_fault_handler. Each method is proved against the function of
 * module SwapSpec that says what it does.
 */
module Pager {
  import opened Wrappers
  import opened SwapSpec

  /** psa_tracker: one flag per swap-area block, PSASIZE of them. */
  class SwapArea {
    var blocks: array<bool>
    /** PSASTART: the scan for a free block stops PSASTART short of the end. */
    const start: nat

    constructor (size: nat, start: nat)
      ensures blocks.Length == size && this.start == start && fresh(blocks)
    {
      blocks := new bool[size];
      this.start := start;
    }

    /** PSASIZE - PSASTART, the bound of the free-block scan. */
    function Limit(): int
      reads this, blocks
    {
      blocks.Length - start
    }
  }

  /** The paging fields of a process. */
  class HeapProc {
    var heap: array<HeapPage>
    var resident: int
    var sz: bv64

    constructor (heap: array<HeapPage>)
      ensures this.heap == heap && resident == 0 && sz == 0
    {
      this.heap := heap;
      resident := 0;
      sz := 0;
    }
  }

  /** The paging state both trackers spell out. */
  function StateOf(sw: SwapArea, p: HeapProc): Paging
    reads sw, sw.blocks, p, p.heap
  {
    Paging(sw.blocks[..], p.heap[..], p.resident, p.sz)
  }

  /** init_psa_regions: every block free. */
  method InitPsaRegions(sw: SwapArea)
    modifies sw.blocks
    ensures forall k :: 0 <= k < sw.blocks.Length ==> !sw.blocks[k]
  {
    var i := 0;
    while i < sw.blocks.Length
      invariant 0 <= i <= sw.blocks.Length
      invariant forall k :: 0 <= k < i ==> !sw.blocks[k]
    {
      sw.blocks[i] := false;
      i := i + 1;
    }
  }

  /** The free-block scan of evict_page_to_disk. */
  method FindFreeBlock(sw: SwapArea) returns (blockno: nat)
    ensures blockno == FreeBlock(sw.blocks[..], sw.Limit())
  {
    blockno := 0;
    var i := 0;
    while i < sw.Limit()
      invariant 0 <= i && (i <= sw.Limit() || i == 0)
      invariant FreeFrom(sw.blocks[..], sw.Limit(), 0) == FreeFrom(sw.blocks[..], sw.Limit(), i)
    {
      if !sw.blocks[i] {
        blockno := i;
        return;
      }
      i := i + 1;
    }
  }

  /** The FIFO scan of evict_page_to_disk: victim stays -1 when every page
      is on disk. */
  method FindVictim(p: HeapProc) returns (victim: int)
    ensures victim == match Victim(p.heap[..]) case Some(v) => v as int case None => -1
  {
    victim := -1;
    var i := 0;
    while i < p.heap.Length
      invariant 0 <= i <= p.heap.Length
      invariant victim == match VictimUpTo(p.heap[..], i) case Some(v) => v as int case None => -1
    {
      if !p.heap[i].loaded && (victim == -1 || Age(p.heap[i]) < Age(p.heap[victim])) {
        victim := i;
      }
      i := i + 1;
    }
  }

  /** Sets blocks b .. b+3 to v, one at a time. */
  method SetBlocks(sw: SwapArea, b: nat, v: bool)
    requires b + PAGE_BLOCKS <= sw.blocks.Length
    modifies sw.blocks
    ensures sw.blocks[..] == MarkBlocks(old(sw.blocks[..]), b, v)
  {
    var i := b;
    while i < b + PAGE_BLOCKS
      invariant b <= i <= b + PAGE_BLOCKS
      invariant forall k :: 0 <= k < sw.blocks.Length ==>
                  sw.blocks[k] == if b <= k < i then v else old(sw.blocks[k])
    {
      sw.blocks[i] := v;
      i := i + 1;
    }
  }

  /** evict_page_to_disk, its bookkeeping: the victim's blocks become used
      and the victim is marked as on disk. */
  method EvictPageToDisk(sw: SwapArea, p: HeapProc)
    requires CanEvict(StateOf(sw, p), sw.Limit())
    modifies sw.blocks, p.heap
    ensures StateOf(sw, p) == Evict(old(StateOf(sw, p)), sw.Limit())
  {
    var blockno := FindFreeBlock(sw);
    var victim := FindVictim(p);
    SetBlocks(sw, blockno, true);
    p.heap[victim] := p.heap[victim].(loaded := true, startblock := blockno);
  }

  /** The scan of retrieve_page_from_disk: every entry holding uvaddr on disk
      comes back to memory, and the last one names the block. */
  method ReloadEntries(p: HeapProc, uvaddr: bv64) returns (blockno: int)
    modifies p.heap
    ensures blockno == RetrieveBlock(old(p.heap[..]), uvaddr)
    ensures p.heap[..] == Reload(old(p.heap[..]), uvaddr)
  {
    ghost var h0 := p.heap[..];
    ghost var h1 := Reload(h0, uvaddr);
    blockno := -1;
    var i := 0;
    while i < p.heap.Length
      invariant 0 <= i <= p.heap.Length
      invariant blockno == match LastOnDisk(h0, uvaddr, i) case Some(k) => h0[k].startblock case None => -1
      invariant forall k :: 0 <= k < p.heap.Length ==> p.heap[k] == if k < i then h1[k] else h0[k]
    {
      if p.heap[i].addr == uvaddr && p.heap[i].loaded {
        blockno := p.heap[i].startblock;
        p.heap[i] := p.heap[i].(loaded := false);
      }
      i := i + 1;
    }
  }

  /** retrieve_page_from_disk, its bookkeeping. */
  method RetrievePageFromDisk(sw: SwapArea, p: HeapProc, uvaddr: bv64)
    requires CanRetrieve(StateOf(sw, p), uvaddr)
    modifies sw.blocks, p.heap
    ensures StateOf(sw, p) == Retrieve(old(StateOf(sw, p)), uvaddr)
  {
    var blockno := ReloadEntries(p, uvaddr);
    if blockno == -1 {
      return;
    }
    SetBlocks(sw, blockno as nat, false);
  }

  /** The first scan of page_fault_handler: the heap entry for the page. */
  method FindHeapIndex(p: HeapProc, page: bv64) returns (index: int)
    ensures index == match HeapIndex(p.heap[..], page, 0) case Some(k) => k as int case None => -1
  {
    index := 0;
    while index < p.heap.Length
      invariant 0 <= index <= p.heap.Length
      invariant HeapIndex(p.heap[..], page, 0) == HeapIndex(p.heap[..], page, index)
    {
      if p.heap[index].addr == page {
        return;
      }
      index := index + 1;
    }
    index := -1;
  }

  /** Stamps every entry of the page with the load time now. */
  method StampEntries(p: HeapProc, page: bv64, now: bv64)
    modifies p.heap
    ensures p.heap[..] == Stamp(old(p.heap[..]), page, now)
  {
    ghost var h0 := p.heap[..];
    ghost var h1 := Stamp(h0, page, now);
    var i := 0;
    while i < p.heap.Length
      invariant 0 <= i <= p.heap.Length
      invariant forall k :: 0 <= k < p.heap.Length ==> p.heap[k] == if k < i then h1[k] else h0[k]
    {
      if p.heap[i].addr == page {
        p.heap[i] := p.heap[i].(lastLoadTime := now);
      }
      i := i + 1;
    }
  }

  /** The eviction step of the heap path: at the resident limit, evict one
      page and count it out. */
  method MakeRoomIn(sw: SwapArea, p: HeapProc, maxRes: int)
    requires p.resident == maxRes ==> CanEvict(StateOf(sw, p), sw.Limit())
    modifies sw.blocks, p.heap, p
    ensures StateOf(sw, p) == MakeRoom(old(StateOf(sw, p)), sw.Limit(), maxRes)
    ensures p.heap == old(p.heap)
  {
    if p.resident == maxRes {
      EvictPageToDisk(sw, p);
      p.resident := p.resident - 1;
    }
  }

  /** The heap path of page_fault_handler, from the matching entry k on. */
  method HeapHandle(sw: SwapArea, p: HeapProc, page: bv64, k: nat, now: bv64, maxRes: int, grown: bv64)
    requires HeapFaultAllowed(StateOf(sw, p), page, k, sw.Limit(), maxRes)
    modifies sw.blocks, p.heap, p
    ensures StateOf(sw, p) == HeapFault(old(StateOf(sw, p)), page, k, now, sw.Limit(), maxRes, grown)
  {
    MakeRoomIn(sw, p, maxRes);
    BringPageIn(sw, p, page, k, grown);
    StampEntries(p, page, now);
    p.resident := p.resident + 1;
  }

  /** The middle of the heap path: bring the page back from disk, or grow
      the process by the page. */
  method BringPageIn(sw: SwapArea, p: HeapProc, page: bv64, k: nat, grown: bv64)
    requires k < p.heap.Length && (p.heap[k].loaded ==> CanRetrieve(StateOf(sw, p), page))
    modifies sw.blocks, p.heap, p
    ensures p.heap == old(p.heap)
    ensures StateOf(sw, p) == BringIn(old(StateOf(sw, p)), page, k, grown)
  {
    if p.heap[k].loaded {
      RetrievePageFromDisk(sw, p, page);
    } else {
      p.sz := grown;
    }
  }

  /** The paging part of page_fault_handler for a fault at stval. The heap
      path is taken when a heap entry holds the page; now stands for the
      clock and grown for what uvmalloc returns. The other paths (program
      segments, copy-on-write) leave the paging state alone. */
  method PageFaultHandler(sw: SwapArea, p: HeapProc, stval: bv64, now: bv64, maxRes: int, grown: bv64)
    returns (heapPath: bool)
    requires var k := HeapIndex(p.heap[..], PageOf(stval), 0);
             k.Some? ==> HeapFaultAllowed(StateOf(sw, p), PageOf(stval), k.value, sw.Limit(), maxRes)
    modifies sw.blocks, p.heap, p
    ensures var k := HeapIndex(old(p.heap[..]), PageOf(stval), 0);
            heapPath == k.Some? &&
            StateOf(sw, p) == if k.Some?
              then HeapFault(old(StateOf(sw, p)), PageOf(stval), k.value, now, sw.Limit(), maxRes, grown)
              else old(StateOf(sw, p))
  {
    var page := PageOf(stval);
    var index := FindHeapIndex(p, page);
    if index == -1 {
      return false;
    }
    HeapHandle(sw, p, page, index as nat, now, maxRes, grown);
    return true;
  }
}
