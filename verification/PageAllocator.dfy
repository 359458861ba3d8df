/**
 `PageAllocator`: memory taken from the kernel in runs of pages, handed out from the start of a run and
 then from what is left of its last page.
 */
module PageAllocators {
  import opened OrderedKeys
  import opened Words

  /** The size of a `PageHeader`: a pointer and a number. */
  const HEADER_SIZE := 16

  /** Pages one after the other, starting with a header. */
  datatype Run = Run(address: Address, numPages: nat)

  /** Memory handed out. */
  datatype Block = Block(address: Address, size: nat)

  // ----- sizes

  /** The number of pages for a block and a header, in the arithmetic of 64-bit words. */
  function PagesFor(bytes: Address, pageSize: nat): nat
    requires pageSize > HEADER_SIZE
  {
    (bytes + HEADER_SIZE + pageSize - 1) % ADDRESS_SPACE / pageSize
  }

  predicate Fits(bytes: Address, pageSize: nat) { bytes + HEADER_SIZE + pageSize - 1 < ADDRESS_SPACE }

  /** What is used of the last page; zero if all of it is. */
  function OffsetAfter(bytes: Address, pageSize: nat, pages: nat): nat
    requires pageSize > HEADER_SIZE && 0 <= pageSize * pages - (bytes + HEADER_SIZE) < pageSize
  {
    (pageSize - (pageSize * pages - (bytes + HEADER_SIZE))) % pageSize
  }

  lemma {:induction false} RoundUp(n: nat, d: nat)
    requires d > 0
    ensures var q := (n + d - 1) / d; 0 <= d * q - n < d
  {
    var q := (n + d - 1) / d;
    assert n + d - 1 == d * q + (n + d - 1) % d;
  }

  lemma {:induction false} TimesNothing(d: nat, q: nat)
    ensures q == 0 ==> d * q == 0
  {
  }

  /** The pages are enough for the block, and no page is too much, iff the sum does not overflow. */
  lemma {:induction false} PagesAreEnough(bytes: Address, pageSize: nat)
    requires HEADER_SIZE < pageSize < ADDRESS_SPACE - HEADER_SIZE
    ensures Fits(bytes, pageSize) <==> pageSize * PagesFor(bytes, pageSize) >= bytes + HEADER_SIZE
    ensures Fits(bytes, pageSize) ==>
      PagesFor(bytes, pageSize) > 0 && pageSize * PagesFor(bytes, pageSize) - (bytes + HEADER_SIZE) < pageSize
  {
    var sum := bytes + HEADER_SIZE + pageSize - 1;
    if Fits(bytes, pageSize) {
      RoundUp(bytes + HEADER_SIZE, pageSize);
      TimesNothing(pageSize, PagesFor(bytes, pageSize));
    } else {
      var wrapped := sum - ADDRESS_SPACE;
      assert sum % ADDRESS_SPACE == wrapped;
      assert wrapped == pageSize * (wrapped / pageSize) + wrapped % pageSize;
    }
  }

  lemma {:induction false} OnePageLess(d: nat, q: nat)
    requires q > 0
    ensures d * (q - 1) == d * q - d
  {
  }

  lemma {:induction false} Remainder(slack: nat, d: nat)
    requires slack < d
    ensures (d - slack) % d == if slack == 0 then 0 else d - slack
  {
  }

  /** The used part of the last page ends where the block ends. */
  lemma {:induction false} OffsetIsEnd(bytes: Address, pageSize: nat, pages: nat)
    requires pageSize > HEADER_SIZE && pages > 0 && 0 <= pageSize * pages - (bytes + HEADER_SIZE) < pageSize
    ensures OffsetAfter(bytes, pageSize, pages) < pageSize
    ensures OffsetAfter(bytes, pageSize, pages) != 0 ==>
              pageSize * (pages - 1) + OffsetAfter(bytes, pageSize, pages) == bytes + HEADER_SIZE
    ensures OffsetAfter(bytes, pageSize, pages) == 0 <==> pageSize * pages == bytes + HEADER_SIZE
  {
    var slack := pageSize * pages - (bytes + HEADER_SIZE);
    assert OffsetAfter(bytes, pageSize, pages) == (pageSize - slack) % pageSize;
    hide OffsetAfter;
    OnePageLess(pageSize, pages);
    Remainder(slack, pageSize);
  }

  // ----- what the allocator guarantees

  function Length(r: Run, pageSize: nat): nat { pageSize * r.numPages }

  /** Two stretches of addresses have none in common. */
  predicate Apart(a: Address, n: nat, b: Address, m: nat) { a + n <= b || b + m <= a }

  predicate IsMapped(r: Run, pageSize: nat) {
    r.address > 0 && r.numPages > 0 && r.address + Length(r, pageSize) <= ADDRESS_SPACE
  }

  predicate RunsAreApart(runs: seq<Run>, pageSize: nat) {
    && (forall r <- runs :: IsMapped(r, pageSize))
    && (forall i, j :: 0 <= i < j < |runs| ==>
         Apart(runs[i].address, Length(runs[i], pageSize), runs[j].address, Length(runs[j], pageSize)))
  }

  /** The block lies in the run, behind its header. */
  predicate IsIn(b: Block, r: Run, pageSize: nat) {
    b.size > 0 && r.address + HEADER_SIZE <= b.address && b.address + b.size <= r.address + Length(r, pageSize)
  }

  predicate BlocksAreApart(blocks: seq<Block>) {
    forall i, j :: 0 <= i < j < |blocks| ==> Apart(blocks[i].address, blocks[i].size, blocks[j].address, blocks[j].size)
  }

  /** Every block lies in a run behind its header, and no two blocks overlap. */
  ghost predicate IsSound(runs: seq<Run>, blocks: seq<Block>, pageSize: nat) {
    && RunsAreApart(runs, pageSize)
    && (forall b <- blocks :: exists r <- runs :: IsIn(b, r, pageSize))
    && BlocksAreApart(blocks)
  }

  /** What is free, from an address to the end of a run, touches no block and no header. */
  predicate IsFree(runs: seq<Run>, blocks: seq<Block>, pageSize: nat, free: int) {
    && runs != [] && runs[0].address + HEADER_SIZE <= free < runs[0].address + Length(runs[0], pageSize)
    && forall b <- blocks :: IsIn(b, runs[0], pageSize) ==> b.address + b.size <= free
  }

  function TotalPages(runs: seq<Run>): nat {
    if runs == [] then 0 else runs[0].numPages + TotalPages(runs[1..])
  }

  /** Some run holds the address. */
  ghost predicate Owned(runs: seq<Run>, pageSize: nat, p: Address) {
    exists r <- runs :: r.address <= p < r.address + Length(r, pageSize)
  }

  lemma {:induction false} RunAt(runs: seq<Run>, pageSize: nat, i: nat, j: nat)
    requires RunsAreApart(runs, pageSize)
    ensures i < |runs| && j < |runs| && i != j ==>
      Apart(runs[i].address, Length(runs[i], pageSize), runs[j].address, Length(runs[j], pageSize))
  {
    hide Length;
  }

  /** A block from the free part of the newest run overlaps no other. */
  lemma {:induction false} TakeFree(runs: seq<Run>, blocks: seq<Block>, pageSize: nat, free: int, b: Block)
    requires IsSound(runs, blocks, pageSize) && IsFree(runs, blocks, pageSize, free)
    requires b.address == free && b.size > 0 && free + b.size <= runs[0].address + Length(runs[0], pageSize)
    ensures IsSound(runs, blocks + [b], pageSize)
    ensures forall x <- blocks + [b] :: IsIn(x, runs[0], pageSize) ==> x.address + x.size <= free + b.size
  {
    hide Length, IsMapped;
    var more := blocks + [b];
    assert IsIn(b, runs[0], pageSize);
    forall x | x in blocks ensures Apart(x.address, x.size, b.address, b.size) {
      var r :| r in runs && IsIn(x, r, pageSize);
      var i: nat :| i < |runs| && runs[i] == r;
      RunAt(runs, pageSize, i, 0);
    }
    forall x | x in more ensures exists r <- runs :: IsIn(x, r, pageSize) {
      if x == b {
        assert runs[0] in runs;
      }
    }
    forall i, j | 0 <= i < j < |more| ensures Apart(more[i].address, more[i].size, more[j].address, more[j].size) {
      assert more[i] in blocks;
      assert j < |blocks| ==> more[j] == blocks[j];
    }
  }

  /** A run of its own for a block. */
  lemma {:induction false} TakeRun(runs: seq<Run>, blocks: seq<Block>, pageSize: nat, r: Run, b: Block)
    requires IsSound(runs, blocks, pageSize) && IsMapped(r, pageSize)
    requires forall x <- runs :: Apart(x.address, Length(x, pageSize), r.address, Length(r, pageSize))
    requires b.address == r.address + HEADER_SIZE && IsIn(b, r, pageSize)
    ensures IsSound([r] + runs, blocks + [b], pageSize)
    ensures forall x <- blocks + [b] :: IsIn(x, r, pageSize) ==> x == b || x.size == 0
  {
    hide Length, IsMapped;
    var moreRuns, more := [r] + runs, blocks + [b];
    forall x | x in blocks ensures !IsIn(x, r, pageSize) && Apart(x.address, x.size, b.address, b.size) {
      var s :| s in runs && IsIn(x, s, pageSize);
      assert Apart(s.address, Length(s, pageSize), r.address, Length(r, pageSize));
    }
    forall x | x in more ensures exists s <- moreRuns :: IsIn(x, s, pageSize) {
      if x == b {
        assert r in moreRuns;
      } else {
        var s :| s in runs && IsIn(x, s, pageSize);
        assert s in moreRuns;
      }
    }
    forall i, j | 0 <= i < j < |more| ensures Apart(more[i].address, more[i].size, more[j].address, more[j].size) {
      assert more[i] in blocks;
      assert j < |blocks| ==> more[j] == blocks[j];
    }
    forall i, j | 0 <= i < j < |moreRuns|
      ensures Apart(moreRuns[i].address, Length(moreRuns[i], pageSize),
                    moreRuns[j].address, Length(moreRuns[j], pageSize))
    {
      assert moreRuns[j] in runs;
      RunAt(runs, pageSize, if i > 0 then i - 1 else 0, j - 1);
    }
  }

  lemma {:induction false} HeaderIsMapped(r: Run, pageSize: nat)
    requires pageSize > HEADER_SIZE && IsMapped(r, pageSize)
    ensures Length(r, pageSize) >= pageSize
  {
    assert pageSize * r.numPages >= pageSize;
  }

  /** Blocks are owned at each of their addresses, never touch a header, and never each other. */
  lemma {:induction false} BlocksAreUsable(runs: seq<Run>, blocks: seq<Block>, pageSize: nat, i: nat, p: Address)
    requires pageSize > HEADER_SIZE && IsSound(runs, blocks, pageSize)
    requires i < |blocks| && blocks[i].address <= p < blocks[i].address + blocks[i].size
    ensures Owned(runs, pageSize, p)
    ensures forall r <- runs :: !(r.address <= p < r.address + HEADER_SIZE)
    ensures forall j: nat :: j < |blocks| && j != i ==> !(blocks[j].address <= p < blocks[j].address + blocks[j].size)
  {
    hide Length, IsMapped;
    var b := blocks[i];
    assert b in blocks;
    var r :| r in runs && IsIn(b, r, pageSize);
    var k: nat :| k < |runs| && runs[k] == r;
    forall s | s in runs ensures !(s.address <= p < s.address + HEADER_SIZE) {
      var m: nat :| m < |runs| && runs[m] == s;
      RunAt(runs, pageSize, k, m);
      HeaderIsMapped(s, pageSize);
    }
  }

  lemma {:induction false} FreeIsMapped(runs: seq<Run>, blocks: seq<Block>, pageSize: nat, free: int)
    requires IsSound(runs, blocks, pageSize) && IsFree(runs, blocks, pageSize, free)
    ensures 0 < free < ADDRESS_SPACE
  {
    hide Length;
    assert IsMapped(runs[0], pageSize);
  }

  /** Where the last page of a run begins. */
  function LastPage(r: Run, pageSize: nat): int { r.address + pageSize * (r.numPages - 1) }

  /** What a new run holds: its header, the block behind it, and then what is free of its last page. */
  lemma {:induction false} NewRun(bytes: Address, pageSize: nat, r: Run)
    requires HEADER_SIZE < pageSize < ADDRESS_SPACE - HEADER_SIZE && bytes > 0 && Fits(bytes, pageSize)
    requires r.numPages == PagesFor(bytes, pageSize) && IsMapped(r, pageSize)
    ensures 0 <= pageSize * r.numPages - (bytes + HEADER_SIZE) < pageSize
    ensures r.address + HEADER_SIZE < ADDRESS_SPACE && IsIn(Block(r.address + HEADER_SIZE, bytes), r, pageSize)
    ensures 0 < LastPage(r, pageSize) < ADDRESS_SPACE
        && LastPage(r, pageSize) + pageSize == r.address + Length(r, pageSize)
    ensures var offset := OffsetAfter(bytes, pageSize, r.numPages);
      && offset < pageSize && (offset != 0 ==> LastPage(r, pageSize) + offset == r.address + HEADER_SIZE + bytes)
      && (offset == 0 <==> r.address + HEADER_SIZE + bytes == r.address + Length(r, pageSize))
  {
    hide PagesFor, OffsetAfter;
    PagesAreEnough(bytes, pageSize);
    OffsetIsEnd(bytes, pageSize, r.numPages);
    assert pageSize * (r.numPages - 1) + pageSize == pageSize * r.numPages;
    assert pageSize * (r.numPages - 1) >= 0;
  }

  lemma {:induction false} MorePages(runs: seq<Run>, granted: Option<Address>, pages: nat)
    ensures granted.Some? ==> TotalPages([Run(granted.value, pages)] + runs) == pages + TotalPages(runs)
    ensures [] + runs == runs
  {
    if granted.Some? {
      assert ([Run(granted.value, pages)] + runs)[1..] == runs;
    }
  }

  /** Behind the only block of a new run the run is free. */
  lemma {:induction false} FreeBehind(runs: seq<Run>, blocks: seq<Block>, pageSize: nat, r: Run, b: Block)
    requires forall x <- blocks :: IsIn(x, r, pageSize) ==> x == b || x.size == 0
    requires IsIn(b, r, pageSize)
    ensures b.address + b.size < r.address + Length(r, pageSize) ==>
              IsFree([r] + runs, blocks, pageSize, b.address + b.size)
  {
    hide Length;
  }

  // ----- how requests are served

  /** The newest block ends here. */
  function NewestEnd(blocks: seq<Block>): int
    requires blocks != []
  {
    blocks[|blocks| - 1].address + blocks[|blocks| - 1].size
  }

  /** What is left between the end of the newest block and the end of the newest run. */
  function Room(runs: seq<Run>, blocks: seq<Block>, pageSize: nat): int {
    if runs == [] || blocks == [] then 0 else runs[0].address + Length(runs[0], pageSize) - NewestEnd(blocks)
  }

  lemma {:induction false} RoomIs(runs: seq<Run>, blocks: seq<Block>, pageSize: nat)
    requires runs != [] && blocks != []
    ensures Room(runs, blocks, pageSize) == runs[0].address + Length(runs[0], pageSize) - NewestEnd(blocks)
  {
  }

  lemma {:induction false} RoomOfNewRun(runs: seq<Run>, blocks: seq<Block>, pageSize: nat, r: Run, b: Block)
    ensures Room([r] + runs, blocks + [b], pageSize) == r.address + Length(r, pageSize) - (b.address + b.size)
    ensures NewestEnd(blocks + [b]) == b.address + b.size
  {
    hide Length;
  }

  lemma {:induction false} RoomOfNewBlock(runs: seq<Run>, blocks: seq<Block>, pageSize: nat, b: Block)
    requires runs != [] && blocks != [] && b.address == NewestEnd(blocks)
    ensures Room(runs, blocks + [b], pageSize) == Room(runs, blocks, pageSize) - b.size
    ensures NewestEnd(blocks + [b]) == b.address + b.size
  {
    hide Length;
  }

  /** The runs and blocks of an allocator. */
  datatype Heap = Heap(runs: seq<Run>, blocks: seq<Block>)

  /** A request, and what the kernel gives for it if it is asked. */
  datatype Request = Request(bytes: Address, granted: Option<Address>)

  predicate NeedsRun(h: Heap, q: Request, pageSize: nat) { q.bytes > Room(h.runs, h.blocks, pageSize) }

  /**
   A request that fits behind the newest block in the newest run is put there, without asking the
   kernel; any other gets a run of its own if the kernel grants one, and nothing otherwise.
   */
  ghost predicate IsServed(before: Heap, q: Request, ret: Address, after: Heap, pageSize: nat)
    requires pageSize > HEADER_SIZE
  {
    if q.bytes == 0 then ret == 0 && after == before
    else if !NeedsRun(before, q, pageSize) then
      && before.blocks != [] && ret == NewestEnd(before.blocks)
      && after == Heap(before.runs, before.blocks + [Block(ret, q.bytes)])
    else if q.granted.None? then ret == 0 && after == before
    else
      && ret == q.granted.value + HEADER_SIZE
      && after == Heap([Run(q.granted.value, PagesFor(q.bytes, pageSize))] + before.runs,
                       before.blocks + [Block(ret, q.bytes)])
  }

  /** One request after the other, with what is returned each time. */
  ghost predicate AreServed(heaps: seq<Heap>, requests: seq<Request>, rets: seq<Address>, pageSize: nat)
    requires pageSize > HEADER_SIZE
  {
    && |heaps| == |requests| + 1 && |rets| == |requests|
    && forall i :: 0 <= i < |requests| ==> IsServed(heaps[i], requests[i], rets[i], heaps[i + 1], pageSize)
  }

  /** The pages that requests take when at first there is some room: those that do not fit take whole pages. */
  function PagesTaken(requests: seq<Request>, room: int, pageSize: nat): nat
    requires pageSize > HEADER_SIZE
    decreases |requests|
  {
    if requests == [] then 0
    else
      var q := requests[0];
      if q.bytes <= room then PagesTaken(requests[1..], room - q.bytes, pageSize)
      else if q.granted.None? then PagesTaken(requests[1..], room, pageSize)
      else
        var pages := PagesFor(q.bytes, pageSize);
        pages + PagesTaken(requests[1..], pageSize * pages - HEADER_SIZE - q.bytes, pageSize)
  }

  lemma {:induction false} ServedOnce(before: Heap, q: Request, ret: Address, after: Heap, pageSize: nat)
    requires pageSize > HEADER_SIZE && IsServed(before, q, ret, after, pageSize)
    requires Room(before.runs, before.blocks, pageSize) >= 0
    ensures var room, room' := Room(before.runs, before.blocks, pageSize), Room(after.runs, after.blocks, pageSize);
      var added := TotalPages(after.runs) - TotalPages(before.runs);
      if q.bytes <= room then added == 0 && room' == room - q.bytes
      else if q.granted.None? then added == 0 && room' == room
      else
        var pages := PagesFor(q.bytes, pageSize);
        added == pages && room' == pageSize * pages - HEADER_SIZE - q.bytes
  {
    hide PagesFor;
  }

  /** Over any series of requests the pages taken are those of just the requests that did not fit. */
  lemma {:induction false} PagesAreReused(heaps: seq<Heap>, requests: seq<Request>, rets: seq<Address>, pageSize: nat)
    requires HEADER_SIZE < pageSize < ADDRESS_SPACE - HEADER_SIZE && AreServed(heaps, requests, rets, pageSize)
    requires forall q <- requests :: Fits(q.bytes, pageSize)
    requires Room(heaps[0].runs, heaps[0].blocks, pageSize) >= 0
    ensures TotalPages(heaps[|requests|].runs) == TotalPages(heaps[0].runs)
      + PagesTaken(requests, Room(heaps[0].runs, heaps[0].blocks, pageSize), pageSize)
    decreases |requests|
  {
    hide TotalPages, Room, PagesFor, IsServed;
    if requests != [] {
      var q := requests[0];
      ServedOnce(heaps[0], q, rets[0], heaps[1], pageSize);
      assert q in requests && Fits(q.bytes, pageSize);
      PagesAreEnough(q.bytes, pageSize);
      PagesAreReused(heaps[1..], requests[1..], rets[1..], pageSize);
    }
  }

  function TotalBytes(requests: seq<Request>): nat {
    if requests == [] then 0 else requests[0].bytes + TotalBytes(requests[1..])
  }

  /** Requests that fit together take no page, and from an empty allocator those that fit into a page take one. */
  lemma {:induction false} SmallRequestsShareAPage(requests: seq<Request>, room: nat, pageSize: nat)
    requires HEADER_SIZE < pageSize < ADDRESS_SPACE - HEADER_SIZE
    ensures TotalBytes(requests) <= room ==> PagesTaken(requests, room, pageSize) == 0
    ensures 0 < TotalBytes(requests) <= pageSize - HEADER_SIZE
            && (forall q <- requests :: q.granted.Some? && Fits(q.bytes, pageSize)) ==>
              PagesTaken(requests, 0, pageSize) == 1
    decreases |requests|
  {
    if requests != [] {
      var q := requests[0];
      SmallRequestsShareAPage(requests[1..], if q.bytes <= room then room - q.bytes else room, pageSize);
      if 0 < q.bytes <= pageSize - HEADER_SIZE && Fits(q.bytes, pageSize) {
        OnePage(q.bytes, pageSize);
        SmallRequestsShareAPage(requests[1..], pageSize - HEADER_SIZE - q.bytes, pageSize);
      }
    }
  }

  lemma {:induction false} TimesAtLeast(d: nat, p: nat, q: nat)
    requires p >= q
    ensures d * p >= d * q
  {
    assert d * p == d * (p - q) + d * q;
  }

  lemma {:induction false} OnePage(bytes: Address, pageSize: nat)
    requires HEADER_SIZE < pageSize < ADDRESS_SPACE - HEADER_SIZE && 0 < bytes <= pageSize - HEADER_SIZE
    requires Fits(bytes, pageSize)
    ensures PagesFor(bytes, pageSize) == 1
  {
    PagesAreEnough(bytes, pageSize);
    hide PagesFor;
    var pages := PagesFor(bytes, pageSize);
    if pages >= 2 {
      TimesAtLeast(pageSize, pages, 2);
    }
  }

  // ----- the program

  /** The header at the start of each run. */
  class PageHeader {
    const address: Address
    const next: PageHeader?
    const numPages: nat

    constructor (address: Address, next: PageHeader?, numPages: nat)
      ensures this.address == address && this.next == next && this.numPages == numPages
    {
      this.address, this.next, this.numPages := address, next, numPages;
    }
  }

  /** The headers from last on are those of the runs. */
  ghost predicate AreLinked(last: PageHeader?, headers: seq<PageHeader>, runs: seq<Run>) {
    && |headers| == |runs|
    && last == (if headers == [] then null else headers[0])
    && (forall i :: 0 <= i < |headers| ==>
          headers[i].address == runs[i].address && headers[i].numPages == runs[i].numPages)
    && (forall i {:trigger headers[i]} :: 0 <= i < |headers| - 1 ==> headers[i].next == headers[i + 1])
    && (headers != [] ==> headers[|headers| - 1].next == null)
  }

  lemma {:induction false} LinkMore(header: PageHeader, last: PageHeader?, headers: seq<PageHeader>, runs: seq<Run>)
    requires AreLinked(last, headers, runs) && header.next == last
    ensures AreLinked(header, [header] + headers, [Run(header.address, header.numPages)] + runs)
  {
    var more := [header] + headers;
    forall i | 0 <= i < |more| - 1 ensures more[i].next == more[i + 1] {
      if i > 0 {
        assert more[i] == headers[i - 1] && more[i + 1] == headers[i];
      }
    }
  }

  class PageAllocator {
    const pageSize: nat
    var last: PageHeader?
    var currentPage: Option<Address>
    var pageOffset: nat
    var pagesAllocated: nat
    ghost var headers: seq<PageHeader>
    ghost var runs: seq<Run>
    ghost var blocks: seq<Block>

    ghost predicate Valid()
      reads this
    {
      && HEADER_SIZE < pageSize < ADDRESS_SPACE - HEADER_SIZE
      && AreLinked(last, headers, runs) && IsSound(runs, blocks, pageSize)
      && pagesAllocated == TotalPages(runs)
      && (currentPage.Some? ==>
           && runs != [] && currentPage.value + pageSize == runs[0].address + Length(runs[0], pageSize)
           && 0 < pageOffset < pageSize
           && IsFree(runs, blocks, pageSize, currentPage.value + pageOffset))
      // what is left behind the newest block is the rest of the current page
      && Room(runs, blocks, pageSize) >= 0 && (runs == [] <==> blocks == [])
      && (currentPage.Some? <==> Room(runs, blocks, pageSize) > 0)
      && (currentPage.Some? ==> currentPage.value + pageOffset == NewestEnd(blocks))
    }

    ghost function Contents(): Heap
      reads this
    {
      Heap(runs, blocks)
    }

    constructor (pageSize: nat)
      requires HEADER_SIZE < pageSize < ADDRESS_SPACE - HEADER_SIZE
      ensures Valid() && runs == [] && blocks == [] && pagesAllocated == 0
    {
      this.pageSize := pageSize;
      last, currentPage, pageOffset, pagesAllocated := null, None, 0, 0;
      headers, runs, blocks := [], [], [];
    }

    /** What the kernel may give for a request: nothing, or pages that are not mapped yet. */
    ghost predicate IsGrant(a: Option<Address>, numPages: nat)
      reads this
    {
      a.Some? ==>
        && IsMapped(Run(a.value, numPages), pageSize)
        && forall x <- runs :: Apart(x.address, Length(x, pageSize), a.value, Length(Run(a.value, numPages), pageSize))
    }

    /**
     Hand out memory; zero stands for the null pointer.  The result of `mmap`, if it is needed, is
     `granted`.
     */
    method Alloc(bytes: Address, granted: Option<Address>) returns (ret: Address)
      requires Valid() && Fits(bytes, pageSize)
      requires IsGrant(granted, PagesFor(bytes, pageSize))
      modifies this
      ensures Valid()
      ensures IsServed(old(Contents()), Request(bytes, granted), ret, Contents(), pageSize)
      ensures ret == 0 <==> bytes == 0 || (granted.None? && bytes > old(Room(runs, blocks, pageSize)))
    {
      if bytes == 0 {
        return 0;
      }
      if currentPage.Some? && pageSize - pageOffset >= bytes {
        ret := TakeFromPage(bytes);
        return ret;
      }
      ret := TakeFromRun(bytes, granted);
    }

    /** The first branch of Alloc: what is left of the current page is enough. */
    method TakeFromPage(bytes: Address) returns (ret: Address)
      requires Valid() && bytes > 0 && currentPage.Some? && pageSize - pageOffset >= bytes
      modifies this`blocks, this`pageOffset, this`currentPage
      ensures Valid() && ret != 0 && ret == NewestEnd(old(blocks)) && blocks == old(blocks) + [Block(ret, bytes)]
    {
      hide AreLinked, Length, IsSound, Room, NewestEnd;
      FreeIsMapped(runs, blocks, pageSize, currentPage.value + pageOffset);
      ret := currentPage.value + pageOffset;
      TakeFree(runs, blocks, pageSize, ret, Block(ret, bytes));
      RoomIs(runs, blocks, pageSize);
      RoomOfNewBlock(runs, blocks, pageSize, Block(ret, bytes));
      blocks := blocks + [Block(ret, bytes)];
      pageOffset := pageOffset + bytes;
      assert pageOffset < pageSize ==> IsFree(runs, blocks, pageSize, currentPage.value + pageOffset);
      if pageOffset == pageSize {
        pageOffset := 0;
        currentPage := None;
      }
    }

    /** The second branch of Alloc: a run of pages for the block. */
    method TakeFromRun(bytes: Address, granted: Option<Address>) returns (ret: Address)
      requires Valid() && bytes > 0 && Fits(bytes, pageSize)
      requires IsGrant(granted, PagesFor(bytes, pageSize))
      modifies this
      ensures Valid() && ret == if granted.None? then 0 else granted.value + HEADER_SIZE
      ensures blocks == old(blocks) + if ret == 0 then [] else [Block(ret, bytes)]
      ensures runs == if ret == 0 then old(runs) else [Run(granted.value, PagesFor(bytes, pageSize))] + old(runs)
    {
      hide AreLinked, IsSound, PagesFor, OffsetAfter, IsFree, TotalPages, Length, LastPage, IsMapped, IsIn, Room,
        NewestEnd;
      var pages := PagesFor(bytes, pageSize);
      MorePages(runs, granted, pages);
      var run := GetNPages(pages, granted);
      if run.None? {
        return 0;
      }
      var r := Run(run.value, pages);
      NewRun(bytes, pageSize, r);
      ghost var b := Block(run.value + HEADER_SIZE, bytes);
      TakeRun(old(runs), blocks, pageSize, r, b);
      RoomOfNewRun(old(runs), blocks, pageSize, r, b);
      blocks := blocks + [b];
      pageOffset := OffsetAfter(bytes, pageSize, pages);
      currentPage := if pageOffset != 0 then Some(LastPage(r, pageSize)) else None;
      FreeBehind(old(runs), blocks, pageSize, r, b);
      return run.value + HEADER_SIZE;
    }

    method GetNPages(numPages: nat, granted: Option<Address>) returns (run: Option<Address>)
      requires AreLinked(last, headers, runs) && IsGrant(granted, numPages)
      modifies this`last, this`pagesAllocated, this`headers, this`runs
      ensures AreLinked(last, headers, runs) && run == granted
      ensures runs == (if granted.Some? then [Run(granted.value, numPages)] else []) + old(runs)
      ensures pagesAllocated == old(pagesAllocated) + if granted.Some? then numPages else 0
    {
      if granted.None? {
        return None;
      }
      var header := new PageHeader(granted.value, last, numPages);
      LinkMore(header, last, headers, runs);
      last := header;
      pagesAllocated := pagesAllocated + numPages;
      headers := [header] + headers;
      runs := [Run(granted.value, numPages)] + runs;
      return granted;
    }

    method OwnsPointer(p: Address) returns (owns: bool)
      requires Valid()
      ensures owns <==> Owned(runs, pageSize, p)
    {
      var header := last;
      ghost var i := 0;
      while header != null
        invariant 0 <= i <= |headers|
        invariant header == if i < |headers| then headers[i] else null
        invariant forall k :: 0 <= k < i ==> !(runs[k].address <= p < runs[k].address + Length(runs[k], pageSize))
        decreases |headers| - i
      {
        if header.address <= p < header.address + header.numPages * pageSize {
          assert runs[i] in runs;
          return true;
        }
        header := header.next;
        i := i + 1;
      }
      return false;
    }
  }
}
