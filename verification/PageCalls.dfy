/** What Mem_Palloc, Mem_AddPageTable, Mem_MallocPages and Mem_Free (kernel/memory.c:120-252, 365-437) do to bit
    maps and memory, as functions of the state before: which bits they set and clear, which words of which tables
    they write. That the maps and the tables go on agreeing is proved of them, and so is when Mem_MallocPages
    succeeds, gives up or stops the kernel. `PageManager` has the same in place. */
module PageCalls {
  import opened Common
  import opened Words
  import opened Bitmaps
  import opened PagePools
  import opened PageTables
  import P = Paging

  /** The bit maps with their history, and the memory. */
  datatype Space = Space(pools: State, m: P.Memory)

  /** Conservation, and agreement with the page tables. */
  ghost predicate SpaceInv(c: Config, dir: nat, s: Space) {
    Inv(c, s.pools) && Agrees(c, s.pools, s.m, dir)
  }

  /** Pages from `start` on, or NULL: for want of pages in a row, or of frames after some were mapped. Halt
      is the failed assertion for want of a frame for a page table. */
  datatype Outcome = Pages(start: nat) | NoRoom | Short(start: nat, mapped: nat) | Halt

  datatype Mapping = Mapped | NoFrame | NoTable

  // ---------------------------------------------------------------- what is written

  predicate HasTable(m: P.Memory, dir: nat, page: nat) {
    Slot(page) < SLOTS && dir in m && P.Present(m[dir][Slot(page)])
  }

  /** The page's own entry, if there is memory for it. */
  function WithPte(m: P.Memory, dir: nat, page: nat, e: U32): P.Memory {
    if Slot(page) < SLOTS && dir in m && P.FrameOf(m[dir][Slot(page)]) in m
    then P.WithEntry(m, dir, AddrOf(page), e) else m
  }

  function PteOf(m: P.Memory, dir: nat, page: nat): U32 {
    if Slot(page) < SLOTS && dir in m && P.FrameOf(m[dir][Slot(page)]) in m
    then m[P.FrameOf(m[dir][Slot(page)])][page % SLOTS] else 0
  }

  /** The two writes of Mem_AddPageTable: a cleared table, if one was taken, and the entry. */
  function Added(m: P.Memory, dir: nat, page: nat, frame: nat, table: nat): P.Memory {
    if frame >= 0x10_0000 || table >= 0x10_0000 then m
    else if HasTable(m, dir, page) || Slot(page) >= SLOTS || dir !in m then WithPte(m, dir, page, P.Entry(frame))
    else WithPte(P.WithTable(m, dir, AddrOf(page), table), dir, page, P.Entry(frame))
  }

  lemma AddedIs(m: P.Memory, dir: nat, page: nat, frame: nat, table: nat)
    requires P.Linked(m, dir) && Slot(page) < P.SELF && frame < 0x10_0000
    requires HasTable(m, dir, page) || P.Unused(m, dir, table)
    ensures P.Present(m[dir][Slot(page)]) ==> P.FrameOf(m[dir][Slot(page)]) in m
    ensures HasTable(m, dir, page) ==>
              Added(m, dir, page, frame, 0) == P.WithEntry(m, dir, AddrOf(page), P.Entry(frame))
    ensures !HasTable(m, dir, page) ==>
              table < 0x10_0000 && var n := P.WithTable(m, dir, AddrOf(page), table);
              dir in n && P.FrameOf(n[dir][Slot(page)]) in n
              && Added(m, dir, page, frame, table) == P.WithEntry(n, dir, AddrOf(page), P.Entry(frame))
  {
  }

  /** Mem_PageTableRemove. */
  function Removed(m: P.Memory, dir: nat, page: nat): P.Memory {
    var e := PteOf(m, dir, page);
    WithPte(m, dir, page, e - e % 2)
  }

  /** Mem_Palloc and Mem_AddPageTable for one page: the lowest free frame, and the lowest one of the kernel's for a
      page table if the page has none. */
  ghost function MapPage(c: Config, dir: nat, kind: Kind, s: Space, page: nat): (Mapping, Space) {
    var i := FirstRun(BitsOf(s.pools, kind), 1);
    if i == -1 then (NoFrame, s)
    else
      var frame, t := StartOf(c, kind) + i, WithBit(s.pools, kind, i);
      if HasTable(s.m, dir, page) then
        (Mapped, Space(t.(pages := t.pages[page := frame]), Added(s.m, dir, page, frame, 0)))
      else
        var j := FirstRun(t.kBits, 1);
        if j == -1 then (NoTable, Space(t, s.m))
        else
          var table, u := c.kStart + j, WithBit(t, Kernel, j);
          (Mapped, Space(u.(tables := u.tables[Slot(page) := table], pages := u.pages[page := frame]),
                         Added(s.m, dir, page, frame, table)))
  }

  /** How far the loop of Mem_MallocPages gets. */
  datatype Progress = Progress(end: Mapping, mapped: nat, space: Space)

  /** Its first n rounds. */
  ghost function MapPages(c: Config, dir: nat, kind: Kind, s: Space, start: nat, n: nat): Progress {
    if n == 0 then Progress(Mapped, 0, s)
    else
      var before := MapPages(c, dir, kind, s, start, n - 1);
      if before.end != Mapped then before
      else
        var (end, t) := MapPage(c, dir, kind, before.space, start + n - 1);
        Progress(end, if end == Mapped then n else n - 1, t)
  }

  /** n pages in a row marked as taken. */
  function Reserved(s: Space, at: nat, n: nat): Space
    requires at + n <= |s.pools.vBits|
  {
    s.(pools := s.pools.(vBits := Marked(s.pools.vBits, at, n, true)))
  }

  /** Mem_MallocPages. */
  ghost function MallocPages(c: Config, dir: nat, kind: Kind, s: Space, n: nat): (Outcome, Space)
    requires n > 0
  {
    var at := FirstRun(s.pools.vBits, n);
    if at == -1 then (NoRoom, s)
    else
      var start := c.vStart + at;
      var r := MapPages(c, dir, kind, Reserved(s, at, n), start, n);
      (Granted(start, r), r.space)
  }

  function Granted(start: nat, r: Progress): Outcome {
    match r.end
    case Mapped => Pages(start)
    case NoFrame => Short(start, r.mapped)
    case NoTable => Halt
  }

  /** The linear pages from `start` on. */
  function PageRange(start: nat, n: nat): (r: set<nat>)
    ensures forall p: nat :: p in r <==> start <= p < start + n
  {
    if n == 0 then {} else PageRange(start, n - 1) + {start + n - 1}
  }

  /** The frames that Mem_V2P finds behind n pages. */
  function FramesBehind(m: P.Memory, dir: nat, start: nat, n: nat): set<nat> {
    set p | start <= p < start + n :: P.FrameOf(PteOf(m, dir, p))
  }

  /** A map after giving back what is in `freed`; bit i stands for base + i. */
  function Without(bits: seq<bool>, base: nat, freed: set<nat>): (r: seq<bool>)
    ensures Shrunk(bits, r, base, freed)
  {
    seq(|bits|, i requires 0 <= i < |bits| => bits[i] && base + i !in freed)
  }

  lemma WithoutIs(bits: seq<bool>, r: seq<bool>, base: nat, freed: set<nat>)
    requires Shrunk(bits, r, base, freed)
    ensures r == Without(bits, base, freed)
  {
  }

  /** The entries of n pages, one after the other. */
  function AllRemoved(m: P.Memory, dir: nat, start: nat, n: nat): P.Memory {
    if n == 0 then m else Removed(AllRemoved(m, dir, start, n - 1), dir, start + n - 1)
  }

  /** Mem_Free: the bits of the frames that the page tables name, those of the pages, and the entries. */
  function FreePages(c: Config, dir: nat, s: Space, start: nat, n: nat): Space {
    var frames := FramesBehind(s.m, dir, start, n);
    Space(State(Without(s.pools.kBits, c.kStart, frames), Without(s.pools.uBits, c.uStart, frames),
                Without(s.pools.vBits, c.vStart, PageRange(start, n)),
                s.pools.pages - PageRange(start, n), s.pools.tables),
          AllRemoved(s.m, dir, start, n))
  }

  // ---------------------------------------------------------------- mapping a page

  lemma AgreesIsLinked(c: Config, s: State, m: P.Memory, dir: nat)
    requires Agrees(c, s, m, dir)
    ensures P.Linked(m, dir) && dir in m
  {
  }

  lemma PoolFrame(c: Config, s: State, m: P.Memory, dir: nat, frame: nat)
    requires Agrees(c, s, m, dir) && InPools(c, s, frame)
    ensures frame in m && 0 < frame < 0x10_0000
  {
  }

  lemma ConfinedSelf(c: Config, s: State, m: P.Memory, dir: nat)
    requires dir in m
    ensures Confined(c, s, m, m, dir)
  {
  }

  lemma ConfinedAlso(c: Config, s: State, t: State, m: P.Memory, n: P.Memory, dir: nat)
    requires Confined(c, s, m, n, dir) && |t.vBits| == |s.vBits|
    ensures Confined(c, t, m, n, dir)
  {
    forall f | f in m && f != dir && n[f] != m[f]
      ensures ManagedTable(c, t, n, dir, f)
    {
      var i: nat :| i < SLOTS && Managed(c, s, i) && P.Present(n[dir][i]) && P.FrameOf(n[dir][i]) == f;
      assert Managed(c, t, i);
    }
  }

  /** A page of the map that is reserved and not mapped. */
  ghost predicate Awaits(c: Config, s: State, page: nat) {
    page !in s.pages && InMap(s.vBits, c.vStart, page) && s.vBits[page - c.vStart]
  }

  /** The page table entry for a page has been written. */
  lemma Entered(c: Config, s: State, m: P.Memory, dir: nat, page: nat, frame: nat)
    requires Agrees(c, s, m, dir) && InMap(s.vBits, c.vStart, page) && frame < 0x10_0000
    requires HasTable(m, dir, page)
    ensures var n := WithPte(m, dir, page, P.Entry(frame));
            Agrees(c, s.(pages := s.pages[page := frame]), n, dir) && Confined(c, s, m, n, dir)
  {
    hide Agrees, Confined;
    BeforeMapping(c, s, m, dir, page);
    EntryAgrees(c, s, s.(pages := s.pages[page := frame]), m, dir, page, P.Entry(frame));
    EntryConfined(c, s, m, dir, page, P.Entry(frame));
  }

  /** What taking a frame for a page gives. */
  lemma FrameTaken(c: Config, dir: nat, kind: Kind, s: Space, i: nat)
    requires SpaceInv(c, dir, s) && i < |BitsOf(s.pools, kind)| && !BitsOf(s.pools, kind)[i]
    ensures var frame, t := StartOf(c, kind) + i, WithBit(s.pools, kind, i);
            && Inv(c.(others := c.others + {frame}), t) && Agrees(c, t, s.m, dir) && !Held(c, s.pools, frame)
            && frame !in c.others && 0 < frame < 0x10_0000 && InPools(c, t, frame)
            && InMap(BitsOf(t, kind), StartOf(c, kind), frame)
  {
    hide Agrees, Inv;
    TakenKeepsInv(c, s.pools, kind, i);
    BitsDoNotMatter(c, s.pools, WithBit(s.pools, kind, i), s.m, dir);
    PoolFrame(c, WithBit(s.pools, kind, i), s.m, dir, StartOf(c, kind) + i);
  }

  /** What taking another one for its page table gives; `frame` has been taken for the page. */
  lemma TableTaken(c: Config, dir: nat, t: State, m: P.Memory, page: nat, frame: nat, j: nat)
    requires Inv(c.(others := c.others + {frame}), t) && Agrees(c, t, m, dir)
    requires InMap(t.vBits, c.vStart, page) && !HasTable(m, dir, page)
    requires j < |t.kBits| && !t.kBits[j]
    ensures Slot(page) < P.SELF && dir in m && c.kStart + j < 0x10_0000
    ensures var table, u := c.kStart + j, WithBit(t, Kernel, j);
            var v, n := u.(tables := u.tables[Slot(page) := table]), P.WithTable(m, dir, AddrOf(page), table);
            && Inv(c.(others := c.others + {frame}), v) && Agrees(c, v, n, dir) && Confined(c, t, m, n, dir)
            && P.Unused(m, dir, table) && Slot(page) !in t.tables && Slot(page) !in c.boot && HasTable(n, dir, page)
  {
    hide Inv, Agrees, Confined;
    var c', table, u := c.(others := c.others + {frame}), c.kStart + j, WithBit(t, Kernel, j);
    BeforeMapping(c, t, m, dir, page);
    TakenKeepsInv(c', t, Kernel, j);
    TableKeepsInv(c', u, Slot(page), table);
    BitsDoNotMatter(c, t, u, m, dir);
    PoolFrame(c, u, m, dir, table);
    TableAgrees(c, u, m, dir, page, table);
    TableConfined(c, u, m, dir, page, table);
    ConfinedAlso(c, u, t, m, P.WithTable(m, dir, AddrOf(page), table), dir);
  }

  /** A page that is mapped keeps maps and tables in agreement. */
  lemma MapPageKeeps(c: Config, dir: nat, kind: Kind, s: Space, page: nat)
    requires SpaceInv(c, dir, s) && Awaits(c, s.pools, page)
    ensures var (r, t) := MapPage(c, dir, kind, s, page);
            && (r == NoFrame ==> t == s && Full(BitsOf(s.pools, kind)))
            && (r == Mapped ==> SpaceInv(c, dir, t) && OnePage(c, s.pools, t.pools, kind, page)
                                && Confined(c, s.pools, s.m, t.m, dir))
  {
    hide Inv, Agrees, Confined, Held;
    BeforeMapping(c, s.pools, s.m, dir, page);
    var i := FirstRun(BitsOf(s.pools, kind), 1);
    LowestFree(BitsOf(s.pools, kind), i);
    if i != -1 {
      var frame, t := StartOf(c, kind) + i, WithBit(s.pools, kind, i);
      FrameTaken(c, dir, kind, s, i);
      if HasTable(s.m, dir, page) {
        MapPageKeepsOld(c, dir, kind, s, page, frame, t);
      } else {
        MapPageKeepsNew(c, dir, kind, s, page, frame, t);
      }
    }
  }

  /** Bit i is the lowest one that is clear. */
  ghost predicate LowestClear(bits: seq<bool>, i: int) {
    0 <= i < |bits| && !bits[i] && forall j :: 0 <= j < i ==> bits[j]
  }

  /** The frame of the page is the lowest free one of the pool asked for, and taken first; a page table is made only
      where there is none, in the frame that is then the lowest free one of the kernel's pool. */
  lemma MapPageTakesLowest(c: Config, dir: nat, kind: Kind, s: Space, page: nat)
    ensures var (r, t) := MapPage(c, dir, kind, s, page);
            r == Mapped ==>
              && page in t.pools.pages && var i := t.pools.pages[page] - StartOf(c, kind);
              && LowestClear(BitsOf(s.pools, kind), i)
              && (HasTable(s.m, dir, page) ==> t.pools.kBits == WithBit(s.pools, kind, i).kBits
                                               && t.pools.uBits == WithBit(s.pools, kind, i).uBits
                                               && t.pools.tables == s.pools.tables)
              && (!HasTable(s.m, dir, page) ==>
                    && Slot(page) in t.pools.tables && var k := t.pools.tables[Slot(page)] - c.kStart;
                    && LowestClear(WithBit(s.pools, kind, i).kBits, k)
                    && t.pools.kBits == WithBit(s.pools, kind, i).kBits[k := true]
                    && t.pools.uBits == WithBit(s.pools, kind, i).uBits
                    && t.pools.tables == s.pools.tables[Slot(page) := k + c.kStart])
  {
    var i := FirstRun(BitsOf(s.pools, kind), 1);
    FirstRunIsLowest(BitsOf(s.pools, kind));
    if i != -1 { FirstRunIsLowest(WithBit(s.pools, kind, i).kBits); }
    hide FirstRun;
  }

  lemma FirstRunIsLowest(bits: seq<bool>)
    ensures var i := FirstRun(bits, 1); i != -1 ==> LowestClear(bits, i)
  {
    var i := FirstRun(bits, 1);
    if i != -1 {
      assert FreeRun(bits, i, 1);
      forall j | 0 <= j < i
        ensures bits[j]
      {
        assert !FreeRun(bits, j, 1);
      }
    }
  }

  /** Where the page table is there. */
  lemma MapPageKeepsOld(c: Config, dir: nat, kind: Kind, s: Space, page: nat, frame: nat, t: State)
    requires Inv(c.(others := c.others + {frame}), t) && Agrees(c, t, s.m, dir) && Awaits(c, t, page)
    requires frame !in c.others && 0 < frame < 0x10_0000 && InPools(c, t, frame) && HasTable(s.m, dir, page)
    requires InMap(BitsOf(t, kind), StartOf(c, kind), frame)
    requires t.vBits == s.pools.vBits && t.pages == s.pools.pages && t.tables == s.pools.tables
    requires |t.kBits| == |s.pools.kBits| && |t.uBits| == |s.pools.uBits|
    ensures var v := Space(t.(pages := t.pages[page := frame]), Added(s.m, dir, page, frame, 0));
            SpaceInv(c, dir, v) && OnePage(c, s.pools, v.pools, kind, page) && Confined(c, s.pools, s.m, v.m, dir)
  {
    hide Inv, Agrees, Confined, Held;
    BeforeMapping(c, t, s.m, dir, page);
    Entered(c, t, s.m, dir, page, frame);
    ConfinedAlso(c, t, s.pools, s.m, Added(s.m, dir, page, frame, 0), dir);
    MapKeepsInv(c, t, page, frame);
  }

  /** The same where a page table is missing. */
  lemma MapPageKeepsNew(c: Config, dir: nat, kind: Kind, s: Space, page: nat, frame: nat, t: State)
    requires Inv(c.(others := c.others + {frame}), t) && Agrees(c, t, s.m, dir) && Awaits(c, t, page)
    requires frame !in c.others && 0 < frame < 0x10_0000 && InPools(c, t, frame) && !HasTable(s.m, dir, page)
    requires InMap(BitsOf(t, kind), StartOf(c, kind), frame)
    requires t.vBits == s.pools.vBits && t.pages == s.pools.pages && t.tables == s.pools.tables
    requires |t.kBits| == |s.pools.kBits| && |t.uBits| == |s.pools.uBits|
    ensures var j := FirstRun(t.kBits, 1);
            j != -1 ==>
              && 0 <= j < |t.kBits|
              && var table, u := c.kStart + j, WithBit(t, Kernel, j);
                 var v := Space(u.(tables := u.tables[Slot(page) := table], pages := u.pages[page := frame]),
                                Added(s.m, dir, page, frame, table));
                 SpaceInv(c, dir, v) && OnePage(c, s.pools, v.pools, kind, page) && Confined(c, s.pools, s.m, v.m, dir)
  {
    hide Inv, Agrees, Confined, Held;
    var j := FirstRun(t.kBits, 1);
    LowestFree(t.kBits, j);
    if j != -1 {
      TableTaken(c, dir, t, s.m, page, frame, j);
      var table, u := c.kStart + j, WithBit(t, Kernel, j);
      var v, n := u.(tables := u.tables[Slot(page) := table]), P.WithTable(s.m, dir, AddrOf(page), table);
      Entered(c, v, n, dir, page, frame);
      var o := WithPte(n, dir, page, P.Entry(frame));
      ConfinedAlso(c, v, s.pools, n, o, dir);
      ConfinedAlso(c, t, s.pools, s.m, n, dir);
      ConfinedTwice(c, s.pools, s.m, n, o, dir);
      MapKeepsInv(c, v, page, frame);
    }
  }

  // ---------------------------------------------------------------- Mem_MallocPages

  /** The next page of a reservation is not mapped yet. */
  lemma NextIsFree(c: Config, a: State, b: State, kind: Kind, start: nat, n: nat, k: nat)
    requires Inv(c, a) && Allocated(c, a, b, kind, start, n, k) && k < n
    ensures Awaits(c, b, start + k) && |b.vBits| == |a.vBits|
  {
    assert start + k in a.pages ==> PageOk(c, a, start + k);
  }

  lemma ReservationKeeps(c: Config, dir: nat, kind: Kind, s: Space, at: nat, n: nat)
    requires SpaceInv(c, dir, s) && n > 0 && at + n <= |s.pools.vBits| && FreeRun(s.pools.vBits, at, n)
    ensures SpaceInv(c, dir, Reserved(s, at, n)) && Reserved(s, at, n).m == s.m
    ensures Allocated(c, s.pools, Reserved(s, at, n).pools, kind, c.vStart + at, n, 0)
  {
    hide Agrees;
    ReserveKeepsInv(c, s.pools, at, n);
    BitsDoNotMatter(c, s.pools, Reserved(s, at, n).pools, s.m, dir);
  }

  /** The pages mapped so far are there, nothing else has changed, and maps and tables agree; when no frame is left
      for a page, the pool is full. */
  lemma {:induction false} MapPagesKeeps(c: Config, dir: nat, kind: Kind, a: State, s: Space, start: nat, n: nat,
                                         k: nat)
    requires Inv(c, a) && SpaceInv(c, dir, s) && Allocated(c, a, s.pools, kind, start, n, 0) && k <= n
    ensures var r := MapPages(c, dir, kind, s, start, k);
            && r.mapped <= k && (r.end == Mapped <==> r.mapped == k)
            && (r.end != NoTable ==>
                  SpaceInv(c, dir, r.space) && Allocated(c, a, r.space.pools, kind, start, n, r.mapped)
                  && Confined(c, a, s.m, r.space.m, dir))
            && (r.end == NoFrame ==> Full(BitsOf(r.space.pools, kind)))
  {
    hide Inv, Agrees, Confined, Allocated, Full, MapPage, IsFirstFit;
    if k == 0 {
      AgreesIsLinked(c, s.pools, s.m, dir);
      ConfinedSelf(c, a, s.m, dir);
    } else {
      MapPagesKeeps(c, dir, kind, a, s, start, n, k - 1);
      var r := MapPages(c, dir, kind, s, start, k - 1);
      if r.end == Mapped { OneRound(c, dir, kind, a, s.m, r.space, start, n, k - 1); }
    }
  }

  lemma OneRound(c: Config, dir: nat, kind: Kind, a: State, m: P.Memory, s: Space, start: nat, n: nat, k: nat)
    requires Inv(c, a) && SpaceInv(c, dir, s) && Allocated(c, a, s.pools, kind, start, n, k) && k < n
    requires Confined(c, a, m, s.m, dir)
    ensures var (end, t) := MapPage(c, dir, kind, s, start + k);
            && (end == Mapped ==>
                  SpaceInv(c, dir, t) && Allocated(c, a, t.pools, kind, start, n, k + 1) && Confined(c, a, m, t.m, dir))
            && (end == NoFrame ==> t == s && Full(BitsOf(t.pools, kind)))
  {
    hide Inv, Agrees, Confined, Allocated, Full, Held, OnePage, Awaits, MapPage;
    NextIsFree(c, a, s.pools, kind, start, n, k);
    MapPageKeeps(c, dir, kind, s, start + k);
    var (end, t) := MapPage(c, dir, kind, s, start + k);
    if end == Mapped {
      OneMore(c, a, s.pools, t.pools, kind, start, n, k);
      ConfinedAlso(c, s.pools, a, s.m, t.m, dir);
      ConfinedTwice(c, a, m, s.m, t.m, dir);
    }
  }

  /** What Mem_MallocPages leaves: n reserved pages, all mapped - or nothing, when there is no room for n pages in a
      row - or, when frames run out, the reservation with the pages mapped so far, which stays. */
  lemma MallocPagesKeeps(c: Config, dir: nat, kind: Kind, s: Space, n: nat)
    requires SpaceInv(c, dir, s) && n > 0
    ensures var (r, t) := MallocPages(c, dir, kind, s, n);
            && (r != Halt ==> SpaceInv(c, dir, t) && Confined(c, s.pools, s.m, t.m, dir))
            && (r.Pages? ==> Allocated(c, s.pools, t.pools, kind, r.start, n, n))
            && (r == NoRoom <==> IsFirstFit(s.pools.vBits, |s.pools.vBits|, n, -1))
            && (r == NoRoom ==> t == s)
            && (r.Short? ==> r.mapped < n && Full(BitsOf(t.pools, kind))
                             && Allocated(c, s.pools, t.pools, kind, r.start, n, r.mapped))
  {
    hide Inv, Agrees, Confined, Allocated, Full, MapPages, IsFirstFit;
    NoRoomIff(c, dir, kind, s, n);
    var at := FirstRun(s.pools.vBits, n);
    if at == -1 {
      AgreesIsLinked(c, s.pools, s.m, dir);
      ConfinedSelf(c, s.pools, s.m, dir);
    } else {
      FirstRunFits(s.pools.vBits, n);
      ReservationKeeps(c, dir, kind, s, at, n);
      MapPagesKeeps(c, dir, kind, s.pools, Reserved(s, at, n), c.vStart + at, n, n);
    }
  }

  lemma FirstRunFits(bits: seq<bool>, n: nat)
    requires n > 0
    ensures var r := FirstRun(bits, n); r != -1 ==> 0 <= r && r + n <= |bits| && FreeRun(bits, r, n)
  {
  }

  lemma NoRoomIff(c: Config, dir: nat, kind: Kind, s: Space, n: nat)
    requires n > 0
    ensures MallocPages(c, dir, kind, s, n).0 == NoRoom <==> IsFirstFit(s.pools.vBits, |s.pools.vBits|, n, -1)
  {
    if IsFirstFit(s.pools.vBits, |s.pools.vBits|, n, -1) {
      FirstFitUnique(s.pools.vBits, |s.pools.vBits|, n, -1, FirstRun(s.pools.vBits, n));
    }
  }

  /** Once it has ended it has ended. */
  lemma {:induction false} EndsThere(c: Config, dir: nat, kind: Kind, s: Space, start: nat, k: nat, n: nat)
    requires k <= n && MapPages(c, dir, kind, s, start, k).end != Mapped
    ensures MapPages(c, dir, kind, s, start, n) == MapPages(c, dir, kind, s, start, k)
  {
    if k < n { EndsThere(c, dir, kind, s, start, k, n - 1); }
  }

  // ---------------------------------------------------------------- when it succeeds

  /** Page number i of a run is the first one of a slot that has no page table. */
  predicate NeedsTable(c: Config, s: State, start: nat, i: nat) {
    && Slot(start + i) !in c.boot && Slot(start + i) !in s.tables
    && (i == 0 || Slot(start + i - 1) != Slot(start + i))
  }

  /** The page tables that the first k pages need. */
  function TablesNeeded(c: Config, s: State, start: nat, k: nat): nat {
    if k == 0 then 0 else TablesNeeded(c, s, start, k - 1) + if NeedsTable(c, s, start, k - 1) then 1 else 0
  }

  /** The frames of a pool that mapping k pages takes: page tables are the kernel's. */
  function FramesNeeded(c: Config, s: State, kind: Kind, pool: Kind, start: nat, k: nat): nat {
    (if pool == kind then k else 0) + if pool == Kernel then TablesNeeded(c, s, start, k) else 0
  }

  ghost predicate Enough(c: Config, s: State, kind: Kind, start: nat, k: nat) {
    && FramesNeeded(c, s, kind, Kernel, start, k) <= FreeCount(s.kBits)
    && FramesNeeded(c, s, kind, User, start, k) <= FreeCount(s.uBits)
  }

  /** Frames last for the first k pages and the next one, but not for the page table that one needs. */
  ghost predicate HaltsAt(c: Config, s: State, kind: Kind, start: nat, k: nat) {
    && NeedsTable(c, s, start, k) && Enough(c, s, kind, start, k)
    && FramesNeeded(c, s, kind, kind, start, k) < FreeCount(BitsOf(s, kind))
    && FramesNeeded(c, s, kind, Kernel, start, k) + (if kind == Kernel then 1 else 0) == FreeCount(s.kBits)
  }

  ghost predicate HaltsBefore(c: Config, s: State, kind: Kind, start: nat, k: nat) {
    exists j: nat :: j < k && HaltsAt(c, s, kind, start, j)
  }

  /** After k pages: the frames that are left, and the page tables there are. */
  ghost predicate Counted(c: Config, s: State, t: State, kind: Kind, start: nat, k: nat) {
    && FreeCount(t.kBits) == FreeCount(s.kBits) - FramesNeeded(c, s, kind, Kernel, start, k)
    && FreeCount(t.uBits) == FreeCount(s.uBits) - FramesNeeded(c, s, kind, User, start, k)
    && (forall i ::
          i in t.tables <==> i in s.tables || (i !in c.boot && k > 0 && Slot(start) <= i <= Slot(start + k - 1)))
  }

  lemma TakenCount(s: State, kind: Kind, i: nat)
    requires i < |BitsOf(s, kind)| && !BitsOf(s, kind)[i]
    ensures var t := WithBit(s, kind, i);
            && FreeCount(t.kBits) == FreeCount(s.kBits) - (if kind == Kernel then 1 else 0)
            && FreeCount(t.uBits) == FreeCount(s.uBits) - (if kind == User then 1 else 0)
  {
    FreeCountTake(BitsOf(s, kind), i);
  }

  /** What one more page takes. */
  lemma OneTakes(c: Config, dir: nat, kind: Kind, s: Space, page: nat)
    ensures var (end, t) := MapPage(c, dir, kind, s, page);
            var more := if HasTable(s.m, dir, page) then 0 else 1;
            && (end == NoFrame <==> FreeCount(BitsOf(s.pools, kind)) == 0)
            && (end == NoTable <==> FreeCount(BitsOf(s.pools, kind)) > 0 && more == 1
                                    && FreeCount(s.pools.kBits) == (if kind == Kernel then 1 else 0))
            && (end == Mapped ==>
                  && FreeCount(t.pools.kBits) == FreeCount(s.pools.kBits) - more - (if kind == Kernel then 1 else 0)
                  && FreeCount(t.pools.uBits) == FreeCount(s.pools.uBits) - (if kind == User then 1 else 0)
                  && t.pools.tables.Keys == s.pools.tables.Keys + if more == 1 then {Slot(page)} else {})
  {
    var i := FirstRun(BitsOf(s.pools, kind), 1);
    LowestFree(BitsOf(s.pools, kind), i);
    FreeCountZero(BitsOf(s.pools, kind));
    hide Full, IsFirstFit, FreeCount, HasTable, Added;
    if i != -1 {
      var t := WithBit(s.pools, kind, i);
      TakenCount(s.pools, kind, i);
      LowestFree(t.kBits, FirstRun(t.kBits, 1));
      FreeCountZero(t.kBits);
      if FirstRun(t.kBits, 1) != -1 { TakenCount(t, Kernel, FirstRun(t.kBits, 1)); }
    }
  }

  /** Whether there is a frame for the next page, and one for its page table. */
  lemma OneEnds(c: Config, dir: nat, kind: Kind, a: State, s: Space, start: nat, k: nat)
    requires SpaceInv(c, dir, s) && InMap(s.pools.vBits, c.vStart, start + k)
    requires Counted(c, a, s.pools, kind, start, k)
    ensures var end := MapPage(c, dir, kind, s, start + k).0;
            (end == NoTable <==> HaltsAt(c, a, kind, start, k)) && (end == Mapped <==> Enough(c, a, kind, start, k + 1))
  {
    hide Inv, Agrees, FreeCount, MapPage, InMap, HasTable, NeedsTable, Slot;
    TableMissing(c, dir, kind, a, s, start, k);
    OneTakes(c, dir, kind, s, start + k);
    OneMoreNeeded(c, a, kind, start, k);
    hide TablesNeeded, FramesNeeded;
  }

  lemma OneMoreNeeded(c: Config, a: State, kind: Kind, start: nat, k: nat)
    ensures forall pool: Kind {:trigger FramesNeeded(c, a, kind, pool, start, k + 1)} ::
              FramesNeeded(c, a, kind, pool, start, k + 1)
                == FramesNeeded(c, a, kind, pool, start, k) + (if pool == kind then 1 else 0)
                   + if pool == Kernel && NeedsTable(c, a, start, k) then 1 else 0
  {
  }

  /** And what is left after it. */
  lemma OneCounted(c: Config, dir: nat, kind: Kind, a: State, s: Space, start: nat, k: nat)
    requires SpaceInv(c, dir, s) && InMap(s.pools.vBits, c.vStart, start + k)
    requires Counted(c, a, s.pools, kind, start, k)
    ensures var (end, t) := MapPage(c, dir, kind, s, start + k);
            end == Mapped ==> Counted(c, a, t.pools, kind, start, k + 1)
  {
    hide Inv, Agrees, FreeCount, MapPage, InMap, HasTable, NeedsTable, Slot;
    TableMissing(c, dir, kind, a, s, start, k);
    OneTakes(c, dir, kind, s, start + k);
    var (end, t) := MapPage(c, dir, kind, s, start + k);
    OneMoreNeeded(c, a, kind, start, k);
    if end == Mapped { TablesCounted(c, kind, a, s.pools, start, k, t.pools); }
    hide TablesNeeded, FramesNeeded;
  }

  /** The page has no page table exactly if it is the first of its slot and the slot had none before. */
  lemma TableMissing(c: Config, dir: nat, kind: Kind, a: State, s: Space, start: nat, k: nat)
    requires SpaceInv(c, dir, s) && InMap(s.pools.vBits, c.vStart, start + k)
    requires Counted(c, a, s.pools, kind, start, k)
    ensures HasTable(s.m, dir, start + k) <==> !NeedsTable(c, a, start, k)
  {
    BeforeMapping(c, s.pools, s.m, dir, start + k);
    SlotsOfRun(start, k);
    hide Inv, Agrees, FreeCount, InMap, FramesNeeded, Slot;
  }

  lemma SlotsOfRun(start: nat, k: nat)
    ensures Slot(start) <= Slot(start + k)
    ensures (k > 0 ==> Slot(start + k - 1) <= Slot(start + k) <= Slot(start + k - 1) + 1)
  {
  }

  lemma TablesCounted(c: Config, kind: Kind, a: State, s: State, start: nat, k: nat, t: State)
    requires Counted(c, a, s, kind, start, k)
    requires t.tables.Keys == s.tables.Keys + if NeedsTable(c, a, start, k) then {Slot(start + k)} else {}
    ensures forall i :: i in t.tables <==> i in a.tables || (i !in c.boot && Slot(start) <= i <= Slot(start + k))
  {
    SlotsOfRun(start, k);
    hide Slot, FreeCount;
    forall i
      ensures i in t.tables <==> i in a.tables || (i !in c.boot && Slot(start) <= i <= Slot(start + k))
    {
      assert i in t.tables <==> i in t.tables.Keys;
      assert i in s.tables <==> i in s.tables.Keys;
    }
  }

  /** As many pages are mapped as the frames last for, and the kernel stops where one is missing for a page table. */
  lemma {:induction false} MapPagesEnd(c: Config, dir: nat, kind: Kind, a: State, s: Space, start: nat, n: nat, k: nat)
    requires Inv(c, a) && SpaceInv(c, dir, s) && Allocated(c, a, s.pools, kind, start, n, 0) && k <= n
    ensures var r := MapPages(c, dir, kind, s, start, k);
            && (r.end == Mapped <==> Enough(c, s.pools, kind, start, k))
            && (r.end == Mapped ==> Counted(c, s.pools, r.space.pools, kind, start, k))
            && (r.end == NoTable <==> HaltsBefore(c, s.pools, kind, start, k))
  {
    hide Inv, Agrees, Confined, MapPage, Enough, HaltsAt, HaltsBefore, Counted, Full, Allocated;
    if k == 0 {
      NothingNeeded(c, s.pools, kind, start);
    } else {
      MapPagesEnd(c, dir, kind, a, s, start, n, k - 1);
      MapPagesKeeps(c, dir, kind, a, s, start, n, k - 1);
      NeedsGrow(c, s.pools, kind, start, k - 1);
      var r := MapPages(c, dir, kind, s, start, k - 1);
      if r.end == Mapped {
        NextIsFree(c, a, r.space.pools, kind, start, n, k - 1);
        OneEnds(c, dir, kind, s.pools, r.space, start, k - 1);
        OneCounted(c, dir, kind, s.pools, r.space, start, k - 1);
      }
    }
  }

  lemma NothingNeeded(c: Config, s: State, kind: Kind, start: nat)
    ensures Enough(c, s, kind, start, 0) && !HaltsBefore(c, s, kind, start, 0) && Counted(c, s, s, kind, start, 0)
  {
  }

  lemma NeedsGrow(c: Config, s: State, kind: Kind, start: nat, k: nat)
    ensures Enough(c, s, kind, start, k + 1) ==> Enough(c, s, kind, start, k)
    ensures HaltsBefore(c, s, kind, start, k + 1)
            <==> HaltsBefore(c, s, kind, start, k) || HaltsAt(c, s, kind, start, k)
    ensures HaltsAt(c, s, kind, start, k) ==> Enough(c, s, kind, start, k)
  {
    OneMoreNeeded(c, s, kind, start, k);
    hide FramesNeeded;
    if HaltsBefore(c, s, kind, start, k + 1) {
      var j: nat :| j < k + 1 && HaltsAt(c, s, kind, start, j);
    }
  }

  /** Mem_MallocPages succeeds exactly if there is room and the frames last for pages and page tables; it stops
      the kernel exactly if some page has a frame and its page table none. */
  lemma MallocPagesIff(c: Config, dir: nat, kind: Kind, s: Space, n: nat)
    requires SpaceInv(c, dir, s) && n > 0
    ensures var r := MallocPages(c, dir, kind, s, n).0;
            var at := FirstRun(s.pools.vBits, n);
            && (r == NoRoom <==> at == -1)
            && (r.Pages? <==> at != -1 && Enough(c, s.pools, kind, c.vStart + at, n))
            && (r.Pages? ==> r.start == c.vStart + at)
            && (r == Halt <==> at != -1 && HaltsBefore(c, s.pools, kind, c.vStart + at, n))
  {
    hide Inv, Agrees, Confined, Allocated, Full, MapPages, IsFirstFit, FreeRun, Marked, FreeCount, NeedsTable,
         HaltsBefore, Enough;
    var at := FirstRun(s.pools.vBits, n);
    if at != -1 {
      ReservationKeeps(c, dir, kind, s, at, n);
      hide Inv, Agrees, Confined, Allocated, Full, MapPages, IsFirstFit, FreeRun, FirstRun, Marked, FreeCount,
           NeedsTable;
      MapPagesEnd(c, dir, kind, s.pools, Reserved(s, at, n), c.vStart + at, n, n);
      SameNeeds(c, s.pools, Reserved(s, at, n).pools, kind, c.vStart + at);
    }
  }

  lemma SameNeeds(c: Config, s: State, t: State, kind: Kind, start: nat)
    requires t.tables == s.tables && t.kBits == s.kBits && t.uBits == s.uBits
    ensures forall k: nat :: Enough(c, t, kind, start, k) <==> Enough(c, s, kind, start, k)
    ensures forall k: nat :: HaltsBefore(c, t, kind, start, k) <==> HaltsBefore(c, s, kind, start, k)
  {
    forall k: nat
      ensures Enough(c, t, kind, start, k) <==> Enough(c, s, kind, start, k)
      ensures HaltsAt(c, t, kind, start, k) <==> HaltsAt(c, s, kind, start, k)
    {
      SameTables(c, s, t, start, k);
    }
  }

  lemma {:induction false} SameTables(c: Config, s: State, t: State, start: nat, k: nat)
    requires t.tables == s.tables
    ensures TablesNeeded(c, t, start, k) == TablesNeeded(c, s, start, k)
  {
    if k > 0 { SameTables(c, s, t, start, k - 1); }
  }

  /** Where all page tables have been there since boot, as in the kernel's half, the kernel is never stopped: the
      pages are there exactly if there are n in a row and n frames. */
  lemma NeverHalts(c: Config, dir: nat, kind: Kind, s: Space, n: nat)
    requires SpaceInv(c, dir, s) && n > 0 && forall i :: Managed(c, s.pools, i) ==> i in c.boot
    ensures var r := MallocPages(c, dir, kind, s, n).0;
            && r != Halt
            && (r.Pages? <==> FirstRun(s.pools.vBits, n) != -1 && n <= FreeCount(BitsOf(s.pools, kind)))
  {
    hide Inv, FirstRun, MallocPages, FreeCount, IsFirstFit;
    MallocPagesIff(c, dir, kind, s, n);
    var at := FirstRun(s.pools.vBits, n);
    if at != -1 {
      FirstRunFits(s.pools.vBits, n);
      var start := c.vStart + at;
      forall k: nat {:trigger NeedsTable(c, s.pools, start, k)} | k < n
        ensures !NeedsTable(c, s.pools, start, k)
      {
        assert Managed(c, s.pools, Slot(start + k));
      }
      NoTablesNeeded(c, s.pools, start, n);
    }
  }

  lemma {:induction false} NoTablesNeeded(c: Config, s: State, start: nat, k: nat)
    requires forall j: nat :: j < k ==> !NeedsTable(c, s, start, j)
    ensures TablesNeeded(c, s, start, k) == 0
  {
    if k > 0 { NoTablesNeeded(c, s, start, k - 1); }
  }

  // ---------------------------------------------------------------- Mem_Free

  /** The map names n pages, all of them mapped. */
  ghost predicate AllMapped(s: State, start: nat, n: nat) {
    forall p :: start <= p < start + n ==> p in s.pages
  }

  /** A page of the map that is mapped, as the tables have it. */
  lemma MappedInTables(c: Config, s: State, m: P.Memory, dir: nat, page: nat)
    requires Agrees(c, s, m, dir) && page in s.pages && InMap(s.vBits, c.vStart, page)
    ensures P.Linked(m, dir) && Slot(page) < P.SELF && HasTable(m, dir, page) && P.FrameOf(m[dir][Slot(page)]) in m
    ensures PteOf(m, dir, page) == m[P.FrameOf(m[dir][Slot(page)])][page % SLOTS]
    ensures P.FrameOf(PteOf(m, dir, page)) == s.pages[page]
  {
    BeforeMapping(c, s, m, dir, page);
    assert PageAgrees(s, m, dir, page);
  }

  lemma MappedInMap(c: Config, s: State, start: nat, n: nat)
    requires Inv(c, s) && AllMapped(s, start, n)
    ensures forall p :: start <= p < start + n ==> InMap(s.vBits, c.vStart, p)
  {
    forall p | start <= p < start + n
      ensures InMap(s.vBits, c.vStart, p)
    {
      assert PageOk(c, s, p);
    }
  }

  /** Mem_V2P finds the frames that were mapped. */
  lemma FramesAgree(c: Config, dir: nat, s: Space, start: nat, n: nat)
    requires SpaceInv(c, dir, s) && AllMapped(s.pools, start, n)
    ensures FramesBehind(s.m, dir, start, n) == FramesOf(s.pools.pages, start, n)
  {
    MappedInMap(c, s.pools, start, n);
    hide Inv, Agrees, InMap, PteOf;
    forall p | start <= p < start + n
      ensures P.FrameOf(PteOf(s.m, dir, p)) == s.pools.pages[p]
    {
      MappedInTables(c, s.pools, s.m, dir, p);
    }
    var frames, behind := FramesOf(s.pools.pages, start, n), FramesBehind(s.m, dir, start, n);
    forall x
      ensures x in behind <==> x in frames
    {
      if x in behind {
        var p :| start <= p < start + n && P.FrameOf(PteOf(s.m, dir, p)) == x;
        assert s.pools.pages[p] in frames;
      }
      if x in frames {
        var p :| start <= p < start + n && s.pools.pages[p] == x;
        assert P.FrameOf(PteOf(s.m, dir, p)) in behind;
      }
    }
  }

  /** Entry after entry, the tables agree with the pages that are left. */
  lemma {:induction false} AllRemovedKeeps(c: Config, dir: nat, s: State, m: P.Memory, start: nat, n: nat, k: nat)
    requires Agrees(c, s, m, dir) && AllMapped(s, start, n) && k <= n
    requires forall p :: start <= p < start + n ==> InMap(s.vBits, c.vStart, p)
    ensures var r := AllRemoved(m, dir, start, k);
            Agrees(c, s.(pages := s.pages - PageRange(start, k)), r, dir) && Confined(c, s, m, r, dir)
  {
    hide Agrees, Confined, Removed;
    if k == 0 {
      assert s.pages - {} == s.pages;
      AgreesIsLinked(c, s, m, dir);
      ConfinedSelf(c, s, m, dir);
    } else {
      AllRemovedKeeps(c, dir, s, m, start, n, k - 1);
      var t, r := s.(pages := s.pages - PageRange(start, k - 1)), AllRemoved(m, dir, start, k - 1);
      RemovedKeeps(c, t, r, dir, start + k - 1);
      assert t.pages - {start + k - 1} == s.pages - PageRange(start, k);
      ConfinedAlso(c, t, s, r, Removed(r, dir, start + k - 1), dir);
      ConfinedTwice(c, s, m, r, Removed(r, dir, start + k - 1), dir);
    }
  }

  lemma RemovedKeeps(c: Config, s: State, m: P.Memory, dir: nat, page: nat)
    requires Agrees(c, s, m, dir) && page in s.pages && InMap(s.vBits, c.vStart, page)
    ensures var n := Removed(m, dir, page);
            Agrees(c, s.(pages := s.pages - {page}), n, dir) && Confined(c, s, m, n, dir)
  {
    hide Agrees, Confined;
    MappedInTables(c, s, m, dir, page);
    var e := PteOf(m, dir, page);
    EntryAgrees(c, s, s.(pages := s.pages - {page}), m, dir, page, e - e % 2);
    EntryConfined(c, s, m, dir, page, e - e % 2);
  }

  /** Mem_Free gives back exactly these pages and the frames behind them, and maps and tables go on agreeing. */
  lemma FreePagesKeeps(c: Config, dir: nat, s: Space, start: nat, n: nat)
    requires SpaceInv(c, dir, s) && AllMapped(s.pools, start, n)
    ensures var t := FreePages(c, dir, s, start, n);
            SpaceInv(c, dir, t) && Freed(c, s.pools, t.pools, start, n) && Confined(c, s.pools, s.m, t.m, dir)
  {
    hide Inv, Agrees, Confined, AllRemoved, Freed;
    var t := FreePages(c, dir, s, start, n);
    MappedInMap(c, s.pools, start, n);
    FramesAgree(c, dir, s, start, n);
    AllRemovedKeeps(c, dir, s.pools, s.m, start, n, n);
    FreedPages(c, dir, s, start, n);
    BitsDoNotMatter(c, s.pools.(pages := t.pools.pages), t.pools, t.m, dir);
    FreedKeepsInv(c, s.pools, t.pools, start, n);
  }

  lemma FreedPages(c: Config, dir: nat, s: Space, start: nat, n: nat)
    requires AllMapped(s.pools, start, n) && FramesBehind(s.m, dir, start, n) == FramesOf(s.pools.pages, start, n)
    requires forall p :: start <= p < start + n ==> InMap(s.pools.vBits, c.vStart, p)
    ensures Freed(c, s.pools, FreePages(c, dir, s, start, n).pools, start, n)
  {
    if n > 0 { assert InMap(s.pools.vBits, c.vStart, start); }
  }
}
