/** Mem_Malloc and sys_free (kernel/memory.c:440-526, 572-617) over the page manager: arenas, free lists, bit
    maps and page tables in one state, and what holds of them together after every sequence of calls. */
module KernelHeap {
  import opened Common
  import opened Words
  import opened Arena
  import opened Bitmaps
  import PP = PagePools
  import T = PageTables
  import C = PageCalls
  import M = PageManager
  import P = Paging

  /** `other` are the mapped pages no arena stands on: taken as whole pages (Mem_GetKernelPages), or left behind
      by a call that ran out of frames half-way. */
  datatype World = World(heap: Heap, pools: PP.State, m: P.Memory, other: set<nat>) {
    function Space(): C.Space { C.Space(pools, m) }
  }

  /** Page `page` belongs to the arena at address p. */
  predicate StandsOn(h: Heap, p: nat, page: nat) {
    p in h.arenas && p <= page * PAGE < p + Span(h.arenas[p])
  }

  ghost predicate OnArena(h: Heap, page: nat) {
    exists p :: StandsOn(h, p, page)
  }

  /** The mapped pages are exactly those of the arenas and the others. */
  ghost predicate Coupled(w: World) {
    && (forall page {:trigger page in w.pools.pages} ::
          page in w.pools.pages <==> OnArena(w.heap, page) || page in w.other)
    && (forall page :: page in w.other ==> !OnArena(w.heap, page))
  }

  ghost predicate WorldInv(c: PP.Config, dir: nat, w: World) {
    Inv(w.heap) && C.SpaceInv(c, dir, w.Space()) && Coupled(w)
  }

  // ---------------------------------------------------------------- pages for arenas

  /** What Mem_MallocPages hands out is nobody's. */
  lemma NewPages(c: PP.Config, w: World, b: PP.State, kind: PP.Kind, start: nat, n: nat, k: nat)
    requires PP.Inv(c, w.pools) && PP.Allocated(c, w.pools, b, kind, start, n, k)
    ensures forall p :: start <= p < start + n ==> p !in w.pools.pages
    ensures forall p :: p in b.pages <==> p in w.pools.pages || start <= p < start + k
  {
    forall p | start <= p < start + n
      ensures p !in w.pools.pages
    {
      assert p in w.pools.pages ==> PP.PageOk(c, w.pools, p);
    }
  }

  lemma ArenaAligned(h: Heap, p: nat)
    requires Inv(h) && p in h.arenas
    ensures p % PAGE == 0 && Span(h.arenas[p]) > 0 && Span(h.arenas[p]) % PAGE == 0
  {
    assert ArenaOk(h, p, {});
  }

  /** So no arena is on them. */
  lemma NewPagesAreFresh(c: PP.Config, kind: PP.Kind, w: World, n: nat, start: nat, b: PP.State)
    requires Inv(w.heap) && Coupled(w) && PP.Inv(c, w.pools) && PP.Allocated(c, w.pools, b, kind, start, n, n)
    ensures Fresh(w.heap, start * PAGE, n)
  {
    NewPages(c, w, b, kind, start, n, n);
    forall page: nat | start <= page < start + n
      ensures !OnArena(w.heap, page)
    {
      assert page in w.pools.pages <==> OnArena(w.heap, page) || page in w.other;
    }
    NoArenaOn(w.heap, start, n);
  }

  lemma NoArenaOn(h: Heap, start: nat, n: nat)
    requires Inv(h) && n > 0 && forall page: nat :: start <= page < start + n ==> !OnArena(h, page)
    ensures Fresh(h, start * PAGE, n)
  {
    forall p | p in h.arenas
      ensures start * PAGE + PAGE * n <= p || p + Span(h.arenas[p]) <= start * PAGE
    {
      ArenaAligned(h, p);
      var q := p / PAGE;
      var page := if q < start then start else q;
      assert StandsOn(h, p, page) && page < start + n ==> OnArena(h, page);
    }
  }

  /** Between the two heaps the arenas have the same pages, but for those of one arena more. */
  ghost predicate OneArenaMore(h: Heap, t: Heap, start: nat, n: nat) {
    forall page: nat :: OnArena(t, page) <==> OnArena(h, page) || start <= page < start + n
  }

  ghost predicate SameArenas(h: Heap, t: Heap) {
    t.arenas.Keys == h.arenas.Keys && forall p :: p in h.arenas ==> Span(t.arenas[p]) == Span(h.arenas[p])
  }

  lemma SameArenasSamePages(h: Heap, t: Heap)
    requires SameArenas(h, t)
    ensures forall page :: OnArena(t, page) <==> OnArena(h, page)
  {
    forall page
      ensures OnArena(t, page) <==> OnArena(h, page)
    {
      if OnArena(t, page) {
        var p :| StandsOn(t, p, page);
        assert StandsOn(h, p, page);
      }
      if OnArena(h, page) {
        var p :| StandsOn(h, p, page);
        assert StandsOn(t, p, page);
      }
    }
  }

  lemma ArenaAdded(h: Heap, t: Heap, start: nat, n: nat)
    requires n > 0 && start * PAGE !in h.arenas && t.arenas.Keys == h.arenas.Keys + {start * PAGE}
    requires forall p :: p in h.arenas ==> Span(t.arenas[p]) == Span(h.arenas[p])
    requires Span(t.arenas[start * PAGE]) == PAGE * n
    ensures OneArenaMore(h, t, start, n)
  {
    forall page: nat
      ensures OnArena(t, page) <==> OnArena(h, page) || start <= page < start + n
    {
      if OnArena(t, page) {
        var p :| StandsOn(t, p, page);
        if p != start * PAGE { assert StandsOn(h, p, page); }
      }
      if OnArena(h, page) {
        var p :| StandsOn(h, p, page);
        assert StandsOn(t, p, page);
      }
      if start <= page < start + n { assert StandsOn(t, start * PAGE, page); }
    }
  }

  lemma ArenaRemoved(h: Heap, t: Heap, p: nat)
    requires Inv(h) && p in h.arenas && t.arenas.Keys == h.arenas.Keys - {p}
    requires forall q :: q in t.arenas ==> Span(t.arenas[q]) == Span(h.arenas[q])
    ensures forall page :: OnArena(t, page) <==> OnArena(h, page) && !StandsOn(h, p, page)
  {
    forall page
      ensures OnArena(t, page) <==> OnArena(h, page) && !StandsOn(h, p, page)
    {
      if OnArena(t, page) {
        var q :| StandsOn(t, q, page);
        assert StandsOn(h, q, page);
        assert SpansApart(h, p, q);
      }
      if OnArena(h, page) && !StandsOn(h, p, page) {
        var q :| StandsOn(h, q, page);
        assert StandsOn(t, q, page);
      }
    }
  }

  /** The page numbers of an arena. */
  lemma ArenaPages(h: Heap, p: nat)
    requires Inv(h) && p in h.arenas
    ensures p == p / PAGE * PAGE
    ensures forall page: nat :: StandsOn(h, p, page) <==> p / PAGE <= page < p / PAGE + Span(h.arenas[p]) / PAGE
  {
    ArenaAligned(h, p);
  }

  // ---------------------------------------------------------------- what the calls do

  /** Mem_Malloc returns NULL or a block, or an assertion fails for want of a frame for a page table. */
  datatype MallocEnd = Null | Block(addr: nat) | Halted

  predicate NeedsPages(h: Heap, size: nat)
    requires |h.lists| == CLASSES
  {
    size > 1024 || h.lists[ClassFor(size)] == []
  }

  /** The block handed out, on a new page or from a list. */
  function BlockFor(h: Heap, size: nat, page: nat): nat
    requires |h.lists| == CLASSES
  {
    if size > 1024 then page + HEADER
    else if h.lists[ClassFor(size)] == [] then BlockAddr(page, ClassFor(size), 0)
    else h.lists[ClassFor(size)][0]
  }

  function WorldOf(heap: Heap, space: C.Space, other: set<nat>): World {
    World(heap, space.pools, space.m, other)
  }

  /** What Mem_Malloc does. Pages mapped before frames ran out are nobody's: they count as others. */
  ghost function Malloced(c: PP.Config, dir: nat, kind: PP.Kind, w: World, size: nat, poolSize: nat): (MallocEnd, World)
    requires |w.heap.lists| == CLASSES
  {
    if size >= poolSize then (Null, w)
    else if !NeedsPages(w.heap, size) then
      (Block(BlockFor(w.heap, size, 0)), w.(heap := AfterMalloc(w.heap, size, 0)))
    else
      var (r, space) := C.MallocPages(c, dir, kind, w.Space(), PagesWanted(size));
      match r
      case NoRoom => (Null, w)
      case Short(start, k) => (Null, WorldOf(w.heap, space, w.other + C.PageRange(start, k)))
      case Halt => (Halted, WorldOf(w.heap, space, w.other))
      case Pages(start) =>
        (Block(BlockFor(w.heap, size, start * PAGE)),
         WorldOf(AfterMalloc(w.heap, size, start * PAGE), space, w.other))
  }

  /** An address that sys_free can make sense of. */
  predicate Freeable(h: Heap, addr: nat) {
    && addr in h.live && |h.lists| == CLASSES && PageOf(addr) in h.arenas
    && (h.arenas[PageOf(addr)].Small? ==> h.arenas[PageOf(addr)].idx < CLASSES)
  }

  /** The arena goes with this block. */
  predicate GivesUp(h: Heap, addr: nat)
    requires PageOf(addr) in h.arenas
  {
    var a := h.arenas[PageOf(addr)];
    a.Large? || (a.idx < CLASSES && a.cnt + 1 == PerArena(a.idx))
  }

  /** What sys_free does. */
  function AfterFreeing(c: PP.Config, dir: nat, w: World, addr: nat): World
    requires Freeable(w.heap, addr)
  {
    if GivesUp(w.heap, addr) then
      WorldOf(AfterFree(w.heap, addr),
                C.FreePages(c, dir, w.Space(), PageOf(addr) / PAGE, Span(w.heap.arenas[PageOf(addr)]) / PAGE), w.other)
    else w.(heap := AfterFree(w.heap, addr))
  }

  /** What Mem_GetKernelPages does: whole pages. */
  ghost function AfterGetting(c: PP.Config, dir: nat, kind: PP.Kind, w: World, n: nat): (C.Outcome, World)
    requires n > 0
  {
    var (r, space) := C.MallocPages(c, dir, kind, w.Space(), n);
    match r
    case NoRoom => (r, w)
    case Short(start, k) => (r, WorldOf(w.heap, space, w.other + C.PageRange(start, k)))
    case Halt => (r, WorldOf(w.heap, space, w.other))
    case Pages(start) => (r, WorldOf(w.heap, space, w.other + C.PageRange(start, n)))
  }

  /** What Mem_Free of whole pages does. */
  function AfterGiving(c: PP.Config, dir: nat, w: World, start: nat, n: nat): World {
    WorldOf(w.heap, C.FreePages(c, dir, w.Space(), start, n), w.other - C.PageRange(start, n))
  }

  // ---------------------------------------------------------------- the invariant of the whole

  /** Which pages the arenas stand on after a successful Mem_Malloc that needed pages. */
  lemma ArenaFor(h: Heap, size: nat, start: nat)
    requires Inv(h) && NeedsPages(h, size) && Fresh(h, start * PAGE, PagesWanted(size))
    ensures OneArenaMore(h, AfterMalloc(h, size, start * PAGE), start, PagesWanted(size))
  {
    var page, t := start * PAGE, AfterMalloc(h, size, start * PAGE);
    FreshIsUnused(h, page, PagesWanted(size), page);
    if size <= 1024 { BlockInPage(page, ClassFor(size), 0); }
    ArenaAdded(h, t, start, PagesWanted(size));
  }

  lemma ArenasAfterHanding(h: Heap, size: nat)
    requires Inv(h) && !NeedsPages(h, size)
    ensures SameArenas(h, AfterMalloc(h, size, 0))
  {
    var idx := ClassFor(size);
    assert FreeOk(h, idx, h.lists[idx][0]);
  }

  /** From what happened to the mapped pages, the arenas and the others. */
  lemma CoupledAfter(w: World, v: World, mapped: set<nat>, unmapped: set<nat>)
    requires Coupled(w) && mapped !! w.pools.pages.Keys && unmapped <= w.pools.pages.Keys
    requires v.pools.pages.Keys == w.pools.pages.Keys + mapped - unmapped
    requires forall page: nat :: OnArena(v.heap, page) || page in v.other <==>
               (OnArena(w.heap, page) || page in w.other || page in mapped) && page !in unmapped
    requires forall page: nat :: page in v.other ==> !OnArena(v.heap, page)
    ensures Coupled(v)
  {
    hide OnArena;
    forall page: nat
      ensures page in v.pools.pages <==> OnArena(v.heap, page) || page in v.other
    {
      assert page in w.pools.pages <==> OnArena(w.heap, page) || page in w.other;
      assert page in v.pools.pages <==> page in v.pools.pages.Keys;
    }
  }

  /** New pages have been mapped for an arena or as whole pages. */
  lemma CoupledMore(c: PP.Config, kind: PP.Kind, w: World, n: nat, start: nat, k: nat, v: World)
    requires Coupled(w) && PP.Inv(c, w.pools) && PP.Allocated(c, w.pools, v.pools, kind, start, n, k) && k <= n
    requires (v.heap == w.heap && v.other == w.other + C.PageRange(start, k))
             || (OneArenaMore(w.heap, v.heap, start, n) && k == n && v.other == w.other)
    ensures Coupled(v)
  {
    hide OnArena, PP.Inv, PP.Allocated;
    NewPages(c, w, v.pools, kind, start, n, k);
    assert v.pools.pages.Keys == w.pools.pages.Keys + C.PageRange(start, k) - {};
    forall page: nat | page in v.other
      ensures !OnArena(v.heap, page)
    {
      assert page in w.pools.pages <==> OnArena(w.heap, page) || page in w.other;
    }
    CoupledAfter(w, v, C.PageRange(start, k), {});
  }

  /** Mapped pages have been given back, with an arena or as whole pages. */
  lemma CoupledLess(c: PP.Config, w: World, start: nat, n: nat, v: World)
    requires Coupled(w) && PP.Freed(c, w.pools, v.pools, start, n)
    requires || (v.heap == w.heap && C.PageRange(start, n) <= w.other && v.other == w.other - C.PageRange(start, n))
             || (v.other == w.other && (forall page: nat :: start <= page < start + n ==> OnArena(w.heap, page))
                 && forall page: nat ::
                      OnArena(v.heap, page) <==> OnArena(w.heap, page) && !(start <= page < start + n))
    ensures Coupled(v)
  {
    hide OnArena, PP.Inv;
    forall page: nat | page in C.PageRange(start, n)
      ensures page in w.pools.pages
    {
    }
    assert v.pools.pages.Keys == w.pools.pages.Keys + {} - C.PageRange(start, n);
    CoupledAfter(w, v, {}, C.PageRange(start, n));
  }

  /** A call of Mem_Malloc that returns keeps everything in agreement; a block it returns was not in use. */
  lemma MallocKeepsWorld(c: PP.Config, dir: nat, kind: PP.Kind, w: World, size: nat, poolSize: nat)
    requires WorldInv(c, dir, w)
    ensures |w.heap.lists| == CLASSES
    ensures var (end, v) := Malloced(c, dir, kind, w, size, poolSize);
            && (end != Halted ==> WorldInv(c, dir, v))
            && (end.Block? ==> end.addr !in w.heap.live && v.heap.live == w.heap.live[end.addr := size])
            && (!end.Block? ==> v.heap == w.heap)
  {
    HasClasses(w.heap);
    hide T.Agrees, T.Confined, PP.Allocated, PP.Inv, PP.Full, IsFirstFit, Inv, Coupled, C.MallocPages, AfterMalloc,
         BlockFor;
    if size < poolSize {
      if NeedsPages(w.heap, size) {
        MallocOnPages(c, dir, kind, w, size);
      } else {
        MallocFromList(c, dir, w, size);
      }
    }
  }

  lemma HasClasses(h: Heap)
    requires Inv(h)
    ensures |h.lists| == CLASSES
  {
  }

  lemma MallocFromList(c: PP.Config, dir: nat, w: World, size: nat)
    requires WorldInv(c, dir, w) && |w.heap.lists| == CLASSES && !NeedsPages(w.heap, size)
    ensures WorldInv(c, dir, w.(heap := AfterMalloc(w.heap, size, 0)))
    ensures var addr := BlockFor(w.heap, size, 0);
            addr !in w.heap.live && AfterMalloc(w.heap, size, 0).live == w.heap.live[addr := size]
  {
    hide C.SpaceInv, Coupled, OnArena;
    var v := w.(heap := AfterMalloc(w.heap, size, 0));
    MallocKeepsInv(w.heap, size, 0);
    HandedKeepsInv(w.heap, ClassFor(size), size, {});
    ArenasAfterHanding(w.heap, size);
    SameArenasSamePages(w.heap, v.heap);
    SameCoupled(w, v);
  }

  /** With the pages there, without them, and with some of them. */
  lemma MallocOnPages(c: PP.Config, dir: nat, kind: PP.Kind, w: World, size: nat)
    requires WorldInv(c, dir, w) && |w.heap.lists| == CLASSES && NeedsPages(w.heap, size)
    ensures var n := PagesWanted(size);
            var (r, space) := C.MallocPages(c, dir, kind, w.Space(), n);
            && (r.Short? ==> WorldInv(c, dir, WorldOf(w.heap, space, w.other + C.PageRange(r.start, r.mapped))))
            && (r.Pages? ==>
                  && WorldInv(c, dir, WorldOf(AfterMalloc(w.heap, size, r.start * PAGE), space, w.other))
                  && var addr := BlockFor(w.heap, size, r.start * PAGE);
                     addr !in w.heap.live
                     && AfterMalloc(w.heap, size, r.start * PAGE).live == w.heap.live[addr := size])
  {
    hide T.Agrees, T.Confined, PP.Allocated, PP.Inv, PP.Full, IsFirstFit, Inv, Coupled, C.MallocPages, AfterMalloc,
         BlockFor;
    var n := PagesWanted(size);
    C.MallocPagesKeeps(c, dir, kind, w.Space(), n);
    var (r, space) := C.MallocPages(c, dir, kind, w.Space(), n);
    if r.Short? {
      LeftBehind(c, dir, kind, w, n, r.start, r.mapped, space);
    } else if r.Pages? {
      NewPagesAreFresh(c, kind, w, n, r.start, space.pools);
      MallocKeepsInv(w.heap, size, r.start * PAGE);
      ArenaFor(w.heap, size, r.start);
      NewBlock(w.heap, size, r.start * PAGE);
      CoupledMore(c, kind, w, n, r.start, n, WorldOf(AfterMalloc(w.heap, size, r.start * PAGE), space, w.other));
    }
  }

  lemma NewBlock(h: Heap, size: nat, page: nat)
    requires Inv(h) && |h.lists| == CLASSES && NeedsPages(h, size) && Fresh(h, page, PagesWanted(size))
    ensures BlockFor(h, size, page) !in h.live
    ensures AfterMalloc(h, size, page).live == h.live[BlockFor(h, size, page) := size]
  {
    if size > 1024 {
      LargeKeepsInv(h, page, size);
    } else {
      var idx := ClassFor(size);
      CarvedKeepsInv(h, page, idx);
      BlockInPage(page, idx, 0);
      HandedKeepsInv(Carved(h, page, idx), idx, size, {page});
    }
  }

  lemma SameCoupled(w: World, v: World)
    requires Coupled(w) && v.pools == w.pools && v.other == w.other
    requires forall page: nat :: OnArena(v.heap, page) <==> OnArena(w.heap, page)
    ensures Coupled(v)
  {
    hide OnArena;
    forall page: nat
      ensures page in v.pools.pages <==> OnArena(v.heap, page) || page in v.other
    {
      assert page in w.pools.pages <==> OnArena(w.heap, page) || page in w.other;
    }
  }

  /** Pages mapped for no arena. */
  lemma LeftBehind(c: PP.Config, dir: nat, kind: PP.Kind, w: World, n: nat, start: nat, k: nat, space: C.Space)
    requires WorldInv(c, dir, w) && C.SpaceInv(c, dir, space) && k <= n
    requires PP.Allocated(c, w.pools, space.pools, kind, start, n, k)
    ensures WorldInv(c, dir, WorldOf(w.heap, space, w.other + C.PageRange(start, k)))
  {
    hide T.Agrees, PP.Allocated, PP.Inv, Inv, Coupled;
    CoupledMore(c, kind, w, n, start, k, WorldOf(w.heap, space, w.other + C.PageRange(start, k)));
  }

  lemma FreeKeepsWorld(c: PP.Config, dir: nat, w: World, addr: nat)
    requires WorldInv(c, dir, w) && addr in w.heap.live
    ensures Freeable(w.heap, addr) && WorldInv(c, dir, AfterFreeing(c, dir, w, addr))
    ensures AfterFreeing(c, dir, w, addr).heap.live == w.heap.live - {addr}
  {
    HasClasses(w.heap);
    FreeKeepsInv(w.heap, addr);
    hide T.Agrees, T.Confined, PP.Inv, PP.Freed, Inv, AfterFree, C.FreePages;
    var p, v := PageOf(addr), AfterFreeing(c, dir, w, addr);
    if GivesUp(w.heap, addr) {
      ArenaGivenUp(w.heap, addr);
      ArenaMapped(w, addr);
      C.FreePagesKeeps(c, dir, w.Space(), p / PAGE, Span(w.heap.arenas[p]) / PAGE);
      CoupledLess(c, w, p / PAGE, Span(w.heap.arenas[p]) / PAGE, v);
    } else {
      ArenasKept(w.heap, addr);
      SameCoupled(w, v);
    }
  }

  lemma ArenasKept(h: Heap, addr: nat)
    requires Inv(h) && Freeable(h, addr) && !GivesUp(h, addr)
    ensures forall page: nat :: OnArena(AfterFree(h, addr), page) <==> OnArena(h, page)
  {
    assert SameArenas(h, AfterFree(h, addr));
    SameArenasSamePages(h, AfterFree(h, addr));
  }

  /** The pages of an arena are mapped. */
  lemma ArenaMapped(w: World, addr: nat)
    requires Inv(w.heap) && Coupled(w) && Freeable(w.heap, addr) && GivesUp(w.heap, addr)
    ensures C.AllMapped(w.pools, PageOf(addr) / PAGE, Span(w.heap.arenas[PageOf(addr)]) / PAGE)
  {
    ArenaGivenUp(w.heap, addr);
    hide Inv, OnArena, AfterFree, Span;
    var n := Span(w.heap.arenas[PageOf(addr)]) / PAGE;
    forall p: nat | PageOf(addr) / PAGE <= p < PageOf(addr) / PAGE + n
      ensures p in w.pools.pages
    {
      assert OnArena(w.heap, p);
    }
  }

  lemma ArenaGivenUp(h: Heap, addr: nat)
    requires Inv(h) && addr in h.live && PageOf(addr) in h.arenas && GivesUp(h, addr)
    ensures |h.lists| == CLASSES && (h.arenas[PageOf(addr)].Small? ==> h.arenas[PageOf(addr)].idx < CLASSES)
    ensures var start, n := PageOf(addr) / PAGE, Span(h.arenas[PageOf(addr)]) / PAGE;
            && (forall page: nat :: start <= page < start + n ==> OnArena(h, page))
            && forall page: nat ::
                 OnArena(AfterFree(h, addr), page) <==> OnArena(h, page) && !(start <= page < start + n)
  {
    var p := PageOf(addr);
    ArenaPages(h, p);
    ArenaRemoved(h, AfterFree(h, addr), p);
    forall page: nat | p / PAGE <= page < p / PAGE + Span(h.arenas[p]) / PAGE
      ensures OnArena(h, page)
    {
      assert StandsOn(h, p, page);
    }
  }

  lemma GetKeepsWorld(c: PP.Config, dir: nat, kind: PP.Kind, w: World, n: nat)
    requires WorldInv(c, dir, w) && n > 0
    ensures var (r, v) := AfterGetting(c, dir, kind, w, n);
            (r != C.Halt ==> WorldInv(c, dir, v)) && v.heap == w.heap
  {
    hide T.Agrees, T.Confined, PP.Allocated, PP.Inv, PP.Full, IsFirstFit, Inv, Coupled, C.MallocPages;
    C.MallocPagesKeeps(c, dir, kind, w.Space(), n);
    var (r, space) := C.MallocPages(c, dir, kind, w.Space(), n);
    match r
    case Short(start, k) => LeftBehind(c, dir, kind, w, n, start, k, space);
    case Pages(start) => LeftBehind(c, dir, kind, w, n, start, n, space);
    case _ =>
  }

  lemma GiveKeepsWorld(c: PP.Config, dir: nat, w: World, start: nat, n: nat)
    requires WorldInv(c, dir, w) && C.PageRange(start, n) <= w.other
    ensures C.AllMapped(w.pools, start, n) && WorldInv(c, dir, AfterGiving(c, dir, w, start, n))
  {
    OthersMapped(w, start, n);
    hide T.Agrees, T.Confined, PP.Inv, PP.Freed, Inv, Coupled, C.FreePages;
    C.FreePagesKeeps(c, dir, w.Space(), start, n);
    CoupledLess(c, w, start, n, AfterGiving(c, dir, w, start, n));
  }

  lemma OthersMapped(w: World, start: nat, n: nat)
    requires Coupled(w) && C.PageRange(start, n) <= w.other
    ensures C.AllMapped(w.pools, start, n)
  {
    forall p | start <= p < start + n
      ensures p in w.pools.pages
    {
      assert p in C.PageRange(start, n) && p in w.other;
    }
  }

  // ---------------------------------------------------------------- when a call succeeds

  /** There are n free pages in a row, and frames for them and for the page tables they need. */
  ghost predicate PagesToBeHad(c: PP.Config, kind: PP.Kind, s: PP.State, n: nat)
    requires n > 0
  {
    FirstRun(s.vBits, n) != -1 && C.Enough(c, s, kind, c.vStart + FirstRun(s.vBits, n), n)
  }

  lemma PagesIff(c: PP.Config, dir: nat, kind: PP.Kind, w: World, n: nat)
    requires WorldInv(c, dir, w) && n > 0
    ensures var (r, space) := C.MallocPages(c, dir, kind, w.Space(), n);
            && (r.Pages? <==> PagesToBeHad(c, kind, w.pools, n))
            && (r.Pages? ==> C.PageRange(r.start, n) !! w.pools.pages.Keys)
  {
    hide T.Agrees, PP.Inv, PP.Allocated, Inv, Coupled, C.Enough, C.MallocPages, IsFirstFit, T.Confined, PP.Full;
    C.MallocPagesIff(c, dir, kind, w.Space(), n);
    C.MallocPagesKeeps(c, dir, kind, w.Space(), n);
    var (r, space) := C.MallocPages(c, dir, kind, w.Space(), n);
    if r.Pages? { NewPages(c, w, space.pools, kind, r.start, n, n); }
  }

  lemma BlockIff(c: PP.Config, dir: nat, kind: PP.Kind, w: World, size: nat, poolSize: nat)
    requires WorldInv(c, dir, w)
    ensures |w.heap.lists| == CLASSES
    ensures var end := Malloced(c, dir, kind, w, size, poolSize).0;
            && (end.Block? <==> size < poolSize
                                && (NeedsPages(w.heap, size) ==> PagesToBeHad(c, kind, w.pools, PagesWanted(size))))
            && (end == Halted <==> size < poolSize && NeedsPages(w.heap, size)
                                   && C.MallocPages(c, dir, kind, w.Space(), PagesWanted(size)).0 == C.Halt)
  {
    HasClasses(w.heap);
    hide C.SpaceInv, Inv, Coupled, AfterMalloc, BlockFor, PagesToBeHad, C.MallocPages;
    PagesIff(c, dir, kind, w, PagesWanted(size));
  }

  // ---------------------------------------------------------------- every sequence of calls

  datatype Call = Malloc(size: nat, poolSize: nat) | Free(addr: nat) | GetPages(n: nat) | GivePages(start: nat, n: nat)

  /** Only blocks in use are freed, only whole pages taken are given back; a call that stops the kernel is the last. */
  ghost predicate Step(c: PP.Config, dir: nat, kind: PP.Kind, w: World, call: Call, v: World) {
    match call
    case Malloc(size, poolSize) =>
      |w.heap.lists| == CLASSES && var (end, t) := Malloced(c, dir, kind, w, size, poolSize); end != Halted && v == t
    case Free(addr) => Freeable(w.heap, addr) && v == AfterFreeing(c, dir, w, addr)
    case GetPages(n) => n > 0 && var (r, t) := AfterGetting(c, dir, kind, w, n); r != C.Halt && v == t
    case GivePages(start, n) => C.PageRange(start, n) <= w.other && v == AfterGiving(c, dir, w, start, n)
  }

  lemma StepKeepsWorld(c: PP.Config, dir: nat, kind: PP.Kind, w: World, call: Call, v: World)
    requires WorldInv(c, dir, w) && Step(c, dir, kind, w, call, v)
    ensures WorldInv(c, dir, v)
  {
    hide WorldInv, Malloced, AfterFreeing, AfterGetting, AfterGiving;
    match call
    case Malloc(size, poolSize) => MallocKeepsWorld(c, dir, kind, w, size, poolSize);
    case Free(addr) => FreeKeepsWorld(c, dir, w, addr);
    case GetPages(n) => GetKeepsWorld(c, dir, kind, w, n);
    case GivePages(start, n) => GiveKeepsWorld(c, dir, w, start, n);
  }

  /** The kernel's memory after Mem_Init, on tables the loader has laid out. */
  ghost predicate Started(allMemSize: nat, w: World) {
    && USED <= allMemSize < 0x1_0000_0000 && P.Booted(w.m) && (forall f :: 0 <= f < allMemSize / 0x1000 ==> f in w.m)
    && w.heap == Heap(map[], seq(CLASSES, _ => []), map[]) && w.other == {}
    && w.pools == T.EmptyPools(PP.PoolInit(allMemSize)) && T.TablesBlank(w.m, w.pools)
  }

  const USED := PP.USED

  lemma StartedIsFine(allMemSize: nat, w: World)
    requires Started(allMemSize, w)
    ensures WorldInv(T.PoolConfig(PP.PoolInit(allMemSize)), P.BOOT_DIR, w)
  {
    T.EmptyPoolsInv(allMemSize);
    T.BootAgreesIff(allMemSize, w.m);
    hide T.Agrees, PP.Inv;
  }

  ghost predicate Run(allMemSize: nat, ws: seq<World>, calls: seq<Call>) {
    && |ws| == |calls| + 1 && Started(allMemSize, ws[0])
    && forall i :: 0 <= i < |calls| ==>
         Step(T.PoolConfig(PP.PoolInit(allMemSize)), P.BOOT_DIR, PP.Kernel, ws[i], calls[i], ws[i + 1])
  }

  lemma {:induction false} EveryState(allMemSize: nat, ws: seq<World>, calls: seq<Call>, i: nat)
    requires Run(allMemSize, ws, calls) && i < |ws|
    ensures WorldInv(T.PoolConfig(PP.PoolInit(allMemSize)), P.BOOT_DIR, ws[i])
  {
    hide WorldInv, Step, T.PoolConfig, PP.PoolInit;
    var c := T.PoolConfig(PP.PoolInit(allMemSize));
    if i == 0 {
      StartedIsFine(allMemSize, ws[0]);
    } else {
      EveryState(allMemSize, ws, calls, i - 1);
      var j := i - 1;
      assert Step(c, P.BOOT_DIR, PP.Kernel, ws[j], calls[j], ws[j + 1]);
      StepKeepsWorld(c, P.BOOT_DIR, PP.Kernel, ws[j], calls[j], ws[j + 1]);
    }
  }

  /** After every sequence of calls: blocks in use lie apart inside their arenas, a small arena counts its
      blocks on the free list and has one in use. */
  lemma EveryHeap(allMemSize: nat, ws: seq<World>, calls: seq<Call>, i: nat, x: nat, y: nat, page: nat)
    requires Run(allMemSize, ws, calls) && i < |ws|
    ensures var h := ws[i].heap;
            && (x in h.live && y in h.live && x != y ==> x + h.live[x] <= y || y + h.live[y] <= x)
            && (x in h.live ==> PageOf(x) in h.arenas && PageOf(x) + HEADER <= x
                                && x + h.live[x] <= PageOf(x) + Span(h.arenas[PageOf(x)]))
            && (page in h.arenas && h.arenas[page].Small? ==>
                  var a := h.arenas[page];
                  a.idx < |h.lists| && a.idx < CLASSES
                  && a.cnt == |OnList(h.lists[a.idx], page)| < PerArena(a.idx))
            && (h.live == map[] ==> h.arenas == map[])
  {
    EveryState(allMemSize, ws, calls, i);
    var h := ws[i].heap;
    if x in h.live { LiveInsideArena(h, {}, x); }
    if x in h.live && y in h.live && x != y { LiveBlocksApart(h, {}, x, y); }
    if page in h.arenas { assert ArenaOk(h, page, {}); }
    if h.live == map[] { NothingLeaks(h); }
  }

  /** A byte of the pages an arena stands on, seen through the page tables. */
  ghost predicate Backed(c: PP.Config, dir: nat, w: World, page: nat) {
    && page in w.pools.pages && PP.Slot(page) < T.SLOTS
    && w.pools.vBits != [] && PP.InMap(w.pools.vBits, c.vStart, page) && w.pools.vBits[page - c.vStart]
    && P.Walk(w.m, dir, PP.Slot(page), page % T.SLOTS) == Some(w.pools.pages[page])
    && (|| (PP.InMap(w.pools.kBits, c.kStart, w.pools.pages[page]) && w.pools.kBits[w.pools.pages[page] - c.kStart])
        || (PP.InMap(w.pools.uBits, c.uStart, w.pools.pages[page]) && w.pools.uBits[w.pools.pages[page] - c.uStart]))
  }

  /** And at the same time all four structures agree: every page an arena stands on is reserved, its bit set,
      the hardware translates it to a frame whose bit is set, and no other page to that frame; the frames
      taken are those behind arenas, behind whole pages, and of page tables. */
  lemma EveryRun(allMemSize: nat, ws: seq<World>, calls: seq<Call>, i: nat)
    requires Run(allMemSize, ws, calls) && i < |ws|
    ensures var c, w := T.PoolConfig(PP.PoolInit(allMemSize)), ws[i];
            && (forall page {:trigger OnArena(w.heap, page)} ::
                  OnArena(w.heap, page) ==> Backed(c, P.BOOT_DIR, w, page))
            && (forall p, q {:trigger w.pools.pages[p], w.pools.pages[q]} ::
                  p in w.pools.pages && q in w.pools.pages && p != q ==> w.pools.pages[p] != w.pools.pages[q])
            && (forall kind, j {:trigger PP.BitsOf(w.pools, kind)[j]} :: 0 <= j < |PP.BitsOf(w.pools, kind)| ==>
                  (PP.BitsOf(w.pools, kind)[j] <==> FrameInUse(w, PP.StartOf(c, kind) + j)))
  {
    EveryState(allMemSize, ws, calls, i);
    var c, w := T.PoolConfig(PP.PoolInit(allMemSize)), ws[i];
    forall page | OnArena(w.heap, page)
      ensures Backed(c, P.BOOT_DIR, w, page)
    {
      PageIsBacked(c, P.BOOT_DIR, w, page);
    }
    forall kind, j | 0 <= j < |PP.BitsOf(w.pools, kind)|
      ensures PP.BitsOf(w.pools, kind)[j] <==> FrameInUse(w, PP.StartOf(c, kind) + j)
    {
      HeldMeansInUse(c, P.BOOT_DIR, w, PP.StartOf(c, kind) + j);
      assert PP.Exact(c, w.pools, kind);
    }
  }

  /** What the hardware makes of a byte address. */
  function PhysOf(w: World, at: nat): Option<nat> {
    if at < 0x1_0000_0000 then P.Translate(w.m, P.BOOT_DIR, at) else None
  }

  lemma BackedByte(c: PP.Config, w: World, at: nat)
    requires Backed(c, P.BOOT_DIR, w, at / 0x1000)
    ensures PhysOf(w, at) == Some(w.pools.pages[at / 0x1000] * 0x1000 + at % 0x1000)
  {
    P.Parts(at);
    assert P.Pdi(at) == PP.Slot(at / 0x1000) && P.Pti(at) == at / 0x1000 % 1024;
  }

  /** So every byte of every block in use is backed by memory, and no two of them by the same. */
  lemma EveryByte(allMemSize: nat, ws: seq<World>, calls: seq<Call>, i: nat, x: nat, j: nat, y: nat, k: nat)
    requires Run(allMemSize, ws, calls) && i < |ws|
    requires x in ws[i].heap.live && y in ws[i].heap.live && j < ws[i].heap.live[x] && k < ws[i].heap.live[y]
    ensures PhysOf(ws[i], x + j).Some?
    ensures (x != y || j != k) ==> x + j != y + k && PhysOf(ws[i], x + j) != PhysOf(ws[i], y + k)
  {
    hide P.Translate;
    EveryRun(allMemSize, ws, calls, i);
    EveryHeap(allMemSize, ws, calls, i, x, y, 0);
    EveryHeap(allMemSize, ws, calls, i, y, x, 0);
    var c, w := T.PoolConfig(PP.PoolInit(allMemSize)), ws[i];
    OnSomeArena(w.heap, PageOf(x), x + j);
    OnSomeArena(w.heap, PageOf(y), y + k);
    hide Backed, PhysOf;
    BackedByte(c, w, x + j);
    BackedByte(c, w, y + k);
  }

  lemma OnSomeArena(h: Heap, p: nat, at: nat)
    requires p in h.arenas && p % PAGE == 0 && p <= at < p + Span(h.arenas[p])
    ensures OnArena(h, at / 0x1000)
  {
    assert StandsOn(h, p, at / PAGE);
  }

  /** A frame behind an arena, behind whole pages, or of a page table. */
  ghost predicate FrameInUse(w: World, frame: nat) {
    || (exists page :: page in w.pools.pages && w.pools.pages[page] == frame
          && (OnArena(w.heap, page) || page in w.other))
    || frame in w.pools.tables.Values
  }

  lemma HeldMeansInUse(c: PP.Config, dir: nat, w: World, frame: nat)
    requires WorldInv(c, dir, w) && c.others == {}
    ensures PP.Held(c, w.pools, frame) <==> FrameInUse(w, frame)
  {
    if frame in w.pools.pages.Values {
      var page :| page in w.pools.pages && w.pools.pages[page] == frame;
      assert OnArena(w.heap, page) || page in w.other;
    }
  }

  lemma PageIsBacked(c: PP.Config, dir: nat, w: World, page: nat)
    requires WorldInv(c, dir, w) && page in w.pools.pages
    ensures Backed(c, dir, w, page)
  {
    assert PP.PageOk(c, w.pools, page);
    T.ManagedSlot(c, w.pools, page);
    assert T.PageAgrees(w.pools, w.m, dir, page);
    var frame := w.pools.pages[page];
    assert frame in w.pools.pages.Values;
    if PP.InMap(w.pools.kBits, c.kStart, frame) {
      assert PP.BitsOf(w.pools, PP.Kernel)[frame - c.kStart] <==> PP.Held(c, w.pools, c.kStart + (frame - c.kStart));
    } else {
      assert PP.BitsOf(w.pools, PP.User)[frame - c.uStart] <==> PP.Held(c, w.pools, c.uStart + (frame - c.uStart));
    }
  }

  /** The booted kernel is never stopped by its own heap, for its half of the address space has all its page tables:
      a block is handed out exactly if the size is less than the pool's and, where pages are needed, there are that
      many in a row and as many frames. */
  lemma NeverStopped(allMemSize: nat, ws: seq<World>, calls: seq<Call>, i: nat, size: nat, poolSize: nat, n: nat)
    requires Run(allMemSize, ws, calls) && i < |ws| && n > 0
    ensures var c, w := T.PoolConfig(PP.PoolInit(allMemSize)), ws[i];
            && |w.heap.lists| == CLASSES
            && var end := Malloced(c, P.BOOT_DIR, PP.Kernel, w, size, poolSize).0;
               end != Halted && AfterGetting(c, P.BOOT_DIR, PP.Kernel, w, n).0 != C.Halt
               && (end.Block? <==> size < poolSize
                                   && (NeedsPages(w.heap, size) ==> RoomFor(w.pools, PagesWanted(size))))
               && (AfterGetting(c, P.BOOT_DIR, PP.Kernel, w, n).0.Pages? <==> RoomFor(w.pools, n))
  {
    EveryState(allMemSize, ws, calls, i);
    var c, w := T.PoolConfig(PP.PoolInit(allMemSize)), ws[i];
    AllTablesSinceBoot(c, w);
    hide Inv, PP.Inv, Coupled, C.MallocPages, AfterMalloc, BlockFor, T.PoolConfig;
    BlockIff(c, P.BOOT_DIR, PP.Kernel, w, size, poolSize);
    PagesIff(c, P.BOOT_DIR, PP.Kernel, w, PagesWanted(size));
    C.NeverHalts(c, P.BOOT_DIR, PP.Kernel, w.Space(), PagesWanted(size));
    C.NeverHalts(c, P.BOOT_DIR, PP.Kernel, w.Space(), n);
  }

  /** There are n free pages in a row and n frames in the kernel's pool. */
  ghost predicate RoomFor(s: PP.State, n: nat)
    requires n > 0
  {
    FirstRun(s.vBits, n) != -1 && n <= FreeCount(s.kBits)
  }

  lemma AllTablesSinceBoot(c: PP.Config, w: World)
    requires c.vStart >= 768 * 1024 && c.vStart + |w.pools.vBits| <= P.SELF * T.SLOTS
    requires forall i :: 768 <= i < P.SELF ==> i in c.boot
    ensures forall i :: T.Managed(c, w.pools, i) ==> i in c.boot
  {
  }

  /** After every sequence of calls, a small arena wastes no place that ends inside its page, and a page is only asked
      for when all places of all arenas of the class are in use. */
  lemma AsksOnlyWhenFull(allMemSize: nat, ws: seq<World>, calls: seq<Call>, i: nat, size: nat, page: nat, k: nat)
    requires Run(allMemSize, ws, calls) && i < |ws| && page in ws[i].heap.arenas && ws[i].heap.arenas[page].Small?
    ensures var h := ws[i].heap;
            var idx := h.arenas[page].idx;
            && idx < CLASSES && |h.lists| == CLASSES
            && (Fits(idx, k) ==>
                  (page + HEADER + k * BlockSize(idx) in h.lists[idx]
                   <==> page + HEADER + k * BlockSize(idx) !in h.live))
            && (size <= 1024 && NeedsPages(h, size) && idx == ClassFor(size) && Fits(idx, k) ==>
                  page + HEADER + k * BlockSize(idx) in h.live)
  {
    EveryState(allMemSize, ws, calls, i);
    hide Inv, C.SpaceInv, Coupled, Fits, BlockSize;
    EveryPlaceIsABlock(ws[i].heap, page, k);
  }

  /** When every block has been freed and every whole page given back, no page is mapped, and all frames of
      both pools are free again, as they were after Mem_Init: the kernel's part of the address space has all
      its page tables since boot. */
  lemma NothingIsLost(allMemSize: nat, ws: seq<World>, calls: seq<Call>, i: nat)
    requires Run(allMemSize, ws, calls) && i < |ws| && ws[i].heap.live == map[] && ws[i].other == {}
    ensures ws[i].heap.arenas == map[] && ws[i].pools.pages == map[]
    ensures forall kind, j {:trigger PP.BitsOf(ws[i].pools, kind)[j]} :: 0 <= j < |PP.BitsOf(ws[i].pools, kind)| ==>
              !PP.BitsOf(ws[i].pools, kind)[j]
  {
    EveryState(allMemSize, ws, calls, i);
    var c, w := T.PoolConfig(PP.PoolInit(allMemSize)), ws[i];
    NothingLeaks(w.heap);
    forall page | page in w.pools.pages
      ensures OnArena(w.heap, page)
    {
    }
    NoArenaNoPage(w.heap);
    assert w.pools.pages.Keys == {};
    NoTablesMade(c, P.BOOT_DIR, w);
    forall kind, j | 0 <= j < |PP.BitsOf(w.pools, kind)|
      ensures !PP.BitsOf(w.pools, kind)[j]
    {
      assert PP.Exact(c, w.pools, kind);
      assert !PP.Held(c, w.pools, PP.StartOf(c, kind) + j);
    }
  }

  lemma NoArenaNoPage(h: Heap)
    requires h.arenas == map[]
    ensures forall page :: !OnArena(h, page)
  {
  }

  lemma NoTablesMade(c: PP.Config, dir: nat, w: World)
    requires WorldInv(c, dir, w) && forall i :: 768 <= i < P.SELF ==> i in c.boot
    requires c.vStart >= 768 * 1024
    ensures w.pools.tables == map[]
  {
    forall i | i in w.pools.tables
      ensures PP.TableOk(c, w.pools, i) && T.Managed(c, w.pools, i)
    {
    }
    assert w.pools.tables.Keys == {};
  }

  // ---------------------------------------------------------------- in place

  class Allocator {
    const kind: PP.Kind
    const pools: M.Manager
    var arenas: map<nat, Header>
    var lists: seq<seq<nat>>
    ghost var live: map<nat, nat>
    ghost var other: set<nat>

    ghost function HeapNow(): Heap
      reads this
    {
      Heap(arenas, lists, live)
    }

    ghost function Now(): World
      reads this, pools, pools.mmu
    {
      World(HeapNow(), pools.Now(), pools.mmu.m, other)
    }

    ghost predicate Valid()
      reads this, pools, pools.mmu
    {
      WorldInv(pools.c, pools.mmu.cr3, Now())
    }

    /** Mem_BlockDescInit, on pools from which nothing has been taken. */
    constructor (kind: PP.Kind, pools: M.Manager)
      requires pools.Valid() && pools.pages == map[]
      ensures this.pools == pools && this.kind == kind && Valid() && other == {}
      ensures HeapNow() == Heap(map[], seq(CLASSES, _ => []), map[])
    {
      this.kind, this.pools := kind, pools;
      arenas, lists, live, other := map[], seq(CLASSES, _ => []), map[], {};
      new;
      NoArenaNoPage(HeapNow());
      hide T.Agrees, PP.Inv, OnArena;
    }

    /** The search for the class (memory.c:484-488). */
    method FindClass(size: nat) returns (idx: nat)
      requires size <= 1024
      ensures idx == ClassFor(size)
    {
      idx := 0;
      while idx < CLASSES && BlockSize(idx) < size
        invariant 0 <= idx <= ClassFor(size)
        decreases CLASSES - idx
      {
        idx := idx + 1;
      }
    }

    /** Mem_MallocPages; if it runs out of frames half-way, what has been mapped is left behind. */
    method TakePages(n: nat) returns (r: C.Outcome)
      requires Valid() && n > 0
      modifies this`other, pools, pools.mmu
      ensures (r, pools.Here()) == C.MallocPages(pools.c, pools.mmu.cr3, kind, old(pools.Here()), n)
      ensures other == if r.Short? then old(other) + C.PageRange(r.start, r.mapped) else old(other)
      ensures r == C.NoRoom ==> Now() == old(Now())
      ensures r.Pages? ==> Fresh(HeapNow(), r.start * PAGE, n)
    {
      hide Inv, T.Agrees, T.Confined, PP.Inv, PP.Allocated, PP.Full, Coupled, IsFirstFit, C.MallocPages;
      ghost var w := Now();
      r := pools.MallocPages(kind, n);
      if r.Pages? {
        NewPagesAreFresh(pools.c, kind, w, n, r.start, pools.Now());
      } else if r.Short? {
        other := other + C.PageRange(r.start, r.mapped);
      }
    }

    /** Mem_GetKernelPages: whole pages (memory.c:314-328). */
    method GetPages(n: nat) returns (r: C.Outcome)
      requires Valid() && n > 0
      modifies this`other, pools, pools.mmu
      ensures (r, Now()) == AfterGetting(pools.c, pools.mmu.cr3, kind, old(Now()), n)
      ensures r != C.Halt ==> Valid()
      ensures r.Pages? <==> PagesToBeHad(pools.c, kind, old(pools.Now()), n)
      ensures r.Pages? ==> C.PageRange(r.start, n) <= other && C.PageRange(r.start, n) !! old(pools.pages.Keys)
    {
      hide WorldInv, Malloced, C.MallocPages;
      GetKeepsWorld(pools.c, pools.mmu.cr3, kind, Now(), n);
      PagesIff(pools.c, pools.mmu.cr3, kind, Now(), n);
      r := TakePages(n);
      if r.Pages? { other := other + C.PageRange(r.start, n); }
    }

    /** Mem_Free of whole pages. */
    method GivePages(start: nat, n: nat)
      requires Valid() && C.PageRange(start, n) <= other
      modifies this`other, pools, pools.mmu
      ensures Valid() && Now() == AfterGiving(pools.c, pools.mmu.cr3, old(Now()), start, n)
    {
      GiveKeepsWorld(pools.c, pools.mmu.cr3, Now(), start, n);
      hide Inv, T.Agrees, T.Confined, PP.Inv, PP.Freed, Coupled, C.FreePages;
      pools.Free(start, n);
      other := other - C.PageRange(start, n);
    }

    /** Cutting up a page (memory.c:500-513), with the assertion that the blocks are not listed yet. */
    method Carve(page: nat, idx: nat)
      requires Inv(HeapNow()) && idx < CLASSES && Fresh(HeapNow(), page, 1)
      modifies this`arenas, this`lists
      ensures HeapNow() == Carved(old(HeapNow()), page, idx)
    {
      ghost var h, list := HeapNow(), lists[idx];
      arenas := arenas[page := Small(idx, PerArena(idx))];
      var i := 0;
      assert list + Blocks(page, idx, 0) == list;
      while i < PerArena(idx)
        invariant 0 <= i <= PerArena(idx)
        invariant arenas == h.arenas[page := Small(idx, PerArena(idx))]
        invariant lists == h.lists[idx := list + Blocks(page, idx, i)]
      {
        var memBlock := BlockAddr(page, idx, i);
        NotListedYet(h, page, idx, i);
        assert memBlock !in lists[idx];
        lists := lists[idx := lists[idx] + [memBlock]];
        assert list + Blocks(page, idx, i) + [memBlock] == list + Blocks(page, idx, i + 1);
        i := i + 1;
      }
    }

    lemma NotListedYet(h: Heap, page: nat, idx: nat, i: nat)
      requires Inv(h) && idx < CLASSES && Fresh(h, page, 1) && i < PerArena(idx)
      ensures BlockAddr(page, idx, i) !in h.lists[idx] + Blocks(page, idx, i)
    {
      BlockInPage(page, idx, i);
      FreshIsUnused(h, page, 1, BlockAddr(page, idx, i));
      forall k | 0 <= k < i
        ensures Blocks(page, idx, i)[k] != BlockAddr(page, idx, i)
      {
        BlocksApart(page, idx, k, i);
      }
    }

    /** Mem_Malloc: NULL exactly if the size is that of the pool or more, or pages are needed and not to be had;
        otherwise a block that was not in use, from the smallest class or on pages of its own. */
    method Malloc(size: nat, poolSize: nat) returns (end: MallocEnd)
      requires Valid()
      modifies this, pools, pools.mmu
      ensures |old(lists)| == CLASSES
              && (end, Now()) == Malloced(pools.c, pools.mmu.cr3, kind, old(Now()), size, poolSize)
      ensures end != Halted ==> Valid()
      ensures end.Block? <==> size < poolSize && (NeedsPages(old(HeapNow()), size) ==>
                                PagesToBeHad(pools.c, kind, old(pools.Now()), PagesWanted(size)))
      ensures end.Block? ==> end.addr !in old(live) && live == old(live)[end.addr := size]
    {
      hide WorldInv, C.MallocPages, AfterMalloc, BlockFor;
      ghost var w := Now();
      MallocKeepsWorld(pools.c, pools.mmu.cr3, kind, w, size, poolSize);
      BlockIff(pools.c, pools.mmu.cr3, kind, w, size, poolSize);
      if size >= poolSize { return Null; }
      if size > 1024 {
        end := MallocLarge(size);
      } else {
        end := MallocSmall(size);
      }
    }

    /** memory.c:465-481. */
    method MallocLarge(size: nat) returns (end: MallocEnd)
      requires Valid() && size > 1024
      modifies this, pools, pools.mmu
      ensures |old(lists)| == CLASSES
              && (end, Now()) == Malloced(pools.c, pools.mmu.cr3, kind, old(Now()), size, size + 1)
    {
      HasClasses(HeapNow());
      hide WorldInv, C.MallocPages;
      var r := TakePages(PagesFor(size));
      match r {
        case NoRoom => end := Null;
        case Short(_, _) => end := Null;
        case Halt => end := Halted;
        case Pages(at) =>
          arenas := arenas[at * PAGE := Large(PagesFor(size))];
          live := live[at * PAGE + HEADER := size];
          end := Block(at * PAGE + HEADER);
      }
    }

    /** memory.c:484-523: from the smallest class that fits, if need be from a page newly cut up for it. */
    method MallocSmall(size: nat) returns (end: MallocEnd)
      requires Valid() && size <= 1024
      modifies this, pools, pools.mmu
      ensures |old(lists)| == CLASSES
              && (end, Now()) == Malloced(pools.c, pools.mmu.cr3, kind, old(Now()), size, size + 1)
    {
      HasClasses(HeapNow());
      hide WorldInv, Fresh, Carved, Handed, C.MallocPages;
      ghost var h, page := HeapNow(), 0;
      var idx := FindClass(size);
      if lists[idx] == [] {
        var r := NewArena(idx);
        match r {
          case NoRoom => return Null;
          case Short(_, _) => return Null;
          case Halt => return Halted;
          case Pages(at) => page := at * PAGE;
        }
      }
      HandOutReady(h, HeapNow(), idx, size, page);
      var memBlock := HandOut(idx, size);
      end := Block(memBlock);
    }

    /** memory.c:490-514: a page for the class, cut up. */
    method NewArena(idx: nat) returns (r: C.Outcome)
      requires Valid() && idx < CLASSES
      modifies this`arenas, this`lists, this`other, pools, pools.mmu
      ensures (r, pools.Here()) == C.MallocPages(pools.c, pools.mmu.cr3, kind, old(pools.Here()), 1)
      ensures other == if r.Short? then old(other) + C.PageRange(r.start, r.mapped) else old(other)
      ensures r == C.NoRoom ==> Now() == old(Now())
      ensures |old(lists)| == CLASSES
      ensures HeapNow() == if r.Pages? then Carved(old(HeapNow()), r.start * PAGE, idx) else old(HeapNow())
      ensures r.Pages? ==> Fresh(old(HeapNow()), r.start * PAGE, 1)
    {
      HasClasses(HeapNow());
      hide C.SpaceInv, Coupled, Inv, Fresh, Carved, C.MallocPages;
      r := TakePages(1);
      if r.Pages? { Carve(r.start * PAGE, idx); }
    }

    /** Whether cut from a fresh page or found, the head of the list can be handed out. */
    lemma HandOutReady(h: Heap, t: Heap, idx: nat, size: nat, page: nat)
      requires Inv(h) && |h.lists| == CLASSES && idx < CLASSES && size <= BlockSize(idx)
      requires h.lists[idx] == [] ==> Fresh(h, page, 1)
      requires t == if h.lists[idx] == [] then Carved(h, page, idx) else h
      ensures |t.lists| == CLASSES && t.lists[idx] != [] && InvBut(t, {PageOf(t.lists[idx][0])})
      ensures t.lists[idx][0] !in t.live && t.live == h.live
      ensures t.lists[idx][0] == if h.lists[idx] == [] then BlockAddr(page, idx, 0) else h.lists[idx][0]
    {
      if h.lists[idx] == [] {
        CarvedKeepsInv(h, page, idx);
        BlockInPage(page, idx, 0);
      } else {
        forall p | p in t.arenas
          ensures ArenaOk(t, p, {PageOf(t.lists[idx][0])})
        {
          assert ArenaOk(h, p, {});
        }
      }
      HandedKeepsInv(t, idx, size, {PageOf(t.lists[idx][0])});
    }

    /** memory.c:517-523: the head of the list, its arena found by masking, one block less in it. */
    method HandOut(idx: nat, ghost size: nat) returns (memBlock: nat)
      requires idx < CLASSES && |lists| == CLASSES && lists[idx] != []
      requires InvBut(HeapNow(), {PageOf(lists[idx][0])})
      modifies this`arenas, this`lists, this`live
      ensures HeapNow() == Handed(old(HeapNow()), idx, size) && memBlock == old(lists)[idx][0]
      ensures live == old(live)[memBlock := size]
    {
      memBlock := lists[idx][0];
      HeadHeader(HeapNow(), idx);
      var page := PageOf(memBlock);
      lists := lists[idx := lists[idx][1..]];
      arenas := arenas[page := Small(idx, arenas[page].cnt - 1)];
      live := live[memBlock := size];
    }

    /** The header behind the head of a list. */
    lemma HeadHeader(h: Heap, idx: nat)
      requires idx < CLASSES && |h.lists| == CLASSES && h.lists[idx] != [] && InvBut(h, {PageOf(h.lists[idx][0])})
      ensures var page := PageOf(h.lists[idx][0]);
              page in h.arenas && h.arenas[page].Small? && h.arenas[page].idx == idx && h.arenas[page].cnt > 0
    {
      var x := h.lists[idx][0];
      assert FreeOk(h, idx, x) && ArenaOk(h, PageOf(x), {PageOf(x)});
      assert x in OnList(h.lists[idx], PageOf(x));
    }

    /** sys_free of an address in use: the arena is found by masking; a large arena, and a small one of which
        this was the last block, gives its pages back. */
    method Free(addr: nat)
      requires Valid() && addr in live
      modifies this, pools, pools.mmu
      ensures Freeable(old(HeapNow()), addr) && Now() == AfterFreeing(pools.c, pools.mmu.cr3, old(Now()), addr)
      ensures Valid() && live == old(live) - {addr}
    {
      ghost var w := Now();
      FreeKeepsWorld(pools.c, pools.mmu.cr3, w, addr);
      if GivesUp(HeapNow(), addr) { ArenaMapped(w, addr); }
      hide Inv, T.Agrees, T.Confined, PP.Inv, PP.Freed, Coupled, OnArena, AfterFree, Span, C.FreePages;
      var gone, pageCnt := FreeInHeap(addr);
      if gone { pools.Free(PageOf(addr) / PAGE, pageCnt); }
    }

    /** What it does to arenas and lists (memory.c:595-611); `gone` says that the arena goes, with `pages` pages. */
    method FreeInHeap(addr: nat) returns (gone: bool, pages: nat)
      requires Inv(HeapNow()) && addr in live
      modifies this`arenas, this`lists, this`live
      ensures PageOf(addr) in old(arenas)
      ensures (old(arenas)[PageOf(addr)].Small? ==> old(arenas)[PageOf(addr)].idx < CLASSES)
      ensures |old(lists)| == CLASSES && HeapNow() == AfterFree(old(HeapNow()), addr) && live == old(live) - {addr}
      ensures gone <==> GivesUp(old(HeapNow()), addr)
      ensures gone ==> pages == Span(old(arenas)[PageOf(addr)]) / PAGE
    {
      ghost var h := HeapNow();
      FreeKeepsInv(h, addr);
      var page := PageOf(addr);
      var header := arenas[page];
      live := live - {addr};
      gone, pages := false, 0;
      if header.Large? {
        arenas := arenas - {page};
        return true, header.pages;
      }
      var idx := header.idx;
      SmallLive(h, addr);
      ReturnedKeepsInv(h, addr);
      lists := lists[idx := lists[idx] + [addr]];
      arenas := arenas[page := Small(idx, header.cnt + 1)];
      if header.cnt + 1 == PerArena(idx) {
        RemoveBlocks(page, idx);
        arenas := arenas - {page};
        gone, pages := true, 1;
      }
    }

    /** memory.c:604-608, with the assertion that every block is listed. */
    method RemoveBlocks(page: nat, idx: nat)
      requires InvBut(HeapNow(), {page}) && page in arenas && idx < CLASSES
      requires arenas[page] == Small(idx, PerArena(idx))
      modifies this`lists
      ensures lists == old(lists)[idx := Without(old(lists)[idx], AllBlocks(page, idx, PerArena(idx)))]
    {
      ghost var h, list := HeapNow(), lists[idx];
      ListedBlocks(h, page, {page});
      assert AllBlocks(page, idx, 0) == {};
      WithoutNone(list);
      hide InvBut, Without, OnList, AllBlocks, BlockAddr;
      var k := 0;
      while k < PerArena(idx)
        invariant 0 <= k <= PerArena(idx)
        invariant lists == h.lists[idx := Without(list, AllBlocks(page, idx, k))]
      {
        var memBlock := BlockAddr(page, idx, k);
        StillListed(page, idx, k, list);
        assert memBlock in lists[idx];
        WithoutTwice(list, AllBlocks(page, idx, k), memBlock);
        lists := lists[idx := Without(lists[idx], {memBlock})];
        k := k + 1;
      }
    }

    lemma StillListed(page: nat, idx: nat, k: nat, list: seq<nat>)
      requires idx < CLASSES && k < PerArena(idx) && OnList(list, page) == AllBlocks(page, idx, PerArena(idx))
      ensures BlockAddr(page, idx, k) in Without(list, AllBlocks(page, idx, k))
      ensures AllBlocks(page, idx, k + 1) == AllBlocks(page, idx, k) + {BlockAddr(page, idx, k)}
    {
      assert BlockAddr(page, idx, k) in AllBlocks(page, idx, PerArena(idx));
      forall j: nat | j < k
        ensures BlockAddr(page, idx, j) != BlockAddr(page, idx, k)
      {
        BlocksApart(page, idx, j, k);
      }
    }
  }
}
