/** Mem_Palloc, Mem_MallocPages and Mem_Free (kernel/memory.c:120-252, 376-437) in place: bit maps, page
    tables and the pages mapped change together, as `PageCalls` says. `pages` and `tables` are history variables:
    which pages are mapped to which frames, and which frames were taken for page tables. */
module PageManager {
  import opened Common
  import opened Words
  import opened Bitmaps
  import opened PagePools
  import opened PageTables
  import C = PageCalls
  import P = Paging

  class Manager {
    const c: Config
    const mmu: P.Mmu
    var kBits: seq<bool>
    var uBits: seq<bool>
    var vBits: seq<bool>
    ghost var pages: map<nat, nat>
    ghost var tables: map<nat, nat>

    ghost function Now(): State
      reads this
    {
      State(kBits, uBits, vBits, pages, tables)
    }

    ghost function Here(): C.Space
      reads this, mmu
    {
      C.Space(Now(), mmu.m)
    }

    /** Conservation, and agreement with the page tables. */
    ghost predicate Valid()
      reads this, mmu
    {
      C.SpaceInv(c, mmu.cr3, Here())
    }

    constructor (config: Config, tables: P.Mmu, s: State)
      ensures c == config && mmu == tables && Now() == s
    {
      c, mmu := config, tables;
      kBits, uBits, vBits := s.kBits, s.uBits, s.vBits;
      this.pages, this.tables := s.pages, s.tables;
    }

    /** Mem_Palloc: the lowest free frame of a pool. */
    method Palloc(kind: Kind) returns (frame: int)
      modifies this`kBits, this`uBits
      ensures frame == -1 <==> Full(old(BitsOf(Now(), kind)))
      ensures frame == -1 ==> Now() == old(Now())
      ensures frame != -1 ==>
                var i := frame - StartOf(c, kind);
                0 <= i < |old(BitsOf(Now(), kind))| && !old(BitsOf(Now(), kind))[i]
                && (forall j :: 0 <= j < i ==> old(BitsOf(Now(), kind))[j])
                && Now() == WithBit(old(Now()), kind, i)
      ensures FirstRun(old(BitsOf(Now(), kind)), 1) == if frame == -1 then -1 else frame - StartOf(c, kind)
    {
      var bits := if kind == Kernel then kBits else uBits;
      assert bits == BitsOf(Now(), kind);
      var i := FirstFit(bits, 1);
      LowestFree(bits, i);
      if i == -1 { return -1; }
      if kind == Kernel { kBits := kBits[i := true]; } else { uBits := uBits[i := true]; }
      frame := StartOf(c, kind) + i;
    }

    /** Mem_GetVirAddrFromBitmap: the first n free pages, reserved one by one. */
    method Reserve(n: nat) returns (start: int)
      requires n > 0
      modifies this`vBits
      ensures IsFirstFit(old(vBits), |old(vBits)|, n, if start == -1 then -1 else start - c.vStart)
      ensures FirstRun(old(vBits), n) == if start == -1 then -1 else start - c.vStart
      ensures start == -1 ==> vBits == old(vBits)
      ensures start != -1 ==> c.vStart <= start && start - c.vStart + n <= |old(vBits)|
                              && vBits == Marked(old(vBits), start - c.vStart, n, true)
    {
      var at := FirstFit(vBits, n);
      if at == -1 { return -1; }
      var i := 0;
      assert vBits == Marked(old(vBits), at, 0, true);
      while i < n
        invariant 0 <= i <= n && vBits == Marked(old(vBits), at, i, true)
      {
        vBits := vBits[at + i := true];
        i := i + 1;
      }
      start := c.vStart + at;
    }

    /** What Mem_AddPageTable asks for. */
    lemma ReadyToAdd(s: C.Space, kind: Kind, page: nat)
      requires C.SpaceInv(c, mmu.cr3, s) && C.Awaits(c, s.pools, page)
      ensures P.Linked(s.m, mmu.cr3) && mmu.cr3 in s.m && Slot(page) < P.SELF
      ensures var i := FirstRun(BitsOf(s.pools, kind), 1);
              i != -1 ==> 0 <= i < |BitsOf(s.pools, kind)| && StartOf(c, kind) + i < 0x10_0000
                          && var t := WithBit(s.pools, kind, i);
                             FirstRun(t.kBits, 1) != -1 && !C.HasTable(s.m, mmu.cr3, page) ==>
                               P.Unused(s.m, mmu.cr3, c.kStart + FirstRun(t.kBits, 1))
                               && c.kStart + FirstRun(t.kBits, 1) > 0
      ensures C.HasTable(s.m, mmu.cr3, page) ==>
                && P.FrameOf(s.m[mmu.cr3][Slot(page)]) in s.m
                && !P.Present(s.m[P.FrameOf(s.m[mmu.cr3][Slot(page)])][page % SLOTS])
    {
      hide Inv, Agrees, Held, Confined;
      var dir := mmu.cr3;
      C.AgreesIsLinked(c, s.pools, s.m, dir);
      BeforeMapping(c, s.pools, s.m, dir, page);
      var i := FirstRun(BitsOf(s.pools, kind), 1);
      LowestFree(BitsOf(s.pools, kind), i);
      if i != -1 {
        var t := WithBit(s.pools, kind, i);
        C.FrameTaken(c, dir, kind, s, i);
        var j := FirstRun(t.kBits, 1);
        LowestFree(t.kBits, j);
        if j != -1 && !C.HasTable(s.m, dir, page) { C.TableTaken(c, dir, t, s.m, page, StartOf(c, kind) + i, j); }
      }
    }

    /** Mem_Palloc and Mem_AddPageTable for one reserved page. */
    method MapPage(kind: Kind, page: nat) returns (r: C.Mapping)
      requires Valid() && C.Awaits(c, Now(), page)
      modifies this`kBits, this`uBits, this`pages, this`tables, mmu
      ensures (r, Here()) == C.MapPage(c, mmu.cr3, kind, old(Here()), page)
    {
      hide Inv, Full, Agrees, Confined, P.Linked, P.Unused, C.Added, P.WithEntry, P.WithTable, P.PdePtr, P.Load,
           P.Mapped;
      ghost var s := Here();
      ReadyToAdd(s, kind, page);
      var frame := Palloc(kind);
      if frame == -1 { return C.NoFrame; }
      P.PdeAccess(mmu.m, mmu.cr3, AddrOf(page));
      var pde := mmu.Read(P.PdePtr(AddrOf(page)));
      var table := 0;
      if !P.Present(pde) {
        var got := Palloc(Kernel);
        if got == -1 { return C.NoTable; }
        table := got;
        tables := tables[Slot(page) := table];
      }
      C.AddedIs(s.m, mmu.cr3, page, frame, table);
      assert frame * P.PAGE / P.PAGE == frame;
      var ok := mmu.AddPageTable(AddrOf(page), frame * P.PAGE, table);
      assert mmu.m == C.Added(s.m, mmu.cr3, page, frame, table);
      pages := pages[page := frame];
      r := C.Mapped;
    }

    /** Mem_MallocPages: n reserved pages, all mapped - or nothing, when there is no room for n pages in a
        row - or, when frames run out, the reservation with the pages mapped so far, which stays. It succeeds exactly
        if there is room and frames last for pages and page tables, and stops the kernel exactly if some page gets a
        frame and its page table none. */
    method MallocPages(kind: Kind, n: nat) returns (r: C.Outcome)
      requires Valid() && n > 0
      modifies this, mmu
      ensures (r, Here()) == C.MallocPages(c, mmu.cr3, kind, old(Here()), n)
      ensures r != C.Halt ==> Valid() && Confined(c, old(Now()), old(mmu.m), mmu.m, mmu.cr3)
      ensures r.Pages? ==> Allocated(c, old(Now()), Now(), kind, r.start, n, n)
      ensures r == C.NoRoom <==> IsFirstFit(old(vBits), |old(vBits)|, n, -1)
      ensures r == C.NoRoom ==> Here() == old(Here())
      ensures r.Short? ==> r.mapped < n && Full(BitsOf(Now(), kind))
                           && Allocated(c, old(Now()), Now(), kind, r.start, n, r.mapped)
      ensures var at := FirstRun(old(vBits), n);
              && (r.Pages? <==> at != -1 && C.Enough(c, old(Now()), kind, c.vStart + at, n))
              && (r == C.Halt <==> at != -1 && C.HaltsBefore(c, old(Now()), kind, c.vStart + at, n))
    {
      hide Agrees, Confined, Inv, Allocated, IsFirstFit, Full, C.Enough, C.HaltsBefore, C.MapPage;
      ghost var s, dir := Here(), mmu.cr3;
      C.MallocPagesKeeps(c, dir, kind, s, n);
      C.MallocPagesIff(c, dir, kind, s, n);
      var start := Reserve(n);
      if start == -1 { return C.NoRoom; }
      C.FirstRunFits(s.pools.vBits, n);
      C.ReservationKeeps(c, dir, kind, s, start - c.vStart, n);
      var end, mapped := MapRun(kind, start, n, s.pools);
      match end {
        case Mapped => r := C.Pages(start);
        case NoFrame => r := C.Short(start, mapped);
        case NoTable => r := C.Halt;
      }
    }

    /** Its loop. */
    method MapRun(kind: Kind, start: nat, n: nat, ghost a: State) returns (end: C.Mapping, mapped: nat)
      requires Inv(c, a) && Valid() && Allocated(c, a, Now(), kind, start, n, 0)
      modifies this`kBits, this`uBits, this`pages, this`tables, mmu
      ensures C.Progress(end, mapped, Here()) == C.MapPages(c, mmu.cr3, kind, old(Here()), start, n)
    {
      hide Agrees, Confined, Inv, Allocated, Full, C.MapPage;
      ghost var s, dir := Here(), mmu.cr3;
      mapped := 0;
      while mapped < n
        invariant 0 <= mapped <= n
        invariant C.MapPages(c, dir, kind, s, start, mapped) == C.Progress(C.Mapped, mapped, Here())
      {
        C.MapPagesKeeps(c, dir, kind, a, s, start, n, mapped);
        C.NextIsFree(c, a, Now(), kind, start, n, mapped);
        end := MapPage(kind, start + mapped);
        if end != C.Mapped {
          assert C.MapPages(c, dir, kind, s, start, mapped + 1) == C.Progress(end, mapped, Here());
          C.EndsThere(c, dir, kind, s, start, mapped + 1, n);
          return;
        }
        mapped := mapped + 1;
      }
      end := C.Mapped;
    }

    /** Mem_FreePhyAddr, the pool told by its first frame; the assertion of memory.c:416. */
    method FreeFrame(frame: nat, ghost a: State, ghost freed: set<nat>)
      requires c.kStart + |kBits| <= c.uStart
      requires InMap(kBits, c.kStart, frame) || InMap(uBits, c.uStart, frame)
      requires Shrunk(a.kBits, kBits, c.kStart, freed) && Shrunk(a.uBits, uBits, c.uStart, freed)
      requires if frame >= c.uStart then uBits[frame - c.uStart] else kBits[frame - c.kStart]
      modifies this`kBits, this`uBits
      ensures Shrunk(a.kBits, kBits, c.kStart, freed + {frame}) && Shrunk(a.uBits, uBits, c.uStart, freed + {frame})
    {
      if frame >= c.uStart {
        ShrunkOneMore(a.uBits, uBits, c.uStart, freed, frame);
        uBits := uBits[frame - c.uStart := false];
      } else {
        ShrunkOneMore(a.kBits, kBits, c.kStart, freed, frame);
        kBits := kBits[frame - c.kStart := false];
      }
    }

    /** The frame behind a page that is still to be freed still has its bit. */
    lemma StillSet(a: State, start: nat, i: nat)
      requires Inv(c, a) && forall p :: start <= p <= start + i ==> p in a.pages
      requires Shrunk(a.kBits, kBits, c.kStart, FramesOf(a.pages, start, i))
      requires Shrunk(a.uBits, uBits, c.uStart, FramesOf(a.pages, start, i))
      ensures var frame := a.pages[start + i];
              && (InMap(kBits, c.kStart, frame) || InMap(uBits, c.uStart, frame))
              && (if frame >= c.uStart then InMap(uBits, c.uStart, frame) && uBits[frame - c.uStart]
                  else InMap(kBits, c.kStart, frame) && kBits[frame - c.kStart])
    {
      var page, frame := start + i, a.pages[start + i];
      assert PageOk(c, a, page) && frame in a.pages.Values;
      if frame >= c.uStart {
        assert BitsOf(a, User)[frame - c.uStart] <==> Held(c, a, c.uStart + (frame - c.uStart));
      } else {
        assert BitsOf(a, Kernel)[frame - c.kStart] <==> Held(c, a, c.kStart + (frame - c.kStart));
      }
    }

    /** Mem_Free: first the frames of all pages, found with Mem_V2P, then reservations and mappings. */
    method Free(start: nat, n: nat)
      requires Valid() && C.AllMapped(Now(), start, n)
      modifies this, mmu
      ensures Here() == C.FreePages(c, mmu.cr3, old(Here()), start, n)
      ensures Valid() && Freed(c, old(Now()), Now(), start, n)
      ensures Confined(c, old(Now()), old(mmu.m), mmu.m, mmu.cr3)
    {
      hide Agrees, Confined, Inv, Freed;
      C.FreePagesKeeps(c, mmu.cr3, Here(), start, n);
      ghost var s := Here();
      FreeFrames(start, n, s);
      Unmap(start, n, s);
      C.WithoutIs(s.pools.vBits, vBits, c.vStart, C.PageRange(start, n));
    }

    method FreeFrames(start: nat, n: nat, ghost s: C.Space)
      requires Valid() && Here() == s && C.AllMapped(Now(), start, n)
      modifies this`kBits, this`uBits
      ensures kBits == C.Without(s.pools.kBits, c.kStart, C.FramesBehind(s.m, mmu.cr3, start, n))
      ensures uBits == C.Without(s.pools.uBits, c.uStart, C.FramesBehind(s.m, mmu.cr3, start, n))
    {
      ghost var a := s.pools;
      assert c.kStart + |kBits| <= c.uStart;
      hide Agrees, Inv, C.FramesBehind;
      C.MappedInMap(c, a, start, n);
      C.FramesAgree(c, mmu.cr3, s, start, n);
      assert FramesOf(a.pages, start, 0) == {};
      var i := 0;
      while i < n
        invariant 0 <= i <= n
        invariant Shrunk(a.kBits, kBits, c.kStart, FramesOf(a.pages, start, i))
        invariant Shrunk(a.uBits, uBits, c.uStart, FramesOf(a.pages, start, i))
      {
        StillSet(a, start, i);
        C.MappedInTables(c, a, s.m, mmu.cr3, start + i);
        var phyAddr := mmu.V2P(AddrOf(start + i));
        FreeFrame(phyAddr / P.PAGE, a, FramesOf(a.pages, start, i));
        assert FramesOf(a.pages, start, i + 1) == FramesOf(a.pages, start, i) + {a.pages[start + i]};
        i := i + 1;
      }
      C.WithoutIs(a.kBits, kBits, c.kStart, FramesOf(a.pages, start, n));
      C.WithoutIs(a.uBits, uBits, c.uStart, FramesOf(a.pages, start, n));
    }

    /** Mem_FreeVirAddr with Mem_PageTableRemove, page by page. */
    method Unmap(start: nat, n: nat, ghost s: C.Space)
      requires C.SpaceInv(c, mmu.cr3, s) && C.AllMapped(s.pools, start, n)
      requires vBits == s.pools.vBits && pages == s.pools.pages && mmu.m == s.m
      modifies this`vBits, this`pages, mmu
      ensures Shrunk(s.pools.vBits, vBits, c.vStart, C.PageRange(start, n))
      ensures pages == s.pools.pages - C.PageRange(start, n) && mmu.m == C.AllRemoved(s.m, mmu.cr3, start, n)
    {
      hide Agrees, Inv, Confined, C.Removed, InMap;
      C.MappedInMap(c, s.pools, start, n);
      var cnt := 0;
      while cnt < n
        invariant 0 <= cnt <= n && Shrunk(s.pools.vBits, vBits, c.vStart, C.PageRange(start, cnt))
        invariant pages == s.pools.pages - C.PageRange(start, cnt) && mmu.m == C.AllRemoved(s.m, mmu.cr3, start, cnt)
      {
        C.AllRemovedKeeps(c, mmu.cr3, s.pools, s.m, start, n, cnt);
        UnmapOne(start + cnt, s.pools.(pages := pages), C.PageRange(start, cnt));
        cnt := cnt + 1;
      }
    }

    method UnmapOne(page: nat, ghost s: State, ghost gone: set<nat>)
      requires Agrees(c, s, mmu.m, mmu.cr3) && page in s.pages && InMap(s.vBits, c.vStart, page)
      requires Shrunk(s.vBits, vBits, c.vStart, gone)
      modifies this`vBits, this`pages, mmu
      ensures Shrunk(s.vBits, vBits, c.vStart, gone + {page}) && pages == old(pages) - {page}
      ensures mmu.m == C.Removed(old(mmu.m), mmu.cr3, page)
    {
      hide Agrees, P.Linked;
      C.MappedInTables(c, s, mmu.m, mmu.cr3, page);
      ShrunkOneMore(s.vBits, vBits, c.vStart, gone, page);
      vBits := vBits[page - c.vStart := false];
      mmu.PageTableRemove(AddrOf(page));
      pages := pages - {page};
    }
  }

  /** For the kernel pool as it stands: Mem_AddPageTable as written spares frame 0 exactly if there is a page
      table already or the pool is not full. */
  lemma AddAsWrittenIsRightIff(c: Config, s: State, m: P.Memory, dir: nat, page: nat, frame: nat, r: int)
    requires Agrees(c, s, m, dir) && Inv(c, s) && InMap(s.vBits, c.vStart, page) && dir != 0 && frame < 0x10_0000
    requires forall i :: 0 <= i < P.ENTRIES && P.Present(m[dir][i]) ==> P.FrameOf(m[dir][i]) != 0
    requires IsFirstFit(s.kBits, |s.kBits|, 1, r)
    ensures Slot(page) < P.SELF && (P.Present(m[dir][Slot(page)]) ==> P.FrameOf(m[dir][Slot(page)]) in m)
    ensures var palloc := if r == -1 then 0 else c.kStart + r;
            && 0 <= palloc < 0x10_0000 && palloc != dir
            && ((forall held: P.Page :: P.FrameZeroKept(m, dir, AddrOf(page), frame, palloc, held))
                <==> P.Present(m[dir][Slot(page)]) || !Full(s.kBits))
  {
    BeforeMapping(c, s, m, dir, page);
    LowestFree(s.kBits, r);
    if r != -1 {
      assert BitsOf(s, Kernel)[r] <==> Held(c, s, c.kStart + r);
      assert InPools(c, s, c.kStart + r);
      FreeIsUnused(c, s, m, dir, c.kStart + r);
    }
    P.AddAsWrittenIsRightIff(m, dir, AddrOf(page), frame, if r == -1 then 0 else c.kStart + r);
  }
}
