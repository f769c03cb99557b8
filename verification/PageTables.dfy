/** The page map of `PagePools` and the page tables of `Paging` agree: in the range that a map of linear pages
    manages, the hardware translates exactly the mapped pages, to their frames. What Mem_AddPageTable and
    Mem_PageTableRemove (kernel/memory.c:188-218, 365-373) write keeps it so. */
module PageTables {
  import opened Common
  import opened Words
  import opened PagePools
  import P = Paging

  const SLOTS := 1024

  /** A directory slot under which pages of the map lie. */
  predicate Managed(c: Config, s: State, i: nat) {
    |s.vBits| > 0 && Slot(c.vStart) <= i <= Slot(c.vStart + |s.vBits| - 1)
  }

  predicate InPools(c: Config, s: State, frame: nat) {
    InMap(s.kBits, c.kStart, frame) || InMap(s.uBits, c.uStart, frame)
  }

  /** A slot of the directory leads to a table made for this map, or to one that is not from the pools, or is
      held by another address space. Managed slots have no others than tables made and those of the boot. */
  ghost predicate SlotAgrees(c: Config, s: State, m: P.Memory, dir: nat, i: nat)
    requires dir in m && i < SLOTS
  {
    var e := m[dir][i];
    && (i in s.tables ==> P.Present(e) && P.FrameOf(e) == s.tables[i])
    && (P.Present(e) && i !in s.tables && InPools(c, s, P.FrameOf(e)) ==> P.FrameOf(e) in c.others)
    && (Managed(c, s, i) ==> (P.Present(e) <==> i in s.tables || i in c.boot))
  }

  /** The walk of the hardware for a page. */
  ghost predicate PageAgrees(s: State, m: P.Memory, dir: nat, page: nat)
    requires Slot(page) < SLOTS
  {
    P.Walk(m, dir, Slot(page), page % SLOTS) == if page in s.pages then Some(s.pages[page]) else None
  }

  /** Two managed slots never lead to the same table (`Paging.OnlyThisPageIff`). */
  ghost predicate SlotsApart(c: Config, s: State, m: P.Memory, dir: nat, i: nat, j: nat)
    requires dir in m && i < SLOTS && j < SLOTS
  {
    Managed(c, s, i) && Managed(c, s, j) && P.Present(m[dir][i]) && P.Present(m[dir][j]) ==>
      P.FrameOf(m[dir][i]) != P.FrameOf(m[dir][j])
  }

  ghost predicate Agrees(c: Config, s: State, m: P.Memory, dir: nat) {
    && P.Linked(m, dir)
    && c.vStart + |s.vBits| <= P.SELF * SLOTS
    && (InPools(c, s, dir) ==> dir in c.others)
    && (forall f {:trigger InPools(c, s, f)} :: InPools(c, s, f) ==> f in m && 0 < f < 0x10_0000)
    && (forall i {:trigger SlotAgrees(c, s, m, dir, i)} :: 0 <= i < P.SELF ==> SlotAgrees(c, s, m, dir, i))
    && (forall i :: i in s.tables ==> Managed(c, s, i))
    && (forall page {:trigger PageAgrees(s, m, dir, page)} ::
          InMap(s.vBits, c.vStart, page) ==> PageAgrees(s, m, dir, page))
    && (forall i, j {:trigger SlotsApart(c, s, m, dir, i, j)} :: 0 <= i < j < P.SELF ==> SlotsApart(c, s, m, dir, i, j))
  }

  /** The address of a page. */
  function AddrOf(page: nat): (va: P.Addr)
    requires Slot(page) < SLOTS
    ensures P.Pdi(va) == Slot(page) && P.Pti(va) == page % SLOTS && P.Off(va) == 0
  {
    page * P.PAGE
  }

  lemma ManagedSlot(c: Config, s: State, page: nat)
    requires InMap(s.vBits, c.vStart, page) && c.vStart + |s.vBits| <= P.SELF * SLOTS
    ensures Managed(c, s, Slot(page)) && Slot(page) < P.SELF
  {
  }

  /** Agreement is about lengths of the maps, pages and tables, not about the bits. */
  lemma BitsDoNotMatter(c: Config, s: State, t: State, m: P.Memory, dir: nat)
    requires Agrees(c, s, m, dir) && t.pages == s.pages && t.tables == s.tables
    requires |t.kBits| == |s.kBits| && |t.uBits| == |s.uBits| && |t.vBits| == |s.vBits|
    ensures Agrees(c, t, m, dir)
  {
    forall f | InPools(c, t, f)
      ensures f in m && 0 < f < 0x10_0000
    {
      assert InPools(c, s, f);
    }
    forall i | 0 <= i < P.SELF
      ensures SlotAgrees(c, t, m, dir, i)
    {
      assert SlotAgrees(c, s, m, dir, i);
    }
    forall i | i in t.tables
      ensures Managed(c, t, i)
    {
      assert Managed(c, s, i);
    }
    forall page | InMap(t.vBits, c.vStart, page)
      ensures PageAgrees(t, m, dir, page)
    {
      assert InMap(s.vBits, c.vStart, page) && PageAgrees(s, m, dir, page);
    }
    forall i, j | 0 <= i < j < P.SELF
      ensures SlotsApart(c, t, m, dir, i, j)
    {
      assert SlotsApart(c, s, m, dir, i, j);
    }
  }

  // ---------------------------------------------------------------- mapping

  /** What Mem_AddPageTable will find. */
  lemma BeforeMapping(c: Config, s: State, m: P.Memory, dir: nat, page: nat)
    requires Agrees(c, s, m, dir) && InMap(s.vBits, c.vStart, page)
    ensures Managed(c, s, Slot(page)) && Slot(page) < P.SELF && dir in m
    ensures P.Present(m[dir][Slot(page)]) <==> Slot(page) in s.tables || Slot(page) in c.boot
    ensures P.Present(m[dir][Slot(page)]) ==>
              var table := P.FrameOf(m[dir][Slot(page)]);
              && table in m && table != dir
              && (page !in s.pages ==> !P.Present(m[table][page % SLOTS]))
              && (page in s.pages ==>
                   P.Present(m[table][page % SLOTS]) && P.FrameOf(m[table][page % SLOTS]) == s.pages[page])
  {
    ManagedSlot(c, s, page);
    assert SlotAgrees(c, s, m, dir, Slot(page)) && PageAgrees(s, m, dir, page);
  }

  /** A frame of the pools that is not held is no part of the tables. */
  lemma FreeIsUnused(c: Config, s: State, m: P.Memory, dir: nat, frame: nat)
    requires Agrees(c, s, m, dir) && InPools(c, s, frame) && !Held(c, s, frame)
    ensures dir in m && P.Unused(m, dir, frame)
  {
    forall i | 0 <= i < P.ENTRIES && P.Present(m[dir][i])
      ensures P.FrameOf(m[dir][i]) != frame
    {
      if i < P.SELF {
        assert SlotAgrees(c, s, m, dir, i);
        if i in s.tables { assert s.tables[i] in s.tables.Values; }
      }
    }
  }

  /** Writing one entry of the table of a managed slot. */
  lemma EntryAgrees(c: Config, s: State, t: State, m: P.Memory, dir: nat, page: nat, e: U32)
    requires Agrees(c, s, m, dir) && InMap(s.vBits, c.vStart, page) && Slot(page) < P.SELF && dir in m
    requires P.Present(m[dir][Slot(page)])
    requires t == s.(pages := t.pages)
    requires forall p :: p != page ==> (p in t.pages <==> p in s.pages) && (p in s.pages ==> t.pages[p] == s.pages[p])
    requires if P.Present(e) then page in t.pages && t.pages[page] == P.FrameOf(e) else page !in t.pages
    ensures P.FrameOf(m[dir][Slot(page)]) in m && Agrees(c, t, P.WithEntry(m, dir, AddrOf(page), e), dir)
  {
    BeforeMapping(c, s, m, dir, page);
    var n, table := P.WithEntry(m, dir, AddrOf(page), e), P.FrameOf(m[dir][Slot(page)]);
    assert n[dir] == m[dir] && P.Linked(n, dir);
    forall i | 0 <= i < P.SELF
      ensures SlotAgrees(c, t, n, dir, i)
    {
      assert SlotAgrees(c, s, m, dir, i);
    }
    forall p | InMap(t.vBits, c.vStart, p)
      ensures PageAgrees(t, n, dir, p)
    {
      OtherPage(c, s, m, dir, page, p);
    }
    forall i, j | 0 <= i < j < P.SELF
      ensures SlotsApart(c, t, n, dir, i, j)
    {
      assert SlotsApart(c, s, m, dir, i, j);
    }
    forall f | InPools(c, t, f)
      ensures f in n && 0 < f < 0x10_0000
    {
      assert InPools(c, s, f);
    }
    forall i | i in t.tables
      ensures Managed(c, t, i)
    {
      assert Managed(c, s, i);
    }
  }

  /** Another page of the map has its entry elsewhere. */
  lemma OtherPage(c: Config, s: State, m: P.Memory, dir: nat, page: nat, p: nat)
    requires Agrees(c, s, m, dir) && InMap(s.vBits, c.vStart, page) && InMap(s.vBits, c.vStart, p)
    ensures Slot(p) < P.SELF && Slot(page) < P.SELF && dir in m && PageAgrees(s, m, dir, p)
    ensures p != page && P.Present(m[dir][Slot(page)]) && P.Present(m[dir][Slot(p)]) ==>
              P.FrameOf(m[dir][Slot(p)]) != P.FrameOf(m[dir][Slot(page)]) || p % SLOTS != page % SLOTS
  {
    ManagedSlot(c, s, page);
    ManagedSlot(c, s, p);
    assert PageAgrees(s, m, dir, p);
    if Slot(p) < Slot(page) { assert SlotsApart(c, s, m, dir, Slot(p), Slot(page)); }
    if Slot(page) < Slot(p) { assert SlotsApart(c, s, m, dir, Slot(page), Slot(p)); }
  }

  /** Giving a managed slot a table from the pools, all zeros. */
  lemma TableAgrees(c: Config, s: State, m: P.Memory, dir: nat, page: nat, frame: nat)
    requires Agrees(c, s, m, dir) && InMap(s.vBits, c.vStart, page) && InPools(c, s, frame) && !Held(c, s, frame)
    requires Slot(page) < P.SELF && dir in m && !P.Present(m[dir][Slot(page)])
    ensures P.Unused(m, dir, frame)
    ensures Agrees(c, s.(tables := s.tables[Slot(page) := frame]), P.WithTable(m, dir, AddrOf(page), frame), dir)
  {
    FreeIsUnused(c, s, m, dir, frame);
    BeforeMapping(c, s, m, dir, page);
    var t, n, slot := s.(tables := s.tables[Slot(page) := frame]), P.WithTable(m, dir, AddrOf(page), frame), Slot(page);
    assert n[dir] == m[dir][slot := P.Entry(frame)] && P.Linked(n, dir);
    forall i | 0 <= i < P.SELF
      ensures SlotAgrees(c, t, n, dir, i)
    {
      assert SlotAgrees(c, s, m, dir, i);
    }
    forall p | InMap(t.vBits, c.vStart, p)
      ensures PageAgrees(t, n, dir, p)
    {
      assert InMap(s.vBits, c.vStart, p) && PageAgrees(s, m, dir, p);
      BeforeMapping(c, s, m, dir, p);
    }
    forall i, j | 0 <= i < j < P.SELF
      ensures SlotsApart(c, t, n, dir, i, j)
    {
      assert SlotsApart(c, s, m, dir, i, j);
    }
    forall f | InPools(c, t, f)
      ensures f in n && 0 < f < 0x10_0000
    {
      assert InPools(c, s, f);
    }
    forall i | i in t.tables
      ensures Managed(c, t, i)
    {
      assert i != slot ==> Managed(c, s, i);
    }
  }

  // ---------------------------------------------------------------- the rest of the address space

  /** Between the two memories only the tables of managed slots have changed, and slots that got one. */
  ghost predicate Confined(c: Config, s: State, m: P.Memory, n: P.Memory, dir: nat) {
    && dir in m && dir in n && n.Keys == m.Keys
    && (forall i :: 0 <= i < SLOTS && (!Managed(c, s, i) || P.Present(m[dir][i])) ==> n[dir][i] == m[dir][i])
    && (forall f :: f in m && f != dir && n[f] != m[f] ==> ManagedTable(c, s, n, dir, f))
  }

  ghost predicate ManagedTable(c: Config, s: State, m: P.Memory, dir: nat, f: nat)
    requires dir in m
  {
    exists i: nat :: i < SLOTS && Managed(c, s, i) && P.Present(m[dir][i]) && P.FrameOf(m[dir][i]) == f
  }

  lemma ConfinedTwice(c: Config, s: State, m: P.Memory, n: P.Memory, o: P.Memory, dir: nat)
    requires Confined(c, s, m, n, dir) && Confined(c, s, n, o, dir)
    ensures Confined(c, s, m, o, dir)
  {
    forall f | f in m && f != dir && o[f] != m[f]
      ensures ManagedTable(c, s, o, dir, f)
    {
      if o[f] == n[f] {
        var i: nat :| i < SLOTS && Managed(c, s, i) && P.Present(n[dir][i]) && P.FrameOf(n[dir][i]) == f;
        assert o[dir][i] == n[dir][i];
      }
    }
  }

  lemma EntryConfined(c: Config, s: State, m: P.Memory, dir: nat, page: nat, e: U32)
    requires Agrees(c, s, m, dir) && InMap(s.vBits, c.vStart, page) && Slot(page) < P.SELF && dir in m
    requires P.Present(m[dir][Slot(page)])
    ensures P.FrameOf(m[dir][Slot(page)]) in m && Confined(c, s, m, P.WithEntry(m, dir, AddrOf(page), e), dir)
  {
    BeforeMapping(c, s, m, dir, page);
    var n := P.WithEntry(m, dir, AddrOf(page), e);
    forall f | f in m && f != dir && n[f] != m[f]
      ensures ManagedTable(c, s, n, dir, f)
    {
      assert P.FrameOf(n[dir][Slot(page)]) == f;
    }
  }

  lemma TableConfined(c: Config, s: State, m: P.Memory, dir: nat, page: nat, frame: nat)
    requires Agrees(c, s, m, dir) && InMap(s.vBits, c.vStart, page) && Slot(page) < P.SELF && dir in m
    requires !P.Present(m[dir][Slot(page)]) && P.Unused(m, dir, frame)
    ensures Confined(c, s, m, P.WithTable(m, dir, AddrOf(page), frame), dir)
  {
    BeforeMapping(c, s, m, dir, page);
    var n := P.WithTable(m, dir, AddrOf(page), frame);
    forall f | f in m && f != dir && n[f] != m[f]
      ensures ManagedTable(c, s, n, dir, f)
    {
      assert P.FrameOf(n[dir][Slot(page)]) == f;
    }
  }

  /** An address outside the managed slots translates as before unless its slot leads to a table of theirs, as
      slot 0 does after boot, or it lies in the window of the last slot. */
  lemma ElsewhereKept(c: Config, s: State, m: P.Memory, n: P.Memory, dir: nat, va: P.Addr)
    requires Confined(c, s, m, n, dir) && P.Linked(m, dir) && P.Linked(n, dir)
    requires !Managed(c, s, P.Pdi(va)) && P.Pdi(va) != P.SELF
    requires !ManagedTable(c, s, n, dir, P.FrameOf(m[dir][P.Pdi(va)]))
    ensures P.Translate(n, dir, va) == P.Translate(m, dir, va)
  {
  }

  // ---------------------------------------------------------------- after boot

  const KERNEL_HEAP_PAGE := 0xc_0100

  /** The slots for which the loader lays out tables. */
  predicate KernelSlot(i: nat) {
    768 <= i < P.SELF
  }

  /** The pools that Mem_PoolInit lays out (kernel/memory.c:54-118), nothing taken yet; the lengths of the
      maps are counted in whole bytes. */
  function PoolConfig(l: Layout): Config {
    Config(l.KernelStart() / 0x1000, l.UserStart() / 0x1000, KERNEL_HEAP_PAGE,
           set i: nat | i < SLOTS && KernelSlot(i), {})
  }

  function NoneUsed(pages: nat): (bits: seq<bool>)
    ensures |bits| == pages / 8 * 8 && forall i :: 0 <= i < |bits| ==> !bits[i]
  {
    seq(pages / 8 * 8, _ => false)
  }

  function EmptyPools(l: Layout): State {
    State(NoneUsed(l.kernelPages), NoneUsed(l.userPages), NoneUsed(l.kernelPages), map[], map[])
  }

  lemma EmptyPoolsInv(allMemSize: nat)
    requires allMemSize >= USED
    ensures Inv(PoolConfig(PoolInit(allMemSize)), EmptyPools(PoolInit(allMemSize)))
  {
  }

  /** Word number w of the kernel's page tables, one table after the other, does not map anything. The loader writes
      the words up to 255, for the first MByte (mbr/loader.s:264-272). */
  predicate BlankWord(m: P.Memory, w: nat) {
    P.BOOT_TABLE + w / SLOTS in m && !P.Present(m[P.BOOT_TABLE + w / SLOTS][w % SLOTS])
  }

  /** The words behind them, one for each page of the heap, are blank. */
  ghost predicate TablesBlank(m: P.Memory, s: State) {
    forall w: nat :: 256 <= w < 256 + |s.vBits| ==> BlankWord(m, w)
  }

  /** They are what they were before the loader came. */
  lemma LoaderLeaves(memory: P.Memory, m: P.Memory, w: nat)
    requires P.BOOT_TABLE in memory && m.Keys == memory.Keys && 256 <= w
    requires forall f :: f in memory && f != P.BOOT_DIR && f != P.BOOT_TABLE ==> m[f] == memory[f]
    requires forall t :: 256 <= t < P.ENTRIES ==> m[P.BOOT_TABLE][t] == memory[P.BOOT_TABLE][t]
    ensures BlankWord(m, w) <==> BlankWord(memory, w)
  {
  }

  lemma HeapWord(m: P.Memory, s: State, i: nat)
    requires P.Booted(m) && i < |s.vBits| < 0x8000
    ensures Slot(KERNEL_HEAP_PAGE + i) < SLOTS
    ensures P.Walk(m, P.BOOT_DIR, Slot(KERNEL_HEAP_PAGE + i), (KERNEL_HEAP_PAGE + i) % SLOTS) == None
            <==> BlankWord(m, 256 + i)
  {
    var page := KERNEL_HEAP_PAGE + i;
    assert Slot(page) == 768 + (256 + i) / SLOTS && page % SLOTS == (256 + i) % SLOTS;
    var slot := Slot(page);
    assert m[P.BOOT_DIR][slot] == P.Entry(P.BOOT_TABLE + slot - 768);
  }

  ghost predicate PagesAgree(c: Config, s: State, m: P.Memory, dir: nat)
    requires c.vStart + |s.vBits| <= P.SELF * SLOTS
  {
    forall page {:trigger PageAgrees(s, m, dir, page)} :: InMap(s.vBits, c.vStart, page) ==> PageAgrees(s, m, dir, page)
  }

  /** After boot everything agrees but, perhaps, for pages mapped by chance. */
  lemma AllButPagesAgree(allMemSize: nat, m: P.Memory)
    requires USED <= allMemSize < 0x1_0000_0000 && P.Booted(m)
    requires forall f :: 0 <= f < allMemSize / 0x1000 ==> f in m
    ensures var c, s := PoolConfig(PoolInit(allMemSize)), EmptyPools(PoolInit(allMemSize));
            && c.vStart + |s.vBits| <= P.SELF * SLOTS && |s.vBits| < 0x8000
            && c.vStart == KERNEL_HEAP_PAGE && s.pages == map[]
            && (Agrees(c, s, m, P.BOOT_DIR) <==> PagesAgree(c, s, m, P.BOOT_DIR))
  {
    var l := PoolInit(allMemSize);
    var c, s := PoolConfig(l), EmptyPools(l);
    P.BootedIsLinked(m);
    PoolsInsideMemory(allMemSize);
    assert |s.vBits| < 0x8000 && (forall i: nat :: Managed(c, s, i) ==> 768 <= i < P.SELF);
    forall f | InPools(c, s, f)
      ensures f in m && 0x200 <= f < 0x10_0000
    {
    }
    forall i | 0 <= i < P.SELF
      ensures SlotAgrees(c, s, m, P.BOOT_DIR, i)
    {
      assert i == 0 || 0 < i < 768 || 768 <= i;
    }
    forall i, j | 0 <= i < j < P.SELF
      ensures SlotsApart(c, s, m, P.BOOT_DIR, i, j)
    {
    }
  }

  /** With the tables as the loader leaves them and all frames of the pools there, the empty pools and the
      page tables agree exactly if the words for the heap, which the loader does not write, are blank. */
  lemma BootAgreesIff(allMemSize: nat, m: P.Memory)
    requires USED <= allMemSize < 0x1_0000_0000 && P.Booted(m)
    requires forall f :: 0 <= f < allMemSize / 0x1000 ==> f in m
    ensures var l := PoolInit(allMemSize);
            Agrees(PoolConfig(l), EmptyPools(l), m, P.BOOT_DIR) <==> TablesBlank(m, EmptyPools(l))
  {
    var l := PoolInit(allMemSize);
    var c, s := PoolConfig(l), EmptyPools(l);
    AllButPagesAgree(allMemSize, m);
    hide Agrees, EmptyPools, PoolConfig, PoolInit, P.Booted;
    forall page: nat | InMap(s.vBits, c.vStart, page)
      ensures Slot(page) < SLOTS
      ensures PageAgrees(s, m, P.BOOT_DIR, page) <==> BlankWord(m, 256 + page - c.vStart)
    {
      HeapWord(m, s, page - c.vStart);
    }
    if PagesAgree(c, s, m, P.BOOT_DIR) {
      forall w: nat | 256 <= w < 256 + |s.vBits|
        ensures BlankWord(m, w)
      {
        var page := c.vStart + w - 256;
        assert InMap(s.vBits, c.vStart, page) && PageAgrees(s, m, P.BOOT_DIR, page);
      }
    }
  }
}
