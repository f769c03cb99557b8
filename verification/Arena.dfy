/** The arenas of Mem_Malloc and sys_free (kernel/memory.c:339-362, 440-526 and 572-617) as values: seven
    classes of small blocks, each cut from single pages and kept on a free list, and whole pages for
    everything larger. An arena's header is found by masking the address of a block. `KernelHeap` has the
    operations in place, over the page pools. */
module Arena {
  import opened Common

  const PAGE := 4096
  const HEADER := 12
  const CLASSES := 7

  /** Mem_BlockDescInit: sizes 16, 32, ... 1024 and how many blocks a page holds behind its header. */
  function BlockSize(idx: nat): (s: nat)
    requires idx < CLASSES
    ensures 16 <= s <= 1024
  {
    if idx == 0 then 16 else if idx == 1 then 32 else if idx == 2 then 64 else if idx == 3 then 128
    else if idx == 4 then 256 else if idx == 5 then 512 else 1024
  }

  /** Each class is twice as large as the one before. */
  lemma SizesDouble(idx: nat)
    requires idx < CLASSES
    ensures BlockSize(0) == 16 && (idx + 1 < CLASSES ==> BlockSize(idx + 1) == 2 * BlockSize(idx))
    ensures BlockSize(CLASSES - 1) == 1024
  {
  }

  /** As many blocks as a page holds: not one more would fit. */
  function PerArena(idx: nat): (n: nat)
    requires idx < CLASSES
    ensures n > 1 && HEADER + n * BlockSize(idx) <= PAGE < HEADER + (n + 1) * BlockSize(idx)
  {
    (PAGE - HEADER) / BlockSize(idx)
  }

  /** Mem_Arena2Block. */
  function BlockAddr(page: nat, idx: nat, k: nat): (a: nat)
    requires idx < CLASSES
  {
    page + HEADER + k * BlockSize(idx)
  }

  /** Mem_Block2Arena. */
  function PageOf(addr: nat): nat {
    addr - addr % PAGE
  }

  /** A block lies behind the header, inside its page, so masking its address gives the page; blocks do not
      overlap. */
  lemma BlockInPage(page: nat, idx: nat, k: nat)
    requires page % PAGE == 0 && idx < CLASSES && k < PerArena(idx)
    ensures PageOf(BlockAddr(page, idx, k)) == page
    ensures page + HEADER <= BlockAddr(page, idx, k)
    ensures BlockAddr(page, idx, k) + BlockSize(idx) <= page + PAGE
  {
    var s := BlockSize(idx);
    assert k * s + s == (k + 1) * s <= PerArena(idx) * s;
  }

  lemma BlocksApart(page: nat, idx: nat, j: nat, k: nat)
    requires idx < CLASSES && j < k
    ensures BlockAddr(page, idx, j) + BlockSize(idx) <= BlockAddr(page, idx, k)
  {
    var s := BlockSize(idx);
    assert j * s + s == (j + 1) * s <= k * s;
  }

  // ---------------------------------------------------------------- the heap

  datatype Header = Small(idx: nat, cnt: nat) | Large(pages: nat)

  /** Arenas by page, the free list of each class, and the blocks handed out with the sizes asked for. */
  datatype Heap = Heap(arenas: map<nat, Header>, lists: seq<seq<nat>>, live: map<nat, nat>)

  ghost predicate IsBlock(x: nat, page: nat, idx: nat)
    requires idx < CLASSES
  {
    exists k: nat :: k < PerArena(idx) && x == BlockAddr(page, idx, k)
  }

  /** Bytes an arena takes up. */
  function Span(a: Header): nat {
    match a
    case Small(_, _) => PAGE
    case Large(pages) => PAGE * pages
  }

  /** The blocks of a page that are on a list. */
  function OnList(list: seq<nat>, page: nat): set<nat> {
    set x | x in list && PageOf(x) == page
  }

  /** The count of a small arena is the number of its blocks on the free list of its class; not all of them
      are, unless the page is in `full`. A large arena belongs to one block. */
  ghost predicate ArenaOk(h: Heap, page: nat, full: set<nat>)
    requires |h.lists| == CLASSES
  {
    && page in h.arenas && page % PAGE == 0
    && match h.arenas[page]
       case Small(idx, cnt) =>
         && idx < CLASSES && |OnList(h.lists[idx], page)| == cnt
         && (page in full || cnt < PerArena(idx))
         && forall k: nat :: k < PerArena(idx) ==>
              (BlockAddr(page, idx, k) in h.lists[idx] <==> BlockAddr(page, idx, k) !in h.live)
       case Large(pages) => pages > 0 && page + HEADER in h.live
  }

  /** What is on a free list is a block of a small arena of that class. */
  ghost predicate FreeOk(h: Heap, idx: nat, x: nat)
    requires idx < CLASSES
  {
    PageOf(x) in h.arenas && h.arenas[PageOf(x)].Small? && h.arenas[PageOf(x)].idx == idx && IsBlock(x, PageOf(x), idx)
  }

  /** What is handed out is a block large enough, or the rest of the pages behind a large header. */
  ghost predicate LiveOk(h: Heap, x: nat) {
    && x in h.live && PageOf(x) in h.arenas
    && match h.arenas[PageOf(x)]
       case Small(idx, _) => idx < CLASSES && IsBlock(x, PageOf(x), idx) && h.live[x] <= BlockSize(idx)
       case Large(pages) => x == PageOf(x) + HEADER && HEADER + h.live[x] <= PAGE * pages
  }

  ghost predicate SpansApart(h: Heap, p: nat, q: nat) {
    p in h.arenas && q in h.arenas && (p + Span(h.arenas[p]) <= q || q + Span(h.arenas[q]) <= p)
  }

  ghost predicate InvBut(h: Heap, full: set<nat>) {
    && |h.lists| == CLASSES
    && (forall page {:trigger ArenaOk(h, page, full)} :: page in h.arenas ==> ArenaOk(h, page, full))
    && (forall idx, x {:trigger FreeOk(h, idx, x)} :: 0 <= idx < CLASSES && x in h.lists[idx] ==> FreeOk(h, idx, x))
    && (forall idx {:trigger NoDup(h.lists[idx])} :: 0 <= idx < CLASSES ==> NoDup(h.lists[idx]))
    && (forall x {:trigger LiveOk(h, x)} :: x in h.live ==> LiveOk(h, x))
    && (forall p, q {:trigger SpansApart(h, p, q)} :: p in h.arenas && q in h.arenas && p != q ==> SpansApart(h, p, q))
  }

  ghost predicate Inv(h: Heap) {
    InvBut(h, {})
  }

  // ---------------------------------------------------------------- what the invariant means

  /** Blocks in use never overlap, and each is as large as asked for inside its arena. */
  lemma LiveBlocksApart(h: Heap, full: set<nat>, x: nat, y: nat)
    requires InvBut(h, full) && x in h.live && y in h.live && x != y
    ensures x + h.live[x] <= y || y + h.live[y] <= x
  {
    LiveInsideArena(h, full, x);
    LiveInsideArena(h, full, y);
    var p, q := PageOf(x), PageOf(y);
    assert LiveOk(h, x) && LiveOk(h, y) && ArenaOk(h, p, full);
    if p != q {
      assert SpansApart(h, p, q);
    } else {
      var idx := h.arenas[p].idx;
      var j: nat :| j < PerArena(idx) && x == BlockAddr(p, idx, j);
      var k: nat :| k < PerArena(idx) && y == BlockAddr(p, idx, k);
      if j < k { BlocksApart(p, idx, j, k); } else { BlocksApart(p, idx, k, j); }
    }
  }

  lemma LiveInsideArena(h: Heap, full: set<nat>, x: nat)
    requires InvBut(h, full) && x in h.live
    ensures PageOf(x) in h.arenas && PageOf(x) + HEADER <= x
    ensures x + h.live[x] <= PageOf(x) + Span(h.arenas[PageOf(x)])
  {
    var page := PageOf(x);
    assert LiveOk(h, x) && ArenaOk(h, page, full);
    match h.arenas[page] {
      case Small(idx, cnt) =>
        var k: nat :| k < PerArena(idx) && x == BlockAddr(page, idx, k);
        BlockInPage(page, idx, k);
      case Large(pages) =>
    }
  }

  /** All blocks of a page. */
  function AllBlocks(page: nat, idx: nat, n: nat): set<nat>
    requires idx < CLASSES
  {
    set k: nat | k < n :: BlockAddr(page, idx, k)
  }

  lemma {:induction false} BlockCount(page: nat, idx: nat, n: nat)
    requires idx < CLASSES
    ensures |AllBlocks(page, idx, n)| == n
  {
    if n > 0 {
      BlockCount(page, idx, n - 1);
      var last := BlockAddr(page, idx, n - 1);
      forall k: nat | k < n - 1
        ensures BlockAddr(page, idx, k) != last
      {
        BlocksApart(page, idx, k, n - 1);
      }
      assert AllBlocks(page, idx, n) == AllBlocks(page, idx, n - 1) + {last};
    } else {
      assert AllBlocks(page, idx, 0) == {};
    }
  }

  lemma SameSize(a: set<nat>, b: set<nat>)
    requires a <= b && |a| == |b|
    ensures a == b
  {
    assert |b - a| == |b| - |a| == 0;
    assert b == a + (b - a);
  }

  /** The blocks of a small arena on its list are blocks of its page; with a count of PerArena they are all. */
  lemma ListedBlocks(h: Heap, page: nat, full: set<nat>)
    requires InvBut(h, full) && page in h.arenas && h.arenas[page].Small?
    ensures var a := h.arenas[page];
            && a.idx < CLASSES && OnList(h.lists[a.idx], page) <= AllBlocks(page, a.idx, PerArena(a.idx))
            && a.cnt <= PerArena(a.idx)
            && (a.cnt == PerArena(a.idx) ==> OnList(h.lists[a.idx], page) == AllBlocks(page, a.idx, PerArena(a.idx)))
  {
    assert ArenaOk(h, page, full);
    var idx := h.arenas[page].idx;
    var on, all := OnList(h.lists[idx], page), AllBlocks(page, idx, PerArena(idx));
    forall x | x in on
      ensures x in all
    {
      assert FreeOk(h, idx, x);
    }
    BlockCount(page, idx, PerArena(idx));
    Subset(on, all);
    if |on| == |all| { SameSize(on, all); }
  }

  lemma Subset(a: set<nat>, b: set<nat>)
    requires a <= b
    ensures |a| <= |b|
  {
    assert |b - a| == |b| - |a|;
  }

  /** With everything given back, no arena is left, and no list has a block. */
  lemma NothingLeaks(h: Heap)
    requires Inv(h) && h.live == map[]
    ensures h.arenas == map[] && forall idx :: 0 <= idx < CLASSES ==> h.lists[idx] == []
  {
    forall page | page in h.arenas
      ensures false
    {
      assert ArenaOk(h, page, {});
      var idx := h.arenas[page].idx;
      var on, all := OnList(h.lists[idx], page), AllBlocks(page, idx, PerArena(idx));
      forall k: nat | k < PerArena(idx)
        ensures BlockAddr(page, idx, k) in on
      {
        BlockInPage(page, idx, k);
      }
      BlockCount(page, idx, PerArena(idx));
      assert all <= on;
      Subset(all, on);
    }
    forall idx | 0 <= idx < CLASSES
      ensures h.lists[idx] == []
    {
      assert h.lists[idx] != [] ==> FreeOk(h, idx, h.lists[idx][0]);
    }
  }

  // ---------------------------------------------------------------- small blocks

  /** The page has been cut up: all blocks at the end of the list of the class. */
  function Carved(h: Heap, page: nat, idx: nat): Heap
    requires idx < CLASSES && |h.lists| == CLASSES
  {
    h.(arenas := h.arenas[page := Small(idx, PerArena(idx))],
       lists := h.lists[idx := h.lists[idx] + Blocks(page, idx, PerArena(idx))])
  }

  /** The first n blocks of a page, in order. */
  function Blocks(page: nat, idx: nat, n: nat): (r: seq<nat>)
    requires idx < CLASSES
    ensures |r| == n && forall k :: 0 <= k < n ==> r[k] == BlockAddr(page, idx, k)
  {
    seq(n, k requires 0 <= k < n => BlockAddr(page, idx, k))
  }

  /** The pages from `page` on are taken by no arena. */
  ghost predicate Fresh(h: Heap, page: nat, pages: nat) {
    && page % PAGE == 0 && pages > 0
    && forall p {:trigger h.arenas[p]} :: p in h.arenas ==> page + PAGE * pages <= p || p + Span(h.arenas[p]) <= page
  }

  /** No address of a fresh page is on a list or handed out. */
  lemma FreshIsUnused(h: Heap, page: nat, pages: nat, x: nat)
    requires Inv(h) && Fresh(h, page, pages) && page <= x < page + PAGE * pages
    ensures page !in h.arenas && PageOf(x) !in h.arenas && x !in h.live
    ensures forall idx :: 0 <= idx < CLASSES ==> x !in h.lists[idx]
  {
    assert page in h.arenas ==> ArenaOk(h, page, {});
    assert PageOf(x) in h.arenas ==> ArenaOk(h, PageOf(x), {});
    assert x in h.live ==> LiveOk(h, x);
    forall idx | 0 <= idx < CLASSES
      ensures x !in h.lists[idx]
    {
      assert x in h.lists[idx] ==> FreeOk(h, idx, x);
    }
    assert page <= PageOf(x) < page + PAGE * pages;
  }

  lemma OnListOfBlocks(page: nat, idx: nat)
    requires idx < CLASSES && page % PAGE == 0
    ensures OnList(Blocks(page, idx, PerArena(idx)), page) == AllBlocks(page, idx, PerArena(idx))
    ensures NoDup(Blocks(page, idx, PerArena(idx)))
  {
    var q := Blocks(page, idx, PerArena(idx));
    forall k: nat | k < PerArena(idx)
      ensures q[k] in OnList(q, page)
    {
      BlockInPage(page, idx, k);
    }
    forall i, j | 0 <= i < j < |q|
      ensures q[i] != q[j]
    {
      BlocksApart(page, idx, i, j);
    }
  }

  /** Cutting up a fresh page, of which all blocks are free until the first is handed out. */
  lemma CarvedKeepsInv(h: Heap, page: nat, idx: nat)
    requires Inv(h) && idx < CLASSES && Fresh(h, page, 1)
    ensures InvBut(Carved(h, page, idx), {page})
  {
    var t, q := Carved(h, page, idx), Blocks(page, idx, PerArena(idx));
    FreshIsUnused(h, page, 1, page);
    OnListOfBlocks(page, idx);
    BlockCount(page, idx, PerArena(idx));
    forall x | x in q
      ensures page <= x < page + PAGE && PageOf(x) == page && IsBlock(x, page, idx) && x !in h.live
      ensures forall i :: 0 <= i < CLASSES ==> x !in h.lists[i]
    {
      var k: nat :| k < PerArena(idx) && x == BlockAddr(page, idx, k);
      BlockInPage(page, idx, k);
      FreshIsUnused(h, page, 1, x);
    }
    forall p | p in t.arenas
      ensures ArenaOk(t, p, {page})
    {
      CarvedArena(h, page, idx, p);
    }
    forall i, x | 0 <= i < CLASSES && x in t.lists[i]
      ensures FreeOk(t, i, x)
    {
      assert x in h.lists[i] ==> FreeOk(h, i, x);
    }
    forall i | 0 <= i < CLASSES
      ensures NoDup(t.lists[i])
    {
      assert NoDup(h.lists[i]);
    }
    forall x | x in t.live
      ensures LiveOk(t, x)
    {
      assert LiveOk(h, x);
    }
    forall p, r | p in t.arenas && r in t.arenas && p != r
      ensures SpansApart(t, p, r)
    {
      if p != page && r != page { assert SpansApart(h, p, r); }
    }
  }

  lemma CarvedArena(h: Heap, page: nat, idx: nat, p: nat)
    requires Inv(h) && idx < CLASSES && Fresh(h, page, 1) && page !in h.arenas
    requires p == page || p in h.arenas
    requires forall x :: x in Blocks(page, idx, PerArena(idx)) ==>
               PageOf(x) == page && x !in h.live && forall i :: 0 <= i < CLASSES ==> x !in h.lists[i]
    requires |AllBlocks(page, idx, PerArena(idx))| == PerArena(idx)
    requires OnList(Blocks(page, idx, PerArena(idx)), page) == AllBlocks(page, idx, PerArena(idx))
    ensures ArenaOk(Carved(h, page, idx), p, {page})
  {
    var t, q := Carved(h, page, idx), Blocks(page, idx, PerArena(idx));
    if p == page {
      forall x | x in OnList(t.lists[idx], page)
        ensures x in OnList(q, page)
      {
        assert x in h.lists[idx] ==> FreeOk(h, idx, x);
      }
      assert OnList(t.lists[idx], page) == OnList(q, page);
      forall k: nat | k < PerArena(idx)
        ensures BlockAddr(page, idx, k) in q
      {
        assert q[k] == BlockAddr(page, idx, k);
      }
    } else {
      assert ArenaOk(h, p, {});
      if h.arenas[p].Small? {
        var i := h.arenas[p].idx;
        assert OnList(t.lists[i], p) == OnList(h.lists[i], p);
        forall k: nat | k < PerArena(i)
          ensures BlockAddr(p, i, k) !in q
        {
          BlockInPage(p, i, k);
        }
      }
    }
  }

  /** The head of a list is handed out. */
  function Handed(h: Heap, idx: nat, size: nat): Heap
    requires idx < |h.lists| && h.lists[idx] != []
  {
    var x := h.lists[idx][0];
    var page := PageOf(x);
    var cnt := if page in h.arenas && h.arenas[page].Small? && h.arenas[page].cnt > 0
              then h.arenas[page].cnt - 1 else 0;
    h.(arenas := h.arenas[page := Small(idx, cnt)],
       lists := h.lists[idx := h.lists[idx][1..]],
       live := h.live[x := size])
  }

  lemma OnListTail(list: seq<nat>, page: nat)
    requires list != [] && NoDup(list) && PageOf(list[0]) == page
    ensures |OnList(list[1..], page)| == |OnList(list, page)| - 1
  {
    assert list == [list[0]] + list[1..];
    assert OnList(list, page) == OnList(list[1..], page) + {list[0]};
  }

  lemma HandedKeepsInv(h: Heap, idx: nat, size: nat, full: set<nat>)
    requires InvBut(h, full) && idx < CLASSES && h.lists[idx] != [] && size <= BlockSize(idx)
    requires full <= {PageOf(h.lists[idx][0])}
    ensures Inv(Handed(h, idx, size)) && h.lists[idx][0] !in h.live
  {
    var t, x := Handed(h, idx, size), h.lists[idx][0];
    var page := PageOf(x);
    assert FreeOk(h, idx, x) && ArenaOk(h, page, full) && NoDup(h.lists[idx]);
    ListedBlocks(h, page, full);
    OnListTail(h.lists[idx], page);
    var k: nat :| k < PerArena(idx) && x == BlockAddr(page, idx, k);
    assert x !in h.live && x !in h.lists[idx][1..];
    forall p | p in t.arenas
      ensures ArenaOk(t, p, {})
    {
      HandedArena(h, idx, size, full, p);
    }
    forall i, y | 0 <= i < CLASSES && y in t.lists[i]
      ensures FreeOk(t, i, y)
    {
      assert FreeOk(h, i, y);
    }
    forall i | 0 <= i < CLASSES
      ensures NoDup(t.lists[i])
    {
      assert NoDup(h.lists[i]);
    }
    forall y | y in t.live
      ensures LiveOk(t, y)
    {
      assert y != x ==> LiveOk(h, y);
    }
    forall p, q | p in t.arenas && q in t.arenas && p != q
      ensures SpansApart(t, p, q)
    {
      assert SpansApart(h, p, q);
    }
  }

  lemma HandedArena(h: Heap, idx: nat, size: nat, full: set<nat>, p: nat)
    requires InvBut(h, full) && idx < CLASSES && h.lists[idx] != [] && full <= {PageOf(h.lists[idx][0])}
    requires p in h.arenas
    ensures ArenaOk(Handed(h, idx, size), p, {})
  {
    var t, x := Handed(h, idx, size), h.lists[idx][0];
    var page := PageOf(x);
    assert FreeOk(h, idx, x) && ArenaOk(h, page, full) && ArenaOk(h, p, full) && NoDup(h.lists[idx]);
    ListedBlocks(h, page, full);
    OnListTail(h.lists[idx], page);
    if h.arenas[p].Small? {
      var i := h.arenas[p].idx;
      if p != page { assert OnList(t.lists[i], p) == OnList(h.lists[i], p); }
      forall k: nat | k < PerArena(i)
        ensures BlockAddr(p, i, k) in t.lists[i] <==> BlockAddr(p, i, k) !in t.live
      {
        BlockInPage(p, i, k);
      }
    } else {
      assert LiveOk(h, p + HEADER);
    }
  }

  /** A small block comes back to the end of its list. */
  function Returned(h: Heap, x: nat): Heap
    requires |h.lists| == CLASSES && PageOf(x) in h.arenas
    requires h.arenas[PageOf(x)].Small? && h.arenas[PageOf(x)].idx < CLASSES
  {
    var a := h.arenas[PageOf(x)];
    h.(arenas := h.arenas[PageOf(x) := Small(a.idx, a.cnt + 1)],
       lists := h.lists[a.idx := h.lists[a.idx] + [x]],
       live := h.live - {x})
  }

  /** A small block in use: what the header found by masking says of it. */
  lemma SmallLive(h: Heap, x: nat)
    requires Inv(h) && x in h.live && PageOf(x) in h.arenas && h.arenas[PageOf(x)].Small?
    ensures var a := h.arenas[PageOf(x)];
            && a.idx < CLASSES && a.cnt < PerArena(a.idx) && IsBlock(x, PageOf(x), a.idx)
            && forall i :: 0 <= i < CLASSES ==> x !in h.lists[i]
  {
    assert LiveOk(h, x) && ArenaOk(h, PageOf(x), {});
    forall i | 0 <= i < CLASSES
      ensures x !in h.lists[i]
    {
      assert x in h.lists[i] ==> FreeOk(h, i, x);
    }
  }

  lemma ReturnedKeepsInv(h: Heap, x: nat)
    requires Inv(h) && x in h.live && PageOf(x) in h.arenas && h.arenas[PageOf(x)].Small?
    ensures h.arenas[PageOf(x)].idx < CLASSES && InvBut(Returned(h, x), {PageOf(x)})
  {
    SmallLive(h, x);
    var t, page, idx := Returned(h, x), PageOf(x), h.arenas[PageOf(x)].idx;
    forall p | p in t.arenas
      ensures ArenaOk(t, p, {page})
    {
      ReturnedArena(h, x, p);
    }
    forall i, y | 0 <= i < CLASSES && y in t.lists[i]
      ensures FreeOk(t, i, y)
    {
      assert y != x ==> FreeOk(h, i, y);
    }
    forall i | 0 <= i < CLASSES
      ensures NoDup(t.lists[i])
    {
      assert NoDup(h.lists[i]);
    }
    forall y | y in t.live
      ensures LiveOk(t, y)
    {
      assert LiveOk(h, y);
    }
    forall p, q | p in t.arenas && q in t.arenas && p != q
      ensures SpansApart(t, p, q)
    {
      assert SpansApart(h, p, q);
    }
  }

  lemma OnListMore(list: seq<nat>, x: nat, page: nat)
    ensures OnList(list + [x], page) == if PageOf(x) == page then OnList(list, page) + {x} else OnList(list, page)
  {
  }

  lemma ReturnedArena(h: Heap, x: nat, p: nat)
    requires Inv(h) && x in h.live && PageOf(x) in h.arenas && h.arenas[PageOf(x)].Small?
    requires h.arenas[PageOf(x)].idx < CLASSES && p in h.arenas
    ensures ArenaOk(Returned(h, x), p, {PageOf(x)})
  {
    SmallLive(h, x);
    assert ArenaOk(h, p, {});
    hide Inv, PageOf, OnList, BlockAddr, PerArena;
    var t, page := Returned(h, x), PageOf(x);
    if h.arenas[p].Small? {
      var i := h.arenas[p].idx;
      OnListMore(h.lists[i], x, p);
      forall k: nat | k < PerArena(i)
        ensures BlockAddr(p, i, k) in t.lists[i] <==> BlockAddr(p, i, k) !in t.live
      {
        BlockInPage(p, i, k);
      }
      NotOnList(h.lists[i], x, p);
    } else {
      assert p + HEADER in h.live && p != page;
      LargeBlock(h, p);
    }
  }

  lemma NotOnList(list: seq<nat>, x: nat, page: nat)
    requires x !in list
    ensures x !in OnList(list, page)
  {
  }

  lemma LargeBlock(h: Heap, p: nat)
    requires p % PAGE == 0
    ensures PageOf(p + HEADER) == p
  {
  }

  /** A list without the addresses of a set, in order. */
  function Without(list: seq<nat>, gone: set<nat>): (r: seq<nat>)
    ensures forall x :: x in r <==> x in list && x !in gone
  {
    if list == [] then []
    else if list[0] in gone then Without(list[1..], gone)
    else [list[0]] + Without(list[1..], gone)
  }

  /** Taking off a list keeps the order of the rest. */
  lemma {:induction false} WithoutKeepsOrder(a: seq<nat>, b: seq<nat>, gone: set<nat>)
    ensures Without(a + b, gone) == Without(a, gone) + Without(b, gone)
    ensures forall x :: Without([x], gone) == if x in gone then [] else [x]
  {
    if a == [] {
      assert a + b == b;
    } else {
      assert (a + b)[1..] == a[1..] + b;
      WithoutKeepsOrder(a[1..], b, gone);
    }
  }

  lemma {:induction false} WithoutNoDup(list: seq<nat>, gone: set<nat>)
    requires NoDup(list)
    ensures NoDup(Without(list, gone))
  {
    if list != [] {
      assert NoDup(list[1..]);
      WithoutNoDup(list[1..], gone);
      assert list[0] !in list[1..];
    }
  }

  lemma {:induction false} WithoutNone(list: seq<nat>)
    ensures Without(list, {}) == list
  {
    if list != [] { WithoutNone(list[1..]); }
  }

  lemma {:induction false} WithoutTwice(list: seq<nat>, gone: set<nat>, x: nat)
    ensures Without(Without(list, gone), {x}) == Without(list, gone + {x})
  {
    if list != [] {
      var rest := Without(list[1..], gone);
      WithoutTwice(list[1..], gone, x);
      if list[0] !in gone {
        assert Without(list, gone)[0] == list[0] && Without(list, gone)[1..] == rest;
      }
    }
  }

  /** Taking out an element that occurs once is List_Remove. */
  lemma {:induction false} WithoutAt(list: seq<nat>, k: nat)
    requires NoDup(list) && k < |list|
    ensures Without(list, {list[k]}) == list[..k] + list[k + 1..]
  {
    if k == 0 {
      NoSuch(list[1..], list[0]);
    } else {
      assert list[1..][k - 1] == list[k] && NoDup(list[1..]);
      WithoutAt(list[1..], k - 1);
      assert list[..k] + list[k + 1..] == [list[0]] + (list[1..][..k - 1] + list[1..][k..]);
    }
  }

  lemma {:induction false} NoSuch(list: seq<nat>, x: nat)
    requires x !in list
    ensures Without(list, {x}) == list
  {
    if list != [] { NoSuch(list[1..], x); }
  }

  /** An arena whose blocks are all free has been given up: its blocks are off the list, its page is gone. */
  function Dropped(h: Heap, page: nat): Heap
    requires |h.lists| == CLASSES && page in h.arenas && h.arenas[page].Small? && h.arenas[page].idx < CLASSES
  {
    var idx := h.arenas[page].idx;
    h.(arenas := h.arenas - {page},
       lists := h.lists[idx := Without(h.lists[idx], AllBlocks(page, idx, PerArena(idx)))])
  }

  lemma IsOneOfAll(x: nat, page: nat, idx: nat)
    requires idx < CLASSES && IsBlock(x, page, idx)
    ensures x in AllBlocks(page, idx, PerArena(idx))
  {
  }

  /** No block of such a page is in use. */
  lemma NoneLive(h: Heap, page: nat)
    requires InvBut(h, {page}) && page in h.arenas && h.arenas[page].Small? && h.arenas[page].idx < CLASSES
    requires h.arenas[page].cnt == PerArena(h.arenas[page].idx)
    ensures forall x :: x in h.live ==> PageOf(x) != page
  {
    ListedBlocks(h, page, {page});
    assert ArenaOk(h, page, {page});
    forall x | x in h.live
      ensures PageOf(x) != page
    {
      assert LiveOk(h, x);
      if PageOf(x) == page { IsOneOfAll(x, page, h.arenas[page].idx); }
    }
  }

  lemma DroppedKeepsInv(h: Heap, page: nat)
    requires InvBut(h, {page}) && page in h.arenas && h.arenas[page].Small? && h.arenas[page].idx < CLASSES
    requires h.arenas[page].cnt == PerArena(h.arenas[page].idx)
    ensures Inv(Dropped(h, page))
  {
    var t, idx := Dropped(h, page), h.arenas[page].idx;
    ListedBlocks(h, page, {page});
    NoneLive(h, page);
    forall p | p in t.arenas
      ensures ArenaOk(t, p, {})
    {
      DroppedArena(h, page, p);
    }
    forall i, y | 0 <= i < CLASSES && y in t.lists[i]
      ensures FreeOk(t, i, y)
    {
      assert FreeOk(h, i, y);
    }
    forall i | 0 <= i < CLASSES
      ensures NoDup(t.lists[i])
    {
      assert NoDup(h.lists[i]);
      WithoutNoDup(h.lists[i], AllBlocks(page, idx, PerArena(idx)));
    }
    forall y | y in t.live
      ensures LiveOk(t, y)
    {
      assert LiveOk(h, y);
    }
    forall p, q | p in t.arenas && q in t.arenas && p != q
      ensures SpansApart(t, p, q)
    {
      assert SpansApart(h, p, q);
    }
  }

  lemma DroppedArena(h: Heap, page: nat, p: nat)
    requires InvBut(h, {page}) && page in h.arenas && h.arenas[page].Small? && h.arenas[page].idx < CLASSES
    requires p in h.arenas && p != page
    ensures ArenaOk(Dropped(h, page), p, {})
  {
    var t, idx := Dropped(h, page), h.arenas[page].idx;
    assert ArenaOk(h, p, {page}) && ArenaOk(h, page, {page});
    if h.arenas[p].Small? {
      var i := h.arenas[p].idx;
      forall x | PageOf(x) == p
        ensures x in t.lists[i] <==> x in h.lists[i]
      {
        if x in AllBlocks(page, idx, PerArena(idx)) {
          var k: nat :| k < PerArena(idx) && x == BlockAddr(page, idx, k);
          BlockInPage(page, idx, k);
        }
      }
      assert OnList(t.lists[i], p) == OnList(h.lists[i], p);
      forall k: nat | k < PerArena(i)
        ensures BlockAddr(p, i, k) in t.lists[i] <==> BlockAddr(p, i, k) in h.lists[i]
      {
        BlockInPage(p, i, k);
      }
    }
  }

  /** With a block of the page still in use the heap is in order as it is. */
  lemma NotFullIsInv(h: Heap, page: nat)
    requires InvBut(h, {page}) && page in h.arenas
    requires h.arenas[page].Small? && h.arenas[page].idx < CLASSES && h.arenas[page].cnt < PerArena(h.arenas[page].idx)
    ensures Inv(h)
  {
    forall p | p in h.arenas
      ensures ArenaOk(h, p, {})
    {
      assert ArenaOk(h, p, {page});
    }
  }

  // ---------------------------------------------------------------- large blocks

  /** Pages for a block of more than 1024 bytes, header included. */
  function PagesFor(size: nat): (n: nat)
    ensures n > 0 && HEADER + size <= PAGE * n < HEADER + size + PAGE
  {
    (size + HEADER + PAGE - 1) / PAGE
  }

  function LargeHanded(h: Heap, page: nat, size: nat): Heap {
    h.(arenas := h.arenas[page := Large(PagesFor(size))], live := h.live[page + HEADER := size])
  }

  lemma LargeKeepsInv(h: Heap, page: nat, size: nat)
    requires Inv(h) && Fresh(h, page, PagesFor(size))
    ensures Inv(LargeHanded(h, page, size)) && page + HEADER !in h.live && PageOf(page + HEADER) == page
  {
    var t, x := LargeHanded(h, page, size), page + HEADER;
    FreshIsUnused(h, page, PagesFor(size), page);
    FreshIsUnused(h, page, PagesFor(size), x);
    forall p | p in t.arenas
      ensures ArenaOk(t, p, {})
    {
      if p != page {
        assert ArenaOk(h, p, {});
        if h.arenas[p].Small? {
          forall k: nat | k < PerArena(h.arenas[p].idx)
            ensures BlockAddr(p, h.arenas[p].idx, k) != x
          {
            BlockInPage(p, h.arenas[p].idx, k);
          }
        }
      }
    }
    forall i, y | 0 <= i < CLASSES && y in t.lists[i]
      ensures FreeOk(t, i, y)
    {
      assert FreeOk(h, i, y);
    }
    forall i | 0 <= i < CLASSES
      ensures NoDup(t.lists[i])
    {
      assert NoDup(h.lists[i]);
    }
    forall y | y in t.live
      ensures LiveOk(t, y)
    {
      assert y != x ==> LiveOk(h, y);
    }
    forall p, q | p in t.arenas && q in t.arenas && p != q
      ensures SpansApart(t, p, q)
    {
      assert p != page && q != page ==> SpansApart(h, p, q);
    }
  }

  function LargeDropped(h: Heap, x: nat): Heap {
    h.(arenas := h.arenas - {PageOf(x)}, live := h.live - {x})
  }

  lemma LargeDroppedKeepsInv(h: Heap, x: nat)
    requires Inv(h) && x in h.live && PageOf(x) in h.arenas && h.arenas[PageOf(x)].Large?
    ensures Inv(LargeDropped(h, x))
  {
    var t, page := LargeDropped(h, x), PageOf(x);
    assert LiveOk(h, x);
    forall p | p in t.arenas
      ensures ArenaOk(t, p, {})
    {
      assert ArenaOk(h, p, {});
      if h.arenas[p].Small? {
        forall k: nat | k < PerArena(h.arenas[p].idx)
          ensures BlockAddr(p, h.arenas[p].idx, k) != x
        {
          BlockInPage(p, h.arenas[p].idx, k);
        }
      }
    }
    forall i, y | 0 <= i < CLASSES && y in t.lists[i]
      ensures FreeOk(t, i, y)
    {
      assert FreeOk(h, i, y);
    }
    forall i | 0 <= i < CLASSES
      ensures NoDup(t.lists[i])
    {
      assert NoDup(h.lists[i]);
    }
    forall y | y in t.live
      ensures LiveOk(t, y)
    {
      assert LiveOk(h, y);
    }
    forall p, q | p in t.arenas && q in t.arenas && p != q
      ensures SpansApart(t, p, q)
    {
      assert SpansApart(h, p, q);
    }
  }

  // ---------------------------------------------------------------- Mem_Malloc and sys_free

  /** The smallest class that is large enough. */
  function ClassFor(size: nat): (idx: nat)
    requires size <= 1024
    ensures idx < CLASSES && size <= BlockSize(idx) && (idx > 0 ==> BlockSize(idx - 1) < size)
  {
    if size <= 16 then 0 else if size <= 32 then 1 else if size <= 64 then 2 else if size <= 128 then 3
    else if size <= 256 then 4 else if size <= 512 then 5 else 6
  }

  /** Pages that Mem_Malloc may ask for. */
  function PagesWanted(size: nat): nat {
    if size > 1024 then PagesFor(size) else 1
  }

  /** The heap after a successful Mem_Malloc. */
  function AfterMalloc(h: Heap, size: nat, page: nat): Heap
    requires |h.lists| == CLASSES
  {
    if size > 1024 then LargeHanded(h, page, size)
    else
      var idx := ClassFor(size);
      Handed(if h.lists[idx] == [] then Carved(h, page, idx) else h, idx, size)
  }

  lemma MallocKeepsInv(h: Heap, size: nat, page: nat)
    requires Inv(h)
    requires size > 1024 || h.lists[ClassFor(size)] == [] ==> Fresh(h, page, PagesWanted(size))
    ensures Inv(AfterMalloc(h, size, page))
  {
    if size > 1024 {
      LargeKeepsInv(h, page, size);
    } else {
      var idx := ClassFor(size);
      if h.lists[idx] == [] {
        CarvedKeepsInv(h, page, idx);
        BlockInPage(page, idx, 0);
        HandedKeepsInv(Carved(h, page, idx), idx, size, {page});
      } else {
        HandedKeepsInv(h, idx, size, {});
      }
    }
  }

  /** The heap after sys_free. */
  function AfterFree(h: Heap, x: nat): Heap
    requires |h.lists| == CLASSES && PageOf(x) in h.arenas
    requires h.arenas[PageOf(x)].Small? ==> h.arenas[PageOf(x)].idx < CLASSES
  {
    if h.arenas[PageOf(x)].Large? then LargeDropped(h, x)
    else
      var t := Returned(h, x);
      if t.arenas[PageOf(x)].cnt == PerArena(t.arenas[PageOf(x)].idx) then Dropped(t, PageOf(x)) else t
  }

  lemma FreeKeepsInv(h: Heap, x: nat)
    requires Inv(h) && x in h.live
    ensures PageOf(x) in h.arenas && (h.arenas[PageOf(x)].Small? ==> h.arenas[PageOf(x)].idx < CLASSES)
    ensures Inv(AfterFree(h, x)) && AfterFree(h, x).live == h.live - {x}
  {
    assert LiveOk(h, x);
    if h.arenas[PageOf(x)].Large? {
      LargeDroppedKeepsInv(h, x);
    } else {
      SmallLive(h, x);
      ReturnedKeepsInv(h, x);
      var t := Returned(h, x);
      if t.arenas[PageOf(x)].cnt == PerArena(t.arenas[PageOf(x)].idx) { DroppedKeepsInv(t, PageOf(x)); }
      else { NotFullIsInv(t, PageOf(x)); }
    }
  }

  // ---------------------------------------------------------------- no place is wasted

  /** The place number k behind the header of a page, if it ends inside the page. */
  predicate Fits(idx: nat, k: nat)
    requires idx < CLASSES
  {
    HEADER + (k + 1) * BlockSize(idx) <= PAGE
  }

  lemma FitsIsBlock(idx: nat, k: nat)
    requires idx < CLASSES
    ensures Fits(idx, k) <==> k < PerArena(idx)
  {
    var s, n := BlockSize(idx), PerArena(idx);
    if k < n { assert (k + 1) * s <= n * s; } else { assert (n + 1) * s <= (k + 1) * s; }
  }

  /** Every place of an arena that ends inside its page is a block: on the free list of its class or in use, and not
      both. */
  lemma EveryPlaceIsABlock(h: Heap, page: nat, k: nat)
    requires Inv(h) && page in h.arenas && h.arenas[page].Small?
    ensures h.arenas[page].idx < CLASSES && |h.lists| == CLASSES
    ensures var idx := h.arenas[page].idx;
            Fits(idx, k) ==>
              (page + HEADER + k * BlockSize(idx) in h.lists[idx] <==> page + HEADER + k * BlockSize(idx) !in h.live)
  {
    assert ArenaOk(h, page, {});
    FitsIsBlock(h.arenas[page].idx, k);
    assert Fits(h.arenas[page].idx, k) ==>
             BlockAddr(page, h.arenas[page].idx, k) == page + HEADER + k * BlockSize(h.arenas[page].idx);
  }

  /** So when the free list of a class is empty, every place of every arena of the class is in use. */
  lemma EmptyListMeansFull(h: Heap, idx: nat, page: nat, k: nat)
    requires Inv(h) && idx < CLASSES && h.lists[idx] == [] && page in h.arenas && h.arenas[page].Small?
    requires h.arenas[page].idx == idx && Fits(idx, k)
    ensures page + HEADER + k * BlockSize(idx) in h.live
  {
    EveryPlaceIsABlock(h, page, k);
  }

  // ---------------------------------------------------------------- which block

  /** A small block comes from the front of the list of the smallest class that is large enough; nothing else
      changes. */
  lemma TakenFromFront(h: Heap, size: nat)
    requires Inv(h) && size <= 1024 && h.lists[ClassFor(size)] != []
    ensures var idx := ClassFor(size);
            var x, t := h.lists[idx][0], AfterMalloc(h, size, 0);
            && PageOf(x) in h.arenas && h.arenas[PageOf(x)].Small? && h.arenas[PageOf(x)].cnt > 0
            && t.lists == h.lists[idx := h.lists[idx][1..]] && t.live == h.live[x := size] && x !in h.live
            && t.arenas == h.arenas[PageOf(x) := Small(idx, h.arenas[PageOf(x)].cnt - 1)]
  {
    var idx := ClassFor(size);
    var x := h.lists[idx][0];
    assert FreeOk(h, idx, x) && ArenaOk(h, PageOf(x), {});
    assert x in OnList(h.lists[idx], PageOf(x));
    HandedKeepsInv(h, idx, size, {});
  }

  /** If there is none, from a page cut up for it: the first block of the page, and the others on the list in the
      order of their addresses. */
  lemma TakenFromNewPage(h: Heap, size: nat, page: nat)
    requires Inv(h) && size <= 1024 && h.lists[ClassFor(size)] == [] && Fresh(h, page, 1)
    ensures var idx, t := ClassFor(size), AfterMalloc(h, size, page);
            && t.live == h.live[page + HEADER := size]
            && t.arenas == h.arenas[page := Small(idx, PerArena(idx) - 1)]
            && |t.lists| == |h.lists| && (forall i :: 0 <= i < CLASSES && i != idx ==> t.lists[i] == h.lists[i])
            && |t.lists[idx]| == PerArena(idx) - 1
            && forall k :: 0 <= k < PerArena(idx) - 1 ==> t.lists[idx][k] == page + HEADER + (k + 1) * BlockSize(idx)
  {
    var idx := ClassFor(size);
    BlockInPage(page, idx, 0);
    assert Blocks(page, idx, PerArena(idx))[0] == page + HEADER;
    assert [] + Blocks(page, idx, PerArena(idx)) == Blocks(page, idx, PerArena(idx));
  }

  /** A small block goes to the end of the list of its class, unless it is the last one of its arena: then the blocks
      of the arena leave the list, and the arena goes. */
  lemma GivenToBack(h: Heap, x: nat)
    requires Inv(h) && x in h.live && PageOf(x) in h.arenas && h.arenas[PageOf(x)].Small?
    ensures h.arenas[PageOf(x)].idx < CLASSES && |h.lists| == CLASSES
    ensures var idx, cnt, t := h.arenas[PageOf(x)].idx, h.arenas[PageOf(x)].cnt, AfterFree(h, x);
            && t.live == h.live - {x}
            && (cnt + 1 < PerArena(idx) ==>
                  && t.lists == h.lists[idx := h.lists[idx] + [x]]
                  && t.arenas == h.arenas[PageOf(x) := Small(idx, cnt + 1)])
            && (cnt + 1 >= PerArena(idx) ==>
                  t.arenas == h.arenas - {PageOf(x)}
                  && t.lists == h.lists[idx := Without(h.lists[idx], AllBlocks(PageOf(x), idx, PerArena(idx)))])
  {
    SmallLive(h, x);
    assert ArenaOk(h, PageOf(x), {});
    var idx := h.arenas[PageOf(x)].idx;
    var gone := AllBlocks(PageOf(x), idx, PerArena(idx));
    IsOneOfAll(x, PageOf(x), idx);
    WithoutKeepsOrder(h.lists[idx], [x], gone);
    assert Without(h.lists[idx], gone) + [] == Without(h.lists[idx], gone);
    if h.arenas[PageOf(x)].cnt + 1 >= PerArena(idx) {
      assert h.arenas[PageOf(x) := Small(idx, h.arenas[PageOf(x)].cnt + 1)] - {PageOf(x)} == h.arenas - {PageOf(x)};
    }
  }

  /** On a heap without free blocks of 1024 bytes, three of them come from one page. */
  lemma ThreeFromOnePage(h: Heap, page: nat)
    requires Inv(h) && h.lists[6] == [] && Fresh(h, page, 1)
    ensures var t := AfterMalloc(h, 1024, page);
            |t.lists| == CLASSES && t.lists[6] == [page + 12 + 1024, page + 12 + 2048]
    ensures var t := AfterMalloc(h, 1024, page);
            var u := AfterMalloc(t, 1000, 0);
            |u.lists| == CLASSES && u.lists[6] == [page + 12 + 2048]
            && u.live == h.live[page + 12 := 1024][page + 12 + 1024 := 1000]
            && AfterMalloc(u, 513, 0).live == u.live[page + 12 + 2048 := 513]
  {
    TakenFromNewPage(h, 1024, page);
    MallocKeepsInv(h, 1024, page);
    var t := AfterMalloc(h, 1024, page);
    assert t.lists[6] == [page + 12 + 1024, page + 12 + 2048];
    TakenFromFront(t, 1000);
    MallocKeepsInv(t, 1000, 0);
    TakenFromFront(AfterMalloc(t, 1000, 0), 513);
  }
}
