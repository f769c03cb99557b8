/** The page pools of kernel/memory.c:54-135, 174-252 and 376-437 as values: the maps of frames and linear
    pages, the pages mapped, and the frames that page tables were made of. `PageTables` ties the mapped pages
    to the tables themselves, `PageManager` has the operations in place.

    Repaired: the reservation marks the kernel's map whatever map it was given (memory.c:131;
    `ReservationIsRightIff`), the pool of a frame is told by comparing with a size (memory.c:407;
    `PoolChoiceIsRightIff`), and a missing frame for a table stops the kernel (memory.c:205). */
module PagePools {
  import opened Bitmaps

  datatype Kind = Kernel | User

  /** First frames of the two pools, first linear page, slots with a table since boot, and the frames held
      by other address spaces. */
  datatype Config = Config(kStart: nat, uStart: nat, vStart: nat, boot: set<nat>, others: set<nat>)

  /** The two frame maps, the map of linear pages, the mapped pages and the tables made for them. */
  datatype State = State(kBits: seq<bool>, uBits: seq<bool>, vBits: seq<bool>,
                         pages: map<nat, nat>, tables: map<nat, nat>)

  function Slot(page: nat): nat {
    page / 1024
  }

  predicate InMap(bits: seq<bool>, base: nat, x: nat) {
    base <= x < base + |bits|
  }

  function BitsOf(s: State, kind: Kind): seq<bool> {
    if kind == Kernel then s.kBits else s.uBits
  }

  function StartOf(c: Config, kind: Kind): nat {
    if kind == Kernel then c.kStart else c.uStart
  }

  // ---------------------------------------------------------------- conservation

  ghost predicate Held(c: Config, s: State, frame: nat) {
    frame in s.pages.Values || frame in s.tables.Values || frame in c.others
  }

  /** The set bits of a pool are exactly the frames that are held. */
  ghost predicate Exact(c: Config, s: State, kind: Kind) {
    forall i {:trigger BitsOf(s, kind)[i]} :: 0 <= i < |BitsOf(s, kind)| ==>
      (BitsOf(s, kind)[i] <==> Held(c, s, StartOf(c, kind) + i))
  }

  /** A mapped page has its bit set, its frame comes from one of the pools, its table is there. */
  ghost predicate PageOk(c: Config, s: State, page: nat) {
    && page in s.pages && InMap(s.vBits, c.vStart, page) && s.vBits[page - c.vStart]
    && (InMap(s.kBits, c.kStart, s.pages[page]) || InMap(s.uBits, c.uStart, s.pages[page]))
    && s.pages[page] !in s.tables.Values && s.pages[page] !in c.others
    && (Slot(page) in c.boot || Slot(page) in s.tables)
  }

  ghost predicate TableOk(c: Config, s: State, slot: nat) {
    && slot in s.tables && InMap(s.kBits, c.kStart, s.tables[slot])
    && s.tables[slot] !in c.others && slot !in c.boot
  }

  ghost predicate Injective(m: map<nat, nat>) {
    forall a, b {:trigger m[a], m[b]} :: a in m && b in m && a != b ==> m[a] != m[b]
  }

  ghost predicate Inv(c: Config, s: State) {
    && c.kStart + |s.kBits| <= c.uStart
    && Exact(c, s, Kernel) && Exact(c, s, User)
    && (forall page {:trigger PageOk(c, s, page)} :: page in s.pages ==> PageOk(c, s, page))
    && (forall slot {:trigger TableOk(c, s, slot)} :: slot in s.tables ==> TableOk(c, s, slot))
    && Injective(s.pages) && Injective(s.tables)
  }

  lemma ValuesWith(m: map<nat, nat>, k: nat, v: nat)
    requires k !in m
    ensures m[k := v].Values == m.Values + {v}
  {
    var n := m[k := v];
    assert n[k] == v;
    forall x | x in m.Values
      ensures x in n.Values
    {
      var a :| a in m && m[a] == x;
      assert n[a] == x;
    }
  }

  function WithBit(s: State, kind: Kind, i: nat): State
    requires i < |BitsOf(s, kind)|
  {
    if kind == Kernel then s.(kBits := s.kBits[i := true]) else s.(uBits := s.uBits[i := true])
  }

  /** A frame just taken from its pool counts as someone else's until it is mapped. */
  lemma TakenKeepsInv(c: Config, s: State, kind: Kind, i: nat)
    requires Inv(c, s) && i < |BitsOf(s, kind)| && !BitsOf(s, kind)[i]
    ensures var frame := StartOf(c, kind) + i;
            Inv(c.(others := c.others + {frame}), WithBit(s, kind, i)) && !Held(c, s, frame)
  {
    var frame := StartOf(c, kind) + i;
    var c', t := c.(others := c.others + {frame}), WithBit(s, kind, i);
    assert !Held(c, s, frame);
    forall page | page in t.pages
      ensures PageOk(c', t, page)
    {
      assert PageOk(c, s, page) && s.pages[page] in s.pages.Values;
    }
    forall slot | slot in t.tables
      ensures TableOk(c', t, slot)
    {
      assert TableOk(c, s, slot) && s.tables[slot] in s.tables.Values;
    }
    ExactAfterTaking(c, s, kind, i, Kernel);
    ExactAfterTaking(c, s, kind, i, User);
  }

  lemma ExactAfterTaking(c: Config, s: State, kind: Kind, i: nat, pool: Kind)
    requires Exact(c, s, pool) && i < |BitsOf(s, kind)| && c.kStart + |s.kBits| <= c.uStart
    ensures Exact(c.(others := c.others + {StartOf(c, kind) + i}), WithBit(s, kind, i), pool)
  {
    var c', t := c.(others := c.others + {StartOf(c, kind) + i}), WithBit(s, kind, i);
    forall j | 0 <= j < |BitsOf(t, pool)|
      ensures BitsOf(t, pool)[j] <==> Held(c', t, StartOf(c', pool) + j)
    {
      assert BitsOf(s, pool)[j] <==> Held(c, s, StartOf(c, pool) + j);
    }
  }

  /** The frame that counted as someone else's becomes a table. */
  lemma TableKeepsInv(c: Config, s: State, slot: nat, frame: nat)
    requires frame !in c.others && Inv(c.(others := c.others + {frame}), s)
    requires InMap(s.kBits, c.kStart, frame) && slot !in c.boot && slot !in s.tables
    ensures Inv(c, s.(tables := s.tables[slot := frame]))
  {
    var c', t := c.(others := c.others + {frame}), s.(tables := s.tables[slot := frame]);
    ValuesWith(s.tables, slot, frame);
    forall x
      ensures Held(c, t, x) <==> Held(c', s, x)
    {
    }
    forall k | k in t.tables
      ensures TableOk(c, t, k) && (k != slot ==> t.tables[k] != frame)
    {
      if k != slot { assert TableOk(c', s, k); }
    }
    forall page | page in t.pages
      ensures PageOk(c, t, page)
    {
      assert PageOk(c', s, page);
    }
    assert BitsOf(t, Kernel) == BitsOf(s, Kernel) && BitsOf(t, User) == BitsOf(s, User);
  }

  /** The frame that counted as someone else's becomes a mapped page. */
  lemma MapKeepsInv(c: Config, s: State, page: nat, frame: nat)
    requires frame !in c.others && Inv(c.(others := c.others + {frame}), s)
    requires InMap(s.kBits, c.kStart, frame) || InMap(s.uBits, c.uStart, frame)
    requires page !in s.pages && InMap(s.vBits, c.vStart, page) && s.vBits[page - c.vStart]
    requires Slot(page) in c.boot || Slot(page) in s.tables
    ensures Inv(c, s.(pages := s.pages[page := frame]))
  {
    var c', t := c.(others := c.others + {frame}), s.(pages := s.pages[page := frame]);
    ValuesWith(s.pages, page, frame);
    forall x
      ensures Held(c, t, x) <==> Held(c', s, x)
    {
    }
    forall k | k in t.tables
      ensures TableOk(c, t, k) && t.tables[k] != frame
    {
      assert TableOk(c', s, k);
    }
    forall p | p in t.pages
      ensures PageOk(c, t, p) && (p != page ==> t.pages[p] != frame)
    {
      if p != page { assert PageOk(c', s, p); }
    }
    assert BitsOf(t, Kernel) == BitsOf(s, Kernel) && BitsOf(t, User) == BitsOf(s, User);
  }

  // ---------------------------------------------------------------- reserving

  /** The map with n bits from `at` on set to `value`. */
  function Marked(bits: seq<bool>, at: nat, n: nat, value: bool): (r: seq<bool>)
    requires at + n <= |bits|
    ensures |r| == |bits| && forall i :: 0 <= i < |r| ==> r[i] == if at <= i < at + n then value else bits[i]
  {
    bits[..at] + seq(n, _ => value) + bits[at + n..]
  }

  lemma ReserveKeepsInv(c: Config, s: State, at: nat, n: nat)
    requires Inv(c, s) && at + n <= |s.vBits|
    ensures Inv(c, s.(vBits := Marked(s.vBits, at, n, true)))
  {
    var t := s.(vBits := Marked(s.vBits, at, n, true));
    forall page | page in t.pages
      ensures PageOk(c, t, page)
    {
      assert PageOk(c, s, page);
    }
    forall slot | slot in t.tables
      ensures TableOk(c, t, slot)
    {
      assert TableOk(c, s, slot);
    }
    forall x
      ensures Held(c, t, x) <==> Held(c, s, x)
    {
    }
    assert BitsOf(t, Kernel) == BitsOf(s, Kernel) && BitsOf(t, User) == BitsOf(s, User);
  }

  /** Pages [start, start + n) have been reserved and the first k of them mapped to frames of a pool;
      nothing else has changed but for tables those pages needed. */
  ghost predicate Allocated(c: Config, a: State, b: State, kind: Kind, start: nat, n: nat, k: nat) {
    && 0 < n && k <= n && c.vStart <= start && start + n <= c.vStart + |a.vBits|
    && (forall i :: start - c.vStart <= i < start - c.vStart + n ==> !a.vBits[i])
    && b.vBits == Marked(a.vBits, start - c.vStart, n, true)
    && |b.kBits| == |a.kBits| && |b.uBits| == |a.uBits|
    && (forall p :: p in b.pages <==> p in a.pages || start <= p < start + k)
    && (forall p :: p in a.pages ==> p in b.pages && b.pages[p] == a.pages[p])
    && (forall p :: start <= p < start + k && p in b.pages ==> InMap(BitsOf(b, kind), StartOf(c, kind), b.pages[p]))
    && (forall t :: t in a.tables ==> t in b.tables && b.tables[t] == a.tables[t])
    && (forall t :: t in b.tables && t !in a.tables ==> Slot(start) <= t <= Slot(start + n - 1))
  }

  /** One page more. */
  ghost predicate OnePage(c: Config, a: State, b: State, kind: Kind, page: nat) {
    && b.vBits == a.vBits && |b.kBits| == |a.kBits| && |b.uBits| == |a.uBits|
    && page !in a.pages && page in b.pages && b.pages == a.pages[page := b.pages[page]]
    && InMap(BitsOf(b, kind), StartOf(c, kind), b.pages[page])
    && (b.tables == a.tables || (Slot(page) !in a.tables && Slot(page) in b.tables
                                 && b.tables == a.tables[Slot(page) := b.tables[Slot(page)]]))
  }

  lemma OneMore(c: Config, a: State, b: State, d: State, kind: Kind, start: nat, n: nat, k: nat)
    requires Allocated(c, a, b, kind, start, n, k) && k < n && OnePage(c, b, d, kind, start + k)
    ensures Allocated(c, a, d, kind, start, n, k + 1)
  {
    assert Slot(start) <= Slot(start + k) <= Slot(start + n - 1);
  }

  // ---------------------------------------------------------------- freeing

  /** The frames behind n pages. */
  function FramesOf(pages: map<nat, nat>, start: nat, n: nat): set<nat>
    requires forall p :: start <= p < start + n ==> p in pages
  {
    set p | start <= p < start + n :: pages[p]
  }

  /** n mapped pages have been given back: their frames are free again, they are unmapped and unreserved. */
  ghost predicate Freed(c: Config, a: State, b: State, start: nat, n: nat) {
    && (forall p :: start <= p < start + n ==> p in a.pages && InMap(a.vBits, c.vStart, p))
    && (n == 0 || c.vStart <= start)
    && Shrunk(a.kBits, b.kBits, c.kStart, FramesOf(a.pages, start, n))
    && Shrunk(a.uBits, b.uBits, c.uStart, FramesOf(a.pages, start, n))
    && |b.vBits| == |a.vBits|
    && (forall i :: 0 <= i < |a.vBits| ==> b.vBits[i] == (a.vBits[i] && !(start <= c.vStart + i < start + n)))
    && (forall p :: p in b.pages <==> p in a.pages && !(start <= p < start + n))
    && (forall p :: p in b.pages ==> b.pages[p] == a.pages[p])
    && b.tables == a.tables
  }

  /** Behind the pages given back stand frames that nothing else holds. */
  lemma HeldAfterFreeing(c: Config, a: State, b: State, start: nat, n: nat, x: nat)
    requires Inv(c, a) && Freed(c, a, b, start, n)
    ensures Held(c, b, x) <==> Held(c, a, x) && x !in FramesOf(a.pages, start, n)
  {
    var frames := FramesOf(a.pages, start, n);
    if x in frames {
      var p :| start <= p < start + n && a.pages[p] == x;
      assert PageOk(c, a, p);
    } else if x in a.pages.Values {
      var p :| p in a.pages && a.pages[p] == x;
      assert b.pages[p] == x;
    }
  }

  lemma FreedKeepsInv(c: Config, a: State, b: State, start: nat, n: nat)
    requires Inv(c, a) && Freed(c, a, b, start, n)
    ensures Inv(c, b)
  {
    forall kind: Kind
      ensures Exact(c, b, kind)
    {
      forall i | 0 <= i < |BitsOf(b, kind)|
        ensures BitsOf(b, kind)[i] <==> Held(c, b, StartOf(c, kind) + i)
      {
        HeldAfterFreeing(c, a, b, start, n, StartOf(c, kind) + i);
        assert Exact(c, a, kind);
        assert BitsOf(a, kind)[i] <==> Held(c, a, StartOf(c, kind) + i);
      }
    }
    forall p | p in b.pages
      ensures PageOk(c, b, p)
    {
      assert PageOk(c, a, p);
    }
    forall t | t in b.tables
      ensures TableOk(c, b, t)
    {
      assert TableOk(c, a, t);
    }
  }

  /** A frame is as free as it was, or holds a table. */
  ghost predicate UndoneAt(c: Config, a: State, d: State, tables: map<nat, nat>, pool: Kind, i: nat) {
    && i < |BitsOf(a, pool)| && i < |BitsOf(d, pool)|
    && (BitsOf(d, pool)[i] <==> BitsOf(a, pool)[i] || StartOf(c, pool) + i in tables.Values)
  }

  /** Mem_Free undoes a successful Mem_MallocPages: pages, reservations and frames are as before, except for
      the frames of page tables that had to be made. */
  lemma FreeUndoesMalloc(c: Config, a: State, b: State, d: State, kind: Kind, start: nat, n: nat)
    requires Inv(c, a) && Inv(c, b) && Allocated(c, a, b, kind, start, n, n) && Freed(c, b, d, start, n)
    ensures d.pages == a.pages && d.vBits == a.vBits && d.tables == b.tables
    ensures |d.kBits| == |a.kBits| && |d.uBits| == |a.uBits|
    ensures forall pool: Kind, i: nat :: i < |BitsOf(a, pool)| ==> UndoneAt(c, a, d, b.tables, pool, i)
  {
    FreedKeepsInv(c, b, d, start, n);
    forall p | p in a.pages
      ensures !(start <= p < start + n)
    {
      assert PageOk(c, a, p);
    }
    assert d.pages == a.pages;
    forall x
      ensures Held(c, d, x) <==> Held(c, a, x) || x in b.tables.Values
    {
      if x in a.tables.Values {
        var t :| t in a.tables && a.tables[t] == x;
        assert b.tables[t] == x;
      }
    }
    forall pool: Kind, i: nat | i < |BitsOf(a, pool)|
      ensures UndoneAt(c, a, d, b.tables, pool, i)
    {
      assert Exact(c, a, pool) && Exact(c, d, pool);
      assert BitsOf(a, pool)[i] <==> Held(c, a, StartOf(c, pool) + i);
      assert BitsOf(d, pool)[i] <==> Held(c, d, StartOf(c, pool) + i);
    }
  }

  predicate Full(bits: seq<bool>) {
    forall i :: 0 <= i < |bits| ==> bits[i]
  }

  /** The scan for one bit finds the lowest clear one. */
  lemma LowestFree(bits: seq<bool>, r: int)
    requires IsFirstFit(bits, |bits|, 1, r)
    ensures r == -1 <==> Full(bits)
    ensures r != -1 ==> 0 <= r < |bits| && !bits[r] && forall j :: 0 <= j < r ==> bits[j]
  {
    forall j | 0 <= j < |bits| && (r == -1 || j < r)
      ensures bits[j]
    {
      assert !FreeRun(bits, j, 1);
    }
    if r != -1 {
      assert FreeRun(bits, r, 1);
      assert !bits[r];
    }
  }

  // ---------------------------------------------------------------- as written

  /** The reservation of memory.c:130-132: which maps have the n bits set afterwards. */
  function ReserveAsWritten(kernelMap: seq<bool>, userMap: seq<bool>, kind: Kind, at: nat, n: nat): (seq<bool>,
                            seq<bool>)
    requires at + n <= |kernelMap| && at + n <= |userMap|
  {
    (Marked(kernelMap, at, n, true), userMap)
  }

  function ReserveAsMeant(kernelMap: seq<bool>, userMap: seq<bool>, kind: Kind, at: nat, n: nat): (seq<bool>, seq<bool>)
    requires at + n <= |kernelMap| && at + n <= |userMap|
  {
    if kind == Kernel then (Marked(kernelMap, at, n, true), userMap) else (kernelMap, Marked(userMap, at, n, true))
  }

  /** It is right exactly for kernel threads. */
  lemma ReservationIsRightIff(kernelMap: seq<bool>, userMap: seq<bool>, kind: Kind, at: nat, n: nat)
    requires at + n <= |kernelMap| && at + n <= |userMap| && n > 0
    requires FreeRun(if kind == Kernel then kernelMap else userMap, at, n)
    ensures ReserveAsWritten(kernelMap, userMap, kind, at, n) == ReserveAsMeant(kernelMap, userMap, kind, at, n)
            <==> kind == Kernel
  {
    if kind == User {
      assert !userMap[at] && Marked(userMap, at, n, true)[at];
    }
  }

  /** A process that asks twice is given the same pages twice. */
  lemma SamePagesTwice(kernelMap: seq<bool>, userMap: seq<bool>, n: nat, first: int, second: int)
    requires n > 0 && IsFirstFit(userMap, |userMap|, n, first) && 0 <= first && first + n <= |kernelMap|
    requires IsFirstFit(ReserveAsWritten(kernelMap, userMap, User, first, n).1, |userMap|, n, second)
    ensures second == first
  {
    FirstFitUnique(userMap, |userMap|, n, first, second);
  }

  // ---------------------------------------------------------------- Mem_PoolInit

  /** Frames used before the pools start: 1 MByte, the directory and 255 tables. */
  const USED := 0x20_0000

  /** The two pools, in pages; the counts are kept in 16 bits. */
  datatype Layout = Layout(kernelPages: nat, userPages: nat) {
    /** First addresses of the pools and of what follows. */
    function KernelStart(): nat { USED }
    function UserStart(): nat { USED + 0x1000 * kernelPages }
    function End(): nat { UserStart() + 0x1000 * userPages }
  }

  function PoolInit(allMemSize: nat): Layout
    requires allMemSize >= USED
  {
    var all := (allMemSize - USED) / 0x1000 % 0x1_0000;
    Layout(all / 2, all - all / 2)
  }

  /** The pools lie behind the tables, side by side and inside the memory; all memory is in them, up to an
      odd page, exactly if there is less than 258 MByte. */
  lemma PoolsInsideMemory(allMemSize: nat)
    requires allMemSize >= USED
    ensures var l := PoolInit(allMemSize);
            && l.KernelStart() <= l.UserStart() <= l.End() <= allMemSize
            && l.userPages - l.kernelPages in {0, 1}
            && (allMemSize < l.End() + 0x1000 <==> allMemSize < USED + 0x1000_0000)
            && l.KernelStart() == 0x20_0000 && l.UserStart() - l.KernelStart() == 0x1000 * l.kernelPages
            && 0x1000 * (l.kernelPages + l.userPages) == (allMemSize - 0x20_0000) / 0x1000 % 0x1_0000 * 0x1000
  {
  }

  /** Which pool memory.c:407 takes an address to be in. */
  function PoolAsWritten(l: Layout, phyAddr: nat): Kind {
    if phyAddr >= 0x1000 * l.userPages then User else Kernel
  }

  function PoolAsMeant(l: Layout, phyAddr: nat): Kind {
    if phyAddr >= l.UserStart() then User else Kernel
  }

  /** It is right for an address of the pools exactly if that is of the user pool, or below the size of it. */
  lemma PoolChoiceIsRightIff(allMemSize: nat, phyAddr: nat)
    requires allMemSize >= USED
    requires var l := PoolInit(allMemSize); l.KernelStart() <= phyAddr < l.End()
    ensures var l := PoolInit(allMemSize);
            PoolAsWritten(l, phyAddr) == PoolAsMeant(l, phyAddr)
            <==> phyAddr >= l.UserStart() || phyAddr < 0x1000 * l.userPages
  {
  }

  /** The last frame of the kernel pool is always taken for one of the user pool. */
  lemma LastKernelFrameIsMistaken(allMemSize: nat)
    requires allMemSize >= USED && PoolInit(allMemSize).kernelPages > 0
    ensures var l := PoolInit(allMemSize);
            var last := l.UserStart() - 0x1000;
            l.KernelStart() <= last && PoolAsMeant(l, last) == Kernel && PoolAsWritten(l, last) == User
  {
  }
}
