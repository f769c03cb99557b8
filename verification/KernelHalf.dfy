/** Sharing the kernel half of the address space (Process_PageDir, kernel/process.c:53-72; the 254 tables
    set up by mbr/loader.s:274-286): all page directories translate every address under slots 768 to 1022
    alike, after any run of process creations, mappings and removals. */
module KernelHalf {
  import opened Common
  import opened Words
  import opened Paging

  const FIRST := 768

  /** What Process_PageDir makes of the page in `frame`, run under directory `dir`. */
  function WithDirectory(m: Memory, dir: nat, frame: nat): Memory
    requires dir in m && frame < 0x10_0000
  {
    m[frame := seq<U32>(FIRST, _ => 0) + m[dir][FIRST..SELF] + [Entry(frame)]]
  }

  /** A new directory translates no address below slot 768, and those of slots 768 to 1022 as the one it is made under;
      its last slot leads to itself. */
  lemma NewDirectory(m: Memory, dir: nat, frame: nat, va: Addr)
    requires Linked(m, dir) && Unused(m, dir, frame)
    ensures var n := WithDirectory(m, dir, frame);
            && (va < 0xc000_0000 ==> Translate(n, frame, va) == None)
            && (0xc000_0000 <= va < 0xffc0_0000 ==> Translate(n, frame, va) == Translate(m, dir, va))
            && (va >= 0xffff_f000 ==> Translate(n, frame, va) == Some(frame * 0x1000 + Off(va)))
            && forall f :: f in m && f != frame ==> f in n && n[f] == m[f]
  {
  }

  /** Process_PageDir after its page has been taken and cleared (line 56): `page` is its linear address,
      `frame` where that leads. The copy takes slot 1023 along; the last store replaces it. */
  method PageDir(mmu: Mmu, page: Addr, ghost frame: nat)
    requires Linked(mmu.m, mmu.cr3) && Off(page) == 0 && Pdi(page) != SELF
    requires Walk(mmu.m, mmu.cr3, Pdi(page), Pti(page)) == Some(frame)
    requires Unused(mmu.m, mmu.cr3, frame) && mmu.m[frame] == seq<U32>(ENTRIES, _ => 0)
    modifies mmu
    ensures mmu.m == WithDirectory(old(mmu.m), mmu.cr3, frame)
  {
    hide Pdi, Pti, Off, Linked;
    ghost var before, dir := mmu.m, mmu.cr3;
    CopyHalf(mmu, page, frame);
    WindowAgrees(before, mmu.m, dir, page, frame);
    WindowWord(mmu.m, dir, page, frame, SELF);
    var pa := mmu.V2P(page);
    mmu.Write(page + SELF * 4, Entry(pa / PAGE));
    assert mmu.m[frame] == seq<U32>(FIRST, _ => 0) + before[dir][FIRST..SELF] + [Entry(frame)];
  }

  /** The memcpy of the kernel half, word by word (process.c:65). */
  method CopyHalf(mmu: Mmu, page: Addr, ghost frame: nat)
    requires Linked(mmu.m, mmu.cr3) && Off(page) == 0 && Pdi(page) != SELF
    requires Walk(mmu.m, mmu.cr3, Pdi(page), Pti(page)) == Some(frame)
    requires Unused(mmu.m, mmu.cr3, frame) && mmu.m[frame] == seq<U32>(ENTRIES, _ => 0)
    modifies mmu
    ensures frame in mmu.m && mmu.m == old(mmu.m)[frame := mmu.m[frame]]
    ensures forall j :: 0 <= j < FIRST ==> mmu.m[frame][j] == 0
    ensures forall j :: FIRST <= j < ENTRIES ==> mmu.m[frame][j] == old(mmu.m)[mmu.cr3][j]
  {
    hide Pdi, Pti, Off, Linked, Load, Mapped, Walk;
    ghost var before, dir := mmu.m, mmu.cr3;
    assert mmu.m == before[frame := mmu.m[frame]];
    WindowAgrees(before, mmu.m, dir, page, frame);
    var i := FIRST;
    while i < ENTRIES
      invariant FIRST <= i <= ENTRIES && frame in mmu.m && mmu.m == before[frame := mmu.m[frame]]
      invariant forall j :: 0 <= j < FIRST ==> mmu.m[frame][j] == 0
      invariant forall j :: FIRST <= j < i ==> mmu.m[frame][j] == before[dir][j]
    {
      WindowAgrees(before, mmu.m, dir, page, frame);
      WindowWord(mmu.m, dir, page, frame, i);
      var w := mmu.Read(0xffff_f000 + i * 4);
      mmu.Write(page + i * 4, w);
      i := i + 1;
    }
  }

  /** The memory differs in a frame that is no page structure: nothing moves. */
  lemma WindowAgrees(before: Memory, m: Memory, dir: nat, page: Addr, frame: nat)
    requires Linked(before, dir) && Unused(before, dir, frame)
    requires frame in m && m == before[frame := m[frame]] && Walk(before, dir, Pdi(page), Pti(page)) == Some(frame)
    ensures dir in before && dir in m && frame < 0x10_0000
    ensures Linked(m, dir) && m[dir] == before[dir] && Walk(m, dir, Pdi(page), Pti(page)) == Some(frame)
  {
  }

  /** Word i of the directory through the last slot, and of the page. */
  lemma WindowWord(m: Memory, dir: nat, page: Addr, frame: nat, i: nat)
    requires Linked(m, dir) && Off(page) == 0 && i < ENTRIES && frame in m
    requires Walk(m, dir, Pdi(page), Pti(page)) == Some(frame)
    ensures page + i * 4 < 0x1_0000_0000
    ensures var source: Addr := 0xffff_f000 + i * 4;
            source % 4 == 0 && Mapped(m, dir, source) && Load(m, dir, source) == m[dir][i]
    ensures var target: Addr := page + i * 4;
            target % 4 == 0 && Mapped(m, dir, target)
            && forall w: U32 :: Paging.Store(m, dir, target, w) == m[frame := m[frame][i := w]]
  {
    Parts(page);
    var source, target := Compose(SELF, SELF, 4 * i), Compose(Pdi(page), Pti(page), 4 * i);
    assert source == 0xffff_f000 + i * 4 && target == page + i * 4 && source % 4 == 0 && target % 4 == 0;
    hide Pdi, Pti, Off, Compose;
  }

  // ---------------------------------------------------------------- all directories together

  /** Memory and the frames that hold page directories; the first one is the kernel's. */
  datatype World = World(m: Memory, dirs: set<nat>, kernel: nat)

  ghost predicate DirOk(w: World, dir: nat)
    requires w.kernel in w.m
  {
    && Linked(w.m, dir)
    && (forall i :: FIRST <= i < SELF ==> w.m[dir][i] == w.m[w.kernel][i])
    && (forall i :: 0 <= i < SELF && Present(w.m[dir][i]) ==> FrameOf(w.m[dir][i]) !in w.dirs)
  }

  /** Slots 768 to 1022 are present and the same in all directories; no directory serves as a table. */
  ghost predicate Inv(w: World) {
    && w.kernel in w.dirs && w.kernel in w.m
    && (forall i :: FIRST <= i < SELF ==> Present(w.m[w.kernel][i]))
    && (forall dir {:trigger DirOk(w, dir)} :: dir in w.dirs ==> DirOk(w, dir))
  }

  /** A frame that is neither a directory nor a table of one. */
  ghost predicate Free(w: World, frame: nat) {
    && frame in w.m && 0 < frame < 0x10_0000 && frame !in w.dirs
    && forall dir, i :: dir in w.dirs && dir in w.m && 0 <= i < ENTRIES && Present(w.m[dir][i]) ==>
         FrameOf(w.m[dir][i]) != frame
  }

  datatype Op =
    | Create(under: nat, frame: nat)                             // Process_PageDir
    | Map(under: nat, va: Addr, frame: nat, table: nat)          // Mem_AddPageTable
    | Unmap(under: nat, va: Addr)                                // Mem_PageTableRemove

  /** What the callers see to: the directory is one, frames for new tables and directories are free, the
      last slot is not mapped over. */
  ghost predicate Allowed(w: World, op: Op)
    requires Inv(w)
  {
    && op.under in w.dirs
    && match op
       case Create(under, frame) => Free(w, frame)
       case Map(under, va, frame, table) =>
         DirOk(w, under) && Pdi(va) != SELF && frame < 0x10_0000 && (!Present(w.m[under][Pdi(va)]) ==> Free(w, table))
       case Unmap(under, va) => DirOk(w, under) && Pdi(va) != SELF && Present(w.m[under][Pdi(va)])
  }

  function Step(w: World, op: Op): World
    requires Inv(w) && Allowed(w, op)
  {
    match op
    case Create(under, frame) =>
      assert DirOk(w, under);
      w.(m := WithDirectory(w.m, under, frame), dirs := w.dirs + {frame})
    case Map(under, va, frame, table) =>
      w.(m := if Present(w.m[under][Pdi(va)]) then WithEntry(w.m, under, va, Entry(frame))
              else WithEntry(WithTable(w.m, under, va, table), under, va, Entry(frame)))
    case Unmap(under, va) =>
      var e := w.m[FrameOf(w.m[under][Pdi(va)])][Pti(va)];
      w.(m := WithEntry(w.m, under, va, e - e % 2))
  }

  /** What the loader leaves: one directory, the kernel's. */
  ghost predicate Start(w: World) {
    Booted(w.m) && w.dirs == {BOOT_DIR} && w.kernel == BOOT_DIR
  }

  lemma StartSatisfiesInv(w: World)
    requires Start(w)
    ensures Inv(w)
  {
    BootedIsLinked(w.m);
    forall i | 0 <= i < SELF && Present(w.m[BOOT_DIR][i])
      ensures FrameOf(w.m[BOOT_DIR][i]) != BOOT_DIR
    {
    }
    assert DirOk(w, BOOT_DIR);
  }

  /** Writing a frame that is no directory. */
  lemma OutsideKeepsInv(w: World, frame: nat, page: Page)
    requires Inv(w) && frame in w.m && frame !in w.dirs
    ensures Inv(w.(m := w.m[frame := page]))
  {
    var after := w.(m := w.m[frame := page]);
    forall dir | dir in w.dirs
      ensures DirOk(after, dir)
    {
      assert DirOk(w, dir) && after.m[dir] == w.m[dir];
    }
    assert DirOk(w, w.kernel);
  }

  lemma CreateKeepsInv(w: World, under: nat, frame: nat)
    requires Inv(w) && under in w.dirs && Free(w, frame)
    ensures Inv(Step(w, Create(under, frame)))
  {
    var after := Step(w, Create(under, frame));
    assert DirOk(w, under) && DirOk(w, w.kernel);
    forall dir | dir in after.dirs
      ensures DirOk(after, dir)
    {
      if dir == frame {
        forall i | 0 <= i < SELF && Present(after.m[frame][i])
          ensures FIRST <= i && after.m[frame][i] == w.m[under][i]
        {
        }
      } else {
        assert DirOk(w, dir) && after.m[dir] == w.m[dir];
      }
    }
  }

  /** A fresh table can only hang from a slot of the user half. */
  lemma NewTableKeepsInv(w: World, under: nat, va: Addr, table: nat)
    requires Inv(w) && DirOk(w, under) && under in w.dirs && Pdi(va) != SELF
    requires !Present(w.m[under][Pdi(va)]) && Free(w, table)
    ensures Inv(w.(m := WithTable(w.m, under, va, table)))
  {
    var after := w.(m := WithTable(w.m, under, va, table));
    assert DirOk(w, w.kernel);
    assert Pdi(va) < FIRST;
    forall dir | dir in w.dirs
      ensures DirOk(after, dir)
    {
      assert DirOk(w, dir);
      assert after.m[dir] == if dir == under then w.m[dir][Pdi(va) := Entry(table)] else w.m[dir];
    }
  }

  lemma StepKeepsInv(w: World, op: Op)
    requires Inv(w) && Allowed(w, op)
    ensures Inv(Step(w, op))
  {
    match op
    case Create(under, frame) => CreateKeepsInv(w, under, frame);
    case Map(under, va, frame, table) =>
      var v := if Present(w.m[under][Pdi(va)]) then w else w.(m := WithTable(w.m, under, va, table));
      if !Present(w.m[under][Pdi(va)]) { NewTableKeepsInv(w, under, va, table); }
      assert DirOk(v, under);
      var t := FrameOf(v.m[under][Pdi(va)]);
      OutsideKeepsInv(v, t, v.m[t][Pti(va) := Entry(frame)]);
    case Unmap(under, va) =>
      var t := FrameOf(w.m[under][Pdi(va)]);
      var e := w.m[t][Pti(va)];
      OutsideKeepsInv(w, t, w.m[t][Pti(va) := e - e % 2]);
  }

  ghost predicate Taken(w: World, op: Op, next: World) {
    Inv(w) ==> Allowed(w, op) && next == Step(w, op)
  }

  /** A run from what the loader leaves: every step is allowed where it is taken. */
  ghost predicate Run(ws: seq<World>, ops: seq<Op>) {
    && |ws| == |ops| + 1 && Start(ws[0])
    && forall i :: 0 <= i < |ops| ==> Taken(ws[i], ops[i], ws[i + 1])
  }

  lemma {:induction false} EveryState(ws: seq<World>, ops: seq<Op>, k: nat)
    requires Run(ws, ops) && k < |ws|
    ensures Inv(ws[k])
  {
    if k == 0 {
      StartSatisfiesInv(ws[0]);
    } else {
      EveryState(ws, ops, k - 1);
      assert Taken(ws[k - 1], ops[k - 1], ws[k - 1 + 1]);
      StepKeepsInv(ws[k - 1], ops[k - 1]);
    }
  }

  /** After every run, all directories agree on the whole kernel half. */
  lemma KernelHalfAgrees(ws: seq<World>, ops: seq<Op>, k: nat, a: nat, b: nat, va: Addr)
    requires Run(ws, ops) && k < |ws| && a in ws[k].dirs && b in ws[k].dirs && FIRST <= Pdi(va) < SELF
    ensures Translate(ws[k].m, a, va) == Translate(ws[k].m, b, va)
  {
    EveryState(ws, ops, k);
    assert DirOk(ws[k], a) && DirOk(ws[k], b);
  }

  /** And mapping in the kernel half never has to make a table, under whatever directory: those the loader
      has laid out are still in place. */
  lemma KernelTablesStay(ws: seq<World>, ops: seq<Op>, k: nat, dir: nat, va: Addr)
    requires Run(ws, ops) && k < |ws| && dir in ws[k].dirs && FIRST <= Pdi(va) < SELF
    ensures dir in ws[k].m && ws[k].m[dir][Pdi(va)] == Entry(BOOT_TABLE + Pdi(va) - FIRST)
  {
    EveryState(ws, ops, k);
    assert DirOk(ws[k], dir);
    KernelSlotsStay(ws, ops, k, Pdi(va));
  }

  lemma {:induction false} KernelSlotsStay(ws: seq<World>, ops: seq<Op>, k: nat, i: nat)
    requires Run(ws, ops) && k < |ws| && FIRST <= i < SELF
    ensures BOOT_DIR in ws[k].dirs && BOOT_DIR in ws[k].m && ws[k].kernel == BOOT_DIR
    ensures ws[k].m[BOOT_DIR][i] == Entry(BOOT_TABLE + i - FIRST)
  {
    if k > 0 {
      KernelSlotsStay(ws, ops, k - 1, i);
      EveryState(ws, ops, k - 1);
      assert Taken(ws[k - 1], ops[k - 1], ws[k - 1 + 1]);
      StepKeepsSlot(ws[k - 1], ops[k - 1], i);
    }
  }

  lemma StepKeepsSlot(w: World, op: Op, i: nat)
    requires Inv(w) && Allowed(w, op) && FIRST <= i < SELF
    ensures Step(w, op).kernel == w.kernel && w.dirs <= Step(w, op).dirs
    ensures w.kernel in Step(w, op).m && Step(w, op).m[w.kernel][i] == w.m[w.kernel][i]
  {
    assert DirOk(w, op.under) && DirOk(w, w.kernel);
    if op.Map? && !Present(w.m[op.under][Pdi(op.va)]) {
      assert Pdi(op.va) != i;
    }
  }
}
