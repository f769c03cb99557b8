/** Page tables edited through the directory's last slot, which points at the directory itself
    (kernel/memory.c:154-218, 331-336, 365-373). The walk is that of 32-bit paging with 4-KByte pages as
    in section 4.3 of the Intel 64 and IA-32 Architectures Software Developer's Manual, Volume 3A.

    Repaired: the frame for a new page table is not checked (memory.c:205 asserts the other pointer);
    `AddAsWrittenIsRightIff`. */
module Paging {
  import opened Common
  import opened Words

  const PAGE := 0x1000
  const ENTRIES := 1024
  const SELF := 1023
  const FLAGS := 7  // PG_US_U | PG_RW_W | PG_P_1

  type Addr = U32
  type Page = p: seq<U32> | |p| == ENTRIES witness seq(ENTRIES, _ => 0)

  /** Physical memory by page frames. */
  type Memory = map<nat, Page>

  function Pdi(va: Addr): (i: nat)
    ensures i < ENTRIES
  {
    va / 0x40_0000
  }

  function Pti(va: Addr): (i: nat)
    ensures i < ENTRIES
  {
    va / PAGE % ENTRIES
  }

  function Off(va: Addr): (o: nat)
    ensures o < PAGE
  {
    va % PAGE
  }

  /** The address with these parts. */
  function Compose(d: nat, t: nat, off: nat): (va: Addr)
    requires d < ENTRIES && t < ENTRIES && off < PAGE
    ensures Pdi(va) == d && Pti(va) == t && Off(va) == off
  {
    d * 0x40_0000 + t * PAGE + off
  }

  lemma Parts(va: Addr)
    ensures va == Compose(Pdi(va), Pti(va), Off(va))
    ensures va == 0x40_0000 * Pdi(va) + 0x1000 * Pti(va) + Off(va)
  {
  }

  predicate Present(e: U32) {
    e % 2 == 1
  }

  function FrameOf(e: U32): nat {
    e / PAGE
  }

  /** An entry for a page frame with the flags the kernel gives. */
  function Entry(frame: nat): (e: U32)
    requires frame < 0x10_0000
    ensures Present(e) && FrameOf(e) == frame
  {
    frame * PAGE + FLAGS
  }

  /** The walk of the hardware: page frame of a linear address. */
  function Walk(m: Memory, dir: nat, d: nat, t: nat): Option<nat>
    requires d < ENTRIES && t < ENTRIES
  {
    if dir in m && Present(m[dir][d]) then
      var table := FrameOf(m[dir][d]);
      if table in m && Present(m[table][t]) then Some(FrameOf(m[table][t])) else None
    else None
  }

  function Translate(m: Memory, dir: nat, va: Addr): Option<nat> {
    match Walk(m, dir, Pdi(va), Pti(va))
    case None => None
    case Some(frame) => Some(frame * PAGE + Off(va))
  }

  /** The frame stands in the upper 20 bits; present, writable and for the user as well. */
  lemma EntryBits(frame: nat)
    requires frame < 0x10_0000
    ensures var e := Entry(frame);
            e / 0x1000 == frame && e % 0x1000 == 7 && e % 2 == 1 && e / 2 % 2 == 1 && e / 4 % 2 == 1
  {
  }

  /** Address 0x402003: slot 1 of the directory, slot 2 of its table. */
  lemma TranslateExample(m: Memory, dir: nat, table: nat)
    requires dir in m && table in m && table < 0x10_0000 && m[dir][1] == Entry(table) && m[table][2] == Entry(0x9)
    ensures Translate(m, dir, 0x40_2003) == Some(0x9003)
    ensures PdePtr(0x40_2003) == 0xffff_f004 && PtePtr(0x40_2003) == 0xffc0_1008
  {
  }

  /** The directory points at itself in its last slot, and nowhere else; its tables exist. */
  ghost predicate Linked(m: Memory, dir: nat) {
    && dir in m && dir < 0x10_0000 && m[dir][SELF] == Entry(dir)
    && forall i :: 0 <= i < SELF && Present(m[dir][i]) ==> FrameOf(m[dir][i]) in m && FrameOf(m[dir][i]) != dir
  }

  /** Mem_GetVirAddrPdePtr and Mem_GetVirAddrPtePtr. */
  function PdePtr(va: Addr): Addr {
    0xffff_f000 + Pdi(va) * 4
  }

  function PtePtr(va: Addr): Addr {
    0xffc0_0000 + Pdi(va) * PAGE + Pti(va) * 4
  }

  lemma PointerParts(va: Addr)
    ensures Pdi(PdePtr(va)) == SELF && Pti(PdePtr(va)) == SELF && Off(PdePtr(va)) == 4 * Pdi(va)
    ensures Pdi(PtePtr(va)) == SELF && Pti(PtePtr(va)) == Pdi(va) && Off(PtePtr(va)) == 4 * Pti(va)
    ensures PdePtr(va) % 4 == 0 && PtePtr(va) % 4 == 0
  {
    assert PdePtr(va) == Compose(SELF, SELF, 4 * Pdi(va));
    assert PtePtr(va) == Compose(SELF, Pdi(va), 4 * Pti(va));
  }

  /** Followed by the hardware, the two pointers arrive at the address's own directory entry and own page
      table entry; the second is not there while there is no table. */
  lemma PointersReachEntries(m: Memory, dir: nat, va: Addr)
    requires Linked(m, dir)
    ensures Translate(m, dir, PdePtr(va)) == Some(dir * PAGE + 4 * Pdi(va))
    ensures Translate(m, dir, PtePtr(va))
              == if Present(m[dir][Pdi(va)]) then Some(FrameOf(m[dir][Pdi(va)]) * PAGE + 4 * Pti(va)) else None
  {
    PointerParts(va);
  }

  // ---------------------------------------------------------------- memory through linear addresses

  function Load(m: Memory, dir: nat, va: Addr): U32
    requires Mapped(m, dir, va) && va % 4 == 0
  {
    m[Walk(m, dir, Pdi(va), Pti(va)).value][Off(va) / 4]
  }

  predicate Mapped(m: Memory, dir: nat, va: Addr) {
    Walk(m, dir, Pdi(va), Pti(va)).Some? && Walk(m, dir, Pdi(va), Pti(va)).value in m
  }

  function Store(m: Memory, dir: nat, va: Addr, w: U32): Memory
    requires Mapped(m, dir, va) && va % 4 == 0
  {
    var frame := Walk(m, dir, Pdi(va), Pti(va)).value;
    m[frame := m[frame][Off(va) / 4 := w]]
  }

  /** What the pointers read and write. */
  lemma PdeAccess(m: Memory, dir: nat, va: Addr)
    requires Linked(m, dir)
    ensures Mapped(m, dir, PdePtr(va)) && PdePtr(va) % 4 == 0
    ensures Load(m, dir, PdePtr(va)) == m[dir][Pdi(va)]
    ensures forall w: U32 :: Store(m, dir, PdePtr(va), w) == m[dir := m[dir][Pdi(va) := w]]
  {
    PointerParts(va);
    hide PdePtr, Pdi, Pti, Off;
    var p := PdePtr(va);
    assert Off(p) / 4 == Pdi(va) && Walk(m, dir, Pdi(p), Pti(p)) == Some(dir);
  }

  lemma PteAccess(m: Memory, dir: nat, va: Addr)
    requires Linked(m, dir) && Present(m[dir][Pdi(va)])
    ensures Mapped(m, dir, PtePtr(va)) && PtePtr(va) % 4 == 0
    ensures var table := FrameOf(m[dir][Pdi(va)]);
            && table in m && Load(m, dir, PtePtr(va)) == m[table][Pti(va)]
            && forall w: U32 :: Store(m, dir, PtePtr(va), w) == m[table := m[table][Pti(va) := w]]
  {
    PointerParts(va);
    hide PtePtr, Pdi, Pti, Off;
    var p, table := PtePtr(va), FrameOf(m[dir][Pdi(va)]);
    assert Off(p) / 4 == Pti(va) && Walk(m, dir, Pdi(p), Pti(p)) == Some(table);
  }

  // ---------------------------------------------------------------- adding and removing a page

  /** The memory after mapping a page where a table is in place. */
  function WithEntry(m: Memory, dir: nat, va: Addr, e: U32): Memory
    requires dir in m && FrameOf(m[dir][Pdi(va)]) in m
  {
    var table := FrameOf(m[dir][Pdi(va)]);
    m[table := m[table][Pti(va) := e]]
  }

  /** The memory after giving the address a page table in a frame, all zeros. */
  function WithTable(m: Memory, dir: nat, va: Addr, frame: nat): Memory
    requires dir in m && frame < 0x10_0000
  {
    m[dir := m[dir][Pdi(va) := Entry(frame)]][frame := seq(ENTRIES, _ => 0)]
  }

  /** A frame that is no part of the directory's structures. */
  ghost predicate Unused(m: Memory, dir: nat, frame: nat)
    requires dir in m
  {
    && frame in m && frame != dir && 0 < frame < 0x10_0000
    && forall i :: 0 <= i < ENTRIES && Present(m[dir][i]) ==> FrameOf(m[dir][i]) != frame
  }

  class Mmu {
    var m: Memory
    const cr3: nat

    constructor (memory: Memory, dir: nat)
      ensures m == memory && cr3 == dir
    {
      m, cr3 := memory, dir;
    }

    method Read(va: Addr) returns (w: U32)
      requires Mapped(m, cr3, va) && va % 4 == 0
      ensures w == Load(m, cr3, va)
    {
      w := m[Walk(m, cr3, Pdi(va), Pti(va)).value][Off(va) / 4];
    }

    method Write(va: Addr, w: U32)
      requires Mapped(m, cr3, va) && va % 4 == 0
      modifies this
      ensures m == Store(old(m), cr3, va, w)
    {
      var frame := Walk(m, cr3, Pdi(va), Pti(va)).value;
      m := m[frame := m[frame][Off(va) / 4 := w]];
    }

    /** The memset of memory.c:210: the page table of va, word by word, through the page that holds it in
        the window of the last slot. */
    method ClearTable(va: Addr)
      requires Linked(m, cr3) && Present(m[cr3][Pdi(va)]) && Pdi(va) != SELF
      modifies this
      ensures m == old(m)[FrameOf(old(m)[cr3][Pdi(va)]) := seq(ENTRIES, _ => 0)] && Linked(m, cr3)
    {
      ghost var before, table := m, FrameOf(m[cr3][Pdi(va)]);
      var i := 0;
      assert m[table] == m[table][0..];
      while i < ENTRIES
        invariant 0 <= i <= ENTRIES && table in m && m == before[table := m[table]]
        invariant Linked(m, cr3) && Present(m[cr3][Pdi(va)]) && FrameOf(m[cr3][Pdi(va)]) == table
        invariant forall j :: 0 <= j < i ==> m[table][j] == 0
      {
        var at := Compose(Pdi(va), i, 0);
        PteAccess(m, cr3, at);
        Write(PtePtr(at), 0);
        i := i + 1;
      }
      assert m[table] == seq(ENTRIES, _ => 0);
    }

    /** Mem_AddPageTable. `palloc` is what Mem_Palloc has to give for a page table; the text goes on with
        frame 0 if it has nothing. */
    method AddPageTable(va: Addr, pa: Addr, palloc: nat) returns (ok: bool)
      requires Linked(m, cr3) && Pdi(va) != SELF && pa % PAGE == 0 && pa / PAGE < 0x10_0000
      requires Present(m[cr3][Pdi(va)]) ==> !Present(m[FrameOf(m[cr3][Pdi(va)])][Pti(va)])  // memory.c:199
      requires palloc == 0 || Unused(m, cr3, palloc)
      modifies this
      ensures Linked(m, cr3)
      ensures ok <==> Present(old(m)[cr3][Pdi(va)]) || palloc != 0
      ensures !ok ==> m == old(m)
      ensures ok ==>
                m == if Present(old(m)[cr3][Pdi(va)]) then WithEntry(old(m), cr3, va, Entry(pa / PAGE))
                     else WithEntry(WithTable(old(m), cr3, va, palloc), cr3, va, Entry(pa / PAGE))
    {
      PdeAccess(m, cr3, va);
      var pde := Read(PdePtr(va));
      if !Present(pde) {
        if palloc == 0 { return false; }
        Write(PdePtr(va), Entry(palloc));
        ClearTable(va);
        assert m == WithTable(old(m), cr3, va, palloc);
      }
      PteAccess(m, cr3, va);
      Write(PtePtr(va), Entry(pa / PAGE));
      ok := true;
    }

    /** Mem_PageTableRemove. */
    method PageTableRemove(va: Addr)
      requires Linked(m, cr3) && Present(m[cr3][Pdi(va)]) && Pdi(va) != SELF
      modifies this
      ensures Linked(m, cr3)
      ensures var e := old(m)[FrameOf(old(m)[cr3][Pdi(va)])][Pti(va)];
              m == WithEntry(old(m), cr3, va, e - e % 2)
    {
      PteAccess(m, cr3, va);
      var e := Read(PtePtr(va));
      Write(PtePtr(va), e - e % 2);
    }

    /** Mem_V2P; there is no check that the page is mapped, only the page table must be there. */
    method V2P(va: Addr) returns (pa: nat)
      requires Linked(m, cr3) && Present(m[cr3][Pdi(va)])
      ensures Translate(m, cr3, va).Some? ==> pa == Translate(m, cr3, va).value
      ensures pa == FrameOf(m[FrameOf(m[cr3][Pdi(va)])][Pti(va)]) * PAGE + Off(va)
    {
      PteAccess(m, cr3, va);
      var pte := Read(PtePtr(va));
      pa := pte / PAGE * PAGE + va % PAGE;
    }
  }

  // ---------------------------------------------------------------- what happens to translations

  /** Two addresses look up their page in the same entry of the same table. */
  predicate SharesEntry(m: Memory, dir: nat, va: Addr, other: Addr)
    requires dir in m
  {
    Present(m[dir][Pdi(other)]) && FrameOf(m[dir][Pdi(other)]) == FrameOf(m[dir][Pdi(va)]) && Pti(other) == Pti(va)
  }

  /** Mapping with a table in place changes the translation of exactly the addresses that share its entry
      in that table: to the mapped frame. */
  lemma EntryTranslations(m: Memory, dir: nat, va: Addr, e: U32, other: Addr)
    requires Linked(m, dir) && Present(m[dir][Pdi(va)]) && Pdi(va) != SELF
    ensures Translate(WithEntry(m, dir, va, e), dir, other)
              == if SharesEntry(m, dir, va, other)
                 then (if Present(e) then Some(FrameOf(e) * PAGE + Off(other)) else None)
                 else Translate(m, dir, other)
  {
  }

  /** So no address outside the page is affected exactly if no second slot leads to the same table. */
  lemma OnlyThisPageIff(m: Memory, dir: nat, va: Addr, frame: nat)
    requires Linked(m, dir) && Present(m[dir][Pdi(va)]) && Pdi(va) != SELF && frame < 0x10_0000
    requires !Present(m[FrameOf(m[dir][Pdi(va)])][Pti(va)])
    ensures (forall other: Addr ::
               SamePage(va, other) || SameTranslation(m, WithEntry(m, dir, va, Entry(frame)), dir, other))
            <==> forall d {:trigger m[dir][d]} :: 0 <= d < ENTRIES && d != Pdi(va) && Present(m[dir][d]) ==>
                   FrameOf(m[dir][d]) != FrameOf(m[dir][Pdi(va)])
  {
    var after := WithEntry(m, dir, va, Entry(frame));
    if d :| 0 <= d < ENTRIES && d != Pdi(va) && Present(m[dir][d]) && FrameOf(m[dir][d]) == FrameOf(m[dir][Pdi(va)]) {
      var other := Compose(d, Pti(va), 0);
      EntryTranslations(m, dir, va, Entry(frame), other);
      assert !SamePage(va, other) && !SameTranslation(m, after, dir, other);
    } else {
      forall other: Addr
        ensures SamePage(va, other) || SameTranslation(m, after, dir, other)
      {
        EntryTranslations(m, dir, va, Entry(frame), other);
      }
    }
  }

  predicate SamePage(a: Addr, b: Addr) {
    Pdi(a) == Pdi(b) && Pti(a) == Pti(b)
  }

  predicate SameTranslation(m: Memory, n: Memory, dir: nat, va: Addr) {
    Translate(n, dir, va) == Translate(m, dir, va)
  }

  /** Mapping with a fresh table: the page itself, and the page through which the table is edited. */
  lemma TableTranslations(m: Memory, dir: nat, va: Addr, table: nat, frame: nat, other: Addr)
    requires Linked(m, dir) && !Present(m[dir][Pdi(va)]) && Unused(m, dir, table) && frame < 0x10_0000
    ensures var after := WithEntry(WithTable(m, dir, va, table), dir, va, Entry(frame));
            Translate(after, dir, other)
              == if SamePage(va, other) then Some(frame * PAGE + Off(other))
                 else if Pdi(other) == SELF && Pti(other) == Pdi(va) then Some(table * PAGE + Off(other))
                 else Translate(m, dir, other)
  {
  }

  /** After a mapping, every address of the page translates into the frame. */
  lemma MappedPage(m: Memory, dir: nat, va: Addr, table: nat, frame: nat, off: nat)
    requires Linked(m, dir) && Pdi(va) != SELF && frame < 0x10_0000 && off < PAGE && Off(va) == 0
    requires !Present(m[dir][Pdi(va)]) ==> Unused(m, dir, table)
    ensures va + off < 0x1_0000_0000
    ensures var after := if Present(m[dir][Pdi(va)]) then WithEntry(m, dir, va, Entry(frame))
                         else WithEntry(WithTable(m, dir, va, table), dir, va, Entry(frame));
            Translate(after, dir, va + off) == Some(frame * PAGE + off)
  {
    Parts(va);
    var other := Compose(Pdi(va), Pti(va), off);
    assert other == va + off;
    if Present(m[dir][Pdi(va)]) { EntryTranslations(m, dir, va, Entry(frame), other); }
    else { TableTranslations(m, dir, va, table, frame, other); }
  }

  /** The memory after mapping a page, through a table made in frame `table` if there is none. */
  function WithPage(m: Memory, dir: nat, va: Addr, table: nat, frame: nat): Memory
    requires Linked(m, dir) && Pdi(va) != SELF && frame < 0x10_0000
    requires !Present(m[dir][Pdi(va)]) ==> Unused(m, dir, table)
  {
    if Present(m[dir][Pdi(va)]) then WithEntry(m, dir, va, Entry(frame))
    else WithEntry(WithTable(m, dir, va, table), dir, va, Entry(frame))
  }

  /** Removing a page takes back the translations that mapping it gave, and no others; if the mapping made
      a page table, that stays, and can be reached in the window of the last slot. */
  lemma RemoveUndoesAdd(m: Memory, dir: nat, va: Addr, table: nat, frame: nat, other: Addr)
    requires Linked(m, dir) && Pdi(va) != SELF && frame < 0x10_0000
    requires if Present(m[dir][Pdi(va)]) then !Present(m[FrameOf(m[dir][Pdi(va)])][Pti(va)]) else Unused(m, dir, table)
    ensures var mapped := WithPage(m, dir, va, table, frame);
            && Linked(mapped, dir)
            && Translate(WithEntry(mapped, dir, va, Entry(frame) - 1), dir, other)
                 == if !Present(m[dir][Pdi(va)]) && Pdi(other) == SELF && Pti(other) == Pdi(va)
                    then Some(table * PAGE + Off(other)) else Translate(m, dir, other)
  {
    var mapped := WithPage(m, dir, va, table, frame);
    if Present(m[dir][Pdi(va)]) {
      assert Linked(mapped, dir) && mapped[dir] == m[dir];
      EntryTranslations(m, dir, va, Entry(frame), other);
    } else {
      FreshTableLinked(m, dir, va, table, frame);
      TableTranslations(m, dir, va, table, frame, other);
    }
    EntryTranslations(mapped, dir, va, Entry(frame) - 1, other);
  }

  lemma FreshTableLinked(m: Memory, dir: nat, va: Addr, table: nat, frame: nat)
    requires Linked(m, dir) && Pdi(va) != SELF && frame < 0x10_0000
    requires !Present(m[dir][Pdi(va)]) && Unused(m, dir, table)
    ensures var mapped := WithPage(m, dir, va, table, frame);
            && Linked(mapped, dir) && mapped[dir] == m[dir][Pdi(va) := Entry(table)]
            && forall other: Addr {:trigger SharesEntry(mapped, dir, va, other)} ::
                 Pdi(other) != Pdi(va) && Present(mapped[dir][Pdi(other)]) ==>
                   !SharesEntry(mapped, dir, va, other)
  {
  }

  // ---------------------------------------------------------------- as booted

  const BOOT_DIR := 0x100
  const BOOT_TABLE := 0x101

  /** What the loader leaves of the tables: slots 0 and 768 lead to one table, which maps the first MByte
      onto itself; the other slots of the kernel half lead to a table each, the last slot to the directory. */
  predicate Booted(m: Memory) {
    && BOOT_DIR in m && BOOT_TABLE in m && (forall f :: BOOT_DIR <= f < BOOT_DIR + 256 ==> f in m)
    && m[BOOT_DIR][0] == Entry(BOOT_TABLE) && m[BOOT_DIR][SELF] == Entry(BOOT_DIR)
    && (forall i :: 0 < i < 768 ==> m[BOOT_DIR][i] == 0)
    && (forall i :: 768 <= i < SELF ==> m[BOOT_DIR][i] == Entry(BOOT_TABLE + i - 768))
    && (forall t :: 0 <= t < 256 ==> m[BOOT_TABLE][t] == Entry(t))
  }

  /** .setup_page (mbr/loader.s:236-286), before paging is on. Of the tables only the first quarter of the
      first one is written; the rest stays as it is found. */
  method SetupPage(memory: Memory) returns (m: Memory)
    requires BOOT_TABLE in memory && forall f :: BOOT_DIR <= f < BOOT_DIR + 256 ==> f in memory
    ensures Booted(m) && m.Keys == memory.Keys
    ensures forall f :: f in memory && f != BOOT_DIR && f != BOOT_TABLE ==> m[f] == memory[f]
    ensures forall t :: 256 <= t < ENTRIES ==> m[BOOT_TABLE][t] == memory[BOOT_TABLE][t]
  {
    m := memory[BOOT_DIR := seq(ENTRIES, _ => 0)];
    var table := BOOT_TABLE;
    var eax: U32 := table * PAGE + FLAGS;
    m := m[BOOT_DIR := m[BOOT_DIR][0 := eax][768 := eax]];
    eax := eax - PAGE;
    m := m[BOOT_DIR := m[BOOT_DIR][SELF := eax]];
    var esi := 0;
    var edx: U32 := FLAGS;
    while esi < 256
      invariant 0 <= esi <= 256 && edx == esi * PAGE + FLAGS
      invariant BOOT_DIR in m && table in m && m == memory[BOOT_DIR := m[BOOT_DIR]][table := m[table]]
      invariant m[BOOT_DIR]
                  == seq<U32>(ENTRIES, _ => 0)[0 := Entry(table)][768 := Entry(table)][SELF := Entry(BOOT_DIR)]
      invariant forall t :: 0 <= t < esi ==> m[table][t] == Entry(t)
      invariant forall t :: 256 <= t < ENTRIES ==> m[table][t] == memory[table][t]
    {
      m := m[table := m[table][esi := edx]];
      edx := edx + PAGE;
      esi := esi + 1;
    }
    eax := (BOOT_DIR + 2) * PAGE + FLAGS;
    esi := 769;
    while esi < SELF
      invariant 769 <= esi <= SELF && eax == (BOOT_TABLE + esi - 768) * PAGE + FLAGS
      invariant BOOT_DIR in m && table in m && m == memory[BOOT_DIR := m[BOOT_DIR]][table := m[table]]
      invariant m[BOOT_DIR][0] == m[BOOT_DIR][768] == Entry(table) && m[BOOT_DIR][SELF] == Entry(BOOT_DIR)
      invariant forall i :: 0 < i < 768 ==> m[BOOT_DIR][i] == 0
      invariant forall i :: 768 < i < esi ==> m[BOOT_DIR][i] == Entry(BOOT_TABLE + i - 768)
      invariant forall t :: 0 <= t < 256 ==> m[table][t] == Entry(t)
      invariant forall t :: 256 <= t < ENTRIES ==> m[table][t] == memory[table][t]
    {
      m := m[BOOT_DIR := m[BOOT_DIR][esi := eax]];
      eax := eax + PAGE;
      esi := esi + 1;
    }
  }

  lemma BootedIsLinked(m: Memory)
    requires Booted(m)
    ensures Linked(m, BOOT_DIR)
    ensures forall i, j :: 768 <= i < j < SELF ==> FrameOf(m[BOOT_DIR][i]) != FrameOf(m[BOOT_DIR][j])
  {
    forall i | 0 <= i < SELF && Present(m[BOOT_DIR][i])
      ensures FrameOf(m[BOOT_DIR][i]) in m && FrameOf(m[BOOT_DIR][i]) != BOOT_DIR
    {
      assert i == 0 || i >= 768;
    }
    forall i | 768 <= i < SELF
      ensures FrameOf(m[BOOT_DIR][i]) == BOOT_TABLE + i - 768
    {
    }
  }

  /** So slots 0 and 768 share a table: a page mapped in the first 4 MByte of the kernel half, where its heap
      starts, shows up at the bottom of the address space too. */
  lemma BootTableIsShared(m: Memory, va: Addr, frame: nat)
    requires Booted(m) && Pdi(va) == 768 && frame < 0x10_0000
    ensures var low := Compose(0, Pti(va), Off(va));
            low == va - 0xc000_0000 && Linked(m, BOOT_DIR)
            && Translate(WithEntry(m, BOOT_DIR, va, Entry(frame)), BOOT_DIR, low) == Some(frame * PAGE + Off(va))
  {
    var low := Compose(0, Pti(va), Off(va));
    BootedIsLinked(m);
    Parts(va);
    EntryTranslations(m, BOOT_DIR, va, Entry(frame), low);
  }

  // ---------------------------------------------------------------- as written

  /** Mem_AddPageTable as written: the assertion of memory.c:205 is on the other pointer, so without a frame
      for the table (`palloc` is 0) the text goes on with frame 0. */
  function AddAsWritten(m: Memory, dir: nat, va: Addr, frame: nat, palloc: nat): Memory
    requires dir in m && frame < 0x10_0000 && palloc < 0x10_0000 && palloc != dir
    requires Present(m[dir][Pdi(va)]) ==> FrameOf(m[dir][Pdi(va)]) in m
  {
    if Present(m[dir][Pdi(va)]) then WithEntry(m, dir, va, Entry(frame))
    else WithEntry(WithTable(m, dir, va, palloc), dir, va, Entry(frame))
  }

  /** Frame 0 keeps what it holds. */
  ghost predicate FrameZeroKept(m: Memory, dir: nat, va: Addr, frame: nat, palloc: nat, held: Page)
    requires dir in m && dir != 0 && frame < 0x10_0000 && palloc < 0x10_0000 && palloc != dir
    requires Present(m[dir][Pdi(va)]) ==> FrameOf(m[dir][Pdi(va)]) in m
  {
    AddAsWritten(m[0 := held], dir, va, frame, palloc)[0] == held
  }

  /** Whatever frame 0 holds, it is spared exactly if there is a table already or a frame for one. */
  lemma AddAsWrittenIsRightIff(m: Memory, dir: nat, va: Addr, frame: nat, palloc: nat)
    requires Linked(m, dir) && dir != 0 && Pdi(va) != SELF && frame < 0x10_0000
    requires forall i :: 0 <= i < ENTRIES && Present(m[dir][i]) ==> FrameOf(m[dir][i]) != 0
    requires palloc == 0 || Unused(m, dir, palloc)
    ensures (forall held: Page :: FrameZeroKept(m, dir, va, frame, palloc, held))
            <==> Present(m[dir][Pdi(va)]) || palloc != 0
  {
    if !Present(m[dir][Pdi(va)]) && palloc == 0 {
      NotesLost(m, dir, va, frame);
    }
  }

  /** The loader leaves the size of the memory at 0xb03 (memory.c:26), in words 704 and 705 of frame 0. Unless
      the page mapped uses that very entry, word 704 is gone. */
  lemma NotesLost(m: Memory, dir: nat, va: Addr, frame: nat)
    requires dir in m && dir != 0 && !Present(m[dir][Pdi(va)]) && frame < 0x10_0000
    ensures forall held: Page :: Pti(va) != 704 && held[704] != 0 ==> !FrameZeroKept(m, dir, va, frame, 0, held)
    ensures exists held: Page :: !FrameZeroKept(m, dir, va, frame, 0, held)
  {
    forall held: Page | Pti(va) != 704 && held[704] != 0
      ensures !FrameZeroKept(m, dir, va, frame, 0, held)
    {
      assert AddAsWritten(m[0 := held], dir, va, frame, 0)[0][704] == 0;
    }
    var i := if Pti(va) == 0 then 1 else 0;
    var held: Page := seq<U32>(ENTRIES, _ => 0)[i := 1];
    assert AddAsWritten(m[0 := held], dir, va, frame, 0)[0][i] == 0;
    assert !FrameZeroKept(m, dir, va, frame, 0, held);
  }

  /** A directory with nothing but its last slot, and no free frame: mapping page 0x400 makes frame 0 its table. */
  lemma FrameZeroExample(m: Memory)
    requires m == map[0x100 := seq<U32>(ENTRIES, _ => 0)[SELF := Entry(0x100)],
                      0 := seq<U32>(ENTRIES, i => if i == 704 then 0x200_0000 else 0)]
    ensures Linked(m, 0x100) && !FrameZeroKept(m, 0x100, 0x40_0000, 5, 0, m[0])
    ensures FrameOf(AddAsWritten(m, 0x100, 0x40_0000, 5, 0)[0x100][1]) == 0
  {
    NotesLost(m, 0x100, 0x40_0000, 5);
    assert m[0 := m[0]] == m;
  }
}
