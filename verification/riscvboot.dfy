/** The boot page tables for RISC-V (tool/microkit/src/loader.rs) and the translation of
    Sv39, section 4.4 of the RISC-V Privileged Architecture 20211203. */
module RiscvBoot {
  import opened Powers
  import opened Words
  import opened MemoryRegions
  import opened Bytes
  import opened BootTables

  const MIB2: nat := 0x20_0000
  const GIB: nat := 0x4000_0000
  /** Physical addresses of Sv39 have 56 bits. */
  const PHYSICAL: nat := 0x100_0000_0000_0000

  // ---- entries ----

  /** Index into the table of this level, 1 to 3. */
  function PtIndex(addr: nat, level: nat): nat {
    match level
    case 1 => (addr / 0x4000_0000) % 512
    case 2 => (addr / 0x20_0000) % 512
    case _ => (addr / 0x1000) % 512
  }

  function PtePpn(addr: nat): nat {
    (addr / 0x1000) * 0x400
  }

  /** The fields of an entry do not overlap, so their OR is this sum. */
  function PteNext(addr: nat): nat {
    PtePpn(addr) + 1
  }

  /** Dirty, accessed, executable, writable, readable and valid. */
  function PteLeaf(addr: nat): nat {
    PtePpn(addr) + 0xCE + 1
  }

  /** The entries are the OR of their fields. */
  lemma PtesAreOrs(addr: nat)
    ensures PteNext(addr) == Or(PtePpn(addr), 1)
    ensures PteLeaf(addr) == Or(Or(PtePpn(addr), 0xCE), 1)
  {
    assert Pow2(10) == 0x400 && Pow2(1) == 2 by {
      assert Pow2(5) == 32;
      Pow2Square(5, 32);
    }
    var k, x := addr / 0x1000, PtePpn(addr);
    OrSum(x, 1, k, 10, 0x400);
    OrSum(x, 0xCE, k, 10, 0x400);
    OrSum(x + 0xCE, 1, k * 0x200 + 0x67, 1, 2);
  }

  // ---- the Sv39 walk ----

  predicate Valid(pte: nat) {
    pte % 2 == 1
  }

  /** Readable or executable, so a leaf. */
  predicate IsLeaf(pte: nat) {
    (pte / 2) % 2 == 1 || (pte / 8) % 2 == 1
  }

  /** Writable but not readable is reserved. */
  predicate Reserved(pte: nat) {
    (pte / 2) % 2 == 0 && (pte / 4) % 2 == 1
  }

  function Ppn(pte: nat): nat {
    (pte / 0x400) % 0x1000_0000_0000
  }

  /** Physical memory as far as the walk reads it: the tables, by address. */
  type Tables = map<nat, seq<Byte>>

  predicate WellSized(ts: Tables) {
    forall a :: a in ts ==> |ts[a]| == 4096
  }

  /** Bits 63 to 39 of a virtual address equal bit 38. */
  predicate Canonical(va: nat) {
    va < 0x40_0000_0000 || WORD - 0x40_0000_0000 <= va < WORD
  }

  /** One level of the walk, from the table at this address. */
  function WalkFrom(ts: Tables, table: nat, level: nat, va: nat): Option<nat>
    requires WellSized(ts) && 1 <= level <= 3
    decreases 3 - level
  {
    if table !in ts then None
    else
      var pte := Entry(ts[table], PtIndex(va, level));
      if !Valid(pte) || Reserved(pte) then None
      else if IsLeaf(pte) then LeafAddress(pte, level, va)
      else if level < 3 then WalkFrom(ts, Ppn(pte) * 0x1000, level + 1, va)
      else None
  }

  /** A superpage must be aligned; the low bits come from the virtual address. */
  function LeafAddress(pte: nat, level: nat, va: nat): Option<nat> {
    match level
    case 1 => if Ppn(pte) % 0x4_0000 == 0 then Some(Ppn(pte) * 0x1000 + va % 0x4000_0000) else None
    case 2 => if Ppn(pte) % 0x200 == 0 then Some(Ppn(pte) * 0x1000 + va % 0x20_0000) else None
    case _ => Some(Ppn(pte) * 0x1000 + va % 0x1000)
  }

  function Translate(ts: Tables, root: nat, va: nat): Option<nat>
    requires WellSized(ts)
  {
    if Canonical(va) then WalkFrom(ts, root, 1, va) else None
  }

  /** A page number and ten bits of flags in one entry. */
  lemma PteNumbers(k: nat, flags: nat)
    requires k < 0x1000_0000_0000 && flags < 0x400
    ensures var pte := k * 0x400 + flags; pte < WORD && Ppn(pte) == k
    ensures var pte := k * 0x400 + flags;
      && pte % 2 == flags % 2 && (pte / 2) % 2 == (flags / 2) % 2
      && (pte / 4) % 2 == (flags / 4) % 2 && (pte / 8) % 2 == (flags / 8) % 2
  {
    var pte := k * 0x400 + flags;
    assert pte / 0x400 == k;
    FlagBits(k * 0x40, flags);
  }

  /** Flags survive the addition of a multiple of 16. */
  lemma FlagBits(j: nat, flags: nat)
    ensures var pte := j * 16 + flags;
      && pte % 2 == flags % 2 && (pte / 2) % 2 == (flags / 2) % 2
      && (pte / 4) % 2 == (flags / 4) % 2 && (pte / 8) % 2 == (flags / 8) % 2
  {
    var pte := j * 16 + flags;
    HalfOfSum(j * 8, flags);
    HalfOfSum(j * 4, flags / 2);
    HalfOfSum(j * 2, flags / 4);
    HalfOfSum(j, flags / 8);
    HalveThrice(pte);
    HalveThrice(flags);
  }

  lemma HalfOfSum(a: nat, x: nat)
    ensures (2 * a + x) / 2 == a + x / 2 && (2 * a + x) % 2 == x % 2
  {
  }

  lemma HalveThrice(x: nat)
    ensures x / 4 == (x / 2) / 2 && x / 8 == (x / 4) / 2
  {
  }

  lemma NextReads(addr: nat)
    requires addr < PHYSICAL && addr % 0x1000 == 0
    ensures var pte := PteNext(addr);
      pte < WORD && Valid(pte) && !Reserved(pte) && !IsLeaf(pte) && Ppn(pte) * 0x1000 == addr
  {
    PteNumbers(addr / 0x1000, 1);
  }

  // ---- the tables that are built ----

  /** Symbols of the loader image and the kernel's first addresses. */
  datatype Setup = Setup(text: nat, lvl1: nat, lvl2: nat, lvl3: nat, loader: nat, firstVaddr: nat, firstPaddr: nat)

  function RoundUp2M(x: nat): nat {
    RoundUp(x, 0x20_0000)
  }

  predicate UsesLevel3(s: Setup) {
    s.firstVaddr % 0x20_0000 != 0
  }

  /** First slot of the kernel's level-2 table that holds a 2 MiB leaf. */
  function FirstLeaf(s: Setup): nat {
    PtIndex(s.firstVaddr, 2) + (if UsesLevel3(s) then 1 else 0)
  }

  function Lvl1Entry(s: Setup, i: nat): nat {
    if i == PtIndex(s.firstVaddr, 1) then PteNext(s.lvl2)
    else if i == PtIndex(s.text, 1) then PteNext(s.loader)
    else 0
  }

  function LoaderEntry(s: Setup, i: nat): nat {
    if i >= PtIndex(s.text, 2) then PteLeaf(s.text + (i - PtIndex(s.text, 2)) * 0x20_0000) else 0
  }

  function Lvl2Entry(s: Setup, i: nat): nat {
    if i >= FirstLeaf(s) then PteLeaf(RoundUp2M(s.firstPaddr) + (i - FirstLeaf(s)) * 0x20_0000)
    else if UsesLevel3(s) && i == PtIndex(s.firstVaddr, 2) then PteNext(s.lvl3)
    else 0
  }

  function Lvl3Entry(s: Setup, i: nat): nat {
    if UsesLevel3(s) && i >= PtIndex(s.firstVaddr, 3) then
      PteLeaf(s.firstPaddr + (i - PtIndex(s.firstVaddr, 3)) * 0x1000)
    else 0
  }

  /** The numbers fit and pass the assertions of the builder. */
  predicate SetupOk(s: Setup) {
    && s.text % 0x20_0000 == 0 && s.text + GIB <= PHYSICAL && s.firstPaddr + 2 * GIB <= PHYSICAL
    && s.firstVaddr < WORD
    && s.lvl1 < PHYSICAL && s.lvl2 < PHYSICAL && s.lvl3 < PHYSICAL && s.loader < PHYSICAL
    && (UsesLevel3(s) ==> s.firstPaddr % 0x1000 == 0 && s.lvl3 % 0x1000 == 0)
  }

  lemma PteFits(addr: nat)
    requires addr < 2 * PHYSICAL
    ensures PteLeaf(addr) < WORD && PteNext(addr) < WORD
  {
  }

  // ---- building ----

  function Step(big: bool): nat {
    if big then 0x20_0000 else 0x1000
  }

  /** Leaves for consecutive pages, from slot `first` to the end of the table. */
  method FillLeaves(a: array<Byte>, first: nat, base: nat, big: bool)
    requires a.Length == 4096 && base + 512 * Step(big) <= 2 * PHYSICAL
    modifies a
    ensures forall j: nat :: j < 512 ==>
      EntryOf(a, j) == if j >= first then PteLeaf(base + (j - first) * Step(big)) else old(EntryOf(a, j))
  {
    var page, i := 0, first;
    while i < 512
      invariant i >= first && page == i - first
      invariant forall j: nat :: j < 512 ==>
        EntryOf(a, j) == if first <= j < i then PteLeaf(base + (j - first) * Step(big)) else old(EntryOf(a, j))
    {
      var addr := base + page * Step(big);
      PteFits(addr);
      PutEntry(a, i, PteLeaf(addr));
      page, i := page + 1, i + 1;
    }
  }

  method BuildLvl1(s: Setup) returns (a: array<Byte>)
    requires SetupOk(s)
    ensures fresh(a) && a.Length == 4096 && forall j: nat :: j < 512 ==> EntryOf(a, j) == Lvl1Entry(s, j)
  {
    a := EmptyTable();
    PteFits(s.loader);
    PutEntry(a, PtIndex(s.text, 1), PteNext(s.loader));
    PteFits(s.lvl2);
    PutEntry(a, PtIndex(s.firstVaddr, 1), PteNext(s.lvl2));
  }

  method BuildLoader(s: Setup) returns (a: array<Byte>)
    requires SetupOk(s)
    ensures fresh(a) && a.Length == 4096 && forall j: nat :: j < 512 ==> EntryOf(a, j) == LoaderEntry(s, j)
  {
    a := EmptyTable();
    FillLeaves(a, PtIndex(s.text, 2), s.text, true);
  }

  method BuildLvl3(s: Setup) returns (a: array<Byte>)
    requires SetupOk(s)
    ensures fresh(a) && a.Length == 4096 && forall j: nat :: j < 512 ==> EntryOf(a, j) == Lvl3Entry(s, j)
  {
    a := EmptyTable();
    if s.firstVaddr % MIB2 != 0 {
      FillLeaves(a, PtIndex(s.firstVaddr, 3), s.firstPaddr, false);
    }
  }

  method BuildLvl2(s: Setup) returns (a: array<Byte>)
    requires SetupOk(s)
    ensures fresh(a) && a.Length == 4096 && forall j: nat :: j < 512 ==> EntryOf(a, j) == Lvl2Entry(s, j)
  {
    a := EmptyTable();
    var indexLvl2 := PtIndex(s.firstVaddr, 2);
    if s.firstVaddr % MIB2 != 0 {
      PteFits(s.lvl3);
      PutEntry(a, indexLvl2, PteNext(s.lvl3));
      indexLvl2 := indexLvl2 + 1;
    }
    FillLeaves(a, indexLvl2, RoundUp2M(s.firstPaddr), true);
  }

  /** The four tables, at their addresses. */
  method Riscv64SetupPagetables(s: Setup) returns (lvl1: seq<Byte>, lvl2: seq<Byte>, lvl3: seq<Byte>, loader: seq<Byte>)
    requires SetupOk(s)
    ensures |lvl1| == |lvl2| == |lvl3| == |loader| == 4096
    ensures forall j: nat :: j < 512 ==> Entry(lvl1, j) == Lvl1Entry(s, j) && Entry(lvl2, j) == Lvl2Entry(s, j)
    ensures forall j: nat :: j < 512 ==> Entry(lvl3, j) == Lvl3Entry(s, j) && Entry(loader, j) == LoaderEntry(s, j)
  {
    var a := BuildLvl1(s);
    lvl1 := a[..];
    a := BuildLvl2(s);
    lvl2 := a[..];
    a := BuildLvl3(s);
    lvl3 := a[..];
    a := BuildLoader(s);
    loader := a[..];
  }

  // ---- what the tables mean ----

  ghost predicate Loaded(ts: Tables, at: nat, entry: nat -> nat) {
    at in ts && |ts[at]| == 4096 && forall j: nat :: j < 512 ==> Entry(ts[at], j) == entry(j)
  }

  /** The tables lie in memory at their page-aligned addresses. */
  ghost predicate InMemory(s: Setup, ts: Tables) {
    && SetupOk(s) && WellSized(ts)
    && s.lvl2 % 0x1000 == 0 && s.lvl3 % 0x1000 == 0 && s.loader % 0x1000 == 0
    && Loaded(ts, s.lvl1, i => Lvl1Entry(s, i)) && Loaded(ts, s.loader, i => LoaderEntry(s, i))
    && Loaded(ts, s.lvl2, i => Lvl2Entry(s, i)) && Loaded(ts, s.lvl3, i => Lvl3Entry(s, i))
  }

  /** va lies in the GiB of base, at or above it. */
  predicate SameGibFrom(base: nat, va: nat) {
    base <= va && va / 0x4000_0000 == base / 0x4000_0000
  }

  lemma GibIndex(base: nat, va: nat)
    requires SameGibFrom(base, va) && base < WORD
    ensures PtIndex(va, 1) == PtIndex(base, 1) && va < base + GIB && va < WORD
    ensures Canonical(base) <==> Canonical(va)
  {
  }

  /** Steps of 2 MiB inside a GiB. */
  lemma BigSteps(base: nat, va: nat)
    requires SameGibFrom(base, va) && base % 0x20_0000 == 0
    ensures PtIndex(va, 2) == PtIndex(base, 2) + (va - base) / 0x20_0000
    ensures ((va - base) / 0x20_0000) * 0x20_0000 + va % 0x20_0000 == va - base
  {
    var b, v := base / 0x20_0000, va / 0x20_0000;
    assert (va - base) / 0x20_0000 == v - b;
    assert b / 512 == base / 0x4000_0000 && v / 512 == va / 0x4000_0000;
  }

  /** Steps of 4 KiB inside 2 MiB. */
  lemma SmallSteps(base: nat, va: nat)
    requires base <= va && va / 0x20_0000 == base / 0x20_0000 && base % 0x1000 == 0
    ensures PtIndex(va, 3) == PtIndex(base, 3) + (va - base) / 0x1000
    ensures ((va - base) / 0x1000) * 0x1000 + va % 0x1000 == va - base
    ensures PtIndex(va, 2) == PtIndex(base, 2) && va / 0x4000_0000 == base / 0x4000_0000
  {
    var b, v := base / 0x1000, va / 0x1000;
    assert (va - base) / 0x1000 == v - b;
    assert b / 512 == base / 0x20_0000 && v / 512 == va / 0x20_0000;
    assert base / 0x4000_0000 == (base / 0x20_0000) / 512 && va / 0x4000_0000 == (va / 0x20_0000) / 512;
  }

  /** A level-2 leaf for a page of an aligned run. */
  lemma BigLeaf(base: nat, k: nat, va: nat)
    requires base % 0x20_0000 == 0 && base + k * 0x20_0000 < PHYSICAL
    ensures var pte := PteLeaf(base + k * 0x20_0000);
      && Valid(pte) && !Reserved(pte) && IsLeaf(pte)
      && LeafAddress(pte, 2, va) == Some(base + k * 0x20_0000 + va % 0x20_0000)
  {
    var addr, j := base + k * 0x20_0000, base / 0x20_0000 + k;
    assert addr == j * 0x20_0000;
    BigPages(j);
    PteNumbers(j * 0x200, 0xCF);
  }

  lemma BigPages(j: nat)
    ensures (j * 0x20_0000) / 0x1000 == j * 0x200 && (j * 0x200) % 0x200 == 0
  {
  }

  lemma SmallLeaf(base: nat, k: nat, va: nat)
    requires base % 0x1000 == 0 && base + k * 0x1000 < PHYSICAL
    ensures var pte := PteLeaf(base + k * 0x1000);
      && Valid(pte) && !Reserved(pte) && IsLeaf(pte)
      && LeafAddress(pte, 3, va) == Some(base + k * 0x1000 + va % 0x1000)
  {
    var addr, j := base + k * 0x1000, base / 0x1000 + k;
    assert addr == j * 0x1000;
    assert addr / 0x1000 == j;
    PteNumbers(j, 0xCF);
  }

  /** The walk ends at a 4 KiB leaf. */
  lemma EndsInSmallLeaf(ts: Tables, table: nat, va: nat, base: nat, k: nat)
    requires WellSized(ts) && table in ts && base % 0x1000 == 0 && base + k * 0x1000 < PHYSICAL
    requires Entry(ts[table], PtIndex(va, 3)) == PteLeaf(base + k * 0x1000)
    ensures WalkFrom(ts, table, 3, va) == Some(base + k * 0x1000 + va % 0x1000)
  {
    SmallLeaf(base, k, va);
  }

  /** The walk ends at a 2 MiB leaf. */
  lemma EndsInBigLeaf(ts: Tables, table: nat, va: nat, base: nat, k: nat)
    requires WellSized(ts) && table in ts && base % 0x20_0000 == 0 && base + k * 0x20_0000 < PHYSICAL
    requires Entry(ts[table], PtIndex(va, 2)) == PteLeaf(base + k * 0x20_0000)
    ensures WalkFrom(ts, table, 2, va) == Some(base + k * 0x20_0000 + va % 0x20_0000)
  {
    BigLeaf(base, k, va);
  }

  /** A pointer entry continues the walk in its table. */
  lemma Descends(ts: Tables, table: nat, level: nat, va: nat, next: nat)
    requires WellSized(ts) && 1 <= level < 3 && table in ts && next < PHYSICAL && next % 0x1000 == 0
    requires Entry(ts[table], PtIndex(va, level)) == PteNext(next)
    ensures WalkFrom(ts, table, level, va) == WalkFrom(ts, next, level + 1, va)
  {
    NextReads(next);
  }

  lemma TextThroughLoader(s: Setup, ts: Tables, va: nat)
    requires InMemory(s, ts) && Canonical(s.text) && SameGibFrom(s.text, va)
    requires PtIndex(s.text, 1) != PtIndex(s.firstVaddr, 1)
    ensures Translate(ts, s.lvl1, va) == Some(va)
  {
    GibIndex(s.text, va);
    BigSteps(s.text, va);
    var k := (va - s.text) / 0x20_0000;
    assert Entry(ts[s.lvl1], PtIndex(va, 1)) == PteNext(s.loader);
    Descends(ts, s.lvl1, 1, va, s.loader);
    assert Entry(ts[s.loader], PtIndex(va, 2)) == PteLeaf(s.text + k * 0x20_0000);
    EndsInBigLeaf(ts, s.loader, va, s.text, k);
  }

  lemma KernelThroughLevel3(s: Setup, ts: Tables, va: nat)
    requires InMemory(s, ts) && Canonical(s.firstVaddr) && s.firstVaddr % 0x1000 == 0 && UsesLevel3(s)
    requires s.firstVaddr <= va && va / 0x20_0000 == s.firstVaddr / 0x20_0000
    ensures Translate(ts, s.lvl1, va) == Some(s.firstPaddr + (va - s.firstVaddr))
  {
    var fv := s.firstVaddr;
    SmallSteps(fv, va);
    GibIndex(fv, va);
    var k := (va - fv) / 0x1000;
    assert Entry(ts[s.lvl1], PtIndex(va, 1)) == PteNext(s.lvl2);
    Descends(ts, s.lvl1, 1, va, s.lvl2);
    assert Entry(ts[s.lvl2], PtIndex(va, 2)) == PteNext(s.lvl3);
    Descends(ts, s.lvl2, 2, va, s.lvl3);
    assert Entry(ts[s.lvl3], PtIndex(va, 3)) == PteLeaf(s.firstPaddr + k * 0x1000);
    EndsInSmallLeaf(ts, s.lvl3, va, s.firstPaddr, k);
  }

  lemma RoundedUp(x: nat)
    ensures RoundUp2M(x) % 0x20_0000 == 0 && x <= RoundUp2M(x) < x + 0x20_0000
    ensures x % 0x20_0000 != 0 ==> RoundUp2M(x) / 0x20_0000 == x / 0x20_0000 + 1
  {
  }

  /** The block that a 2 MiB leaf covers, counted from the first one. */
  lemma BlockIndex(s: Setup, va: nat)
    requires SameGibFrom(s.firstVaddr, va)
    requires !(UsesLevel3(s) && va / 0x20_0000 == s.firstVaddr / 0x20_0000)
    ensures RoundUp2M(s.firstVaddr) <= va
    ensures PtIndex(va, 2) == FirstLeaf(s) + (va - RoundUp2M(s.firstVaddr)) / 0x20_0000
    ensures ((va - RoundUp2M(s.firstVaddr)) / 0x20_0000) * 0x20_0000 + va % 0x20_0000 == va - RoundUp2M(s.firstVaddr)
  {
    var fv, nb := s.firstVaddr, RoundUp2M(s.firstVaddr);
    RoundedUp(fv);
    var b, v := fv / 0x20_0000, va / 0x20_0000;
    assert b <= v && b / 512 == fv / 0x4000_0000 && v / 512 == va / 0x4000_0000;
    assert nb <= va && nb / 0x4000_0000 == (nb / 0x20_0000) / 512;
    BigSteps(nb, va);
  }

  lemma KernelThroughBlocks(s: Setup, ts: Tables, va: nat)
    requires InMemory(s, ts) && Canonical(s.firstVaddr) && SameGibFrom(s.firstVaddr, va)
    requires !(UsesLevel3(s) && va / 0x20_0000 == s.firstVaddr / 0x20_0000)
    ensures RoundUp2M(s.firstVaddr) <= va
    ensures Translate(ts, s.lvl1, va) == Some(RoundUp2M(s.firstPaddr) + (va - RoundUp2M(s.firstVaddr)))
  {
    GibIndex(s.firstVaddr, va);
    BlockIndex(s, va);
    RoundedUp(s.firstPaddr);
    RoundedUp(s.firstVaddr);
    var k := (va - RoundUp2M(s.firstVaddr)) / 0x20_0000;
    assert Entry(ts[s.lvl1], PtIndex(va, 1)) == PteNext(s.lvl2);
    Descends(ts, s.lvl1, 1, va, s.lvl2);
    assert Entry(ts[s.lvl2], PtIndex(va, 2)) == PteLeaf(RoundUp2M(s.firstPaddr) + k * 0x20_0000);
    EndsInBigLeaf(ts, s.lvl2, va, RoundUp2M(s.firstPaddr), k);
  }

  /** Every kernel address of the GiB maps to the first physical address plus its offset. */
  ghost predicate KernelIsMapped(s: Setup, ts: Tables)
    requires WellSized(ts)
  {
    forall va: nat :: SameGibFrom(s.firstVaddr, va) ==>
      Translate(ts, s.lvl1, va) == Some(s.firstPaddr + (va - s.firstVaddr))
  }

  /** The kernel mapping is right exactly when the first addresses are congruent modulo
      2 MiB, or the whole kernel part of the GiB goes through the level-3 table. */
  lemma KernelMappedExactly(s: Setup, ts: Tables)
    requires InMemory(s, ts) && Canonical(s.firstVaddr) && s.firstVaddr % 0x1000 == 0
    ensures KernelIsMapped(s, ts) <==>
      || s.firstVaddr % 0x20_0000 == s.firstPaddr % 0x20_0000
      || (s.firstVaddr % 0x20_0000 != 0 && PtIndex(s.firstVaddr, 2) == 511)
  {
    var fv, fp := s.firstVaddr, s.firstPaddr;
    var congruent := fv % 0x20_0000 == fp % 0x20_0000;
    var last := fv % 0x20_0000 != 0 && PtIndex(fv, 2) == 511;
    var nb := RoundUp2M(fv);
    if congruent || last {
      forall va: nat | SameGibFrom(fv, va)
        ensures Translate(ts, s.lvl1, va) == Some(fp + (va - fv))
      {
        if UsesLevel3(s) && va / 0x20_0000 == fv / 0x20_0000 {
          KernelThroughLevel3(s, ts, va);
        } else {
          KernelThroughBlocks(s, ts, va);
          BlockIndex(s, va);
        }
      }
    } else {
      NextBlockInGib(s);
      KernelThroughBlocks(s, ts, nb);
      assert SameGibFrom(fv, nb);
      assert Translate(ts, s.lvl1, nb) != Some(fp + (nb - fv));
    }
  }

  lemma NextBlockInGib(s: Setup)
    requires s.firstVaddr % 0x20_0000 == 0 || PtIndex(s.firstVaddr, 2) != 511
    ensures SameGibFrom(s.firstVaddr, RoundUp2M(s.firstVaddr))
    ensures !(UsesLevel3(s) && RoundUp2M(s.firstVaddr) / 0x20_0000 == s.firstVaddr / 0x20_0000)
  {
    RoundedUp(s.firstVaddr);
    var b := s.firstVaddr / 0x20_0000;
    assert s.firstVaddr / 0x4000_0000 == b / 512;
    assert RoundUp2M(s.firstVaddr) / 0x4000_0000 == (RoundUp2M(s.firstVaddr) / 0x20_0000) / 512;
  }

  // ---- the loader's own text ----

  /** Canonical addresses with one level-1 index lie in one GiB. */
  lemma CanonicalGib(x: nat, y: nat)
    requires Canonical(x) && Canonical(y) && PtIndex(x, 1) == PtIndex(y, 1)
    ensures x / 0x4000_0000 == y / 0x4000_0000
  {
    GibNumber(x);
    GibNumber(y);
  }

  lemma GibNumber(x: nat)
    requires Canonical(x)
    ensures x / 0x4000_0000 == if PtIndex(x, 1) < 256 then PtIndex(x, 1) else 0x3_FFFF_FE00 + PtIndex(x, 1)
  {
    var g := x / 0x4000_0000;
    if x < 0x40_0000_0000 {
      UniqueMod(g, 0, 512, g);
    } else {
      UniqueMod(g, 0x1FF_FFFF, 512, g - 0x3_FFFF_FE00);
    }
  }

  /** Below the kernel there is nothing in the kernel's tables. */
  lemma NothingBelowKernel(s: Setup, ts: Tables, va: nat)
    requires InMemory(s, ts) && va % 0x20_0000 == 0 && va < s.firstVaddr && s.firstVaddr % 0x1000 == 0
    requires va / 0x4000_0000 == s.firstVaddr / 0x4000_0000
    ensures Translate(ts, s.lvl1, va) == None
  {
    var fv := s.firstVaddr;
    assert Entry(ts[s.lvl1], PtIndex(va, 1)) == PteNext(s.lvl2);
    Descends(ts, s.lvl1, 1, va, s.lvl2);
    if va / 0x20_0000 == fv / 0x20_0000 {
      FirstSlots(fv, va);
      assert Entry(ts[s.lvl2], PtIndex(va, 2)) == PteNext(s.lvl3);
      Descends(ts, s.lvl2, 2, va, s.lvl3);
      assert Entry(ts[s.lvl3], PtIndex(va, 3)) == 0;
    } else {
      LowerSlot(fv, va);
      assert Entry(ts[s.lvl2], PtIndex(va, 2)) == 0;
    }
  }

  lemma FirstSlots(fv: nat, va: nat)
    requires va % 0x20_0000 == 0 && va < fv && va / 0x20_0000 == fv / 0x20_0000 && fv % 0x1000 == 0
    ensures fv % 0x20_0000 != 0 && PtIndex(va, 2) == PtIndex(fv, 2) && PtIndex(va, 3) < PtIndex(fv, 3)
  {
    SmallSteps(va, fv);
    assert PtIndex(fv, 3) == PtIndex(va, 3) + (fv - va) / 0x1000;
  }

  lemma LowerSlot(fv: nat, va: nat)
    requires va % 0x20_0000 == 0 && va < fv && va / 0x4000_0000 == fv / 0x4000_0000 && va / 0x20_0000 != fv / 0x20_0000
    ensures PtIndex(va, 2) < PtIndex(fv, 2)
  {
    BigSteps(va, fv);
  }

  ghost predicate TextIsMapped(s: Setup, ts: Tables)
    requires WellSized(ts)
  {
    forall va: nat :: SameGibFrom(s.text, va) ==> Translate(ts, s.lvl1, va) == Some(va)
  }

  /** What a caller can check: the kernel has another slot, or lies below the text and
      rounds up to its own physical address. */
  predicate TextKept(s: Setup) {
    || PtIndex(s.text, 1) != PtIndex(s.firstVaddr, 1)
    || (s.firstVaddr <= s.text && RoundUp2M(s.firstPaddr) == RoundUp2M(s.firstVaddr))
  }

  lemma TextThroughKernel(s: Setup, ts: Tables, va: nat)
    requires InMemory(s, ts) && Canonical(s.firstVaddr) && SameGibFrom(s.text, va) && s.firstVaddr <= s.text
    requires s.text / 0x4000_0000 == s.firstVaddr / 0x4000_0000
    ensures Translate(ts, s.lvl1, va) == Some(va) <==> RoundUp2M(s.firstPaddr) == RoundUp2M(s.firstVaddr)
  {
    var fv := s.firstVaddr;
    assert va / 0x20_0000 >= s.text / 0x20_0000;
    assert UsesLevel3(s) ==> s.text / 0x20_0000 > fv / 0x20_0000;
    KernelThroughBlocks(s, ts, va);
  }

  /** Every address from `_text` to the end of its GiB maps to itself exactly when the
      kernel's tables leave it alone or happen to map it to itself. */
  lemma TextMappedExactly(s: Setup, ts: Tables)
    requires InMemory(s, ts) && Canonical(s.text) && Canonical(s.firstVaddr) && s.firstVaddr % 0x1000 == 0
    ensures TextIsMapped(s, ts) <==> TextKept(s)
  {
    assert SameGibFrom(s.text, s.text);
    if PtIndex(s.text, 1) != PtIndex(s.firstVaddr, 1) {
      forall va: nat | SameGibFrom(s.text, va)
        ensures Translate(ts, s.lvl1, va) == Some(va)
      {
        TextThroughLoader(s, ts, va);
      }
    } else {
      CanonicalGib(s.text, s.firstVaddr);
      if s.text < s.firstVaddr {
        NothingBelowKernel(s, ts, s.text);
      } else {
        forall va: nat | SameGibFrom(s.text, va)
          ensures Translate(ts, s.lvl1, va) == Some(va) <==> RoundUp2M(s.firstPaddr) == RoundUp2M(s.firstVaddr)
        {
          TextThroughKernel(s, ts, va);
        }
      }
    }
  }
}
