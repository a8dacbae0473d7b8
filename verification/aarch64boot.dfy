/** The boot page tables for AArch64 (tool/microkit/src/loader.rs) and the stage 1
    translation with a 4 KiB granule, section D8.3 of ARM DDI 0487. */
module Aarch64Boot {
  import opened Powers
  import opened Words
  import opened MemoryRegions
  import opened Bytes
  import opened BootTables

  const MIB2: nat := 0x20_0000
  const GIB: nat := 0x4000_0000
  const SPAN48: nat := 0x1_0000_0000_0000

  // ---- descriptors ----

  /** Index into the table of this level, 0 to 3. */
  function Index(addr: nat, level: nat): nat {
    match level
    case 0 => (addr / 0x80_0000_0000) % 512
    case 1 => (addr / 0x4000_0000) % 512
    case 2 => (addr / 0x20_0000) % 512
    case _ => (addr / 0x1000) % 512
  }

  /** Memory attributes of a mapping: index into MAIR and shareability. */
  datatype Memory = Device | Normal

  function Shareability(m: Memory): nat {
    match m
    case Device => 2
    case Normal => 3
  }

  function AttrIndex(m: Memory): nat {
    match m
    case Device => 0
    case Normal => 4
  }

  /** Access flag, shareability and attribute index. */
  function LowerAttributes(m: Memory): nat {
    Or(Or(0x400, Shareability(m) * 0x100), AttrIndex(m) * 4)
  }

  /** Value of the lower attributes. */
  function Attributes(m: Memory): nat {
    match m
    case Device => 0x600
    case Normal => 0x710
  }

  /** Output address of a block: the address without its offset in the block. */
  function OutputAddress(level: nat, addr: nat): nat {
    if level == 1 then (addr / 0x4000_0000) * 0x4000_0000 else (addr / 0x20_0000) * 0x20_0000
  }

  /** The fields of a descriptor do not overlap, so their OR is this sum. */
  function BlockDescriptor(level: nat, addr: nat, m: Memory): nat {
    OutputAddress(level, addr) + Attributes(m) + 1
  }

  function TableDescriptor(addr: nat): nat {
    addr + 3
  }

  lemma SmallPowers()
    ensures Pow2(1) == 2 && Pow2(2) == 4 && Pow2(8) == 0x100 && Pow2(10) == 0x400 && Pow2(11) == 0x800
  {
    assert Pow2(5) == 32;
    assert Pow2(8) == 0x100;
  }

  lemma AttributeBits(m: Memory)
    ensures LowerAttributes(m) == Attributes(m)
  {
    SmallPowers();
    var share, index := Shareability(m) * 0x100, AttrIndex(m) * 4;
    OrSum(0x400, share, 1, 10, 0x400);
    OrSum(0x400 + share, index, 4 + Shareability(m), 8, 0x100);
  }

  /** The block descriptor is the OR of its fields. */
  lemma BlockIsOr(level: nat, addr: nat, m: Memory)
    requires level == 1 || level == 2
    ensures BlockDescriptor(level, addr, m) == Or(Or(OutputAddress(level, addr), LowerAttributes(m)), 1)
  {
    AttributeBits(m);
    BlockNumber(level, addr);
    BlockBits(if level == 1 then (addr / 0x4000_0000) * 512 else addr / 0x20_0000, Attributes(m));
  }

  lemma BlockNumber(level: nat, addr: nat)
    requires level == 1 || level == 2
    ensures OutputAddress(level, addr) == (if level == 1 then (addr / 0x4000_0000) * 512 else addr / 0x20_0000) * 0x20_0000
  {
  }

  lemma BlockBits(k: nat, a: nat)
    requires a < 0x800 && a % 2 == 0
    ensures Or(Or(k * 0x20_0000, a), 1) == k * 0x20_0000 + a + 1
  {
    SmallPowers();
    OrSum(k * 0x20_0000, a, k * 0x400, 11, 0x800);
    OrSum(k * 0x20_0000 + a, 1, k * 0x10_0000 + a / 2, 1, 2);
  }

  /** The table descriptor is the OR of the address and the type. */
  lemma TableIsOr(addr: nat)
    requires TableOk(addr)
    ensures TableDescriptor(addr) == Or(addr, 3)
  {
    SmallPowers();
    OrSum(addr, 3, (addr / 0x1000) * 0x400, 2, 4);
  }

  // ---- the walk ----

  type Tables = map<nat, seq<Byte>>

  predicate WellSized(ts: Tables) {
    forall a :: a in ts ==> |ts[a]| == 4096
  }

  /** Bits 47 to 12 of a descriptor. */
  function NextTable(d: nat): nat {
    ((d / 0x1000) % 0x10_0000_0000) * 0x1000
  }

  predicate Accessed(d: nat) {
    (d / 0x400) % 2 == 1
  }

  /** Output address of a block: bits 47 to 30 or 21, the rest from the virtual address. */
  function BlockAddress(d: nat, level: nat, va: nat): Option<nat> {
    if !Accessed(d) then None
    else if level == 1 then Some(((d / 0x4000_0000) % 0x4_0000) * 0x4000_0000 + va % 0x4000_0000)
    else if level == 2 then Some(((d / 0x20_0000) % 0x800_0000) * 0x20_0000 + va % 0x20_0000)
    else None
  }

  function WalkFrom(ts: Tables, table: nat, level: nat, va: nat): Option<nat>
    requires WellSized(ts) && level <= 3
    decreases 3 - level
  {
    if table !in ts then None
    else
      var d := Entry(ts[table], Index(va, level));
      if d % 2 == 0 then None
      else if d % 4 == 1 then BlockAddress(d, level, va)
      else if level < 3 then WalkFrom(ts, NextTable(d), level + 1, va)
      else if Accessed(d) then Some(NextTable(d) + va % 0x1000)
      else None
  }

  /** Low addresses use TTBR0, and outside EL2 high addresses use TTBR1. */
  function Translate(ts: Tables, el2: bool, ttbr0: nat, ttbr1: nat, va: nat): Option<nat>
    requires WellSized(ts)
  {
    if va < 0x1_0000_0000_0000 then WalkFrom(ts, ttbr0, 0, va)
    else if !el2 && WORD - 0x1_0000_0000_0000 <= va < WORD then WalkFrom(ts, ttbr1, 0, va)
    else None
  }

  // ---- the tables that are built ----

  /** Block k of a run that starts in the page of base. */
  function RunBlock(base: nat, k: nat, m: Memory): nat {
    BlockDescriptor(2, base + k * 0x20_0000, m)
  }

  datatype Setup = Setup(
    lower0: nat, lower1: nat, lower2: nat, upper0: nat, upper1: nat, upper2: nat,
    loaderStart: nat, loaderEnd: nat, uart: Option<nat>, cpusRelease: bool, firstVaddr: nat, firstPaddr: nat)

  function Lower0Entry(s: Setup, i: nat): nat {
    if i == Index(s.firstVaddr, 0) then TableDescriptor(s.upper1)
    else if i == 0 then TableDescriptor(s.lower1)
    else 0
  }

  function Lower1Entry(s: Setup, i: nat): nat {
    if i == Index(s.loaderStart, 1) then TableDescriptor(s.lower2)
    else if s.uart.Some? && i == Index(s.uart.value, 1) then BlockDescriptor(1, s.uart.value, Device)
    else 0
  }

  function Lower2Entry(s: Setup, i: nat): nat {
    if s.cpusRelease && i == 0 then BlockDescriptor(2, 0, Device)
    else if Index(s.loaderStart, 2) <= i <= Index(s.loaderEnd, 2) then
      RunBlock(s.loaderStart, i - Index(s.loaderStart, 2), Device)
    else 0
  }

  function Upper0Entry(s: Setup, i: nat): nat {
    if i == Index(s.firstVaddr, 0) then TableDescriptor(s.upper1) else 0
  }

  function Upper1Entry(s: Setup, i: nat): nat {
    if i == Index(s.firstVaddr, 1) then TableDescriptor(s.upper2) else 0
  }

  function Upper2Entry(s: Setup, i: nat): nat {
    if i >= Index(s.firstVaddr, 2) then RunBlock(s.firstPaddr, i - Index(s.firstVaddr, 2), Normal) else 0
  }

  predicate TableOk(a: nat) {
    a % 0x1000 == 0 && a < SPAN48
  }

  /** The assertions of the builder hold. */
  predicate SetupOk(s: Setup) {
    && TableOk(s.lower1) && TableOk(s.lower2) && TableOk(s.upper1) && TableOk(s.upper2)
    && s.loaderStart <= s.loaderEnd && Index(s.loaderStart, 1) == Index(s.loaderEnd, 1)
    && s.loaderStart + GIB <= SPAN48 && s.firstPaddr + GIB <= SPAN48
    && s.firstVaddr < WORD
    && (s.uart.Some? ==> s.uart.value < SPAN48)
    && (s.cpusRelease ==> Index(s.loaderStart, 2) != 0 && Index(s.loaderStart, 1) == 0)
  }

  lemma TableNumbers(k: nat)
    requires k < 0x10_0000_0000
    ensures (k * 0x1000 + 3) / 0x1000 == k && (k * 0x1000 + 3) % 4 == 3 && k * 0x1000 + 3 < WORD
  {
    UniqueMod(k * 0x1000 + 3, k, 0x1000, 3);
    UniqueMod(k * 0x1000 + 3, k * 0x400, 4, 3);
  }

  lemma TableReads(a: nat)
    requires TableOk(a)
    ensures var d := TableDescriptor(a); d < WORD && d % 4 == 3 && NextTable(d) == a
  {
    TableNumbers(a / 0x1000);
  }

  lemma BigBlockReads(addr: nat, m: Memory, va: nat)
    requires addr < SPAN48
    ensures var d := BlockDescriptor(2, addr, m);
      d < WORD && d % 4 == 1 && BlockAddress(d, 2, va) == Some((addr / 0x20_0000) * 0x20_0000 + va % 0x20_0000)
  {
    BlockNumbers(addr / 0x20_0000, Attributes(m) + 1);
  }

  lemma BlockNumbers(k: nat, r: nat)
    requires k < 0x800_0000 && (r == 0x601 || r == 0x711)
    ensures var d := k * 0x20_0000 + r;
      d < WORD && d % 4 == 1 && Accessed(d) && (d / 0x20_0000) % 0x800_0000 == k
  {
    UniqueMod(k * 0x20_0000 + r, k, 0x20_0000, r);
    UniqueMod(k, 0, 0x800_0000, k);
    LowBits(k * 0x400, r);
  }

  /** The bits below the address: the type and the access flag. */
  lemma LowBits(a: nat, r: nat)
    requires r == 0x601 || r == 0x711
    ensures (a * 0x800 + r) % 4 == 1 && Accessed(a * 0x800 + r)
  {
    var d := a * 0x800 + r;
    UniqueMod(d, a * 0x200 + (if r == 0x601 then 0x180 else 0x1C4), 4, 1);
    UniqueMod(d, 2 * a + 1, 0x400, r - 0x400);
    UniqueMod(2 * a + 1, a, 2, 1);
  }

  lemma HugeBlockReads(addr: nat, m: Memory, va: nat)
    requires addr < SPAN48
    ensures var d := BlockDescriptor(1, addr, m);
      d < WORD && d % 4 == 1 && BlockAddress(d, 1, va) == Some((addr / 0x4000_0000) * 0x4000_0000 + va % 0x4000_0000)
  {
    HugeBlockNumbers(addr / 0x4000_0000, Attributes(m) + 1);
  }

  lemma HugeBlockNumbers(k: nat, r: nat)
    requires k < 0x4_0000 && (r == 0x601 || r == 0x711)
    ensures var d := k * 0x4000_0000 + r;
      d < WORD && d % 4 == 1 && Accessed(d) && (d / 0x4000_0000) % 0x4_0000 == k
  {
    UniqueMod(k * 0x4000_0000 + r, k, 0x4000_0000, r);
    UniqueMod(k, 0, 0x4_0000, k);
    LowBits(k * 0x8_0000, r);
  }

  /** The walk ends at a 2 MiB block. */
  lemma EndsInBlock(ts: Tables, table: nat, va: nat, addr: nat, m: Memory)
    requires WellSized(ts) && table in ts && addr < SPAN48
    requires Entry(ts[table], Index(va, 2)) == BlockDescriptor(2, addr, m)
    ensures WalkFrom(ts, table, 2, va) == Some((addr / 0x20_0000) * 0x20_0000 + va % 0x20_0000)
  {
    BigBlockReads(addr, m, va);
  }

  // ---- building ----

  method BuildLower0(s: Setup) returns (a: array<Byte>, upper: array<Byte>)
    requires SetupOk(s)
    ensures fresh(a) && a.Length == 4096 && forall j: nat :: j < 512 ==> EntryOf(a, j) == Lower0Entry(s, j)
    ensures fresh(upper) && upper.Length == 4096 && forall j: nat :: j < 512 ==> EntryOf(upper, j) == Upper0Entry(s, j)
  {
    a := EmptyTable();
    TableReads(s.lower1);
    PutEntry(a, 0, TableDescriptor(s.lower1));
    upper := EmptyTable();
    TableReads(s.upper1);
    var idx := Index(s.firstVaddr, 0);
    PutEntry(a, idx, TableDescriptor(s.upper1));
    PutEntry(upper, idx, TableDescriptor(s.upper1));
  }

  method BuildLower1(s: Setup) returns (a: array<Byte>)
    requires SetupOk(s)
    ensures fresh(a) && a.Length == 4096 && forall j: nat :: j < 512 ==> EntryOf(a, j) == Lower1Entry(s, j)
  {
    a := EmptyTable();
    match s.uart {
      case Some(base) =>
        HugeBlockReads(base, Device, 0);
        PutEntry(a, Index(base, 1), BlockDescriptor(1, base, Device));
      case None =>
    }
    TableReads(s.lower2);
    PutEntry(a, Index(s.loaderStart, 1), TableDescriptor(s.lower2));
  }

  /** Blocks for consecutive pages in slots first to end - 1. */
  method FillBlocks(a: array<Byte>, first: nat, end: nat, base: nat, m: Memory)
    requires a.Length == 4096 && first <= end <= 512 && base + GIB <= SPAN48
    modifies a
    ensures forall j: nat :: j < 512 ==>
      EntryOf(a, j) == if first <= j < end then RunBlock(base, j - first, m) else old(EntryOf(a, j))
  {
    var i := first;
    while i < end
      invariant first <= i <= end
      invariant forall j: nat :: j < 512 ==>
        EntryOf(a, j) == if first <= j < i then RunBlock(base, j - first, m) else old(EntryOf(a, j))
    {
      BigBlockReads(base + (i - first) * 0x20_0000, m, 0);
      PutEntry(a, i, RunBlock(base, i - first, m));
      i := i + 1;
    }
  }

  method BuildLower2(s: Setup) returns (a: array<Byte>)
    requires SetupOk(s)
    ensures fresh(a) && a.Length == 4096 && forall j: nat :: j < 512 ==> EntryOf(a, j) == Lower2Entry(s, j)
  {
    a := EmptyTable();
    var first, last := Index(s.loaderStart, 2), Index(s.loaderEnd, 2);
    if first <= last {
      FillBlocks(a, first, last + 1, s.loaderStart, Device);
    }
    if s.cpusRelease {
      BigBlockReads(0, Device, 0);
      PutEntry(a, 0, BlockDescriptor(2, 0, Device));
    }
  }

  method BuildUpper1(s: Setup) returns (a: array<Byte>)
    requires SetupOk(s)
    ensures fresh(a) && a.Length == 4096 && forall j: nat :: j < 512 ==> EntryOf(a, j) == Upper1Entry(s, j)
  {
    a := EmptyTable();
    TableReads(s.upper2);
    PutEntry(a, Index(s.firstVaddr, 1), TableDescriptor(s.upper2));
  }

  method BuildUpper2(s: Setup) returns (a: array<Byte>)
    requires SetupOk(s)
    ensures fresh(a) && a.Length == 4096 && forall j: nat :: j < 512 ==> EntryOf(a, j) == Upper2Entry(s, j)
  {
    a := EmptyTable();
    FillBlocks(a, Index(s.firstVaddr, 2), 512, s.firstPaddr, Normal);
  }

  /** Contents of the six tables: lower and upper, levels 0 to 2. */
  method Aarch64SetupPagetables(s: Setup)
    returns (lower0: seq<Byte>, lower1: seq<Byte>, lower2: seq<Byte>, upper0: seq<Byte>, upper1: seq<Byte>, upper2: seq<Byte>)
    requires SetupOk(s)
    ensures Holds(lower0, i => Lower0Entry(s, i)) && Holds(lower1, i => Lower1Entry(s, i))
    ensures Holds(lower2, i => Lower2Entry(s, i)) && Holds(upper0, i => Upper0Entry(s, i))
    ensures Holds(upper1, i => Upper1Entry(s, i)) && Holds(upper2, i => Upper2Entry(s, i))
  {
    var a, b := BuildLower0(s);
    lower0, upper0 := a[..], b[..];
    a := BuildLower1(s);
    lower1 := a[..];
    a := BuildLower2(s);
    lower2 := a[..];
    a := BuildUpper1(s);
    upper1 := a[..];
    a := BuildUpper2(s);
    upper2 := a[..];
  }

  ghost predicate Holds(t: seq<Byte>, entry: nat -> nat) {
    |t| == 4096 && forall j: nat :: j < 512 ==> Entry(t, j) == entry(j)
  }

  // ---- what the tables mean ----

  ghost predicate InMemory(s: Setup, ts: Tables) {
    && SetupOk(s) && WellSized(ts)
    && s.lower0 in ts && Holds(ts[s.lower0], i => Lower0Entry(s, i))
    && s.lower1 in ts && Holds(ts[s.lower1], i => Lower1Entry(s, i))
    && s.lower2 in ts && Holds(ts[s.lower2], i => Lower2Entry(s, i))
    && s.upper0 in ts && Holds(ts[s.upper0], i => Upper0Entry(s, i))
    && s.upper1 in ts && Holds(ts[s.upper1], i => Upper1Entry(s, i))
    && s.upper2 in ts && Holds(ts[s.upper2], i => Upper2Entry(s, i))
  }

  lemma Descends(ts: Tables, table: nat, level: nat, va: nat, next: nat)
    requires WellSized(ts) && level < 3 && table in ts && TableOk(next)
    requires Entry(ts[table], Index(va, level)) == TableDescriptor(next)
    ensures WalkFrom(ts, table, level, va) == WalkFrom(ts, next, level + 1, va)
  {
    TableReads(next);
  }

  /** va lies in a 2 MiB page of the GiB of base, not before the page of base. */
  predicate SameGibPage(base: nat, va: nat) {
    base / 0x20_0000 <= va / 0x20_0000 && va / 0x4000_0000 == base / 0x4000_0000
  }

  /** Dividing twice is dividing by the product. */
  lemma DivDiv(x: nat, a: nat, b: nat, c: nat)
    requires a > 0 && b > 0 && c == a * b
    ensures x / c == (x / a) / b
  {
    var p, r := x / a, x % a;
    var q, s := p / b, p % b;
    ScaledPair(x, p, q, s, r, a, b, c);
    UniqueMod(x, q, c, s * a + r);
  }

  lemma ScaledPair(x: nat, p: nat, q: nat, s: nat, r: nat, a: nat, b: nat, c: nat)
    requires x == p * a + r && p == q * b + s && s < b && r < a && c == a * b
    ensures x == q * c + (s * a + r) && s * a + r < c
  {
    assert p * a == (q * b) * a + s * a;
    assert (q * b) * a == q * (a * b);
    ScaledBelow(s, a, b, r);
  }

  lemma ScaledBelow(s: nat, a: nat, b: nat, r: nat)
    requires s < b && r < a
    ensures s * a + r < a * b
  {
    var d := b - s - 1;
    Distribute(a, s, d);
    assert a * d >= 0;
  }

  lemma Distribute(a: nat, s: nat, d: nat)
    ensures a * (s + 1 + d) == s * a + a + a * d
  {
  }

  /** An address by its number of 2 MiB pages. */
  lemma Digits(va: nat)
    ensures va / 0x4000_0000 == (va / 0x20_0000) / 512
    ensures va / 0x80_0000_0000 == (va / 0x4000_0000) / 512
    ensures va == (va / 0x20_0000) * 0x20_0000 + va % 0x20_0000
    ensures va / 0x20_0000 == (va / 0x4000_0000) * 512 + Index(va, 2)
    ensures va / 0x4000_0000 == (va / 0x80_0000_0000) * 512 + Index(va, 1)
  {
    DivDiv(va, 0x20_0000, 512, 0x4000_0000);
    DivDiv(va, 0x4000_0000, 512, 0x80_0000_0000);
  }

  lemma PageSteps(base: nat, va: nat)
    requires SameGibPage(base, va)
    ensures Index(va, 2) == Index(base, 2) + (va / 0x20_0000 - base / 0x20_0000)
    ensures Index(va, 1) == Index(base, 1) && Index(va, 0) == Index(base, 0)
    ensures va / 0x20_0000 - base / 0x20_0000 < 512
  {
    Digits(base);
    Digits(va);
  }

  // ---- what the lower tables translate ----

  /** The page with this number below the kernel's tables. */
  function KernelPage(s: Setup, va: nat): Option<nat> {
    if Index(va, 1) == Index(s.firstVaddr, 1) && Index(va, 2) >= Index(s.firstVaddr, 2) then
      Some((s.firstPaddr / 0x20_0000 + (Index(va, 2) - Index(s.firstVaddr, 2))) * 0x20_0000 + va % 0x20_0000)
    else None
  }

  function LoaderPage(s: Setup, va: nat): Option<nat> {
    if s.cpusRelease && Index(va, 2) == 0 then Some(va % 0x20_0000)
    else if Index(s.loaderStart, 2) <= Index(va, 2) <= Index(s.loaderEnd, 2) then
      Some((s.loaderStart / 0x20_0000 + (Index(va, 2) - Index(s.loaderStart, 2))) * 0x20_0000 + va % 0x20_0000)
    else None
  }

  function UartPage(s: Setup, va: nat): Option<nat> {
    if s.uart.Some? && Index(va, 1) == Index(s.uart.value, 1) then
      Some((s.uart.value / 0x4000_0000) * 0x4000_0000 + va % 0x4000_0000)
    else None
  }

  /** Low addresses: the kernel's entry hides the loader's when both have the same index. */
  function LowMap(s: Setup, va: nat): Option<nat> {
    if Index(va, 0) == Index(s.firstVaddr, 0) then KernelPage(s, va)
    else if Index(va, 0) != 0 then None
    else if Index(va, 1) == Index(s.loaderStart, 1) then LoaderPage(s, va)
    else UartPage(s, va)
  }

  lemma BlockOffset(base: nat, k: nat)
    ensures (base + k * 0x20_0000) / 0x20_0000 == base / 0x20_0000 + k
  {
    UniqueMod(base + k * 0x20_0000, base / 0x20_0000 + k, 0x20_0000, base % 0x20_0000);
  }

  lemma RunInSpan(base: nat, k: nat)
    requires base + GIB <= SPAN48 && k < 512
    ensures base + k * 0x20_0000 < SPAN48
  {
  }

  /** The walk ends in a run of blocks. */
  lemma EndsInRun(ts: Tables, table: nat, va: nat, base: nat, k: nat, m: Memory)
    requires WellSized(ts) && table in ts && base + GIB <= SPAN48 && k < 512
    requires Entry(ts[table], Index(va, 2)) == RunBlock(base, k, m)
    ensures WalkFrom(ts, table, 2, va) == Some((base / 0x20_0000 + k) * 0x20_0000 + va % 0x20_0000)
  {
    RunInSpan(base, k);
    EndsInBlock(ts, table, va, base + k * 0x20_0000, m);
    BlockOffset(base, k);
  }

  lemma NoEntry(ts: Tables, table: nat, level: nat, va: nat)
    requires WellSized(ts) && level <= 3 && table in ts && Entry(ts[table], Index(va, level)) == 0
    ensures WalkFrom(ts, table, level, va) == None
  {
  }

  lemma ThroughKernelTables(s: Setup, ts: Tables, va: nat)
    requires InMemory(s, ts)
    ensures WalkFrom(ts, s.upper1, 1, va) == KernelPage(s, va)
  {
    if Index(va, 1) != Index(s.firstVaddr, 1) {
      NoEntry(ts, s.upper1, 1, va);
    } else {
      Descends(ts, s.upper1, 1, va, s.upper2);
      ThroughUpper2(s, ts, va);
    }
  }

  lemma ThroughUpper2(s: Setup, ts: Tables, va: nat)
    requires InMemory(s, ts) && Index(va, 1) == Index(s.firstVaddr, 1)
    ensures WalkFrom(ts, s.upper2, 2, va) == KernelPage(s, va)
  {
    Upper2At(s, ts, va);
    if Index(va, 2) >= Index(s.firstVaddr, 2) {
      EndsInRun(ts, s.upper2, va, s.firstPaddr, Index(va, 2) - Index(s.firstVaddr, 2), Normal);
    } else {
      NoEntry(ts, s.upper2, 2, va);
    }
  }

  lemma Upper2At(s: Setup, ts: Tables, va: nat)
    requires InMemory(s, ts)
    ensures Index(va, 2) < 512 && Entry(ts[s.upper2], Index(va, 2)) == Upper2Entry(s, Index(va, 2))
  {
  }

  lemma ThroughLoaderTables(s: Setup, ts: Tables, va: nat)
    requires InMemory(s, ts)
    ensures WalkFrom(ts, s.lower1, 1, va)
      == if Index(va, 1) == Index(s.loaderStart, 1) then LoaderPage(s, va) else UartPage(s, va)
  {
    if Index(va, 1) == Index(s.loaderStart, 1) {
      Descends(ts, s.lower1, 1, va, s.lower2);
      ThroughLower2(s, ts, va);
    } else {
      ThroughUart(s, ts, va);
    }
  }

  lemma ThroughUart(s: Setup, ts: Tables, va: nat)
    requires InMemory(s, ts) && Index(va, 1) != Index(s.loaderStart, 1)
    ensures WalkFrom(ts, s.lower1, 1, va) == UartPage(s, va)
  {
    if s.uart.Some? && Index(va, 1) == Index(s.uart.value, 1) {
      HugeBlockReads(s.uart.value, Device, va);
    } else {
      NoEntry(ts, s.lower1, 1, va);
    }
  }

  lemma Lower2At(s: Setup, ts: Tables, va: nat)
    requires InMemory(s, ts)
    ensures Index(va, 2) < 512 && Entry(ts[s.lower2], Index(va, 2)) == Lower2Entry(s, Index(va, 2))
  {
  }

  lemma ThroughLower2(s: Setup, ts: Tables, va: nat)
    requires InMemory(s, ts)
    ensures WalkFrom(ts, s.lower2, 2, va) == LoaderPage(s, va)
  {
    Lower2At(s, ts, va);
    if s.cpusRelease && Index(va, 2) == 0 {
      EndsInBlock(ts, s.lower2, va, 0, Device);
    } else if Index(s.loaderStart, 2) <= Index(va, 2) <= Index(s.loaderEnd, 2) {
      EndsInRun(ts, s.lower2, va, s.loaderStart, Index(va, 2) - Index(s.loaderStart, 2), Device);
    } else {
      NoEntry(ts, s.lower2, 2, va);
    }
  }

  /** The walk of every low address. */
  lemma LowTranslation(s: Setup, ts: Tables, el2: bool, va: nat)
    requires InMemory(s, ts) && va < SPAN48
    ensures Translate(ts, el2, s.lower0, s.upper0, va) == LowMap(s, va)
  {
    if Index(va, 0) == Index(s.firstVaddr, 0) {
      Descends(ts, s.lower0, 0, va, s.upper1);
      ThroughKernelTables(s, ts, va);
    } else if Index(va, 0) == 0 {
      Descends(ts, s.lower0, 0, va, s.lower1);
      ThroughLoaderTables(s, ts, va);
    } else {
      NoEntry(ts, s.lower0, 0, va);
    }
  }

  lemma LowDigits(va: nat)
    requires va < SPAN48
    ensures Index(va, 0) == va / 0x80_0000_0000
  {
    DivDiv(va, 0x80_0000_0000, 512, SPAN48);
  }

  /** The kernel's tables map this address to itself. */
  predicate KernelKeeps(s: Setup, va: nat) {
    && Index(va, 1) == Index(s.firstVaddr, 1) && Index(va, 2) >= Index(s.firstVaddr, 2)
    && s.firstPaddr / 0x20_0000 + (Index(va, 2) - Index(s.firstVaddr, 2)) == va / 0x20_0000
  }

  lemma SamePage(p: nat, va: nat)
    ensures p * 0x20_0000 + va % 0x20_0000 == va <==> p == va / 0x20_0000
  {
    Digits(va);
  }

  predicate InLoaderPages(s: Setup, va: nat) {
    s.loaderStart / 0x20_0000 <= va / 0x20_0000 <= s.loaderEnd / 0x20_0000
  }

  lemma LoaderAddress(s: Setup, va: nat)
    requires SetupOk(s) && s.loaderStart / 0x4000_0000 == s.loaderEnd / 0x4000_0000 && InLoaderPages(s, va)
    ensures va < SPAN48 && va / 0x4000_0000 == s.loaderStart / 0x4000_0000
    ensures Index(va, 0) == Index(s.loaderStart, 0) && Index(va, 1) == Index(s.loaderStart, 1)
    ensures Index(s.loaderStart, 2) <= Index(va, 2) <= Index(s.loaderEnd, 2)
    ensures Index(va, 2) - Index(s.loaderStart, 2) == va / 0x20_0000 - s.loaderStart / 0x20_0000
    ensures s.cpusRelease ==> Index(va, 2) != 0
  {
    Digits(s.loaderStart);
    Digits(s.loaderEnd);
    Digits(va);
    PageSteps(s.loaderStart, va);
    PageSteps(s.loaderStart, s.loaderEnd);
    assert va < (s.loaderStart / 0x4000_0000) * 0x4000_0000 + 0x4000_0000;
  }

  ghost predicate LoaderIsMapped(s: Setup, ts: Tables, el2: bool)
    requires WellSized(ts)
  {
    forall va: nat :: InLoaderPages(s, va) ==> Translate(ts, el2, s.lower0, s.upper0, va) == Some(va)
  }

  /** What a caller can check: the loader is below 512 GiB and the kernel's entry is another
      one, or the kernel's tables happen to map the loader to itself. */
  predicate LoaderKept(s: Setup) {
    if Index(s.firstVaddr, 0) == Index(s.loaderStart, 0) then KernelKeeps(s, s.loaderStart)
    else s.loaderStart < 0x80_0000_0000
  }

  lemma LoaderKeptAt(s: Setup, va: nat)
    requires SetupOk(s) && s.loaderStart / 0x4000_0000 == s.loaderEnd / 0x4000_0000 && InLoaderPages(s, va)
    ensures LoaderKept(s) ==> LowMap(s, va) == Some(va)
    ensures va == s.loaderStart && LowMap(s, va) == Some(va) ==> LoaderKept(s)
  {
    LoaderAddress(s, va);
    LowDigits(va);
    LowDigits(s.loaderStart);
    if Index(va, 0) == Index(s.firstVaddr, 0) {
      if Index(va, 2) >= Index(s.firstVaddr, 2) {
        SamePage(s.firstPaddr / 0x20_0000 + (Index(va, 2) - Index(s.firstVaddr, 2)), va);
      }
    } else {
      SamePage(va / 0x20_0000, va);
    }
  }

  predicate InOneGib(s: Setup) {
    s.loaderStart / 0x4000_0000 == s.loaderEnd / 0x4000_0000
  }

  /** The 2 MiB pages from `_loader_start` to `_loader_end` map to themselves exactly when
      they lie in one GiB and the kernel's tables do not get in the way. */
  lemma LoaderMappedExactly(s: Setup, ts: Tables, el2: bool)
    requires InMemory(s, ts)
    ensures LoaderIsMapped(s, ts, el2) <==> InOneGib(s) && LoaderKept(s)
  {
    if InOneGib(s) {
      LoaderOfOneGib(s, ts, el2);
    } else {
      LoaderOfManyGib(s, ts, el2);
    }
  }

  lemma LoaderOfOneGib(s: Setup, ts: Tables, el2: bool)
    requires InMemory(s, ts) && InOneGib(s)
    ensures LoaderIsMapped(s, ts, el2) <==> LoaderKept(s)
  {
    forall va: nat | InLoaderPages(s, va)
      ensures LoaderKept(s) ==> Translate(ts, el2, s.lower0, s.upper0, va) == Some(va)
    {
      LoaderAddress(s, va);
      LowTranslation(s, ts, el2, va);
      LoaderKeptAt(s, va);
    }
    var start := s.loaderStart;
    assert InLoaderPages(s, start) by {
      Digits(start);
      Digits(s.loaderEnd);
      assert start <= s.loaderEnd;
    }
    LoaderAddress(s, start);
    LowTranslation(s, ts, el2, start);
    LoaderKeptAt(s, start);
  }

  /** Ends with one index in different GiB are 512 GiB apart; most of what is between them
      has no entry. */
  lemma LoaderOfManyGib(s: Setup, ts: Tables, el2: bool)
    requires InMemory(s, ts) && !InOneGib(s)
    ensures !LoaderIsMapped(s, ts, el2)
  {
    var g := s.loaderStart / 0x4000_0000;
    var j := FreeGib(s, g);
    var va := (g + j) * 0x4000_0000;
    GibsApart(s);
    GibStart(g + j);
    GibInside(s, g + j);
    GapUnmapped(s, ts, el2, va);
  }

  lemma GibsApart(s: Setup)
    requires SetupOk(s) && !InOneGib(s)
    ensures s.loaderStart / 0x4000_0000 + 512 <= s.loaderEnd / 0x4000_0000
    ensures s.loaderStart / 0x4000_0000 < 0x4_0000
  {
    var g, h := s.loaderStart / 0x4000_0000, s.loaderEnd / 0x4000_0000;
    assert g % 512 == h % 512 && g < h;
  }

  lemma GibStart(g: nat)
    ensures Index(g * 0x4000_0000, 1) == g % 512
  {
    UniqueMod(g * 0x4000_0000, g, 0x4000_0000, 0);
  }

  lemma GibInside(s: Setup, g: nat)
    requires s.loaderStart / 0x4000_0000 < g < s.loaderEnd / 0x4000_0000
    ensures InLoaderPages(s, g * 0x4000_0000)
  {
    Digits(s.loaderStart);
    Digits(s.loaderEnd);
    UniqueMod(g * 0x4000_0000, g * 512, 0x20_0000, 0);
  }

  /** One of three neighbours is used neither for the kernel nor for the serial port. */
  lemma FreeGib(s: Setup, g: nat) returns (j: nat)
    requires g % 512 == Index(s.loaderStart, 1)
    ensures 1 <= j <= 3 && (g + j) % 512 != Index(s.loaderStart, 1) && (g + j) % 512 != Index(s.firstVaddr, 1)
    ensures s.uart.Some? ==> (g + j) % 512 != Index(s.uart.value, 1)
  {
    var kernel := Index(s.firstVaddr, 1);
    var uart := if s.uart.Some? then Index(s.uart.value, 1) else kernel;
    Neighbours(g);
    j := if (g + 1) % 512 != kernel && (g + 1) % 512 != uart then 1
         else if (g + 2) % 512 != kernel && (g + 2) % 512 != uart then 2
         else 3;
  }

  lemma Neighbours(g: nat)
    ensures (g + 1) % 512 != g % 512 && (g + 2) % 512 != g % 512 && (g + 3) % 512 != g % 512
    ensures (g + 1) % 512 != (g + 2) % 512 && (g + 1) % 512 != (g + 3) % 512 && (g + 2) % 512 != (g + 3) % 512
  {
  }

  lemma GapUnmapped(s: Setup, ts: Tables, el2: bool, va: nat)
    requires InMemory(s, ts) && va < SPAN48 + 4 * GIB
    requires Index(va, 1) != Index(s.loaderStart, 1) && Index(va, 1) != Index(s.firstVaddr, 1)
    requires s.uart.Some? ==> Index(va, 1) != Index(s.uart.value, 1)
    ensures Translate(ts, el2, s.lower0, s.upper0, va) == None
  {
    if va < SPAN48 {
      LowTranslation(s, ts, el2, va);
    }
  }

  /** The entry for the loader's GiB maps this address to itself. */
  predicate LoaderTableKeeps(s: Setup, va: nat) {
    || (s.cpusRelease && Index(va, 2) == 0)
    || (&& Index(s.loaderStart, 2) <= Index(va, 2) <= Index(s.loaderEnd, 2)
        && va / 0x4000_0000 == s.loaderStart / 0x4000_0000)
  }

  /** What a caller can check for an address in the GiB of the serial port. */
  predicate UartKept(s: Setup, va: nat) {
    if Index(s.firstVaddr, 0) == Index(va, 0) then KernelKeeps(s, va)
    else va < 0x80_0000_0000 && (Index(va, 1) == Index(s.loaderStart, 1) ==> LoaderTableKeeps(s, va))
  }

  lemma LoaderTableKept(s: Setup, va: nat)
    requires SetupOk(s) && va < 0x80_0000_0000 && Index(va, 1) == Index(s.loaderStart, 1)
    ensures LoaderPage(s, va) == Some(va) <==> LoaderTableKeeps(s, va)
  {
    Digits(va);
    Digits(s.loaderStart);
    if s.cpusRelease && Index(va, 2) == 0 {
      SamePage(0, va);
    } else if Index(s.loaderStart, 2) <= Index(va, 2) {
      SamePage(s.loaderStart / 0x20_0000 + (Index(va, 2) - Index(s.loaderStart, 2)), va);
    }
  }

  /** An address in the GiB of the serial port maps to itself exactly when neither the
      kernel's nor the loader's entry takes its place with another translation. */
  lemma UartMappedExactly(s: Setup, ts: Tables, el2: bool, va: nat)
    requires InMemory(s, ts) && s.uart.Some? && va / 0x4000_0000 == s.uart.value / 0x4000_0000
    ensures Translate(ts, el2, s.lower0, s.upper0, va) == Some(va) <==> UartKept(s, va)
  {
    Digits(va);
    Digits(s.uart.value);
    assert va < SPAN48;
    LowTranslation(s, ts, el2, va);
    LowDigits(va);
    if Index(va, 0) == Index(s.firstVaddr, 0) {
      if Index(va, 2) >= Index(s.firstVaddr, 2) {
        SamePage(s.firstPaddr / 0x20_0000 + (Index(va, 2) - Index(s.firstVaddr, 2)), va);
      }
    } else if Index(va, 0) == 0 && Index(va, 1) == Index(s.loaderStart, 1) {
      LoaderTableKept(s, va);
    }
  }

  /** The kernel lies where its exception level can address it. */
  predicate Addressable(el2: bool, va: nat) {
    if el2 then va < 0x1_0000_0000_0000 else WORD - 0x1_0000_0000_0000 <= va < WORD
  }

  lemma StaysAddressable(el2: bool, base: nat, va: nat)
    requires Addressable(el2, base) && va / 0x4000_0000 == base / 0x4000_0000
    ensures Addressable(el2, va)
  {
  }

  /** From the page of the first kernel address to the end of its GiB, pages map to
      consecutive pages from that of the first physical address. */
  lemma KernelTranslation(s: Setup, ts: Tables, el2: bool, va: nat)
    requires InMemory(s, ts) && Addressable(el2, s.firstVaddr) && SameGibPage(s.firstVaddr, va)
    ensures Translate(ts, el2, s.lower0, s.upper0, va)
      == Some((s.firstPaddr / 0x20_0000 + (va / 0x20_0000 - s.firstVaddr / 0x20_0000)) * 0x20_0000 + va % 0x20_0000)
  {
    var fv := s.firstVaddr;
    PageSteps(fv, va);
    StaysAddressable(el2, fv, va);
    Descends(ts, if el2 then s.lower0 else s.upper0, 0, va, s.upper1);
    ThroughKernelTables(s, ts, va);
  }

  predicate InKernelGib(base: nat, va: nat) {
    base <= va && va / 0x4000_0000 == base / 0x4000_0000
  }

  ghost predicate KernelIsMapped(s: Setup, ts: Tables, el2: bool)
    requires WellSized(ts)
  {
    forall va: nat :: InKernelGib(s.firstVaddr, va) ==>
      Translate(ts, el2, s.lower0, s.upper0, va) == Some(s.firstPaddr + (va - s.firstVaddr))
  }

  lemma SameOffset(fv: nat, fp: nat, va: nat)
    ensures (fp / 0x20_0000 + (va / 0x20_0000 - fv / 0x20_0000)) * 0x20_0000 + va % 0x20_0000 == fp + (va - fv)
      <==> fv % 0x20_0000 == fp % 0x20_0000
  {
    assert va == (va / 0x20_0000) * 0x20_0000 + va % 0x20_0000;
    assert fv == (fv / 0x20_0000) * 0x20_0000 + fv % 0x20_0000;
    assert fp == (fp / 0x20_0000) * 0x20_0000 + fp % 0x20_0000;
  }

  lemma KernelAddress(s: Setup, ts: Tables, el2: bool, va: nat)
    requires InMemory(s, ts) && Addressable(el2, s.firstVaddr) && InKernelGib(s.firstVaddr, va)
    ensures Translate(ts, el2, s.lower0, s.upper0, va) == Some(s.firstPaddr + (va - s.firstVaddr))
      <==> s.firstVaddr % 0x20_0000 == s.firstPaddr % 0x20_0000
  {
    KernelTranslation(s, ts, el2, va);
    SameOffset(s.firstVaddr, s.firstPaddr, va);
  }

  /** The kernel's addresses map to the first physical address plus their offset exactly
      when the first addresses are congruent modulo 2 MiB. */
  lemma KernelMappedExactly(s: Setup, ts: Tables, el2: bool)
    requires InMemory(s, ts) && Addressable(el2, s.firstVaddr)
    ensures KernelIsMapped(s, ts, el2) <==> s.firstVaddr % 0x20_0000 == s.firstPaddr % 0x20_0000
  {
    if s.firstVaddr % 0x20_0000 == s.firstPaddr % 0x20_0000 {
      forall va: nat | InKernelGib(s.firstVaddr, va)
        ensures Translate(ts, el2, s.lower0, s.upper0, va) == Some(s.firstPaddr + (va - s.firstVaddr))
      {
        KernelAddress(s, ts, el2, va);
      }
    } else {
      KernelAddress(s, ts, el2, s.firstVaddr);
      assert InKernelGib(s.firstVaddr, s.firstVaddr);
    }
  }
}
