/** Page tables of the CapDL spec: tool/microkit/src/capdl/memory.rs. */
module PageTables {
  import opened KernelConfig
  import opened Powers
  import opened MemoryRegions

  datatype Cap =
    | FrameCap(obj: nat, read: bool, write: bool, execute: bool, cached: bool)
    | PageTableCap(obj: nat)

  datatype Cte = Cte(slot: nat, cap: Cap)

  /** Bytes [start, end) of a frame are taken from [source, source + end - start) of a
      loadable ELF segment. */
  datatype FillEntry = FillEntry(start: nat, end: nat, elf: nat, segment: nat, source: nat)

  datatype Object =
    | PageTable(isRoot: bool, level: nat, slots: seq<Cte>)
    | Frame(fill: seq<FillEntry>)
    | Other

  /** Object names, before they are printed. */
  datatype Name =
    | RootName(pd: string)
    | TableName(level: nat, pd: string, start: nat)
    | FrameName(pd: string, sequence: nat)
    | AnyName(text: string)

  datatype NamedObject = NamedObject(name: Name, body: Object)

  type Objs = seq<NamedObject>

  // ---- levels, indices and coverage ----

  function NumLevels(config: Config): nat {
    if config.arch.Riscv64Sv39? then 3 else 4
  }

  function TopLevel(config: Config): nat {
    if StartsAtLevel1(config) then 1 else 0
  }

  predicate IsLevel(config: Config, level: nat) {
    TopLevel(config) <= level < NumLevels(config)
  }

  function IndexBits(config: Config, level: nat): nat {
    if level == TopLevel(config) && StartsAtLevel1(config) then 10 else 9
  }

  function SumIndexBits(config: Config, from: nat, to: nat): nat
    decreases to - from
  {
    if from >= to then 0 else IndexBits(config, from) + SumIndexBits(config, from + 1, to)
  }

  function LevelIndex(config: Config, level: nat, vaddr: nat): nat
    requires IsLevel(config, level)
  {
    var shift := 12 + SumIndexBits(config, level + 1, NumLevels(config));
    (vaddr / Pow2(shift)) % Pow2(IndexBits(config, level))
  }

  /** Lowest address covered by the table of this level that holds vaddr. */
  function CoverageStart(config: Config, level: nat, vaddr: nat): nat
    requires level <= NumLevels(config)
  {
    var bits := 12 + (NumLevels(config) - level) * 9;
    RoundDown(vaddr, Pow2(bits))
  }

  /** Bytes mapped by one slot of a table of this level. */
  function Granule(config: Config, level: nat): nat
    requires level < NumLevels(config)
  {
    match NumLevels(config) - 1 - level
    case 0 => 0x1000
    case 1 => 0x20_0000
    case 2 => 0x4000_0000
    case _ => 0x80_0000_0000
  }

  function Width(config: Config, level: nat): nat {
    if level == TopLevel(config) && StartsAtLevel1(config) then 1024 else 512
  }

  /** First address beyond the address space. */
  function Limit(config: Config): nat {
    Granule(config, TopLevel(config)) * Width(config, TopLevel(config))
  }

  lemma SmallPowers()
    ensures Pow2(9) == 512 && Pow2(10) == 1024 && Pow2(12) == 0x1000
    ensures Pow2(21) == 0x20_0000 && Pow2(30) == 0x4000_0000 && Pow2(39) == 0x80_0000_0000
    ensures Pow2(48) == 0x1_0000_0000_0000
  {
    assert Pow2(3) == 8;
    assert Pow2(6) == 64;
    Pow2Add(3, 6);
    Pow2Add(9, 3);
    Pow2Add(12, 9);
    Pow2Add(21, 9);
    Pow2Add(30, 9);
    Pow2Add(39, 9);
  }

  /** Index arithmetic in terms of granules, for every architecture. */
  lemma LevelIndexIs(config: Config, level: nat, vaddr: nat)
    requires IsLevel(config, level)
    ensures LevelIndex(config, level, vaddr) == (vaddr / Granule(config, level)) % Width(config, level)
  {
    SmallPowers();
    var n := NumLevels(config);
    assert SumIndexBits(config, n, n) == 0;
    if level + 1 < n {
      assert SumIndexBits(config, n - 1, n) == 9;
      if level + 2 < n {
        assert SumIndexBits(config, n - 2, n) == 18;
        if level + 3 < n {
          assert SumIndexBits(config, n - 3, n) == 27;
        }
      }
    }
  }

  lemma CoverageStartIs(config: Config, level: nat, vaddr: nat)
    requires TopLevel(config) < level < NumLevels(config)
    ensures CoverageStart(config, level, vaddr)
         == (vaddr / Granule(config, level - 1)) * Granule(config, level - 1)
  {
    SmallPowers();
  }

  /** Equal indices on every level from the top down to `level`. */
  ghost predicate SamePath(config: Config, v: nat, w: nat, level: nat)
    requires IsLevel(config, level)
  {
    forall k :: TopLevel(config) <= k <= level ==> LevelIndex(config, k, v) == LevelIndex(config, k, w)
  }

  /** Pages of this level that an address space has. */
  function Pages(config: Config, level: nat): nat
    requires IsLevel(config, level)
  {
    Width(config, TopLevel(config)) *
      match level - TopLevel(config)
      case 0 => 1
      case 1 => 512
      case 2 => 0x4_0000
      case _ => 0x800_0000
  }

  /** Number of the page of this level that holds the address; an address space repeats
      beyond its limit. */
  function Page(config: Config, level: nat, v: nat): nat
    requires IsLevel(config, level)
  {
    (v / Granule(config, level)) % Pages(config, level)
  }

  lemma PagesFill(config: Config, level: nat)
    requires IsLevel(config, level)
    ensures Pages(config, level) > 0 && Pages(config, level) * Granule(config, level) == Limit(config)
  {
  }

  /** Below the limit, pages are numbered by their addresses. */
  lemma PageBelowLimit(config: Config, level: nat, v: nat)
    requires IsLevel(config, level) && v < Limit(config)
    ensures Page(config, level, v) == v / Granule(config, level)
  {
    PagesFill(config, level);
    var g, n := Granule(config, level), Pages(config, level);
    var p := v / g;
    BelowProduct(v, n, g);
    UniqueMod(p, 0, n, p);
  }

  lemma BelowProduct(v: nat, n: nat, g: nat)
    requires g > 0 && v < n * g
    ensures v / g < n
  {
  }

  lemma TopPage(config: Config, v: nat)
    ensures LevelIndex(config, TopLevel(config), v) == Page(config, TopLevel(config), v)
  {
    LevelIndexIs(config, TopLevel(config), v);
  }

  lemma PageSplit(config: Config, level: nat, v: nat)
    requires TopLevel(config) < level < NumLevels(config)
    ensures Page(config, level, v) == Page(config, level - 1, v) * 512 + LevelIndex(config, level, v)
    ensures LevelIndex(config, level, v) < 512
  {
    LevelIndexIs(config, level, v);
    GranuleSplit(config, level, v);
    ModSplit(v / Granule(config, level), Pages(config, level - 1));
  }

  lemma ModSplit(x: nat, m: nat)
    requires m > 0
    ensures x % (m * 512) == ((x / 512) % m) * 512 + x % 512
  {
    var q, r := (x / 512) / m, (x / 512) % m;
    assert x == (q * m + r) * 512 + x % 512;
    assert (q * m + r) * 512 == q * (m * 512) + r * 512;
    UniqueMod(x, q, m * 512, r * 512 + x % 512);
  }

  lemma GranuleSplit(config: Config, level: nat, v: nat)
    requires 0 < level < NumLevels(config)
    ensures v / Granule(config, level) == (v / Granule(config, level - 1)) * 512 + (v / Granule(config, level)) % 512
  {
    Halve12(v);
    Halve21(v);
    Halve30(v);
  }

  lemma Halve12(v: nat)
    ensures v / 0x20_0000 == (v / 0x1000) / 512
  {
  }

  lemma Halve21(v: nat)
    ensures v / 0x4000_0000 == (v / 0x20_0000) / 512
  {
  }

  lemma Halve30(v: nat)
    ensures v / 0x80_0000_0000 == (v / 0x4000_0000) / 512
  {
  }

  /** Two addresses share a path exactly when they share the page. */
  lemma {:induction false} SamePathIsSamePage(config: Config, v: nat, w: nat, level: nat)
    requires IsLevel(config, level)
    ensures SamePath(config, v, w, level) <==> Page(config, level, v) == Page(config, level, w)
    decreases level
  {
    if level == TopLevel(config) {
      TopPage(config, v);
      TopPage(config, w);
      assert SamePath(config, v, w, level) <==> LevelIndex(config, level, v) == LevelIndex(config, level, w);
    } else {
      SamePathIsSamePage(config, v, w, level - 1);
      PageSplit(config, level, v);
      PageSplit(config, level, w);
      SamePathStep(config, v, w, level);
    }
  }

  lemma SamePathStep(config: Config, v: nat, w: nat, level: nat)
    requires TopLevel(config) < level < NumLevels(config)
    ensures SamePath(config, v, w, level)
      <==> SamePath(config, v, w, level - 1) && LevelIndex(config, level, v) == LevelIndex(config, level, w)
  {
  }

  // ---- meaning of the tables ----

  ghost predicate IsTable(objs: Objs, t: nat) {
    t < |objs| && objs[t].body.PageTable?
  }

  function FindSlot(slots: seq<Cte>, i: nat): Option<Cap> {
    if slots == [] then None
    else if slots[0].slot == i then Some(slots[0].cap)
    else FindSlot(slots[1..], i)
  }

  ghost function SlotOf(objs: Objs, t: nat, i: nat): Option<Cap>
    requires IsTable(objs, t)
  {
    FindSlot(objs[t].body.slots, i)
  }

  /** What a capability found in a table of the given level may be. */
  ghost predicate CapOk(config: Config, objs: Objs, level: nat, cap: Cap) {
    && cap.obj < |objs|
    && match cap
       case FrameCap(f, _, _, _, _) => objs[f].body.Frame?
       case PageTableCap(u) =>
         && objs[u].body.PageTable? && !objs[u].body.isRoot
         && objs[u].body.level == level + 1 < NumLevels(config)
  }

  /** Levels step by one, capabilities have the right kind. */
  ghost predicate TablesOk(config: Config, objs: Objs) {
    forall t: nat, i: nat :: IsTable(objs, t) && SlotOf(objs, t, i).Some? ==>
      CapOk(config, objs, objs[t].body.level, SlotOf(objs, t, i).value)
  }

  ghost predicate LevelsOk(config: Config, objs: Objs) {
    forall t: nat :: IsTable(objs, t) ==>
      && IsLevel(config, objs[t].body.level)
      && (objs[t].body.isRoot ==> objs[t].body.level == TopLevel(config))
  }

  /** Every table hangs in at most one slot. */
  ghost predicate OneParent(objs: Objs) {
    forall t1: nat, i1: nat, t2: nat, i2: nat ::
      IsTable(objs, t1) && IsTable(objs, t2)
      && SlotOf(objs, t1, i1).Some? && SlotOf(objs, t2, i2).Some?
      && SlotOf(objs, t1, i1).value.PageTableCap?
      && SlotOf(objs, t1, i1).value == SlotOf(objs, t2, i2).value
      ==> t1 == t2 && i1 == i2
  }

  ghost predicate Valid(config: Config, objs: Objs) {
    LevelsOk(config, objs) && TablesOk(config, objs) && OneParent(objs)
  }

  ghost predicate IsRoot(objs: Objs, r: nat) {
    IsTable(objs, r) && objs[r].body.isRoot
  }

  /** The table of level k on the path of v, if the path gets that far. */
  ghost function Reach(config: Config, objs: Objs, root: nat, v: nat, k: nat): Option<nat>
    requires Valid(config, objs) && IsRoot(objs, root) && TopLevel(config) <= k <= NumLevels(config)
    decreases k
  {
    if k == TopLevel(config) then Some(root)
    else
      match Reach(config, objs, root, v, k - 1)
      case None => None
      case Some(t) =>
        if IsTable(objs, t) then
          match SlotOf(objs, t, LevelIndex(config, k - 1, v))
          case Some(PageTableCap(u)) => Some(u)
          case _ => None
        else None
  }

  lemma {:induction false} ReachIsTable(config: Config, objs: Objs, root: nat, v: nat, k: nat)
    requires Valid(config, objs) && IsRoot(objs, root) && TopLevel(config) <= k <= NumLevels(config)
    ensures var r := Reach(config, objs, root, v, k);
      r.Some? ==> k < NumLevels(config) && IsTable(objs, r.value) && objs[r.value].body.level == k
    decreases k
  {
    if k == TopLevel(config) {
    } else {
      ReachIsTable(config, objs, root, v, k - 1);
    }
  }

  /** The frame found by looking at the levels from the top down to k. */
  ghost function Look(config: Config, objs: Objs, root: nat, v: nat, k: nat): Option<(Cap, nat)>
    requires Valid(config, objs) && IsRoot(objs, root) && IsLevel(config, k)
    decreases k
  {
    if k > TopLevel(config) && Look(config, objs, root, v, k - 1).Some? then Look(config, objs, root, v, k - 1)
    else FrameAt(config, objs, root, v, k)
  }

  /** The frame on the path at level k itself. */
  ghost function FrameAt(config: Config, objs: Objs, root: nat, v: nat, k: nat): Option<(Cap, nat)>
    requires Valid(config, objs) && IsRoot(objs, root) && IsLevel(config, k)
  {
    match Reach(config, objs, root, v, k)
    case None => None
    case Some(t) =>
      if IsTable(objs, t) then
        match SlotOf(objs, t, LevelIndex(config, k, v))
        case Some(cap) => if cap.FrameCap? then Some((cap, k)) else None
        case None => None
      else None
  }

  /** The walk of the MMU from a table of the given level: the frame capability and the
      level it was found at. */
  ghost function Walk(config: Config, objs: Objs, t: nat, level: nat, v: nat): Option<(Cap, nat)>
    requires Valid(config, objs) && IsLevel(config, level) && IsTable(objs, t)
    decreases NumLevels(config) - level
  {
    match SlotOf(objs, t, LevelIndex(config, level, v))
    case None => None
    case Some(FrameCap(f, r, w, x, c)) => Some((FrameCap(f, r, w, x, c), level))
    case Some(PageTableCap(u)) =>
      if level + 1 < NumLevels(config) && IsTable(objs, u) then Walk(config, objs, u, level + 1, v) else None
  }

  /** What a virtual address of a VSpace is mapped to. */
  ghost function Lookup(config: Config, objs: Objs, root: nat, v: nat): Option<(Cap, nat)>
    requires Valid(config, objs) && IsRoot(objs, root)
  {
    Walk(config, objs, root, TopLevel(config), v)
  }

  lemma {:induction false} WalkIsLook(config: Config, objs: Objs, root: nat, v: nat, k: nat)
    requires Valid(config, objs) && IsRoot(objs, root) && IsLevel(config, k)
    ensures Look(config, objs, root, v, NumLevels(config) - 1)
      == if k > TopLevel(config) && Look(config, objs, root, v, k - 1).Some? then Look(config, objs, root, v, k - 1)
         else match Reach(config, objs, root, v, k)
              case None => None
              case Some(t) => if IsTable(objs, t) then Walk(config, objs, t, k, v) else None
    decreases NumLevels(config) - k
  {
    ReachIsTable(config, objs, root, v, k);
    if k == NumLevels(config) - 1 {
      LastLevel(config, objs, root, v);
    } else {
      WalkIsLook(config, objs, root, v, k + 1);
      ReachIsTable(config, objs, root, v, k + 1);
    }
  }

  lemma LastLevel(config: Config, objs: Objs, root: nat, v: nat)
    requires Valid(config, objs) && IsRoot(objs, root)
    ensures var k := NumLevels(config) - 1;
      var r := Reach(config, objs, root, v, k);
      r.Some? ==>
        && IsTable(objs, r.value)
        && (SlotOf(objs, r.value, LevelIndex(config, k, v)).Some? ==>
            SlotOf(objs, r.value, LevelIndex(config, k, v)).value.FrameCap?)
  {
    ReachIsTable(config, objs, root, v, NumLevels(config) - 1);
  }

  lemma LookupIsLook(config: Config, objs: Objs, root: nat, v: nat)
    requires Valid(config, objs) && IsRoot(objs, root)
    ensures Lookup(config, objs, root, v) == Look(config, objs, root, v, NumLevels(config) - 1)
  {
    WalkIsLook(config, objs, root, v, TopLevel(config));
  }

  /** Paths that meet in a table come from the same root through the same indices. */
  lemma {:induction false} ReachInjective(config: Config, objs: Objs, r1: nat, v1: nat, r2: nat, v2: nat, k: nat)
    requires Valid(config, objs) && IsRoot(objs, r1) && IsRoot(objs, r2) && IsLevel(config, k)
    requires Reach(config, objs, r1, v1, k).Some? && Reach(config, objs, r1, v1, k) == Reach(config, objs, r2, v2, k)
    ensures r1 == r2
    ensures k > TopLevel(config) ==> SamePath(config, v1, v2, k - 1)
    decreases k
  {
    if k == TopLevel(config) {
    } else {
      var t1, t2 := Reach(config, objs, r1, v1, k - 1).value, Reach(config, objs, r2, v2, k - 1).value;
      ReachIsTable(config, objs, r1, v1, k - 1);
      ReachIsTable(config, objs, r2, v2, k - 1);
      assert t1 == t2 && LevelIndex(config, k - 1, v1) == LevelIndex(config, k - 1, v2);
      ReachInjective(config, objs, r1, v1, r2, v2, k - 1);
      if k - 1 > TopLevel(config) {
        SamePathStep(config, v1, v2, k - 1);
      }
    }
  }

  lemma {:induction false} ReachSamePath(config: Config, objs: Objs, root: nat, v: nat, w: nat, k: nat)
    requires Valid(config, objs) && IsRoot(objs, root) && IsLevel(config, k)
    requires k > TopLevel(config) ==> SamePath(config, v, w, k - 1)
    ensures Reach(config, objs, root, v, k) == Reach(config, objs, root, w, k)
    decreases k
  {
    if k == TopLevel(config) {
    } else {
      ReachSamePath(config, objs, root, v, w, k - 1);
    }
  }

  // ---- the two updates ----

  function WithCap(objs: Objs, t: nat, cte: Cte): Objs
    requires t < |objs| && objs[t].body.PageTable?
  {
    objs[t := objs[t].(body := objs[t].body.(slots := objs[t].body.slots + [cte]))]
  }

  function WithTable(objs: Objs, name: Name, level: nat): Objs {
    objs + [NamedObject(name, PageTable(false, level, []))]
  }

  lemma {:induction false} FindSlotAppend(slots: seq<Cte>, cte: Cte, j: nat)
    ensures FindSlot(slots + [cte], j)
      == if FindSlot(slots, j).Some? then FindSlot(slots, j)
         else if j == cte.slot then Some(cte.cap) else None
  {
    if slots == [] {
    } else {
      FindSlotAppend(slots[1..], cte, j);
      assert (slots + [cte])[1..] == slots[1..] + [cte];
    }
  }

  lemma SlotsAfterWithCap(objs: Objs, t: nat, i: nat, cap: Cap)
    requires IsTable(objs, t) && SlotOf(objs, t, i).None?
    ensures var objs2 := WithCap(objs, t, Cte(i, cap));
      && |objs2| == |objs|
      && (forall u: nat :: IsTable(objs2, u) <==> IsTable(objs, u))
      && (forall u: nat :: IsTable(objs, u) ==>
            objs2[u].body.level == objs[u].body.level && objs2[u].body.isRoot == objs[u].body.isRoot)
      && (forall u: nat, j: nat :: IsTable(objs, u) ==>
            SlotOf(objs2, u, j) == if u == t && j == i then Some(cap) else SlotOf(objs, u, j))
      && (forall u: nat :: u < |objs| ==> objs2[u].name == objs[u].name && (u != t ==> objs2[u] == objs[u]))
  {
    var objs2 := WithCap(objs, t, Cte(i, cap));
    forall u: nat, j: nat | IsTable(objs, u)
      ensures SlotOf(objs2, u, j) == if u == t && j == i then Some(cap) else SlotOf(objs, u, j)
    {
      FindSlotAppend(objs[t].body.slots, Cte(i, cap), j);
    }
  }

  lemma FrameKeepsValid(config: Config, objs: Objs, t: nat, i: nat, cap: Cap)
    requires Valid(config, objs) && IsTable(objs, t) && SlotOf(objs, t, i).None?
    requires cap.FrameCap? && cap.obj < |objs| && objs[cap.obj].body.Frame?
    ensures Valid(config, WithCap(objs, t, Cte(i, cap)))
  {
    var objs2 := WithCap(objs, t, Cte(i, cap));
    SlotsAfterWithCap(objs, t, i, cap);
    forall u: nat, j: nat | IsTable(objs2, u) && SlotOf(objs2, u, j).Some?
      ensures CapOk(config, objs2, objs2[u].body.level, SlotOf(objs2, u, j).value)
    {
      if !(u == t && j == i) {
        assert CapOk(config, objs, objs[u].body.level, SlotOf(objs, u, j).value);
      }
    }
  }

  /** A frame in a free slot leaves the tables and all paths as they were. */
  lemma {:induction false} FrameKeepsReach(
    config: Config, objs: Objs, t: nat, i: nat, cap: Cap, root: nat, w: nat, k: nat)
    requires Valid(config, objs) && IsTable(objs, t) && SlotOf(objs, t, i).None?
    requires cap.FrameCap? && Valid(config, WithCap(objs, t, Cte(i, cap)))
    requires IsRoot(objs, root) && TopLevel(config) <= k <= NumLevels(config)
    ensures IsRoot(WithCap(objs, t, Cte(i, cap)), root)
    ensures Reach(config, WithCap(objs, t, Cte(i, cap)), root, w, k) == Reach(config, objs, root, w, k)
    decreases k
  {
    SlotsAfterWithCap(objs, t, i, cap);
    if k == TopLevel(config) {
    } else {
      FrameKeepsReach(config, objs, t, i, cap, root, w, k - 1);
      ReachIsTable(config, objs, root, w, k - 1);
    }
  }

  ghost predicate Through(config: Config, objs: Objs, root: nat, w: nat, t: nat, i: nat)
    requires Valid(config, objs) && IsRoot(objs, root) && IsTable(objs, t)
  {
    var level := objs[t].body.level;
    Reach(config, objs, root, w, level) == Some(t) && LevelIndex(config, level, w) == i
  }

  lemma FrameChangesFrameAt(
    config: Config, objs: Objs, t: nat, i: nat, cap: Cap, root: nat, w: nat, k: nat)
    requires Valid(config, objs) && IsTable(objs, t) && SlotOf(objs, t, i).None?
    requires cap.FrameCap? && Valid(config, WithCap(objs, t, Cte(i, cap)))
    requires IsRoot(objs, root) && IsLevel(config, k) && IsRoot(WithCap(objs, t, Cte(i, cap)), root)
    ensures FrameAt(config, WithCap(objs, t, Cte(i, cap)), root, w, k)
      == if k == objs[t].body.level && Through(config, objs, root, w, t, i) then Some((cap, k))
         else FrameAt(config, objs, root, w, k)
  {
    SlotsAfterWithCap(objs, t, i, cap);
    FrameKeepsReach(config, objs, t, i, cap, root, w, k);
    ReachIsTable(config, objs, root, w, k);
  }

  /** It is found exactly on the paths that lead through that slot. */
  lemma {:induction false} FrameChangesLook(
    config: Config, objs: Objs, t: nat, i: nat, cap: Cap, root: nat, w: nat, k: nat)
    requires Valid(config, objs) && IsTable(objs, t) && SlotOf(objs, t, i).None?
    requires cap.FrameCap? && Valid(config, WithCap(objs, t, Cte(i, cap)))
    requires IsRoot(objs, root) && IsLevel(config, k) && IsRoot(WithCap(objs, t, Cte(i, cap)), root)
    ensures Look(config, WithCap(objs, t, Cte(i, cap)), root, w, k)
      == if objs[t].body.level <= k && Through(config, objs, root, w, t, i) then Some((cap, objs[t].body.level))
         else Look(config, objs, root, w, k)
    decreases k
  {
    FrameChangesFrameAt(config, objs, t, i, cap, root, w, k);
    FreeSlotEndsPath(config, objs, t, i, root, w, k);
    if k > TopLevel(config) {
      FrameChangesLook(config, objs, t, i, cap, root, w, k - 1);
    }
    if Through(config, objs, root, w, t, i) && k == objs[t].body.level {
      NothingAbove(config, objs, root, w, k);
    }
  }

  /** A path that reaches a table has met no frame before. */
  lemma {:induction false} NothingAbove(config: Config, objs: Objs, root: nat, w: nat, k: nat)
    requires Valid(config, objs) && IsRoot(objs, root) && IsLevel(config, k)
    requires Reach(config, objs, root, w, k).Some?
    ensures k > TopLevel(config) ==> Look(config, objs, root, w, k - 1).None?
    decreases k
  {
    if k == TopLevel(config) {
    } else {
      NothingAbove(config, objs, root, w, k - 1);
      ReachIsTable(config, objs, root, w, k - 1);
    }
  }

  lemma {:induction false} FreeSlotEndsPath(config: Config, objs: Objs, t: nat, i: nat, root: nat, w: nat, k: nat)
    requires Valid(config, objs) && IsTable(objs, t) && SlotOf(objs, t, i).None?
    requires IsRoot(objs, root) && TopLevel(config) <= k <= NumLevels(config)
    ensures objs[t].body.level < k && Through(config, objs, root, w, t, i) ==> Reach(config, objs, root, w, k).None?
    decreases k
  {
    if k == TopLevel(config) {
    } else {
      FreeSlotEndsPath(config, objs, t, i, root, w, k - 1);
    }
  }

  /** A fresh empty table of the next level, hung into a free slot. */
  function WithNewTable(objs: Objs, t: nat, i: nat, name: Name): Objs
    requires t < |objs| && objs[t].body.PageTable?
  {
    WithCap(WithTable(objs, name, objs[t].body.level + 1), t, Cte(i, PageTableCap(|objs|)))
  }

  lemma SlotsAfterNewTable(objs: Objs, t: nat, i: nat, name: Name)
    requires IsTable(objs, t) && SlotOf(objs, t, i).None?
    ensures var objs2 := WithNewTable(objs, t, i, name);
      && |objs2| == |objs| + 1 && objs2[|objs|] == NamedObject(name, PageTable(false, objs[t].body.level + 1, []))
      && (forall u: nat :: IsTable(objs2, u) <==> IsTable(objs, u) || u == |objs|)
      && (forall u: nat :: IsTable(objs, u) ==>
            objs2[u].body.level == objs[u].body.level && objs2[u].body.isRoot == objs[u].body.isRoot)
      && (forall u: nat, j: nat :: IsTable(objs, u) ==>
            SlotOf(objs2, u, j) == if u == t && j == i then Some(PageTableCap(|objs|)) else SlotOf(objs, u, j))
      && (forall j: nat :: SlotOf(objs2, |objs|, j) == None)
      && (forall u: nat :: u < |objs| ==> objs2[u].name == objs[u].name && (u != t ==> objs2[u] == objs[u]))
  {
    var objs1 := WithTable(objs, name, objs[t].body.level + 1);
    assert SlotOf(objs1, t, i).None?;
    SlotsAfterWithCap(objs1, t, i, PageTableCap(|objs|));
    assert forall u: nat, j: nat :: IsTable(objs, u) ==> SlotOf(objs1, u, j) == SlotOf(objs, u, j);
  }

  lemma NewTableKeepsValid(config: Config, objs: Objs, t: nat, i: nat, name: Name)
    requires Valid(config, objs) && IsTable(objs, t) && SlotOf(objs, t, i).None?
    requires objs[t].body.level + 1 < NumLevels(config)
    ensures Valid(config, WithNewTable(objs, t, i, name))
  {
    var objs2 := WithNewTable(objs, t, i, name);
    SlotsAfterNewTable(objs, t, i, name);
    assert LevelsOk(config, objs2);
    forall u: nat, j: nat | IsTable(objs2, u) && SlotOf(objs2, u, j).Some?
      ensures CapOk(config, objs2, objs2[u].body.level, SlotOf(objs2, u, j).value)
    {
      if !(u == t && j == i) {
        assert CapOk(config, objs, objs[u].body.level, SlotOf(objs, u, j).value);
      }
    }
    forall t1: nat, i1: nat, t2: nat, i2: nat
      | IsTable(objs2, t1) && IsTable(objs2, t2)
        && SlotOf(objs2, t1, i1).Some? && SlotOf(objs2, t2, i2).Some?
        && SlotOf(objs2, t1, i1).value.PageTableCap?
        && SlotOf(objs2, t1, i1).value == SlotOf(objs2, t2, i2).value
      ensures t1 == t2 && i1 == i2
    {
      if !(t1 == t && i1 == i) {
        assert CapOk(config, objs, objs[t1].body.level, SlotOf(objs, t1, i1).value);
      }
      if !(t2 == t && i2 == i) {
        assert CapOk(config, objs, objs[t2].body.level, SlotOf(objs, t2, i2).value);
      }
    }
  }

  lemma SlotAfterNewTable(objs: Objs, t: nat, i: nat, name: Name, u: nat, j: nat)
    requires IsTable(objs, t) && SlotOf(objs, t, i).None? && IsTable(objs, u)
    ensures IsTable(WithNewTable(objs, t, i, name), u)
    ensures SlotOf(WithNewTable(objs, t, i, name), u, j)
      == if u == t && j == i then Some(PageTableCap(|objs|)) else SlotOf(objs, u, j)
  {
    SlotsAfterNewTable(objs, t, i, name);
  }

  lemma NewTableIsEmpty(objs: Objs, t: nat, i: nat, name: Name, j: nat)
    requires IsTable(objs, t) && SlotOf(objs, t, i).None?
    ensures IsTable(WithNewTable(objs, t, i, name), |objs|)
    ensures SlotOf(WithNewTable(objs, t, i, name), |objs|, j) == None
  {
    SlotsAfterNewTable(objs, t, i, name);
  }

  lemma {:induction false} NewTableReach(
    config: Config, objs: Objs, t: nat, i: nat, name: Name, root: nat, w: nat, k: nat)
    requires Valid(config, objs) && IsTable(objs, t) && SlotOf(objs, t, i).None?
    requires Valid(config, WithNewTable(objs, t, i, name)) && IsRoot(WithNewTable(objs, t, i, name), root)
    requires IsRoot(objs, root) && TopLevel(config) <= k <= NumLevels(config)
    ensures Reach(config, WithNewTable(objs, t, i, name), root, w, k)
      == if objs[t].body.level < k && Through(config, objs, root, w, t, i)
         then if k == objs[t].body.level + 1 then Some(|objs|) else None
         else Reach(config, objs, root, w, k)
    decreases k
  {
    if k == TopLevel(config) {
    } else {
      NewTableReach(config, objs, t, i, name, root, w, k - 1);
      NewTableStep(config, objs, t, i, name, root, w, k);
    }
  }

  /** One level further down. */
  lemma NewTableStep(
    config: Config, objs: Objs, t: nat, i: nat, name: Name, root: nat, w: nat, k: nat)
    requires Valid(config, objs) && IsTable(objs, t) && SlotOf(objs, t, i).None?
    requires Valid(config, WithNewTable(objs, t, i, name)) && IsRoot(WithNewTable(objs, t, i, name), root)
    requires IsRoot(objs, root) && TopLevel(config) < k <= NumLevels(config)
    requires Reach(config, WithNewTable(objs, t, i, name), root, w, k - 1)
      == if objs[t].body.level < k - 1 && Through(config, objs, root, w, t, i)
         then if k - 1 == objs[t].body.level + 1 then Some(|objs|) else None
         else Reach(config, objs, root, w, k - 1)
    ensures Reach(config, WithNewTable(objs, t, i, name), root, w, k)
      == if objs[t].body.level < k && Through(config, objs, root, w, t, i)
         then if k == objs[t].body.level + 1 then Some(|objs|) else None
         else Reach(config, objs, root, w, k)
  {
    var j := LevelIndex(config, k - 1, w);
    ReachIsTable(config, objs, root, w, k - 1);
    NewTableIsEmpty(objs, t, i, name, j);
    match Reach(config, objs, root, w, k - 1)
    case None =>
    case Some(u) => SlotAfterNewTable(objs, t, i, name, u, j);
  }

  lemma NewTableKeepsFrameAt(
    config: Config, objs: Objs, t: nat, i: nat, name: Name, root: nat, w: nat, k: nat)
    requires Valid(config, objs) && IsTable(objs, t) && SlotOf(objs, t, i).None?
    requires Valid(config, WithNewTable(objs, t, i, name)) && IsRoot(WithNewTable(objs, t, i, name), root)
    requires IsRoot(objs, root) && IsLevel(config, k)
    ensures FrameAt(config, WithNewTable(objs, t, i, name), root, w, k) == FrameAt(config, objs, root, w, k)
  {
    var j := LevelIndex(config, k, w);
    NewTableReach(config, objs, t, i, name, root, w, k);
    ReachIsTable(config, objs, root, w, k);
    FreeSlotEndsPath(config, objs, t, i, root, w, k);
    NewTableIsEmpty(objs, t, i, name, j);
    match Reach(config, objs, root, w, k)
    case None =>
    case Some(u) => SlotAfterNewTable(objs, t, i, name, u, j);
  }

  /** Empty tables change no translation. */
  lemma {:induction false} NewTableKeepsLook(
    config: Config, objs: Objs, t: nat, i: nat, name: Name, root: nat, w: nat, k: nat)
    requires Valid(config, objs) && IsTable(objs, t) && SlotOf(objs, t, i).None?
    requires Valid(config, WithNewTable(objs, t, i, name)) && IsRoot(WithNewTable(objs, t, i, name), root)
    requires IsRoot(objs, root) && IsLevel(config, k)
    ensures Look(config, WithNewTable(objs, t, i, name), root, w, k) == Look(config, objs, root, w, k)
    decreases k
  {
    NewTableKeepsFrameAt(config, objs, t, i, name, root, w, k);
    if k > TopLevel(config) {
      NewTableKeepsLook(config, objs, t, i, name, root, w, k - 1);
    }
  }

  lemma RootStays(objs: Objs, t: nat, i: nat, name: Name, root: nat)
    requires IsTable(objs, t) && SlotOf(objs, t, i).None? && IsRoot(objs, root)
    ensures IsRoot(WithNewTable(objs, t, i, name), root)
  {
    SlotsAfterNewTable(objs, t, i, name);
  }

  // ---- mapping a page ----

  datatype MapResult = Ok(objs: Objs) | Err(objs: Objs)

  function InsertCap(objs: Objs, t: nat, cte: Cte): MapResult {
    if !(t < |objs| && objs[t].body.PageTable?) then Err(objs)
    else if FindSlot(objs[t].body.slots, cte.slot).Some? then Err(objs)
    else Ok(WithCap(objs, t, cte))
  }

  function MapFrom(config: Config, objs: Objs, pd: string, t: nat, level: nat, target: nat, cap: Cap, v: nat): MapResult
    requires IsLevel(config, level) && level <= target < NumLevels(config)
    decreases target - level
  {
    var i := LevelIndex(config, level, v);
    if level == target then InsertCap(objs, t, Cte(i, cap))
    else if !(t < |objs| && objs[t].body.PageTable?) then Err(objs)
    else
      match FindSlot(objs[t].body.slots, i)
      case Some(next) => MapFrom(config, objs, pd, next.obj, level + 1, target, cap, v)
      case None =>
        var name := TableName(level + 1, pd, CoverageStart(config, level + 1, v));
        MapFrom(config, WithNewTableAt(objs, t, i, name, level + 1), pd, |objs|, level + 1, target, cap, v)
  }

  /** The helper writes the level it was called with, not the one stored in the table. */
  function WithNewTableAt(objs: Objs, t: nat, i: nat, name: Name, level: nat): Objs
    requires t < |objs| && objs[t].body.PageTable?
  {
    WithCap(WithTable(objs, name, level), t, Cte(i, PageTableCap(|objs|)))
  }

  /** A frame is already mapped on the path, or a table sits where the frame should go. */
  ghost predicate Blocked(config: Config, objs: Objs, root: nat, v: nat, target: nat)
    requires Valid(config, objs) && IsRoot(objs, root) && IsLevel(config, target)
  {
    Look(config, objs, root, v, target).Some? || Reach(config, objs, root, v, target + 1).Some?
  }

  /** The map from page to frame after mapping: the new frame on the path of v, everything
      else as before. */
  ghost predicate Updated(config: Config, objs: Objs, objs2: Objs, root: nat, v: nat, target: nat, cap: Cap)
    requires Valid(config, objs) && Valid(config, objs2) && IsRoot(objs, root) && IsLevel(config, target)
  {
    && (forall r: nat :: IsRoot(objs, r) ==> IsRoot(objs2, r))
    && (forall r: nat, w: nat :: IsRoot(objs, r) ==>
          LookAll(config, objs2, r, w)
          == if r == root && SamePath(config, v, w, target) then Some((cap, target)) else LookAll(config, objs, r, w))
  }

  ghost function LookAll(config: Config, objs: Objs, root: nat, v: nat): Option<(Cap, nat)>
    requires Valid(config, objs) && IsRoot(objs, root)
  {
    Look(config, objs, root, v, NumLevels(config) - 1)
  }

  lemma {:induction false} LookStays(config: Config, objs: Objs, root: nat, v: nat, k: nat, m: nat)
    requires Valid(config, objs) && IsRoot(objs, root) && IsLevel(config, k) && k <= m < NumLevels(config)
    ensures Look(config, objs, root, v, k).Some? ==> Look(config, objs, root, v, m) == Look(config, objs, root, v, k)
    ensures Reach(config, objs, root, v, k + 1).None? ==> Look(config, objs, root, v, m) == Look(config, objs, root, v, k)
    ensures Reach(config, objs, root, v, k + 1).None? ==> Reach(config, objs, root, v, m + 1).None?
    decreases m - k
  {
    if m == k {
    } else {
      LookStays(config, objs, root, v, k, m - 1);
    }
  }

  /** The slot that the path of v uses is used by no other page. */
  lemma ThroughIsSamePath(config: Config, objs: Objs, root: nat, v: nat, t: nat, r: nat, w: nat)
    requires Valid(config, objs) && IsRoot(objs, root) && IsRoot(objs, r) && IsTable(objs, t)
    requires Reach(config, objs, root, v, objs[t].body.level) == Some(t)
    ensures Through(config, objs, r, w, t, LevelIndex(config, objs[t].body.level, v))
      <==> r == root && SamePath(config, v, w, objs[t].body.level)
  {
    var level := objs[t].body.level;
    if Reach(config, objs, r, w, level) == Some(t) {
      ReachInjective(config, objs, root, v, r, w, level);
    }
    if r == root && SamePath(config, v, w, level) {
      ReachSamePath(config, objs, root, v, w, level);
    }
  }

  ghost predicate MapCorrect(config: Config, objs: Objs, root: nat, v: nat, target: nat, cap: Cap, r: MapResult)
    requires Valid(config, objs) && IsRoot(objs, root) && IsLevel(config, target)
  {
    match r
    case Err(objs2) => Blocked(config, objs, root, v, target) && objs2 == objs
    case Ok(objs2) =>
      && !Blocked(config, objs, root, v, target)
      && Valid(config, objs2) && Updated(config, objs, objs2, root, v, target, cap)
  }

  ghost predicate IsFrameCap(objs: Objs, cap: Cap) {
    cap.FrameCap? && cap.obj < |objs| && objs[cap.obj].body.Frame?
  }

  lemma MapHere(config: Config, objs: Objs, root: nat, t: nat, target: nat, cap: Cap, v: nat)
    requires Valid(config, objs) && IsRoot(objs, root) && IsLevel(config, target) && IsFrameCap(objs, cap)
    requires Reach(config, objs, root, v, target) == Some(t)
    ensures MapCorrect(config, objs, root, v, target, cap,
                       InsertCap(objs, t, Cte(LevelIndex(config, target, v), cap)))
  {
    var i := LevelIndex(config, target, v);
    ReachIsTable(config, objs, root, v, target);
    NothingAbove(config, objs, root, v, target);
    match SlotOf(objs, t, i)
    case Some(c) =>
      assert CapOk(config, objs, target, c);
    case None =>
      var objs2 := WithCap(objs, t, Cte(i, cap));
      FrameKeepsValid(config, objs, t, i, cap);
      SlotsAfterWithCap(objs, t, i, cap);
      FreeSlotEndsPath(config, objs, t, i, root, v, target + 1);
      forall r: nat, w: nat | IsRoot(objs, r)
        ensures IsRoot(objs2, r)
        ensures LookAll(config, objs2, r, w)
          == if r == root && SamePath(config, v, w, target) then Some((cap, target)) else LookAll(config, objs, r, w)
      {
        FrameChangesLook(config, objs, t, i, cap, r, w, NumLevels(config) - 1);
        ThroughIsSamePath(config, objs, root, v, t, r, w);
      }
  }

  lemma MapFromFrame(config: Config, objs: Objs, pd: string, f: nat, level: nat, target: nat, cap: Cap, v: nat)
    requires IsLevel(config, level) && level <= target < NumLevels(config)
    requires !IsTable(objs, f)
    ensures MapFrom(config, objs, pd, f, level, target, cap, v) == Err(objs)
  {
  }

  lemma MapThroughNewTable(
    config: Config, objs: Objs, root: nat, t: nat, level: nat, target: nat, cap: Cap, v: nat, name: Name, r: MapResult)
    requires Valid(config, objs) && IsRoot(objs, root) && IsFrameCap(objs, cap)
    requires IsLevel(config, level) && level < target < NumLevels(config)
    requires Reach(config, objs, root, v, level) == Some(t) && IsTable(objs, t) && objs[t].body.level == level
    requires SlotOf(objs, t, LevelIndex(config, level, v)).None?
    requires var objs2 := WithNewTable(objs, t, LevelIndex(config, level, v), name);
      && Valid(config, objs2) && IsRoot(objs2, root)
      && MapCorrect(config, objs2, root, v, target, cap, r)
    ensures MapCorrect(config, objs, root, v, target, cap, r)
  {
    var i := LevelIndex(config, level, v);
    var objs2 := WithNewTable(objs, t, i, name);
    NothingAbove(config, objs, root, v, level);
    FreeSlotEndsPath(config, objs, t, i, root, v, level + 1);
    LookStays(config, objs, root, v, level, target);
    NewTableKeepsLook(config, objs, t, i, name, root, v, target);
    NewTableReach(config, objs, t, i, name, root, v, target + 1);
    if r.Ok? {
      UpdatedThroughNewTable(config, objs, root, t, i, name, v, target, cap, r.objs);
    }
  }

  lemma UpdatedThroughNewTable(
    config: Config, objs: Objs, root: nat, t: nat, i: nat, name: Name, v: nat, target: nat, cap: Cap, objs3: Objs)
    requires Valid(config, objs) && IsRoot(objs, root) && IsTable(objs, t) && SlotOf(objs, t, i).None?
    requires IsLevel(config, target) && Valid(config, objs3)
    requires var objs2 := WithNewTable(objs, t, i, name);
      Valid(config, objs2) && IsRoot(objs2, root) && Updated(config, objs2, objs3, root, v, target, cap)
    ensures Updated(config, objs, objs3, root, v, target, cap)
  {
    forall q: nat, w: nat | IsRoot(objs, q)
      ensures IsRoot(objs3, q)
      ensures LookAll(config, objs3, q, w)
        == if q == root && SamePath(config, v, w, target) then Some((cap, target)) else LookAll(config, objs, q, w)
    {
      RootStays(objs, t, i, name, q);
      NewTableKeepsLook(config, objs, t, i, name, q, w, NumLevels(config) - 1);
    }
  }

  lemma {:induction false} MapFromCorrect(
    config: Config, objs: Objs, pd: string, root: nat, t: nat, level: nat, target: nat, cap: Cap, v: nat)
    requires Valid(config, objs) && IsRoot(objs, root) && IsFrameCap(objs, cap)
    requires IsLevel(config, level) && level <= target < NumLevels(config)
    requires Reach(config, objs, root, v, level) == Some(t)
    ensures MapCorrect(config, objs, root, v, target, cap, MapFrom(config, objs, pd, t, level, target, cap, v))
    decreases target - level
  {
    var i := LevelIndex(config, level, v);
    ReachIsTable(config, objs, root, v, level);
    if level == target {
      MapHere(config, objs, root, t, target, cap, v);
    } else {
      match SlotOf(objs, t, i)
      case Some(PageTableCap(u)) =>
        MapFromCorrect(config, objs, pd, root, u, level + 1, target, cap, v);
      case Some(FrameCap(f, _, _, _, _)) =>
        assert CapOk(config, objs, level, SlotOf(objs, t, i).value);
        MapFromFrame(config, objs, pd, f, level + 1, target, cap, v);
        NothingAbove(config, objs, root, v, level);
        LookStays(config, objs, root, v, level, target);
      case None =>
        var name := TableName(level + 1, pd, CoverageStart(config, level + 1, v));
        NewTableKeepsValid(config, objs, t, i, name);
        RootStays(objs, t, i, name, root);
        SlotsAfterNewTable(objs, t, i, name);
        var objs2 := WithNewTable(objs, t, i, name);
        NewTableReach(config, objs, t, i, name, root, v, level + 1);
        MapFromCorrect(config, objs2, pd, root, |objs|, level + 1, target, cap, v);
        MapThroughNewTable(config, objs, root, t, level, target, cap, v, name,
                           MapFrom(config, objs2, pd, |objs|, level + 1, target, cap, v));
    }
  }

  /** Level at which frames of this size are inserted. */
  function TargetLevel(config: Config, large: bool): nat {
    if large then NumLevels(config) - 2 else NumLevels(config) - 1
  }

  /** The translation of every VSpace afterwards: the addresses of the page of v go to the new
      frame and every other address goes where it went before. */
  ghost predicate TranslationUpdated(
    config: Config, objs: Objs, objs2: Objs, root: nat, v: nat, target: nat, cap: Cap)
    requires Valid(config, objs) && Valid(config, objs2) && IsRoot(objs, root) && IsLevel(config, target)
  {
    forall q: nat, w: nat :: IsRoot(objs, q) ==>
      && IsRoot(objs2, q)
      && Lookup(config, objs2, q, w)
         == if q == root && Page(config, target, w) == Page(config, target, v) then Some((cap, target))
            else Lookup(config, objs, q, w)
  }

  lemma UpdatedIsTranslation(
    config: Config, objs: Objs, objs2: Objs, root: nat, v: nat, target: nat, cap: Cap)
    requires Valid(config, objs) && Valid(config, objs2) && IsRoot(objs, root) && IsLevel(config, target)
    requires Updated(config, objs, objs2, root, v, target, cap)
    ensures TranslationUpdated(config, objs, objs2, root, v, target, cap)
  {
    forall q: nat, w: nat | IsRoot(objs, q)
      ensures IsRoot(objs2, q)
      ensures Lookup(config, objs2, q, w)
        == if q == root && Page(config, target, w) == Page(config, target, v) then Some((cap, target))
           else Lookup(config, objs, q, w)
    {
      LookupIsLook(config, objs, q, w);
      LookupIsLook(config, objs2, q, w);
      SamePathIsSamePage(config, v, w, target);
      assert LookAll(config, objs2, q, w)
        == if q == root && SamePath(config, v, w, target) then Some((cap, target)) else LookAll(config, objs, q, w);
    }
  }

  ghost predicate MapPageMeans(config: Config, objs: Objs, root: nat, v: nat, target: nat, cap: Cap, r: MapResult)
    requires Valid(config, objs) && IsRoot(objs, root) && IsLevel(config, target)
  {
    match r
    case Err(objs2) => Blocked(config, objs, root, v, target) && objs2 == objs
    case Ok(objs2) =>
      && !Blocked(config, objs, root, v, target)
      && Valid(config, objs2) && TranslationUpdated(config, objs, objs2, root, v, target, cap)
  }

  /** Mapping a page refines the update of a partial map from pages to frames; it fails,
      changing nothing, exactly when the path already meets a frame or a table occupies
      the slot. */
  lemma MapPageRefines(config: Config, objs: Objs, pd: string, root: nat, large: bool, cap: Cap, v: nat)
    requires Valid(config, objs) && IsRoot(objs, root) && IsFrameCap(objs, cap)
    ensures var target := TargetLevel(config, large);
      MapPageMeans(config, objs, root, v, target, cap,
                   MapFrom(config, objs, pd, root, TopLevel(config), target, cap, v))
  {
    var target := TargetLevel(config, large);
    var r := MapFrom(config, objs, pd, root, TopLevel(config), target, cap, v);
    MapFromCorrect(config, objs, pd, root, root, TopLevel(config), target, cap, v);
    if r.Ok? {
      UpdatedIsTranslation(config, objs, r.objs, root, v, target, cap);
    }
  }

  /** A small page can be mapped exactly when its address is not mapped yet. */
  lemma SmallPageBlocked(config: Config, objs: Objs, root: nat, v: nat)
    requires Valid(config, objs) && IsRoot(objs, root)
    ensures Blocked(config, objs, root, v, NumLevels(config) - 1) <==> Lookup(config, objs, root, v).Some?
  {
    LookupIsLook(config, objs, root, v);
    ReachIsTable(config, objs, root, v, NumLevels(config));
  }

  /** Frames are never touched by mapping. */
  lemma {:induction false} MapFromKeepsFrames(
    config: Config, objs: Objs, pd: string, t: nat, level: nat, target: nat, cap: Cap, v: nat, f: nat)
    requires IsLevel(config, level) && level <= target < NumLevels(config)
    requires f < |objs| && !objs[f].body.PageTable?
    ensures var r := MapFrom(config, objs, pd, t, level, target, cap, v);
      f < |r.objs| && r.objs[f] == objs[f]
    decreases target - level
  {
    var i := LevelIndex(config, level, v);
    if level < target && t < |objs| && objs[t].body.PageTable? {
      match FindSlot(objs[t].body.slots, i)
      case Some(next) =>
        MapFromKeepsFrames(config, objs, pd, next.obj, level + 1, target, cap, v, f);
      case None =>
        var name := TableName(level + 1, pd, CoverageStart(config, level + 1, v));
        MapFromKeepsFrames(config, WithNewTableAt(objs, t, i, name, level + 1), pd, |objs|, level + 1, target, cap, v, f);
    }
  }

  // ---- adding objects that no table refers to yet ----

  ghost predicate Inert(config: Config, obj: NamedObject) {
    obj.body.PageTable? ==> obj.body == PageTable(true, TopLevel(config), [])
  }

  lemma AppendKeepsValid(config: Config, objs: Objs, obj: NamedObject)
    requires Valid(config, objs) && Inert(config, obj)
    ensures Valid(config, objs + [obj])
    ensures forall r: nat :: IsRoot(objs, r) ==> IsRoot(objs + [obj], r)
  {
    var objs2 := objs + [obj];
    forall u: nat, j: nat | IsTable(objs2, u) && SlotOf(objs2, u, j).Some?
      ensures u < |objs| && CapOk(config, objs2, objs2[u].body.level, SlotOf(objs2, u, j).value)
    {
      assert CapOk(config, objs, objs[u].body.level, SlotOf(objs, u, j).value);
    }
    assert TablesOk(config, objs2);
    assert OneParent(objs2) by {
      assert forall u: nat, j: nat :: IsTable(objs2, u) && SlotOf(objs2, u, j).Some? ==>
        IsTable(objs, u) && SlotOf(objs, u, j) == SlotOf(objs2, u, j);
    }
  }

  lemma {:induction false} AppendKeepsWalk(config: Config, objs: Objs, obj: NamedObject, t: nat, level: nat, v: nat)
    requires Valid(config, objs) && Valid(config, objs + [obj]) && IsLevel(config, level) && IsTable(objs, t)
    ensures Walk(config, objs + [obj], t, level, v) == Walk(config, objs, t, level, v)
    decreases NumLevels(config) - level
  {
    match SlotOf(objs, t, LevelIndex(config, level, v))
    case Some(PageTableCap(u)) =>
      assert CapOk(config, objs, objs[t].body.level, PageTableCap(u));
      if level + 1 < NumLevels(config) {
        AppendKeepsWalk(config, objs, obj, u, level + 1, v);
      }
    case _ =>
  }

  lemma FreshRootMapsNothing(config: Config, objs: Objs, name: Name, v: nat)
    requires Valid(config, objs)
    requires Valid(config, objs + [NamedObject(name, PageTable(true, TopLevel(config), []))])
    ensures var objs2 := objs + [NamedObject(name, PageTable(true, TopLevel(config), []))];
      IsRoot(objs2, |objs|) && Lookup(config, objs2, |objs|, v) == None
  {
  }

  // ---- table names ----

  /** Each table below a root is named by its VSpace, its level and an address whose path
      leads to it. */
  ghost predicate NamedByPath(config: Config, objs: Objs, u: nat)
    requires Valid(config, objs) && u < |objs|
  {
    objs[u].name.TableName? && exists r: nat :: NamedFrom(config, objs, u, r)
  }

  ghost predicate NamedFrom(config: Config, objs: Objs, u: nat, r: nat)
    requires Valid(config, objs) && u < |objs| && objs[u].name.TableName?
  {
    var name := objs[u].name;
    && IsRoot(objs, r) && objs[r].name == RootName(name.pd)
    && IsLevel(config, name.level) && Reach(config, objs, r, name.start, name.level) == Some(u)
  }

  ghost predicate NamesOk(config: Config, objs: Objs)
    requires Valid(config, objs)
  {
    && (forall u: nat :: IsTable(objs, u) && !objs[u].body.isRoot ==> NamedByPath(config, objs, u))
    && (forall q: nat, r: nat :: IsRoot(objs, q) && IsRoot(objs, r) && objs[q].name == objs[r].name ==> q == r)
  }

  /** No two tables share a name. */
  lemma NamesUnique(config: Config, objs: Objs, u1: nat, u2: nat)
    requires Valid(config, objs) && NamesOk(config, objs)
    requires IsTable(objs, u1) && IsTable(objs, u2) && !objs[u1].body.isRoot && !objs[u2].body.isRoot
    requires objs[u1].name == objs[u2].name
    ensures u1 == u2
  {
    assert NamedByPath(config, objs, u1) && NamedByPath(config, objs, u2);
    var r1: nat :| NamedFrom(config, objs, u1, r1);
    var r2: nat :| NamedFrom(config, objs, u2, r2);
  }

  lemma CoverageSamePath(config: Config, v: nat, level: nat, k: nat)
    requires IsLevel(config, level) && level + 1 < NumLevels(config) && IsLevel(config, k) && k <= level
    ensures LevelIndex(config, k, CoverageStart(config, level + 1, v)) == LevelIndex(config, k, v)
  {
    CoverageSameUnit(config, v, level, k);
    LevelIndexIs(config, k, v);
    LevelIndexIs(config, k, CoverageStart(config, level + 1, v));
  }

  lemma {:induction false} CoverageSameUnit(config: Config, v: nat, level: nat, k: nat)
    requires IsLevel(config, level) && level + 1 < NumLevels(config) && IsLevel(config, k) && k <= level
    ensures CoverageStart(config, level + 1, v) / Granule(config, k) == v / Granule(config, k)
    decreases level - k
  {
    var start := CoverageStart(config, level + 1, v);
    if k == level {
      CoverageStartIs(config, level + 1, v);
      MultipleMod(v / Granule(config, level), Granule(config, level));
    } else {
      CoverageSameUnit(config, v, level, k + 1);
      UnitAbove(config, k, v);
      UnitAbove(config, k, start);
    }
  }

  lemma UnitAbove(config: Config, k: nat, v: nat)
    requires k + 1 < NumLevels(config)
    ensures v / Granule(config, k) == (v / Granule(config, k + 1)) / 512
  {
    Halve12(v);
    Halve21(v);
    Halve30(v);
  }

  lemma FrameKeepsNames(config: Config, objs: Objs, t: nat, i: nat, cap: Cap)
    requires Valid(config, objs) && IsTable(objs, t) && SlotOf(objs, t, i).None? && IsFrameCap(objs, cap)
    requires Valid(config, WithCap(objs, t, Cte(i, cap))) && NamesOk(config, objs)
    ensures NamesOk(config, WithCap(objs, t, Cte(i, cap)))
  {
    var objs2 := WithCap(objs, t, Cte(i, cap));
    SlotsAfterWithCap(objs, t, i, cap);
    forall u: nat | IsTable(objs2, u) && !objs2[u].body.isRoot
      ensures NamedByPath(config, objs2, u)
    {
      assert NamedByPath(config, objs, u);
      var r: nat :| NamedFrom(config, objs, u, r);
      FrameKeepsReach(config, objs, t, i, cap, r, objs[u].name.start, objs[u].name.level);
      assert NamedFrom(config, objs2, u, r);
    }
  }

  lemma NewTableKeepsNames(config: Config, objs: Objs, pd: string, root: nat, t: nat, level: nat, v: nat)
    requires Valid(config, objs) && IsRoot(objs, root) && objs[root].name == RootName(pd) && NamesOk(config, objs)
    requires IsLevel(config, level) && level + 1 < NumLevels(config) && IsTable(objs, t)
    requires Reach(config, objs, root, v, level) == Some(t) && objs[t].body.level == level
    requires SlotOf(objs, t, LevelIndex(config, level, v)).None?
    requires var name := TableName(level + 1, pd, CoverageStart(config, level + 1, v));
      Valid(config, WithNewTable(objs, t, LevelIndex(config, level, v), name))
    ensures var name := TableName(level + 1, pd, CoverageStart(config, level + 1, v));
      NamesOk(config, WithNewTable(objs, t, LevelIndex(config, level, v), name))
  {
    var i := LevelIndex(config, level, v);
    var name := TableName(level + 1, pd, CoverageStart(config, level + 1, v));
    var objs2 := WithNewTable(objs, t, i, name);
    SlotsAfterNewTable(objs, t, i, name);
    forall u: nat | IsTable(objs2, u) && !objs2[u].body.isRoot
      ensures NamedByPath(config, objs2, u)
    {
      if u == |objs| {
        NewTableIsNamed(config, objs, pd, root, t, level, v);
      } else {
        TableStaysNamed(config, objs, t, i, name, u);
      }
    }
  }

  lemma NewTableIsNamed(config: Config, objs: Objs, pd: string, root: nat, t: nat, level: nat, v: nat)
    requires Valid(config, objs) && IsRoot(objs, root) && objs[root].name == RootName(pd)
    requires IsLevel(config, level) && level + 1 < NumLevels(config) && IsTable(objs, t)
    requires Reach(config, objs, root, v, level) == Some(t) && objs[t].body.level == level
    requires SlotOf(objs, t, LevelIndex(config, level, v)).None?
    requires var name := TableName(level + 1, pd, CoverageStart(config, level + 1, v));
      Valid(config, WithNewTable(objs, t, LevelIndex(config, level, v), name))
    ensures var name := TableName(level + 1, pd, CoverageStart(config, level + 1, v));
      NamedByPath(config, WithNewTable(objs, t, LevelIndex(config, level, v), name), |objs|)
  {
    var i, start := LevelIndex(config, level, v), CoverageStart(config, level + 1, v);
    var name := TableName(level + 1, pd, start);
    SlotsAfterNewTable(objs, t, i, name);
    forall k | TopLevel(config) <= k <= level
      ensures LevelIndex(config, k, v) == LevelIndex(config, k, start)
    {
      CoverageSamePath(config, v, level, k);
    }
    ReachSamePath(config, objs, root, v, start, level);
    NewTableReach(config, objs, t, i, name, root, start, level + 1);
    assert NamedFrom(config, WithNewTable(objs, t, i, name), |objs|, root);
  }

  lemma TableStaysNamed(config: Config, objs: Objs, t: nat, i: nat, name: Name, u: nat)
    requires Valid(config, objs) && IsTable(objs, t) && SlotOf(objs, t, i).None?
    requires Valid(config, WithNewTable(objs, t, i, name)) && u < |objs| && NamedByPath(config, objs, u)
    ensures u < |WithNewTable(objs, t, i, name)| && NamedByPath(config, WithNewTable(objs, t, i, name), u)
  {
    SlotsAfterNewTable(objs, t, i, name);
    var r: nat :| NamedFrom(config, objs, u, r);
    NewTableReach(config, objs, t, i, name, r, objs[u].name.start, objs[u].name.level);
    FreeSlotEndsPath(config, objs, t, i, r, objs[u].name.start, objs[u].name.level);
    assert NamedFrom(config, WithNewTable(objs, t, i, name), u, r);
  }

  lemma {:induction false} MapFromKeepsNames(
    config: Config, objs: Objs, pd: string, root: nat, t: nat, level: nat, target: nat, cap: Cap, v: nat)
    requires Valid(config, objs) && IsRoot(objs, root) && IsFrameCap(objs, cap)
    requires objs[root].name == RootName(pd) && NamesOk(config, objs)
    requires IsLevel(config, level) && level <= target < NumLevels(config)
    requires Reach(config, objs, root, v, level) == Some(t)
    ensures var r := MapFrom(config, objs, pd, t, level, target, cap, v);
      Valid(config, r.objs) && NamesOk(config, r.objs)
    decreases target - level
  {
    var i := LevelIndex(config, level, v);
    ReachIsTable(config, objs, root, v, level);
    if level == target {
      if SlotOf(objs, t, i).None? {
        FrameKeepsValid(config, objs, t, i, cap);
        FrameKeepsNames(config, objs, t, i, cap);
      }
    } else {
      match SlotOf(objs, t, i)
      case Some(PageTableCap(u)) =>
        MapFromKeepsNames(config, objs, pd, root, u, level + 1, target, cap, v);
      case Some(FrameCap(f, _, _, _, _)) =>
        assert CapOk(config, objs, level, SlotOf(objs, t, i).value);
        MapFromFrame(config, objs, pd, f, level + 1, target, cap, v);
      case None =>
        var name := TableName(level + 1, pd, CoverageStart(config, level + 1, v));
        NewTableKeepsValid(config, objs, t, i, name);
        NewTableKeepsNames(config, objs, pd, root, t, level, v);
        RootStays(objs, t, i, name, root);
        SlotsAfterNewTable(objs, t, i, name);
        NewTableReach(config, objs, t, i, name, root, v, level + 1);
        MapFromKeepsNames(config, WithNewTable(objs, t, i, name), pd, root, |objs|, level + 1, target, cap, v);
    }
  }

  // ---- the spec container ----

  class SpecContainer {
    var objects: Objs

    constructor ()
      ensures objects == []
    {
      objects := [];
    }

    method AddRootObject(obj: NamedObject) returns (id: nat)
      modifies this
      ensures id == |old(objects)| && objects == old(objects) + [obj]
    {
      id := |objects|;
      objects := objects + [obj];
    }

    method CreateVSpace(config: Config, pd: string) returns (id: nat)
      modifies this
      ensures id == |old(objects)|
      ensures objects == old(objects) + [NamedObject(RootName(pd), PageTable(true, TopLevel(config), []))]
    {
      id := AddRootObject(NamedObject(RootName(pd), PageTable(true, TopLevel(config), [])));
    }

    /** The first entry with this slot number. */
    method Find(slots: seq<Cte>, slot: nat) returns (r: Option<Cap>)
      ensures r == FindSlot(slots, slot)
    {
      var k := 0;
      while k < |slots|
        invariant 0 <= k <= |slots|
        invariant FindSlot(slots, slot) == FindSlot(slots[k..], slot)
      {
        if slots[k].slot == slot {
          return Some(slots[k].cap);
        }
        k := k + 1;
      }
      return None;
    }

    method InsertCapIntoPageTableLevel(t: nat, slot: nat, cap: Cap) returns (ok: bool)
      requires t < |objects|
      modifies this
      ensures objects == InsertCap(old(objects), t, Cte(slot, cap)).objs
      ensures ok == InsertCap(old(objects), t, Cte(slot, cap)).Ok?
    {
      match objects[t].body
      case PageTable(isRoot, level, slots) =>
        var taken := Find(slots, slot);
        if taken.Some? {
          return false;
        }
        objects := objects[t := objects[t].(body := PageTable(isRoot, level, slots + [Cte(slot, cap)]))];
        return true;
      case _ =>
        return false;
    }

    /** The table below a slot, created when the slot is free. */
    method MapIntermediaryLevelHelper(config: Config, pd: string, t: nat, level: nat, slot: nat, v: nat)
      returns (next: Option<nat>)
      requires t < |objects| && level < NumLevels(config)
      modifies this
      ensures match old(objects)[t].body
        case PageTable(_, _, slots) =>
          (match FindSlot(slots, slot)
           case Some(cap) => next == Some(cap.obj) && objects == old(objects)
           case None =>
             && next == Some(|old(objects)|)
             && objects == WithNewTableAt(old(objects), t, slot,
                             TableName(level + 1, pd, CoverageStart(config, level + 1, v)), level + 1))
        case _ => next == None && objects == old(objects)
    {
      match objects[t].body
      case PageTable(_, _, slots) =>
        var found := Find(slots, slot);
        if found.Some? {
          return Some(found.value.obj);
        }
        var name := TableName(level + 1, pd, CoverageStart(config, level + 1, v));
        var id := AddRootObject(NamedObject(name, PageTable(false, level + 1, [])));
        var ok := InsertCapIntoPageTableLevel(t, slot, PageTableCap(id));
        return Some(id);
      case _ =>
        return None;
    }

    method MapRecursive(config: Config, pd: string, t: nat, level: nat, target: nat, cap: Cap, v: nat)
      returns (ok: bool)
      requires Valid(config, objects) && t < |objects|
      requires IsLevel(config, level) && level <= target < NumLevels(config)
      requires objects[t].body.PageTable? ==> objects[t].body.level == level
      modifies this
      ensures objects == MapFrom(config, old(objects), pd, t, level, target, cap, v).objs
      ensures ok == MapFrom(config, old(objects), pd, t, level, target, cap, v).Ok?
      decreases target - level
    {
      var slot := LevelIndex(config, level, v);
      if level == target {
        ok := InsertCapIntoPageTableLevel(t, slot, cap);
      } else {
        ghost var was := objects;
        var next := MapIntermediaryLevelHelper(config, pd, t, level, slot, v);
        match next
        case None => ok := false;
        case Some(u) =>
          NextIsTable(config, was, pd, t, level, slot, v);
          ok := MapRecursive(config, pd, u, level + 1, target, cap, v);
      }
    }

    /** Maps a frame of 4 KiB or 2 MiB at a virtual address. */
    method MapPage(config: Config, pd: string, vspace: nat, cap: Cap, large: bool, v: nat) returns (ok: bool)
      requires Valid(config, objects) && IsRoot(objects, vspace)
      modifies this
      ensures objects == MapFrom(config, old(objects), pd, vspace, TopLevel(config), TargetLevel(config, large), cap, v).objs
      ensures ok == MapFrom(config, old(objects), pd, vspace, TopLevel(config), TargetLevel(config, large), cap, v).Ok?
    {
      ok := MapRecursive(config, pd, vspace, TopLevel(config), TargetLevel(config, large), cap, v);
    }
  }

  /** One level further down the container is still well formed. */
  lemma NextIsTable(config: Config, objs: Objs, pd: string, t: nat, level: nat, slot: nat, v: nat)
    requires Valid(config, objs) && t < |objs| && IsLevel(config, level) && level + 1 < NumLevels(config)
    requires objs[t].body.PageTable? && objs[t].body.level == level
    ensures match SlotOf(objs, t, slot)
      case Some(cap) =>
        cap.obj < |objs| && (objs[cap.obj].body.PageTable? ==> objs[cap.obj].body.level == level + 1)
      case None =>
        var objs2 := WithNewTableAt(objs, t, slot,
                       TableName(level + 1, pd, CoverageStart(config, level + 1, v)), level + 1);
        && Valid(config, objs2) && |objs2| == |objs| + 1
        && objs2[|objs|].body == PageTable(false, level + 1, [])
  {
    match SlotOf(objs, t, slot)
    case Some(cap) =>
      assert CapOk(config, objs, level, cap);
    case None =>
      var name := TableName(level + 1, pd, CoverageStart(config, level + 1, v));
      NewTableKeepsValid(config, objs, t, slot, name);
      SlotsAfterNewTable(objs, t, slot, name);
  }
}
