/** Emulation of the seL4 boot memory map: tool/microkit/src/sel4.rs.
    `None` stands for a panic of the tool; an arithmetic underflow is one. */
module KernelBoot {
  import opened KernelConfig
  import opened Powers
  import opened MemoryRegions

  datatype BootInfo = BootInfo(
    fixedCapCount: nat,
    schedControlCap: nat,
    pagingCapCount: nat,
    pageCapCount: nat,
    untypeds: seq<UntypedObject>,
    firstAvailableCap: nat)

  lemma RoundDownIsMultiple(n: nat, x: nat)
    requires x > 0
    ensures RoundDown(n, x) == (n / x) * x && RoundDown(n, x) % x == 0 && n - x < RoundDown(n, x) <= n
  {
    assert n == (n / x) * x + n % x;
    MultipleMod(n / x, x);
  }

  lemma RoundUpIsMultiple(n: nat, x: nat)
    requires x > 0
    ensures RoundUp(n, x) == ((n + x - 1) / x) * x && n <= RoundUp(n, x) < n + x
  {
    var q, m := n / x, n % x;
    assert n == q * x + m;
    if m == 0 {
      assert n + x - 1 == q * x + (x - 1);
      QuotientUnique(n + x - 1, q, x, x - 1);
    } else {
      assert n + x - 1 == (q + 1) * x + (m - 1);
      QuotientUnique(n + x - 1, q + 1, x, m - 1);
      assert (q + 1) * x == q * x + x;
    }
  }

  lemma QuotientUnique(n: int, q: int, x: int, r: int)
    requires x > 0 && n == q * x + r && 0 <= r < x
    ensures n / x == q && n % x == r
  {
    assert n == (n / x) * x + n % x;
    assert (n / x - q) * x == r - n % x;
    MulBounds(n / x - q, x);
  }

  /** The largest multiple of x that is at most n. */
  lemma RoundDownIsGreatest(n: nat, x: nat, b: nat)
    requires x > 0 && b % x == 0 && b <= n
    ensures b <= RoundDown(n, x)
  {
    assert b == (b / x) * x && n == (n / x) * x + n % x;
    if b > RoundDown(n, x) {
      assert (b / x - n / x) * x == b - RoundDown(n, x);
      MulBounds(b / x - n / x, x);
      MulBounds(n / x - b / x, x);
    }
  }

  lemma MulOrder(a: int, b: int, m: nat)
    requires m > 0
    ensures a < b <==> a * m < b * m
    ensures a < b ==> a * m + m <= b * m
  {
    MulBounds(b - a, m);
    assert (b - a) * m == b * m - a * m;
    if a >= b {
      assert (a - b) * m >= 0;
    }
  }

  function GetNPaging(region: MemoryRegion, bits: nat): int {
    var start := RoundDown(region.base, Pow2(bits));
    var end := RoundUp(region.end, Pow2(bits));
    (end - start) / Pow2(bits)
  }

  /** The k-th naturally aligned window of m bytes meets the region. */
  ghost predicate WindowMeets(region: MemoryRegion, m: nat, k: nat) {
    exists x :: region.Has(x) && k * m <= x < k * m + m
  }

  /** One paging structure per aligned window that the region touches: the touched
      windows are a consecutive run of exactly GetNPaging windows. */
  lemma NPagingCountsWindows(region: MemoryRegion, bits: nat, k: nat)
    requires region.base < region.end
    ensures WindowMeets(region, Pow2(bits), k)
      <==> region.base / Pow2(bits) <= k < region.base / Pow2(bits) + GetNPaging(region, bits)
  {
    var m := Pow2(bits);
    var first, last := region.base / m, (region.end + m - 1) / m;
    RoundDownIsMultiple(region.base, m);
    RoundUpIsMultiple(region.end, m);
    assert RoundUp(region.end, m) - RoundDown(region.base, m) == (last - first) * m;
    MultipleMod(last - first, m);
    WindowRange(region, m, k, first, last);
  }

  lemma WindowRange(region: MemoryRegion, m: nat, k: nat, first: nat, last: nat)
    requires region.base < region.end && m > 0
    requires first * m <= region.base < first * m + m
    requires region.end <= last * m < region.end + m
    ensures WindowMeets(region, m, k) <==> first <= k < last
  {
    MulOrder(k, last, m);
    MulOrder(k, first, m);
    MulOrder(first, k, m);
    MulOrder(last, k, m);
    if first <= k < last {
      var x := if k == first then region.base else k * m;
      assert region.Has(x) && k * m <= x < k * m + m;
    }
  }

  /** The kernel boot is not emulated for x86. */
  function GetArchNPaging(config: Config, region: MemoryRegion): int
    requires !config.arch.X86?
  {
    if config.arch.Aarch64? && !StartsAtLevel1(config)
    then GetNPaging(region, 39) + GetNPaging(region, 30) + GetNPaging(region, 21)
    else GetNPaging(region, 30) + GetNPaging(region, 21)
  }

  function RootserverSize(config: Config, initialTask: MemoryRegion): int
    requires !config.arch.X86?
  {
    Pow2(config.rootCnodeBits + 5)
    + Pow2(config.tcbBits)
    + 2 * Pow2(config.pageBits)
    + Pow2(12)
    + Pow2(config.vspaceBits)
    + GetArchNPaging(config, initialTask) * Pow2(config.pageTableBits)
    + Pow2(7)
  }

  function RootserverAlignBits(config: Config): nat {
    if config.rootCnodeBits + 5 > config.vspaceBits then config.rootCnodeBits + 5 else config.vspaceBits
  }

  // ---- placing the root server ----

  /** An aligned block of `size` bytes at b lies inside one of the regions. */
  ghost predicate Placeable(rs: seq<MemoryRegion>, size: nat, align: nat, b: nat)
    requires align > 0
  {
    exists i :: 0 <= i < |rs| && Fits(rs[i], size, align, b)
  }

  /** Regions are tried from the top; the result is the highest aligned place there is. */
  method HighestPlace(rs: seq<MemoryRegion>, size: nat, align: nat) returns (r: Option<nat>)
    requires Sorted(rs) && align > 0
    ensures r.Some? ==> Placeable(rs, size, align, r.value)
    ensures r.Some? ==> forall b: nat :: Placeable(rs, size, align, b) ==> b <= r.value
    ensures r.None? ==> forall b: nat :: !Placeable(rs, size, align, b)
  {
    var i := |rs|;
    while i > 0
      invariant 0 <= i <= |rs|
      invariant forall j, b: nat :: i <= j < |rs| ==> !Fits(rs[j], size, align, b)
    {
      i := i - 1;
      if rs[i].end < size {
        // the subtraction underflows; no region further down reaches higher
        return None;
      }
      var start := RoundDown(rs[i].end - size, align);
      RoundDownIsMultiple(rs[i].end - size, align);
      forall b: nat | Fits(rs[i], size, align, b)
        ensures b <= start
      {
        RoundDownIsGreatest(rs[i].end - size, align, b);
      }
      if start >= rs[i].base {
        assert Fits(rs[i], size, align, start);
        return Some(start);
      }
    }
    return None;
  }

  // ---- untypeds from region lists ----

  /** `DisjointMemoryRegion::aligned_power_of_two_regions`. */
  function BlocksOf(rs: seq<MemoryRegion>, virtualBase: nat, maxBits: nat): seq<MemoryRegion>
    requires forall r :: r in rs ==> r.base <= r.end
  {
    if rs == [] then []
    else
      var last := rs[|rs| - 1];
      BlocksOf(rs[..|rs| - 1], virtualBase, maxBits) + Blocks(last.base, last.end, virtualBase, maxBits)
  }

  method AllAlignedPowerOfTwoRegions(rs: seq<MemoryRegion>, virtualBase: nat, maxBits: nat)
    returns (blocks: seq<MemoryRegion>)
    requires virtualBase < WORD && maxBits < 64
    requires forall r :: r in rs ==> r.base <= r.end < WORD
    ensures blocks == BlocksOf(rs, virtualBase, maxBits)
  {
    blocks := [];
    var i := 0;
    while i < |rs|
      invariant 0 <= i <= |rs|
      invariant blocks == BlocksOf(rs[..i], virtualBase, maxBits)
    {
      var more := AlignedPowerOfTwoRegions(rs[i], virtualBase, maxBits);
      assert rs[..i + 1][..i] == rs[..i];
      blocks := blocks + more;
      i := i + 1;
    }
    assert rs[..i] == rs;
  }

  lemma EndsBelow(rs: seq<MemoryRegion>, m: nat)
    requires Sorted(rs) && forall x :: x in Cover(rs) ==> x < m
    ensures forall i :: 0 <= i < |rs| ==> rs[i].end <= m
  {
    forall i | 0 <= i < |rs|
      ensures rs[i].end <= m
    {
      CoverOfRegion(rs, i, rs[i].end - 1);
    }
  }

  lemma {:induction false} TilesCover(ps: seq<MemoryRegion>, b: nat, e: nat)
    requires Tiles(ps, b, e)
    ensures b <= e && Sorted(ps) && Cover(ps) == Interval(b, e)
  {
    if ps == [] {
      assert Cover(ps) == iset{};
    } else {
      var n := |ps| - 1;
      var m := ps[n].base;
      assert Tiles(ps[..n], b, m) by {
        if n > 0 {
          assert ps[..n][n - 1] == ps[n - 1];
        }
      }
      TilesCover(ps[..n], b, m);
      CoverAppend(ps[..n], [ps[n]]);
      assert ps == ps[..n] + [ps[n]];
      CoverSingle(ps[n]);
      EndsBelow(ps[..n], m);
      assert forall i :: 0 <= i < n ==> ps[i] == ps[..n][i];
    }
  }

  lemma CoverAppend(a: seq<MemoryRegion>, b: seq<MemoryRegion>)
    ensures Cover(a + b) == Cover(a) + Cover(b)
  {
    forall x
      ensures x in Cover(a + b) <==> x in Cover(a) + Cover(b)
    {
      if x in Cover(a + b) {
        var i :| 0 <= i < |a + b| && (a + b)[i].Has(x);
        if i < |a| {
          assert a[i].Has(x);
        } else {
          assert b[i - |a|].Has(x);
        }
      }
      if x in Cover(a) {
        var i :| 0 <= i < |a| && a[i].Has(x);
        assert (a + b)[i].Has(x);
      }
      if x in Cover(b) {
        var i :| 0 <= i < |b| && b[i].Has(x);
        assert (a + b)[|a| + i].Has(x);
      }
    }
  }

  lemma CoverSingle(r: MemoryRegion)
    ensures Cover([r]) == Interval(r.base, r.end)
  {
    assert [r][0] == r;
    forall x
      ensures x in Cover([r]) <==> x in Interval(r.base, r.end)
    {
      if r.Has(x) {
        assert [r][0].Has(x);
      }
    }
  }

  /** Splitting sorted regions keeps the address set, and the blocks are again sorted. */
  lemma {:induction false} BlocksOfCover(rs: seq<MemoryRegion>, virtualBase: nat, maxBits: nat)
    requires Sorted(rs) && virtualBase < WORD && maxBits < 64
    requires forall r :: r in rs ==> r.base <= r.end < WORD
    ensures Cover(BlocksOf(rs, virtualBase, maxBits)) == Cover(rs)
    ensures Sorted(BlocksOf(rs, virtualBase, maxBits))
  {
    if rs == [] {
    } else {
      var n := |rs| - 1;
      var init, last := rs[..n], rs[n];
      var low, high := BlocksOf(init, virtualBase, maxBits), Blocks(last.base, last.end, virtualBase, maxBits);
      BlocksOfCover(init, virtualBase, maxBits);
      BlocksTile(last.base, last.end, virtualBase, maxBits);
      TilesCover(high, last.base, last.end);
      LastCovered(rs, low, high);
    }
  }

  lemma CoverBelow(rs: seq<MemoryRegion>, m: nat)
    requires forall r :: r in rs ==> r.end <= m
    ensures forall x :: x in Cover(rs) ==> x < m
  {
  }

  lemma SortedAppend(a: seq<MemoryRegion>, b: seq<MemoryRegion>, m: nat)
    requires Sorted(a) && Sorted(b)
    requires forall x :: x in Cover(a) ==> x < m
    requires forall i :: 0 <= i < |b| ==> m <= b[i].base
    ensures Sorted(a + b)
  {
    EndsBelow(a, m);
  }

  /** One more region at the upper end. */
  lemma LastCovered(rs: seq<MemoryRegion>, low: seq<MemoryRegion>, high: seq<MemoryRegion>)
    requires Sorted(rs) && rs != []
    requires Sorted(low) && Cover(low) == Cover(rs[..|rs| - 1])
    requires var last := rs[|rs| - 1]; Sorted(high) && Cover(high) == Interval(last.base, last.end)
    ensures Sorted(low + high) && Cover(low + high) == Cover(rs)
  {
    var init, last := rs[..|rs| - 1], rs[|rs| - 1];
    CoverAppend(low, high);
    CoverAppend(init, [last]);
    CoverSingle(last);
    assert rs == init + [last];
    CoverBelow(init, last.base);
    forall i | 0 <= i < |high|
      ensures last.base <= high[i].base
    {
      CoverOfRegion(high, i, high[i].base);
    }
    SortedAppend(low, high, last.base);
  }

  // ---- the emulated boot ----

  datatype BootError = SizeMismatch | OverlappingRegions | KernelNotHeld | TaskNotHeld | NoPlaceForRootserver

  datatype Result<+T> = Success(value: T) | Failure(error: BootError)

  ghost predicate Separate(rs: seq<MemoryRegion>) {
    && (forall i :: 0 <= i < |rs| ==> rs[i].base < rs[i].end)
    && (forall i, j :: 0 <= i < j < |rs| ==> Interval(rs[i].base, rs[i].end) !! Interval(rs[j].base, rs[j].end))
  }

  lemma SeparateFromPrefix(rs: seq<MemoryRegion>, k: nat)
    requires k < |rs| && Separate(rs)
    ensures Interval(rs[k].base, rs[k].end) !! Cover(rs[..k])
  {
    forall x | x in Cover(rs[..k])
      ensures x !in Interval(rs[k].base, rs[k].end)
    {
      var i :| 0 <= i < k && rs[..k][i].Has(x);
      assert x in Interval(rs[i].base, rs[i].end);
    }
  }

  /** The list that inserting the given regions one by one leaves; None for a panic. */
  ghost function HeldRegions(rs: seq<MemoryRegion>): Option<seq<MemoryRegion>> {
    if rs == [] then Some([])
    else
      match HeldRegions(rs[..|rs| - 1])
      case None => None
      case Some(held) => Insert(held, rs[|rs| - 1].base, rs[|rs| - 1].end)
  }

  /** Exactly separate regions can all be inserted, and then the list holds their addresses. */
  lemma {:induction false} HeldMeaning(rs: seq<MemoryRegion>)
    ensures HeldRegions(rs).Some? <==> Separate(rs)
    ensures HeldRegions(rs).Some? ==> Sorted(HeldRegions(rs).value) && Cover(HeldRegions(rs).value) == Cover(rs)
    decreases |rs|
  {
    if rs == [] {
    } else {
      var init, last := rs[..|rs| - 1], rs[|rs| - 1];
      HeldMeaning(init);
      assert rs == init + [last];
      SeparateIff(init, last);
      if HeldRegions(init).Some? {
        InsertMeaning(HeldRegions(init).value, last.base, last.end);
        CoverAppend(init, [last]);
        CoverSingle(last);
      }
    }
  }

  lemma SeparateIff(rs: seq<MemoryRegion>, r: MemoryRegion)
    ensures Separate(rs + [r]) <==> Separate(rs) && r.base < r.end && Interval(r.base, r.end) !! Cover(rs)
  {
    var all, k := rs + [r], |rs|;
    assert all[..k] == rs;
    if Separate(all) {
      SeparateFromPrefix(all, k);
      assert forall i :: 0 <= i < k ==> all[i] == rs[i];
    }
    if Separate(rs) && r.base < r.end && Interval(r.base, r.end) !! Cover(rs) {
      forall i, j | 0 <= i < j < |all|
        ensures Interval(all[i].base, all[i].end) !! Interval(all[j].base, all[j].end)
      {
        if j == k {
          RegionInCover(rs, i);
        }
      }
    }
  }

  /** Every given region stays within one held region. */
  lemma {:induction false} GivenIsHeld(rs: seq<MemoryRegion>, i: nat)
    requires HeldRegions(rs).Some? && i < |rs|
    ensures OneHolds(HeldRegions(rs), rs[i])
    decreases |rs|
  {
    var init, last := rs[..|rs| - 1], rs[|rs| - 1];
    var held := HeldRegions(init).value;
    HeldMeaning(init);
    if i < |init| {
      GivenIsHeld(init, i);
      assert init[i] == rs[i];
    }
    InsertHolds(held, last.base, last.end, rs[i]);
  }

  lemma InsertHolds(held: seq<MemoryRegion>, base: nat, end: nat, r: MemoryRegion)
    requires Sorted(held) && Insert(held, base, end).Some?
    requires r == MemoryRegion(base, end) || OneHolds(Some(held), r)
    ensures OneHolds(Insert(held, base, end), r)
  {
    var k := InsertIndex(held, end, 0);
    var ns := Inserted(held, k, base, end);
    if r == MemoryRegion(base, end) {
      assert ns[if 0 < k == |held| && held[k - 1].end == base then k - 1 else k].Contains(r.base, r.end);
    } else {
      var j :| 0 <= j < |held| && held[j].Contains(r.base, r.end);
      var joined := (k < |held| && held[k].base == end) || (0 < k == |held| && held[k - 1].end == base);
      assert ns[if j < k || joined then j else j + 1].Contains(r.base, r.end);
    }
  }

  /** A region that cannot be inserted stops the whole list. */
  lemma {:induction false} HeldPrefix(rs: seq<MemoryRegion>, k: nat)
    requires k <= |rs| && HeldRegions(rs[..k]).None?
    ensures HeldRegions(rs).None?
    decreases |rs|
  {
    if k == |rs| {
      assert rs[..k] == rs;
    } else {
      assert rs[..|rs| - 1][..k] == rs[..k];
      HeldPrefix(rs[..|rs| - 1], k);
    }
  }

  lemma HeldNext(rs: seq<MemoryRegion>, i: nat, held: seq<MemoryRegion>)
    requires i < |rs| && HeldRegions(rs[..i]) == Some(held)
    ensures HeldRegions(rs[..i + 1]) == Insert(held, rs[i].base, rs[i].end)
  {
    assert rs[..i + 1][..i] == rs[..i];
  }

  method InsertAll(m: DisjointMemoryRegion, rs: seq<MemoryRegion>) returns (ok: bool)
    requires m.Valid() && m.regions == []
    modifies m
    ensures ok ==> m.Valid()
    ensures HeldRegions(rs) == if ok then Some(m.regions) else None
  {
    var i := 0;
    while i < |rs|
      invariant 0 <= i <= |rs| && m.Valid()
      invariant HeldRegions(rs[..i]) == Some(m.regions)
    {
      ghost var held := m.regions;
      ok := m.InsertRegion(rs[i].base, rs[i].end);
      HeldNext(rs, i, held);
      if !ok {
        HeldPrefix(rs, i + 1);
        return false;
      }
      i := i + 1;
    }
    assert rs[..i] == rs;
    return true;
  }

  /** The memory of the platform and of the kernel image. */
  datatype Platform = Platform(
    device: seq<MemoryRegion>, normal: seq<MemoryRegion>, kernel: MemoryRegion, boot: MemoryRegion)

  /** Normal memory without the kernel image; None for a panic. */
  ghost function WithoutKernel(p: Platform): Option<seq<MemoryRegion>> {
    match HeldRegions(p.normal)
    case None => None
    case Some(held) => Remove(held, p.kernel.base, p.kernel.end)
  }

  /** What is left besides the initial task; None for a panic. */
  ghost function FreeRegions(p: Platform, task: MemoryRegion): Option<seq<MemoryRegion>> {
    match WithoutKernel(p)
    case None => None
    case Some(held) => Remove(held, task.base, task.end)
  }

  /** Normal and device memory once the kernel image is taken out. */
  method PartialBoot(p: Platform) returns (r: Result<(DisjointMemoryRegion, DisjointMemoryRegion)>)
    requires p.kernel.base <= p.kernel.end
    ensures r.Success? ==>
      && fresh(r.value.0) && r.value.0.Valid() && HeldRegions(p.device) == Some(r.value.0.regions)
      && fresh(r.value.1) && r.value.1.Valid() && r.value.0 != r.value.1
      && WithoutKernel(p) == Some(r.value.1.regions)
    ensures r.Failure? ==>
      r.error == if HeldRegions(p.device).None? || HeldRegions(p.normal).None? then OverlappingRegions else KernelNotHeld
    ensures r.Failure? <==> HeldRegions(p.device).None? || WithoutKernel(p).None?
  {
    var deviceMemory := new DisjointMemoryRegion();
    var normalMemory := new DisjointMemoryRegion();
    var ok := InsertAll(deviceMemory, p.device);
    if !ok {
      return Failure(OverlappingRegions);
    }
    ok := InsertAll(normalMemory, p.normal);
    if !ok {
      return Failure(OverlappingRegions);
    }
    ok := normalMemory.RemoveRegion(p.kernel.base, p.kernel.end);
    if !ok {
      return Failure(KernelNotHeld);
    }
    return Success((deviceMemory, normalMemory));
  }

  /** The removal from a list fails exactly when no region of it contains the range. */
  lemma RemoveMeaning(rs: seq<MemoryRegion>, r: MemoryRegion)
    requires Sorted(rs) && r.base <= r.end
    ensures Remove(rs, r.base, r.end).Some? <==> exists i :: 0 <= i < |rs| && rs[i].Contains(r.base, r.end)
    ensures Remove(rs, r.base, r.end).Some? ==>
      && Sorted(Remove(rs, r.base, r.end).value)
      && Cover(Remove(rs, r.base, r.end).value) == Cover(rs) - Interval(r.base, r.end)
  {
    var k := 0;
    while k < |rs| && !rs[k].Contains(r.base, r.end)
      invariant 0 <= k <= |rs| && forall j :: 0 <= j < k ==> !rs[j].Contains(r.base, r.end)
    {
      k := k + 1;
    }
    RemovesAt(rs, k, r.base, r.end);
    if k < |rs| {
      RemovedMeaning(rs, k, r.base, r.end);
    }
  }

  function MaxBits(arch: Arch): nat {
    if arch.Aarch64? then 47 else 38
  }

  function Untypeds(blocks: seq<MemoryRegion>, firstCap: nat, isDevice: bool): (u: seq<UntypedObject>)
    ensures |u| == |blocks|
  {
    seq(|blocks|, i requires 0 <= i < |blocks| => UntypedObject(firstCap + i, blocks[i], isDevice))
  }

  function RegionsOf(us: seq<UntypedObject>): (rs: seq<MemoryRegion>)
    ensures |rs| == |us|
  {
    seq(|us|, i requires 0 <= i < |us| => us[i].region)
  }

  ghost predicate InWord(s: iset<int>) {
    forall x :: x in s ==> x + 1 < WORD
  }

  lemma CoverInWord(rs: seq<MemoryRegion>)
    requires Sorted(rs) && InWord(Cover(rs))
    ensures forall r :: r in rs ==> r.base <= r.end < WORD
  {
    forall i | 0 <= i < |rs|
      ensures rs[i].end < WORD
    {
      assert rs[i].Has(rs[i].end - 1);
      CoverOfRegion(rs, i, rs[i].end - 1);
    }
  }

  /** The device untypeds come first and stand for one address set, the others for another. */
  ghost predicate UntypedsCover(us: seq<UntypedObject>, device: iset<int>, normal: iset<int>) {
    exists k :: UntypedsCoverAt(us, device, normal, k)
  }

  ghost predicate UntypedsCoverAt(us: seq<UntypedObject>, device: iset<int>, normal: iset<int>, k: int) {
    && 0 <= k <= |us|
    && (forall i :: 0 <= i < |us| ==> us[i].isDevice == (i < k))
    && Cover(RegionsOf(us[..k])) == device
    && Cover(RegionsOf(us[k..])) == normal
  }

  ghost predicate ConsecutiveCaps(info: BootInfo) {
    && (forall i :: 0 <= i < |info.untypeds| ==> info.untypeds[i].cap == info.schedControlCap + 1 + info.pageCapCount + i)
    && info.firstAvailableCap == info.schedControlCap + 1 + info.pageCapCount + |info.untypeds|
  }

  lemma DisjointIntervals(r: MemoryRegion, s: MemoryRegion, a: iset<int>, b: iset<int>)
    requires r.base < r.end && s.base < s.end && a !! b
    requires Interval(r.base, r.end) <= a && Interval(s.base, s.end) <= b
    ensures r.end <= s.base || s.end <= r.base
  {
    var x := if r.base < s.base then s.base else r.base;
    assert r.base < s.end && s.base < r.end ==> x in Interval(r.base, r.end) && x in Interval(s.base, s.end);
  }

  ghost predicate Apart(rs: seq<MemoryRegion>) {
    forall i, j :: 0 <= i < j < |rs| ==> rs[i].end <= rs[j].base || rs[j].end <= rs[i].base
  }

  lemma ApartAppend(a: seq<MemoryRegion>, b: seq<MemoryRegion>)
    requires Apart(a) && Apart(b) && Cover(a) !! Cover(b)
    requires forall r :: r in a ==> r.base < r.end
    requires forall r :: r in b ==> r.base < r.end
    ensures Apart(a + b)
  {
    forall i, j | 0 <= i < |a| && 0 <= j < |b|
      ensures a[i].end <= b[j].base || b[j].end <= a[i].base
    {
      RegionInCover(a, i);
      RegionInCover(b, j);
      DisjointIntervals(a[i], b[j], Cover(a), Cover(b));
    }
  }

  /** The untypeds built from the three block lists stand for the three address sets. */
  lemma UntypedsMean(dev: seq<MemoryRegion>, normal: seq<MemoryRegion>, first: nat)
    ensures var us := Untypeds(dev, first, true) + Untypeds(normal, first + |dev|, false);
      && RegionsOf(us[..|dev|]) == dev && RegionsOf(us[|dev|..]) == normal && RegionsOf(us) == dev + normal
      && (forall i :: 0 <= i < |us| ==> us[i].cap == first + i && us[i].isDevice == (i < |dev|))
  {
  }

  lemma ApartUntypeds(us: seq<UntypedObject>)
    requires Apart(RegionsOf(us))
    ensures UntypedsApart(us)
  {
    forall i, j | 0 <= i < j < |us|
      ensures us[i].region.end <= us[j].region.base || us[j].region.end <= us[i].region.base
    {
      assert RegionsOf(us)[i] == us[i].region && RegionsOf(us)[j] == us[j].region;
    }
  }

  ghost predicate PlatformOk(p: Platform) {
    && Cover(p.device) !! Cover(p.normal)
    && Interval(p.boot.base, p.boot.end) <= Interval(p.kernel.base, p.kernel.end) <= Cover(p.normal)
  }

  lemma NPagingNonNegative(region: MemoryRegion, bits: nat)
    requires region.base <= region.end
    ensures GetNPaging(region, bits) >= 0
  {
    var m := Pow2(bits);
    RoundDownIsMultiple(region.base, m);
    RoundUpIsMultiple(region.end, m);
    QuotientNonNegative(RoundUp(region.end, m) - RoundDown(region.base, m), m);
  }

  lemma QuotientNonNegative(a: int, m: nat)
    requires a >= 0 && m > 0
    ensures a / m >= 0
  {
  }

  lemma PagingNonNegative(config: Config, region: MemoryRegion)
    requires region.base <= region.end && !config.arch.X86?
    ensures GetArchNPaging(config, region) >= 0
    ensures RootserverSize(config, region) > 0
  {
    ArchPagingNonNegative(config, region);
    ProductNonNegative(GetArchNPaging(config, region), Pow2(config.pageTableBits));
  }

  lemma ArchPagingNonNegative(config: Config, region: MemoryRegion)
    requires region.base <= region.end && !config.arch.X86?
    ensures GetArchNPaging(config, region) >= 0
  {
    NPagingNonNegative(region, 39);
    NPagingNonNegative(region, 30);
    NPagingNonNegative(region, 21);
  }

  lemma ProductNonNegative(a: int, m: nat)
    requires a >= 0
    ensures a * m >= 0
  {
  }

  /** What the splitting and numbering of untypeds depends on. */
  datatype Layout = Layout(virtualBase: nat, maxBits: nat, paging: nat, pages: nat)

  ghost predicate BlockInput(l: Layout, device: seq<MemoryRegion>, boot: MemoryRegion, normal: seq<MemoryRegion>) {
    && l.virtualBase < WORD && l.maxBits < 64
    && Sorted(device) && (forall r :: r in device ==> r.base <= r.end < WORD)
    && Sorted(normal) && (forall r :: r in normal ==> r.base <= r.end < WORD)
    && boot.base <= boot.end < WORD
  }

  function NormalBlocks(l: Layout, boot: MemoryRegion, normal: seq<MemoryRegion>): seq<MemoryRegion>
    requires boot.base <= boot.end && forall r :: r in normal ==> r.base <= r.end
  {
    Blocks(boot.base, boot.end, l.virtualBase, l.maxBits) + BlocksOf(normal, l.virtualBase, l.maxBits)
  }

  /** The untyped list: device blocks, then the blocks of the boot region and of normal memory. */
  function BootInfoOf(l: Layout, dev: seq<MemoryRegion>, nor: seq<MemoryRegion>): BootInfo {
    var first := 0x10 + l.paging + 1 + l.pages;
    BootInfo(0x10, 0x10 + l.paging, l.paging, l.pages,
             Untypeds(dev, first, true) + Untypeds(nor, first + |dev|, false),
             first + |dev| + |nor|)
  }

  lemma BootInfoMeans(l: Layout, dev: seq<MemoryRegion>, nor: seq<MemoryRegion>)
    ensures ConsecutiveCaps(BootInfoOf(l, dev, nor))
    ensures UntypedsCover(BootInfoOf(l, dev, nor).untypeds, Cover(dev), Cover(nor))
  {
    UntypedsMean(dev, nor, 0x10 + l.paging + 1 + l.pages);
    assert UntypedsCoverAt(BootInfoOf(l, dev, nor).untypeds, Cover(dev), Cover(nor), |dev|);
  }

  /** What holds of the regions holds of the untypeds. */
  lemma BootUntypeds(l: Layout, dev: seq<MemoryRegion>, nor: seq<MemoryRegion>)
    ensures var us := BootInfoOf(l, dev, nor).untypeds;
      && (AllSized(dev, l.virtualBase) && AllSized(nor, l.virtualBase) ==>
            PowersOfTwo(us) && VirtuallyAligned(us, l.virtualBase))
      && (Apart(dev + nor) ==> UntypedsApart(us))
  {
    var us := BootInfoOf(l, dev, nor).untypeds;
    UntypedsMean(dev, nor, 0x10 + l.paging + 1 + l.pages);
    if AllSized(dev, l.virtualBase) && AllSized(nor, l.virtualBase) {
      SizedUntypeds(us, dev + nor, l.virtualBase);
    }
    if Apart(dev + nor) {
      ApartUntypeds(us);
    }
  }

  /** The size is a power of two, to which the kernel's virtual address is aligned. */
  ghost predicate Sized(r: MemoryRegion, virtualBase: nat) {
    && r.base < r.end < WORD && r.end - r.base == Pow2(Log2(r.end - r.base))
    && Aligned(KernelVaddr(r.base, virtualBase), Log2(r.end - r.base))
  }

  ghost predicate AllSized(rs: seq<MemoryRegion>, virtualBase: nat) {
    forall i :: 0 <= i < |rs| ==> Sized(rs[i], virtualBase)
  }

  /** Every untyped is aligned to its size in kernel virtual addresses. */
  ghost predicate VirtuallyAligned(us: seq<UntypedObject>, virtualBase: nat)
    requires UntypedsOk(us)
  {
    forall i :: 0 <= i < |us| ==>
      Aligned(KernelVaddr(us[i].region.base, virtualBase), Log2(us[i].region.end - us[i].region.base))
  }

  ghost predicate PowersOfTwo(us: seq<UntypedObject>) {
    UntypedsOk(us) && AllPowersOfTwo(us)
  }

  lemma SizedUntypeds(us: seq<UntypedObject>, rs: seq<MemoryRegion>, virtualBase: nat)
    requires RegionsOf(us) == rs && AllSized(rs, virtualBase)
    ensures PowersOfTwo(us) && VirtuallyAligned(us, virtualBase)
  {
    assert forall i :: 0 <= i < |us| ==> us[i].region == rs[i] && Sized(rs[i], virtualBase);
  }

  lemma BlocksSized(p: nat, end: nat, virtualBase: nat, maxBits: nat)
    requires p <= end < WORD && virtualBase < WORD && maxBits < 64
    ensures AllSized(Blocks(p, end, virtualBase, maxBits), virtualBase)
  {
    var rs := Blocks(p, end, virtualBase, maxBits);
    BlocksAreBlocks(p, end, virtualBase, maxBits);
    forall i | 0 <= i < |rs|
      ensures Sized(rs[i], virtualBase)
    {
      assert rs[i] in rs;
      var bits: nat :| BlockOf(rs[i], bits, end, virtualBase, maxBits);
      Log2OfPow2(bits);
    }
  }

  lemma {:induction false} BlocksOfSized(rs: seq<MemoryRegion>, virtualBase: nat, maxBits: nat)
    requires virtualBase < WORD && maxBits < 64
    requires forall r :: r in rs ==> r.base <= r.end < WORD
    ensures AllSized(BlocksOf(rs, virtualBase, maxBits), virtualBase)
    decreases |rs|
  {
    if rs != [] {
      var last := rs[|rs| - 1];
      BlocksOfSized(rs[..|rs| - 1], virtualBase, maxBits);
      BlocksSized(last.base, last.end, virtualBase, maxBits);
    }
  }

  lemma BlockListsMean(l: Layout, device: seq<MemoryRegion>, boot: MemoryRegion, normal: seq<MemoryRegion>)
    requires BlockInput(l, device, boot, normal)
    ensures Cover(BlocksOf(device, l.virtualBase, l.maxBits)) == Cover(device)
    ensures Cover(NormalBlocks(l, boot, normal)) == Interval(boot.base, boot.end) + Cover(normal)
    ensures Cover(device) !! Cover(normal) && Interval(boot.base, boot.end) !! Cover(device) + Cover(normal) ==>
      Apart(BlocksOf(device, l.virtualBase, l.maxBits) + NormalBlocks(l, boot, normal))
  {
    var dev, nor := BlocksOf(device, l.virtualBase, l.maxBits), NormalBlocks(l, boot, normal);
    var bootBlocks := Blocks(boot.base, boot.end, l.virtualBase, l.maxBits);
    var normalBlocks := BlocksOf(normal, l.virtualBase, l.maxBits);
    BlocksOfCover(device, l.virtualBase, l.maxBits);
    BlocksOfCover(normal, l.virtualBase, l.maxBits);
    BlocksTile(boot.base, boot.end, l.virtualBase, l.maxBits);
    TilesCover(bootBlocks, boot.base, boot.end);
    CoverAppend(bootBlocks, normalBlocks);
    if Cover(device) !! Cover(normal) && Interval(boot.base, boot.end) !! Cover(device) + Cover(normal) {
      ApartAppend(bootBlocks, normalBlocks);
      ApartAppend(dev, nor);
    }
  }

  method MakeBootInfo(l: Layout, device: seq<MemoryRegion>, boot: MemoryRegion, normal: seq<MemoryRegion>)
    returns (info: BootInfo)
    requires BlockInput(l, device, boot, normal)
    ensures info == BootInfoOf(l, BlocksOf(device, l.virtualBase, l.maxBits), NormalBlocks(l, boot, normal))
  {
    var fixedCapCount := 0x10;
    var firstUntypedCap := fixedCapCount + l.paging + 1 + l.pages;
    var deviceBlocks := AllAlignedPowerOfTwoRegions(device, l.virtualBase, l.maxBits);
    var bootBlocks := AlignedPowerOfTwoRegions(boot, l.virtualBase, l.maxBits);
    var normalBlocks := AllAlignedPowerOfTwoRegions(normal, l.virtualBase, l.maxBits);
    normalBlocks := bootBlocks + normalBlocks;
    var deviceUntypeds := PushUntypeds(deviceBlocks, firstUntypedCap, true);
    var normalUntypeds := PushUntypeds(normalBlocks, firstUntypedCap + |deviceBlocks|, false);
    info := BootInfo(fixedCapCount, fixedCapCount + l.paging, l.paging, l.pages,
                     deviceUntypeds + normalUntypeds,
                     firstUntypedCap + |deviceBlocks| + |normalBlocks|);
  }

  /** The untypeds of two region lists and the boot region. */
  lemma UntypedsOfLists(l: Layout, device: seq<MemoryRegion>, boot: MemoryRegion, normal: seq<MemoryRegion>)
    requires BlockInput(l, device, boot, normal)
    ensures var info := BootInfoOf(l, BlocksOf(device, l.virtualBase, l.maxBits), NormalBlocks(l, boot, normal));
      && ConsecutiveCaps(info) && info.pagingCapCount == l.paging && info.pageCapCount == l.pages
      && UntypedsCover(info.untypeds, Cover(device), Interval(boot.base, boot.end) + Cover(normal))
      && PowersOfTwo(info.untypeds) && VirtuallyAligned(info.untypeds, l.virtualBase)
      && (Cover(device) !! Cover(normal) && Interval(boot.base, boot.end) !! Cover(device) + Cover(normal) ==>
            UntypedsApart(info.untypeds))
  {
    BlockListsMean(l, device, boot, normal);
    BlocksOfSized(device, l.virtualBase, l.maxBits);
    BlocksOfSized(normal, l.virtualBase, l.maxBits);
    BlocksSized(boot.base, boot.end, l.virtualBase, l.maxBits);
    BootInfoMeans(l, BlocksOf(device, l.virtualBase, l.maxBits), NormalBlocks(l, boot, normal));
    BootUntypeds(l, BlocksOf(device, l.virtualBase, l.maxBits), NormalBlocks(l, boot, normal));
  }

  method PushUntypeds(blocks: seq<MemoryRegion>, firstCap: nat, isDevice: bool) returns (us: seq<UntypedObject>)
    ensures us == Untypeds(blocks, firstCap, isDevice)
  {
    us := [];
    for i := 0 to |blocks|
      invariant |us| == i
      invariant forall j :: 0 <= j < i ==> us[j] == UntypedObject(firstCap + j, blocks[j], isDevice)
    {
      us := us + [UntypedObject(firstCap + i, blocks[i], isDevice)];
    }
  }

  lemma BootStaysApart(p: Platform, left: iset<int>)
    requires PlatformOk(p) && left <= Cover(p.normal) - Interval(p.kernel.base, p.kernel.end)
    ensures Cover(p.device) !! left && Interval(p.boot.base, p.boot.end) !! Cover(p.device) + left
  {
  }

  /** The region lists that the boot goes through; None where a check before them fails. */
  datatype Stages = Stages(
    device: Option<seq<MemoryRegion>>, normal: Option<seq<MemoryRegion>>,
    withoutKernel: Option<seq<MemoryRegion>>, free: Option<seq<MemoryRegion>>)

  ghost function StagesOf(p: Platform, task: MemoryRegion): Stages {
    Stages(HeldRegions(p.device), HeldRegions(p.normal), WithoutKernel(p), FreeRegions(p, task))
  }

  /** The first check that fails, in the order of the checks. */
  ghost function FirstFailure(s: Stages, sizesMatch: bool, size: nat, align: nat): Option<BootError>
    requires align > 0
  {
    if !sizesMatch then Some(SizeMismatch)
    else if s.device.None? || s.normal.None? then Some(OverlappingRegions)
    else if s.withoutKernel.None? then Some(KernelNotHeld)
    else if s.free.None? then Some(TaskNotHeld)
    else if SomePlace(s.free, size, align) then None
    else Some(NoPlaceForRootserver)
  }

  ghost function BootFailure(p: Platform, task: MemoryRegion, image: MemoryRegion, size: nat, align: nat): Option<BootError>
    requires align > 0
  {
    FirstFailure(StagesOf(p, task), task.Size() == image.Size(), size, align)
  }

  ghost predicate SomePlace(free: Option<seq<MemoryRegion>>, size: nat, align: nat)
    requires align > 0
  {
    match free
    case None => false
    case Some(rs) => exists b: nat :: Placeable(rs, size, align, b)
  }

  ghost predicate RegionsOk(rs: seq<MemoryRegion>) {
    Sorted(rs) && forall r :: r in rs ==> r.base <= r.end < WORD
  }

  /** The boot with its root-server block at the given place. */
  ghost predicate BootedAt(
    info: BootInfo, l: Layout, p: Platform, task: MemoryRegion, size: nat, align: nat, start: nat)
    requires align > 0 && p.boot.base <= p.boot.end
  {
    exists device: seq<MemoryRegion>, free: seq<MemoryRegion>, normal: seq<MemoryRegion> ::
      BootedWith(info, l, p, task, size, align, start, device, free, normal)
  }

  /** The lists are those that the code holds, and the boot info is made of them. */
  ghost predicate BootedWith(
    info: BootInfo, l: Layout, p: Platform, task: MemoryRegion, size: nat, align: nat, start: nat,
    device: seq<MemoryRegion>, free: seq<MemoryRegion>, normal: seq<MemoryRegion>)
    requires align > 0 && p.boot.base <= p.boot.end
  {
    match p
    case Platform(deviceMemory, _, _, boot) =>
      && HeldRegions(deviceMemory) == Some(device) && RegionsOk(device)
      && FreeRegions(p, task) == Some(free) && HighestFit(free, size, align, start)
      && Remove(free, start, start + size) == Some(normal) && RegionsOk(normal)
      && info == BootInfoOf(l, BlocksOf(device, l.virtualBase, l.maxBits), NormalBlocks(l, boot, normal))
  }

  /** The boot fails exactly when a check fails, with the first one as its reason; otherwise
      the boot info is that of the regions left by the highest root-server block. */
  ghost predicate BootOutcome(
    r: Result<BootInfo>, l: Layout, p: Platform, task: MemoryRegion, image: MemoryRegion, size: nat, align: nat)
    requires align > 0 && p.boot.base <= p.boot.end
  {
    match r
    case Failure(error) => BootFailure(p, task, image, size, align) == Some(error)
    case Success(info) =>
      && BootFailure(p, task, image, size, align) == None
      && exists start: nat :: BootedAt(info, l, p, task, size, align, start)
  }

  /** What each reason says of the regions that are held at that point. */
  ghost predicate Explains(
    e: Option<BootError>, s: Stages, p: Platform, task: MemoryRegion, sizesMatch: bool, size: nat, align: nat)
    requires align > 0
  {
    match e
    case Some(SizeMismatch) => !sizesMatch
    case Some(OverlappingRegions) => !Separate(p.device) || !Separate(p.normal)
    case Some(KernelNotHeld) => Separate(p.normal) && NoneHolds(s.normal, p.kernel)
    case Some(TaskNotHeld) => NoneHolds(s.withoutKernel, task)
    case Some(NoPlaceForRootserver) => s.free.Some? && !SomePlace(s.free, size, align)
    case None =>
      && sizesMatch && Separate(p.device) && Separate(p.normal)
      && OneHolds(s.normal, p.kernel) && OneHolds(s.withoutKernel, task) && SomePlace(s.free, size, align)
  }

  lemma FailureMeans(p: Platform, task: MemoryRegion, image: MemoryRegion, size: nat, align: nat)
    requires align > 0 && p.kernel.base <= p.kernel.end && task.base <= task.end
    ensures Explains(BootFailure(p, task, image, size, align), StagesOf(p, task), p, task,
                     task.Size() == image.Size(), size, align)
  {
    StagesMean(p, task);
    FirstFailureMeans(StagesOf(p, task), p, task, task.Size() == image.Size(), size, align);
  }

  /** Each list exists exactly when its check passes. */
  ghost predicate StagesOk(s: Stages, p: Platform, task: MemoryRegion) {
    match s
    case Stages(device, normal, withoutKernel, free) =>
      && (device.Some? <==> Separate(p.device)) && (normal.Some? <==> Separate(p.normal))
      && (normal.Some? ==> if withoutKernel.Some? then OneHolds(normal, p.kernel) else NoneHolds(normal, p.kernel))
      && (withoutKernel.Some? ==> if free.Some? then OneHolds(withoutKernel, task) else NoneHolds(withoutKernel, task))
  }

  lemma StagesMean(p: Platform, task: MemoryRegion)
    requires p.kernel.base <= p.kernel.end && task.base <= task.end
    ensures StagesOk(StagesOf(p, task), p, task)
  {
    HeldMeaning(p.device);
    HeldMeaning(p.normal);
    if HeldRegions(p.normal).Some? {
      RemovalMeans(HeldRegions(p.normal), WithoutKernel(p), p.kernel);
      if WithoutKernel(p).Some? {
        RemovalMeans(WithoutKernel(p), FreeRegions(p, task), task);
      }
    }
  }

  lemma FirstFailureMeans(s: Stages, p: Platform, task: MemoryRegion, sizesMatch: bool, size: nat, align: nat)
    requires align > 0 && StagesOk(s, p, task)
    ensures Explains(FirstFailure(s, sizesMatch, size, align), s, p, task, sizesMatch, size, align)
  {
  }

  lemma RemovalMeans(held: Option<seq<MemoryRegion>>, left: Option<seq<MemoryRegion>>, r: MemoryRegion)
    requires held.Some? && Sorted(held.value) && r.base <= r.end && left == Remove(held.value, r.base, r.end)
    ensures if left.Some? then OneHolds(held, r) && Sorted(left.value) else NoneHolds(held, r)
  {
    RemoveMeaning(held.value, r);
  }

  ghost predicate OneHolds(held: Option<seq<MemoryRegion>>, r: MemoryRegion) {
    match held
    case None => false
    case Some(rs) => exists i :: 0 <= i < |rs| && rs[i].Contains(r.base, r.end)
  }

  ghost predicate NoneHolds(held: Option<seq<MemoryRegion>>, r: MemoryRegion) {
    match held
    case None => false
    case Some(rs) => forall i :: 0 <= i < |rs| ==> !rs[i].Contains(r.base, r.end)
  }

  /** The addresses left for the root server. */
  lemma FreeMeaning(p: Platform, task: MemoryRegion)
    requires p.kernel.base <= p.kernel.end && task.base <= task.end && FreeRegions(p, task).Some?
    ensures Separate(p.normal) && Sorted(FreeRegions(p, task).value)
    ensures Cover(FreeRegions(p, task).value)
      == Cover(p.normal) - Interval(p.kernel.base, p.kernel.end) - Interval(task.base, task.end)
  {
    HeldMeaning(p.normal);
    RemoveMeaning(HeldRegions(p.normal).value, p.kernel);
    RemoveMeaning(WithoutKernel(p).value, task);
  }

  lemma PlacedIsRemoved(free: seq<MemoryRegion>, size: nat, align: nat, start: nat)
    requires Sorted(free) && align > 0 && Placeable(free, size, align, start)
    ensures Remove(free, start, start + size).Some?
    ensures Sorted(Remove(free, start, start + size).value)
    ensures Cover(Remove(free, start, start + size).value) == Cover(free) - Interval(start, start + size)
  {
    PlaceIsHeld(free, size, align, start);
    RemoveMeaning(free, MemoryRegion(start, start + size));
  }

  lemma PlaceIsHeld(free: seq<MemoryRegion>, size: nat, align: nat, start: nat)
    requires align > 0 && Placeable(free, size, align, start)
    ensures exists i :: 0 <= i < |free| && free[i].Contains(start, start + size)
  {
    var i :| 0 <= i < |free| && Fits(free[i], size, align, start);
    assert free[i].Contains(start, start + size);
  }

  /** Conservation: what the untypeds of a boot stand for. */
  ghost predicate Conserves(
    info: BootInfo, l: Layout, p: Platform, task: MemoryRegion, size: nat, start: nat)
  {
    && UntypedsCover(info.untypeds, Cover(p.device),
                     Interval(p.boot.base, p.boot.end)
                     + (Cover(p.normal) - Interval(p.kernel.base, p.kernel.end) - Interval(task.base, task.end)
                        - Interval(start, start + size)))
    && ConsecutiveCaps(info) && info.pagingCapCount == l.paging && info.pageCapCount == l.pages
    && PowersOfTwo(info.untypeds) && VirtuallyAligned(info.untypeds, l.virtualBase)
    && (PlatformOk(p) ==> UntypedsApart(info.untypeds))
  }

  lemma BootConserves(info: BootInfo, l: Layout, p: Platform, task: MemoryRegion, size: nat, align: nat, start: nat)
    requires l.virtualBase < WORD && l.maxBits < 64 && align > 0
    requires p.kernel.base <= p.kernel.end && task.base <= task.end && p.boot.base <= p.boot.end < WORD
    requires BootedAt(info, l, p, task, size, align, start)
    ensures Conserves(info, l, p, task, size, start)
  {
    var device, free, normal :| BootedWith(info, l, p, task, size, align, start, device, free, normal);
    HeldMeaning(p.device);
    FreeMeaning(p, task);
    PlacedIsRemoved(free, size, align, start);
    UntypedsOfLists(l, device, p.boot, normal);
    if PlatformOk(p) {
      BootStaysApart(p, Cover(normal));
    }
  }

  lemma BootSucceeds(
    info: BootInfo, l: Layout, p: Platform, task: MemoryRegion, image: MemoryRegion, size: nat, align: nat, start: nat)
    requires align > 0 && p.boot.base <= p.boot.end && task.Size() == image.Size()
    requires BootedAt(info, l, p, task, size, align, start)
    ensures BootOutcome(Success(info), l, p, task, image, size, align)
  {
    var device, free, normal :| BootedWith(info, l, p, task, size, align, start, device, free, normal);
    NoFailure(p, task, image, size, align, start, free);
  }

  lemma NoFailure(
    p: Platform, task: MemoryRegion, image: MemoryRegion, size: nat, align: nat, start: nat, free: seq<MemoryRegion>)
    requires align > 0 && task.Size() == image.Size() && HeldRegions(p.device).Some?
    requires FreeRegions(p, task) == Some(free) && Placeable(free, size, align, start)
    ensures BootFailure(p, task, image, size, align) == None
  {
  }

  /** Removes a block that has a place. */
  method TakeOut(m: DisjointMemoryRegion, size: nat, align: nat, start: nat)
    requires m.Valid() && align > 0 && Placeable(m.regions, size, align, start)
    modifies m
    ensures m.Valid() && Remove(old(m.regions), start, start + size) == Some(m.regions)
    ensures Cover(m.regions) == Cover(old(m.regions)) - Interval(start, start + size)
  {
    PlacedIsRemoved(m.regions, size, align, start);
    var ok := m.RemoveRegion(start, start + size);
  }

  /** Places the root server at the top of the free memory and makes the untypeds of the rest. */
  method PlaceRootserver(
    l: Layout, size: nat, align: nat, p: Platform, task: MemoryRegion,
    deviceMemory: DisjointMemoryRegion, normalMemory: DisjointMemoryRegion)
    returns (r: Option<BootInfo>, ghost place: nat)
    requires l.virtualBase < WORD && l.maxBits < 64 && align > 0 && p.boot.base <= p.boot.end < WORD
    requires deviceMemory.Valid() && normalMemory.Valid() && deviceMemory != normalMemory
    requires HeldRegions(p.device) == Some(deviceMemory.regions) && FreeRegions(p, task) == Some(normalMemory.regions)
    requires InWord(Cover(deviceMemory.regions)) && InWord(Cover(normalMemory.regions))
    modifies normalMemory
    ensures r.None? ==> forall b: nat :: !Placeable(old(normalMemory.regions), size, align, b)
    ensures r.Some? ==> BootedAt(r.value, l, p, task, size, align, place)
  {
    ghost var free := normalMemory.regions;
    var highest := HighestPlace(normalMemory.regions, size, align);
    if highest.None? {
      return None, 0;
    }
    var start := highest.value;
    TakeOut(normalMemory, size, align, start);
    CoverInWord(deviceMemory.regions);
    CoverInWord(normalMemory.regions);
    var info := MakeBootInfo(l, deviceMemory.regions, p.boot, normalMemory.regions);
    BootsWith(info, l, p, task, size, align, start, deviceMemory.regions, free, normalMemory.regions);
    return Some(info), start;
  }

  lemma BootsWith(
    info: BootInfo, l: Layout, p: Platform, task: MemoryRegion, size: nat, align: nat, start: nat,
    device: seq<MemoryRegion>, free: seq<MemoryRegion>, normal: seq<MemoryRegion>)
    requires align > 0 && p.boot.base <= p.boot.end && RegionsOk(device) && RegionsOk(normal)
    requires HeldRegions(p.device) == Some(device) && FreeRegions(p, task) == Some(free)
    requires HighestFit(free, size, align, start) && Remove(free, start, start + size) == Some(normal)
    requires info == BootInfoOf(l, BlocksOf(device, l.virtualBase, l.maxBits), NormalBlocks(l, p.boot, normal))
    ensures BootedAt(info, l, p, task, size, align, start)
  {
    assert BootedWith(info, l, p, task, size, align, start, device, free, normal);
  }

  /** The boot once the size of the root-server objects and the capability counts are known. */
  method BootWith(l: Layout, size: nat, align: nat, p: Platform, task: MemoryRegion, image: MemoryRegion)
    returns (r: Result<BootInfo>)
    requires l.virtualBase < WORD && l.maxBits < 64 && align > 0
    requires InWord(Cover(p.device)) && InWord(Cover(p.normal))
    requires p.kernel.base <= p.kernel.end && p.boot.base <= p.boot.end < WORD && task.base <= task.end
    ensures BootOutcome(r, l, p, task, image, size, align)
  {
    var memory := AvailableMemory(p, task, image);
    if memory.Failure? {
      return Failure(memory.error);
    }
    FreeMeaning(p, task);
    HeldMeaning(p.device);
    var info;
    ghost var start;
    info, start := PlaceRootserver(l, size, align, p, task, memory.value.0, memory.value.1);
    if info.None? {
      return Failure(NoPlaceForRootserver);
    }
    BootSucceeds(info.value, l, p, task, image, size, align, start);
    return Success(info.value);
  }

  /** The boot fails exactly when a check fails. Otherwise its untypeds are those of the memory
      left besides the highest aligned place for the root server, and conserve it. */
  method EmulateKernelBoot(config: Config, p: Platform, task: MemoryRegion, image: MemoryRegion)
    returns (r: Result<BootInfo>)
    requires config.virtualBase < WORD && config.minimumPageSize > 0 && !config.arch.X86?
    requires InWord(Cover(p.device)) && InWord(Cover(p.normal))
    requires p.kernel.base <= p.kernel.end && p.boot.base <= p.boot.end < WORD
    requires task.base <= task.end && image.base <= image.end
    ensures BootResult(r, config, p, task, image)
    ensures r.Success? ==> exists start: nat ::
      && BootedAt(r.value, LayoutOf(config, image), p, task, RootserverBytes(config, image),
                  Pow2(RootserverAlignBits(config)), start)
      && Conserves(r.value, LayoutOf(config, image), p, task, RootserverBytes(config, image), start)
  {
    r := BootWith(LayoutOf(config, image), RootserverBytes(config, image), Pow2(RootserverAlignBits(config)),
                  p, task, image);
    if r.Success? {
      var l, size, align := LayoutOf(config, image), RootserverBytes(config, image), Pow2(RootserverAlignBits(config));
      ghost var start: nat :| BootedAt(r.value, l, p, task, size, align, start);
      BootConserves(r.value, l, p, task, size, align, start);
    }
  }

  /** `BootOutcome` for the sizes that the configuration gives. */
  ghost predicate BootResult(r: Result<BootInfo>, config: Config, p: Platform, task: MemoryRegion, image: MemoryRegion)
    requires config.minimumPageSize > 0 && !config.arch.X86? && p.boot.base <= p.boot.end && image.base <= image.end
  {
    BootOutcome(r, LayoutOf(config, image), p, task, image, RootserverBytes(config, image),
                Pow2(RootserverAlignBits(config)))
  }

  function LayoutOf(config: Config, image: MemoryRegion): (l: Layout)
    requires image.base <= image.end && config.minimumPageSize > 0 && !config.arch.X86?
    ensures l.virtualBase == config.virtualBase && l.maxBits < 64
  {
    var taskVirt := Enlarged(image);
    ArchPagingNonNegative(config, taskVirt);
    QuotientNonNegative(taskVirt.Size(), config.minimumPageSize);
    Layout(config.virtualBase, MaxBits(config.arch),
           GetArchNPaging(config, taskVirt), taskVirt.Size() / config.minimumPageSize)
  }

  function RootserverBytes(config: Config, image: MemoryRegion): (size: nat)
    requires image.base <= image.end && !config.arch.X86?
    ensures size > 0
  {
    PagingNonNegative(config, Enlarged(image));
    RootserverSize(config, Enlarged(image))
  }

  /** The highest aligned address at which a block of `size` bytes fits in one region. */
  ghost predicate HighestFit(free: seq<MemoryRegion>, size: nat, align: nat, start: nat)
    requires align > 0
  {
    && Placeable(free, size, align, start)
    && forall b: nat :: Placeable(free, size, align, b) ==> b <= start
  }

  /** Device memory, and normal memory without kernel image and initial task. */
  method AvailableMemory(p: Platform, task: MemoryRegion, image: MemoryRegion)
    returns (r: Result<(DisjointMemoryRegion, DisjointMemoryRegion)>)
    requires p.kernel.base <= p.kernel.end && task.base <= task.end
    ensures r.Failure? ==> forall size: nat, align: nat :: align > 0 ==>
      BootFailure(p, task, image, size, align) == Some(r.error)
    ensures r.Success? ==>
      && task.Size() == image.Size()
      && fresh(r.value.0) && r.value.0.Valid() && HeldRegions(p.device) == Some(r.value.0.regions)
      && fresh(r.value.1) && r.value.1.Valid() && r.value.0 != r.value.1
      && FreeRegions(p, task) == Some(r.value.1.regions)
  {
    if task.Size() != image.Size() {
      return Failure(SizeMismatch);
    }
    r := PartialBoot(p);
    if r.Failure? {
      return;
    }
    var ok := r.value.1.RemoveRegion(task.base, task.end);
    if !ok {
      return Failure(TaskNotHeld);
    }
  }

  function Enlarged(image: MemoryRegion): MemoryRegion {
    image.(end := image.end + 0x1000 + 0x1000)
  }
}
