/** Memory ranges: tool/microkit/src/lib.rs.
    A panic of the tool is modelled by an `ok` result that is false. */
module MemoryRegions {
  import opened Powers

  datatype Option<+T> = None | Some(value: T)

  /** Base inclusive, end exclusive. */
  datatype MemoryRegion = MemoryRegion(base: nat, end: nat) {
    predicate Has(x: int) {
      base <= x < end
    }

    predicate Contains(b: int, e: int) {
      b >= base && e <= end
    }

    function Size(): int {
      end - base
    }
  }

  /** An untyped capability and the memory behind it. */
  datatype UntypedObject = UntypedObject(cap: nat, region: MemoryRegion, isDevice: bool)

  ghost predicate UntypedsOk(uts: seq<UntypedObject>) {
    forall i :: 0 <= i < |uts| ==> uts[i].region.base < uts[i].region.end < WORD
  }

  ghost predicate UntypedsApart(uts: seq<UntypedObject>) {
    forall i, j :: 0 <= i < j < |uts| ==>
      uts[i].region.end <= uts[j].region.base || uts[j].region.end <= uts[i].region.base
  }

  ghost predicate AllPowersOfTwo(uts: seq<UntypedObject>)
    requires UntypedsOk(uts)
  {
    forall i :: 0 <= i < |uts| ==>
      uts[i].region.end - uts[i].region.base == Pow2(Log2(uts[i].region.end - uts[i].region.base))
  }

  ghost predicate Between(base: int, x: int, end: int) {
    base <= x < end
  }

  ghost function Interval(base: int, end: int): iset<int> {
    iset x | Between(base, x, end)
  }

  ghost predicate Held(rs: seq<MemoryRegion>, x: int) {
    exists i :: 0 <= i < |rs| && rs[i].Has(x)
  }

  /** The set of addresses a list of ranges stands for. */
  ghost function Cover(rs: seq<MemoryRegion>): iset<int> {
    iset x | Held(rs, x)
  }

  /** Non-empty, ascending and pairwise disjoint. */
  ghost predicate Sorted(rs: seq<MemoryRegion>) {
    && (forall i :: 0 <= i < |rs| ==> rs[i].base < rs[i].end)
    && (forall i, j :: 0 <= i < j < |rs| ==> rs[i].end <= rs[j].base)
  }

  lemma CoverOfRegion(rs: seq<MemoryRegion>, i: nat, x: int)
    requires i < |rs| && rs[i].Has(x)
    ensures x in Cover(rs)
  {
  }

  /** The address `x` disappears, reappears or stays exactly as the region that
      replaces rs[i] says. */
  lemma CoverUpdate(rs: seq<MemoryRegion>, i: nat, r: MemoryRegion)
    requires Sorted(rs) && i < |rs|
    ensures Cover(rs[i := r]) == (Cover(rs) - Interval(rs[i].base, rs[i].end)) + Interval(r.base, r.end)
  {
    var ns := rs[i := r];
    forall x
      ensures x in Cover(ns) <==> x in (Cover(rs) - Interval(rs[i].base, rs[i].end)) + Interval(r.base, r.end)
    {
      if x in Cover(ns) {
        var j :| 0 <= j < |ns| && ns[j].Has(x);
        if j != i {
          assert rs[j].Has(x);
        }
      }
      if r.Has(x) {
        assert ns[i].Has(x);
      }
      if x in Cover(rs) && !rs[i].Has(x) {
        var j :| 0 <= j < |rs| && rs[j].Has(x);
        assert ns[j].Has(x);
      }
    }
  }

  lemma CoverInsert(rs: seq<MemoryRegion>, i: nat, r: MemoryRegion)
    requires i <= |rs|
    ensures Cover(rs[..i] + [r] + rs[i..]) == Cover(rs) + Interval(r.base, r.end)
  {
    var ns := rs[..i] + [r] + rs[i..];
    forall x
      ensures x in Cover(ns) <==> x in Cover(rs) + Interval(r.base, r.end)
    {
      if x in Cover(ns) {
        var j :| 0 <= j < |ns| && ns[j].Has(x);
        if j < i {
          assert rs[j].Has(x);
        } else if i < j {
          assert rs[j - 1].Has(x);
        }
      }
      if r.Has(x) {
        assert ns[i].Has(x);
      }
      if x in Cover(rs) {
        var j :| 0 <= j < |rs| && rs[j].Has(x);
        assert ns[if j < i then j else j + 1].Has(x);
      }
    }
  }

  lemma OneRegionHas(rs: seq<MemoryRegion>, j: nat, i: nat, x: int)
    requires Sorted(rs) && i < |rs| && j < |rs| && i != j && rs[j].Has(x)
    ensures Held(rs, x) && !rs[i].Has(x)
  {
  }

  lemma StillHeld(rs: seq<MemoryRegion>, i: nat, x: int)
    requires i < |rs| && Held(rs, x) && !rs[i].Has(x)
    ensures Held(rs[..i] + rs[i + 1..], x)
  {
    var j :| 0 <= j < |rs| && rs[j].Has(x);
    assert (rs[..i] + rs[i + 1..])[if j < i then j else j - 1].Has(x);
  }

  lemma CoverDelete(rs: seq<MemoryRegion>, i: nat)
    requires Sorted(rs) && i < |rs|
    ensures Cover(rs[..i] + rs[i + 1..]) == Cover(rs) - Interval(rs[i].base, rs[i].end)
  {
    var ns := rs[..i] + rs[i + 1..];
    forall x
      ensures Held(ns, x) <==> Held(rs, x) && !rs[i].Has(x)
    {
      if Held(ns, x) {
        var j :| 0 <= j < |ns| && ns[j].Has(x);
        OneRegionHas(rs, if j < i then j else j + 1, i, x);
      }
      if Held(rs, x) && !rs[i].Has(x) {
        StillHeld(rs, i, x);
      }
    }
  }

  /** A range disjoint from a sorted list lies in the gap before the first region above it. */
  lemma DisjointIsGap(rs: seq<MemoryRegion>, i: nat, base: nat, end: nat)
    requires Sorted(rs) && base < end && i <= |rs|
    requires i < |rs| ==> end <= rs[i].base
    requires forall j :: 0 <= j < i ==> rs[j].base < end
    ensures Interval(base, end) !! Cover(rs) <==> (i == 0 || rs[i - 1].end <= base)
  {
    if i == 0 || rs[i - 1].end <= base {
      forall x, j | 0 <= j < |rs| && rs[j].Has(x)
        ensures x !in Interval(base, end)
      {
        assert i > 0 && j < i ==> rs[j].end <= rs[i - 1].end;
      }
    } else {
      var x := if base < rs[i - 1].base then rs[i - 1].base else base;
      assert rs[i - 1].Has(x);
      assert x in Interval(base, end) && x in Cover(rs);
    }
  }

  /** Some block of `size` bytes at a multiple of `align` starting at `b` fits in `r`. */
  ghost predicate Fits(r: MemoryRegion, size: nat, align: nat, b: nat)
    requires align > 0
  {
    b % align == 0 && r.base <= b && b + size <= r.end
  }

  function NextMultipleOf(x: nat, align: nat): (r: nat)
    requires align > 0
    ensures r >= x && r % align == 0
    ensures forall b: nat :: b % align == 0 && b >= x ==> r <= b
  {
    var m := x % align;
    var r := if m == 0 then x else x + (align - m);
    NextMultipleIsMultiple(x, align);
    NextMultipleIsLeast(x, align, r);
    r
  }

  lemma NextMultipleIsMultiple(x: nat, align: nat)
    requires align > 0
    ensures x % align != 0 ==> (x + (align - x % align)) % align == 0
  {
    var q := x / align;
    assert x == q * align + x % align;
    assert x + (align - x % align) == (q + 1) * align;
    MultipleMod(q + 1, align);
  }

  lemma NextMultipleIsLeast(x: nat, align: nat, r: nat)
    requires align > 0
    requires r == if x % align == 0 then x else x + (align - x % align)
    ensures forall b: nat :: b % align == 0 && b >= x ==> r <= b
  {
    forall b: nat | b % align == 0 && b >= x
      ensures r <= b
    {
      if x % align != 0 {
        var q, p := x / align, b / align;
        assert b == p * align && x == q * align + x % align;
        MulBounds(p - q, align);
        assert (p - q) * align == b - x + x % align;
      }
    }
  }

  class DisjointMemoryRegion {
    var regions: seq<MemoryRegion>

    constructor ()
      ensures Valid() && regions == []
    {
      regions := [];
    }

    ghost predicate Valid()
      reads this
    {
      Sorted(regions)
    }

    method Check() returns (ok: bool)
      ensures ok <==> Adjacent(regions)
    {
      var lastEnd := 0;
      var i := 0;
      while i < |regions|
        invariant 0 <= i <= |regions|
        invariant lastEnd == if i == 0 then 0 else regions[i - 1].end
        invariant forall j :: 0 < j < i ==> regions[j - 1].end <= regions[j].base
      {
        if regions[i].base < lastEnd {
          return false;
        }
        lastEnd := regions[i].end;
        i := i + 1;
      }
      return true;
    }

    /** The check passes exactly when the new range is disjoint from all held ones,
        and then the held set grows by exactly that range. A new range joins the
        region above it, or the last region below it, and never both. */
    method InsertRegion(base: nat, end: nat) returns (ok: bool)
      requires Valid()
      modifies this
      ensures ok <==> base < end && Interval(base, end) !! Cover(old(regions))
      ensures ok ==> Valid() && Cover(regions) == Cover(old(regions)) + Interval(base, end)
      ensures ok ==> |regions| == |old(regions)| + if Joins(old(regions), base, end) then 0 else 1
      ensures Insert(old(regions), base, end) == if ok then Some(regions) else None
    {
      if !(base < end) {
        return false;
      }
      if regions == [] {
        InsertedMeaning(regions, 0, base, end);
        InsertsAt(regions, 0, base, end);
        assert Inserted(regions, 0, base, end) == [MemoryRegion(base, end)];
        regions := [MemoryRegion(base, end)];
        return true;
      }
      var insertIdx := InsertionIndex(base, end);
      InsertedMeaning(regions, insertIdx, base, end);
      InsertsAt(regions, insertIdx, base, end);
      MergeOrInsert(insertIdx, base, end);
      ok := Check();
    }

    /** The first region that starts at or above `end`, or the number of regions. */
    method InsertionIndex(base: nat, end: nat) returns (insertIdx: nat)
      requires Valid() && base < end
      ensures InsertionPoint(regions, insertIdx, base, end)
    {
      insertIdx := |regions|;
      var idx := 0;
      while idx < |regions|
        invariant 0 <= idx <= |regions| && insertIdx == |regions|
        invariant forall j :: 0 <= j < idx ==> regions[j].base < end
      {
        if end <= regions[idx].base {
          insertIdx := idx;
          break;
        }
        idx := idx + 1;
      }
    }

    method MergeOrInsert(insertIdx: nat, base: nat, end: nat)
      requires Valid() && regions != [] && InsertionPoint(regions, insertIdx, base, end)
      modifies this
      ensures regions == Inserted(old(regions), insertIdx, base, end)
    {
      var last := |regions| - 1;
      if insertIdx == 0 && regions[0].base == end {
        regions := regions[0 := MemoryRegion(base, regions[0].end)];
      } else if insertIdx == |regions| && regions[last].end == base {
        regions := regions[last := MemoryRegion(regions[last].base, end)];
      } else if insertIdx < |regions| && end == regions[insertIdx].base {
        regions := regions[insertIdx := MemoryRegion(base, regions[insertIdx].end)];
      } else if insertIdx < |regions| && base == regions[insertIdx].end {
        // end <= regions[insertIdx].base, so the new range would be empty
        assert false;
      } else {
        regions := regions[..insertIdx] + [MemoryRegion(base, end)] + regions[insertIdx..];
      }
    }

    /** Succeeds exactly when one held region contains the range, and then the held set
        shrinks by exactly that range. The order of the two ends is not checked: a reversed
        range that ends at a region's border and overlaps no other region is added. */
    method RemoveRegion(base: nat, end: nat) returns (ok: bool)
      requires Valid()
      modifies this
      ensures base <= end ==>
        (ok <==> exists i :: 0 <= i < |old(regions)| && old(regions)[i].Contains(base, end))
      ensures base <= end && ok ==> Valid() && Cover(regions) == Cover(old(regions)) - Interval(base, end)
      ensures base > end ==> (ok <==> exists i :: FirstHolds(old(regions), i, base, end) && GrowsAt(old(regions), i, base, end))
      ensures base > end && ok ==>
        && Valid() && Interval(end, base) !! Cover(old(regions))
        && Cover(regions) == Cover(old(regions)) + Interval(end, base)
      ensures Remove(old(regions), base, end) == if ok then Some(regions) else None
    {
      ghost var was := regions;
      var idx := 0;
      while idx < |regions| && !regions[idx].Contains(base, end)
        invariant 0 <= idx <= |regions|
        invariant forall j :: 0 <= j < idx ==> !regions[j].Contains(base, end)
      {
        idx := idx + 1;
      }
      RemovesAt(was, idx, base, end);
      if idx == |regions| {
        return false;
      }
      var region := regions[idx];
      if region.base == base && region.end == end {
        regions := regions[..idx] + regions[idx + 1..];
      } else if region.base == base {
        regions := regions[idx := MemoryRegion(end, region.end)];
      } else if region.end == end {
        regions := regions[idx := MemoryRegion(region.base, base)];
      } else {
        regions := regions[idx := MemoryRegion(region.base, base)];
        regions := regions[..idx + 1] + [MemoryRegion(end, region.end)] + regions[idx + 1..];
      }
      if base <= end {
        RemovedMeaning(was, idx, base, end);
      } else {
        ReversedMeaning(was, idx, base, end);
        assert FirstHolds(was, idx, base, end);
      }
      ok := Check();
    }

    /** First fit from the bottom: the lowest aligned block that fits in one held region,
        or nothing exactly when there is none. */
    method Allocate(size: nat, align: nat) returns (r: Option<nat>)
      requires Valid() && align > 0
      modifies this
      ensures Valid()
      ensures r.None? ==> regions == old(regions)
      ensures r.None? <==> forall i, b: nat :: 0 <= i < |old(regions)| ==> !Fits(old(regions)[i], size, align, b)
      ensures r.Some? ==>
        && (exists i :: 0 <= i < |old(regions)| && Fits(old(regions)[i], size, align, r.value))
        && (forall i, b: nat :: 0 <= i < |old(regions)| && Fits(old(regions)[i], size, align, b) ==> r.value <= b)
        && Cover(regions) == Cover(old(regions)) - Interval(r.value, r.value + size)
    {
      var i := 0;
      while i < |regions|
            && !(size <= regions[i].Size() && NextMultipleOf(regions[i].base, align) + size <= regions[i].end)
        invariant 0 <= i <= |regions|
        invariant forall j, b: nat :: 0 <= j < i ==> !Fits(regions[j], size, align, b)
      {
        i := i + 1;
      }
      if i == |regions| {
        return None;
      }
      var base := NextMultipleOf(regions[i].base, align);
      assert Fits(regions[i], size, align, base);
      var ok := RemoveRegion(base, base + size);
      return Some(base);
    }

    /** The lowest held region that starts at or above the bound and is large enough
        gives up its first `size` bytes. */
    method AllocateFrom(size: nat, lowerBound: nat) returns (r: Option<nat>)
      requires Valid()
      modifies this
      ensures Valid()
      ensures r.None? ==> regions == old(regions)
      ensures r.None? <==> forall i :: 0 <= i < |old(regions)| ==> size > old(regions)[i].Size() || old(regions)[i].base < lowerBound
      ensures r.Some? ==>
        && (exists i :: 0 <= i < |old(regions)| && old(regions)[i].base == r.value
                        && r.value >= lowerBound && size <= old(regions)[i].Size()
                        && forall j :: 0 <= j < i ==> size > old(regions)[j].Size() || old(regions)[j].base < lowerBound)
        && Cover(regions) == Cover(old(regions)) - Interval(r.value, r.value + size)
    {
      var i := 0;
      while i < |regions| && !(size <= regions[i].Size() && regions[i].base >= lowerBound)
        invariant 0 <= i <= |regions|
        invariant forall j :: 0 <= j < i ==> size > regions[j].Size() || regions[j].base < lowerBound
      {
        i := i + 1;
      }
      if i == |regions| {
        return None;
      }
      var base := regions[i].base;
      var ok := RemoveRegion(base, base + size);
      return Some(base);
    }
  }

  /** The first region from index i on that starts at or above end. */
  ghost function InsertIndex(rs: seq<MemoryRegion>, end: nat, i: nat): (r: nat)
    requires i <= |rs|
    ensures r <= |rs|
    decreases |rs| - i
  {
    if i == |rs| || end <= rs[i].base then i else InsertIndex(rs, end, i + 1)
  }

  lemma {:induction false} InsertIndexIs(rs: seq<MemoryRegion>, base: nat, end: nat, i: nat, k: nat)
    requires InsertionPoint(rs, k, base, end) && i <= k
    ensures InsertIndex(rs, end, i) == k
    decreases k - i
  {
    if i < k {
      InsertIndexIs(rs, base, end, i + 1, k);
    }
  }

  /** `insert_region` on a list; None for a panic. */
  ghost function Insert(rs: seq<MemoryRegion>, base: nat, end: nat): Option<seq<MemoryRegion>> {
    var ns := Inserted(rs, InsertIndex(rs, end, 0), base, end);
    if base < end && Adjacent(ns) then Some(ns) else None
  }

  /** Insertion succeeds exactly for a range disjoint from the set, which then grows by it. */
  lemma InsertMeaning(rs: seq<MemoryRegion>, base: nat, end: nat)
    requires Sorted(rs)
    ensures Insert(rs, base, end).Some? <==> base < end && Interval(base, end) !! Cover(rs)
    ensures Insert(rs, base, end).Some? ==>
      Sorted(Insert(rs, base, end).value) && Cover(Insert(rs, base, end).value) == Cover(rs) + Interval(base, end)
  {
    if base < end {
      var k := 0;
      while k < |rs| && end > rs[k].base
        invariant 0 <= k <= |rs| && forall j :: 0 <= j < k ==> rs[j].base < end
      {
        k := k + 1;
      }
      InsertsAt(rs, k, base, end);
      InsertedMeaning(rs, k, base, end);
    }
  }

  lemma InsertsAt(rs: seq<MemoryRegion>, k: nat, base: nat, end: nat)
    requires InsertionPoint(rs, k, base, end)
    ensures Insert(rs, base, end)
      == if Adjacent(Inserted(rs, k, base, end)) then Some(Inserted(rs, k, base, end)) else None
  {
    var first := 0;
    InsertIndexIs(rs, base, end, first, k);
  }

  /** The first region from index i on that contains the range. */
  ghost function Holder(rs: seq<MemoryRegion>, base: nat, end: nat, i: nat): (r: nat)
    requires i <= |rs|
    ensures r <= |rs|
    decreases |rs| - i
  {
    if i == |rs| || rs[i].Contains(base, end) then i else Holder(rs, base, end, i + 1)
  }

  lemma {:induction false} HolderIs(rs: seq<MemoryRegion>, base: nat, end: nat, i: nat, k: nat)
    requires i <= k <= |rs| && (k < |rs| ==> rs[k].Contains(base, end))
    requires forall j :: i <= j < k ==> !rs[j].Contains(base, end)
    ensures Holder(rs, base, end, i) == k
    decreases k - i
  {
    if i < k {
      HolderIs(rs, base, end, i + 1, k);
    }
  }

  /** `remove_region` on a list; None for a panic. */
  ghost function Remove(rs: seq<MemoryRegion>, base: nat, end: nat): Option<seq<MemoryRegion>> {
    var k := Holder(rs, base, end, 0);
    if k < |rs| && Adjacent(Removed(rs, k, base, end)) then Some(Removed(rs, k, base, end)) else None
  }

  lemma RemovesAt(rs: seq<MemoryRegion>, k: nat, base: nat, end: nat)
    requires k <= |rs| && (k < |rs| ==> rs[k].Contains(base, end))
    requires forall j :: 0 <= j < k ==> !rs[j].Contains(base, end)
    ensures Remove(rs, base, end)
      == if k < |rs| && Adjacent(Removed(rs, k, base, end)) then Some(Removed(rs, k, base, end)) else None
  {
    var first := 0;
    HolderIs(rs, base, end, first, k);
  }

  ghost predicate Joins(rs: seq<MemoryRegion>, base: nat, end: nat) {
    || (exists i :: 0 <= i < |rs| && rs[i].base == end)
    || (rs != [] && rs[|rs| - 1].end == base)
  }

  ghost predicate Adjacent(rs: seq<MemoryRegion>) {
    forall i :: 0 < i < |rs| ==> rs[i - 1].end <= rs[i].base
  }

  /** What insertion before index i leaves behind. */
  ghost function Inserted(rs: seq<MemoryRegion>, i: nat, base: nat, end: nat): seq<MemoryRegion>
    requires i <= |rs|
  {
    if i < |rs| && rs[i].base == end then rs[i := MemoryRegion(base, rs[i].end)]
    else if 0 < i == |rs| && rs[i - 1].end == base then rs[i - 1 := MemoryRegion(rs[i - 1].base, end)]
    else rs[..i] + [MemoryRegion(base, end)] + rs[i..]
  }

  ghost predicate InsertionPoint(rs: seq<MemoryRegion>, i: nat, base: nat, end: nat) {
    && base < end && i <= |rs|
    && (i < |rs| ==> end <= rs[i].base)
    && (forall j :: 0 <= j < i ==> rs[j].base < end)
  }

  lemma InsertedMeaning(rs: seq<MemoryRegion>, i: nat, base: nat, end: nat)
    requires Sorted(rs) && InsertionPoint(rs, i, base, end)
    ensures Adjacent(Inserted(rs, i, base, end)) <==> Interval(base, end) !! Cover(rs)
    ensures Interval(base, end) !! Cover(rs) ==>
      && Sorted(Inserted(rs, i, base, end))
      && Cover(Inserted(rs, i, base, end)) == Cover(rs) + Interval(base, end)
      && |Inserted(rs, i, base, end)| == |rs| + if Joins(rs, base, end) then 0 else 1
  {
    if i < |rs| && rs[i].base == end {
      InsertedJoinsAbove(rs, i, base, end);
    } else if 0 < i == |rs| && rs[i - 1].end == base {
      InsertedJoinsBelow(rs, i, base, end);
    } else {
      InsertedAlone(rs, i, base, end);
    }
  }

  /** What `InsertedMeaning` says of one result. */
  ghost predicate InsertedOk(rs: seq<MemoryRegion>, ns: seq<MemoryRegion>, base: nat, end: nat, n: nat) {
    && (Adjacent(ns) <==> Interval(base, end) !! Cover(rs))
    && (Interval(base, end) !! Cover(rs) ==>
         Sorted(ns) && Cover(ns) == Cover(rs) + Interval(base, end) && |ns| == n)
  }

  lemma InsertedJoinsAbove(rs: seq<MemoryRegion>, i: nat, base: nat, end: nat)
    requires Sorted(rs) && InsertionPoint(rs, i, base, end) && i < |rs| && rs[i].base == end
    ensures InsertedOk(rs, Inserted(rs, i, base, end), base, end, |rs|)
  {
    DisjointIsGap(rs, i, base, end);
    CoverUpdate(rs, i, MemoryRegion(base, rs[i].end));
    RegionInCover(rs, i);
    InsertedBelow(rs, i, base, end);
  }

  lemma InsertedJoinsBelow(rs: seq<MemoryRegion>, i: nat, base: nat, end: nat)
    requires Sorted(rs) && InsertionPoint(rs, i, base, end) && 0 < i == |rs| && rs[i - 1].end == base
    ensures InsertedOk(rs, Inserted(rs, i, base, end), base, end, |rs|)
  {
    DisjointIsGap(rs, i, base, end);
    CoverUpdate(rs, i - 1, MemoryRegion(rs[i - 1].base, end));
    RegionInCover(rs, i - 1);
  }

  lemma InsertedAlone(rs: seq<MemoryRegion>, i: nat, base: nat, end: nat)
    requires Sorted(rs) && InsertionPoint(rs, i, base, end)
    requires !(i < |rs| && rs[i].base == end) && !(0 < i == |rs| && rs[i - 1].end == base)
    ensures InsertedOk(rs, Inserted(rs, i, base, end), base, end, |rs| + 1)
  {
    DisjointIsGap(rs, i, base, end);
    CoverInsert(rs, i, MemoryRegion(base, end));
    InsertedBetween(rs, i, base, end);
  }

  lemma InsertedBelow(rs: seq<MemoryRegion>, i: nat, base: nat, end: nat)
    requires Sorted(rs) && InsertionPoint(rs, i, base, end) && i < |rs| && rs[i].base == end
    ensures var ns := rs[i := MemoryRegion(base, rs[i].end)];
      && (Adjacent(ns) <==> (i == 0 || rs[i - 1].end <= base))
      && (Adjacent(ns) ==> Sorted(ns))
  {
    var ns := rs[i := MemoryRegion(base, rs[i].end)];
    if i == 0 || rs[i - 1].end <= base {
      assert forall j :: 0 < j < |ns| && j != i ==> ns[j].base == rs[j].base;
      AdjacentIsSorted(ns);
    } else {
      assert ns[i - 1].end > ns[i].base;
    }
  }

  lemma InsertedBetween(rs: seq<MemoryRegion>, i: nat, base: nat, end: nat)
    requires Sorted(rs) && InsertionPoint(rs, i, base, end)
    ensures var ns := rs[..i] + [MemoryRegion(base, end)] + rs[i..];
      && (Adjacent(ns) <==> (i == 0 || rs[i - 1].end <= base))
      && (Adjacent(ns) ==> Sorted(ns))
  {
    var ns := rs[..i] + [MemoryRegion(base, end)] + rs[i..];
    if i == 0 || rs[i - 1].end <= base {
      forall j | 0 < j < |ns|
        ensures ns[j - 1].end <= ns[j].base
      {
        if j < i {
          assert ns[j] == rs[j] && ns[j - 1] == rs[j - 1];
        } else if j > i + 1 {
          assert ns[j] == rs[j - 1] && ns[j - 1] == rs[j - 2];
        }
      }
      AdjacentIsSorted(ns);
    } else {
      assert ns[i - 1].end > ns[i].base;
    }
  }

  /** What removal of [base, end) from region i leaves behind. */
  ghost function Removed(rs: seq<MemoryRegion>, i: nat, base: nat, end: nat): seq<MemoryRegion>
    requires i < |rs|
  {
    var r := rs[i];
    if r.base == base && r.end == end then rs[..i] + rs[i + 1..]
    else if r.base == base then rs[i := MemoryRegion(end, r.end)]
    else if r.end == end then rs[i := MemoryRegion(r.base, base)]
    else
      var trimmed := rs[i := MemoryRegion(r.base, base)];
      trimmed[..i + 1] + [MemoryRegion(end, r.end)] + trimmed[i + 1..]
  }

  lemma RemovedMeaning(rs: seq<MemoryRegion>, i: nat, base: nat, end: nat)
    requires Sorted(rs) && i < |rs| && base <= end && rs[i].Contains(base, end)
    ensures Sorted(Removed(rs, i, base, end))
    ensures Cover(Removed(rs, i, base, end)) == Cover(rs) - Interval(base, end)
  {
    var r := rs[i];
    RegionInCover(rs, i);
    if r.base == base && r.end == end {
      CoverDelete(rs, i);
      RemovedWhole(rs, i);
    } else if r.base == base {
      CoverUpdate(rs, i, MemoryRegion(end, r.end));
    } else if r.end == end {
      CoverUpdate(rs, i, MemoryRegion(r.base, base));
    } else {
      RemovedMiddle(rs, i, base, end);
    }
  }

  /** The region at i is the first one that passes the containment test. */
  ghost predicate FirstHolds(rs: seq<MemoryRegion>, i: int, base: nat, end: nat) {
    0 <= i < |rs| && rs[i].Contains(base, end) && forall j :: 0 <= j < i ==> !rs[j].Contains(base, end)
  }

  /** The reversed range starts or ends with region i and fits in the gap beside it. */
  ghost predicate GrowsAt(rs: seq<MemoryRegion>, i: int, base: nat, end: nat)
    requires 0 <= i < |rs|
  {
    || (rs[i].base == base && (i == 0 || rs[i - 1].end <= end))
    || (rs[i].end == end && (i == |rs| - 1 || base <= rs[i + 1].base))
  }

  lemma ReversedMeaning(rs: seq<MemoryRegion>, i: nat, base: nat, end: nat)
    requires Sorted(rs) && i < |rs| && end < base && rs[i].Contains(base, end)
    ensures Adjacent(Removed(rs, i, base, end)) <==> GrowsAt(rs, i, base, end)
    ensures GrowsAt(rs, i, base, end) ==>
      && Sorted(Removed(rs, i, base, end)) && Interval(end, base) !! Cover(rs)
      && Cover(Removed(rs, i, base, end)) == Cover(rs) + Interval(end, base)
  {
    var r := rs[i];
    if r.base == base {
      GrownMeaning(rs, i, MemoryRegion(end, r.end), end, base);
    } else if r.end == end {
      GrownMeaning(rs, i, MemoryRegion(r.base, base), end, base);
    } else {
      var ns := Removed(rs, i, base, end);
      assert ns[i] == MemoryRegion(r.base, base) && ns[i + 1] == MemoryRegion(end, r.end);
    }
  }

  /** Region i is replaced by one that reaches further on one side, by [lo, hi). */
  lemma GrownMeaning(rs: seq<MemoryRegion>, i: nat, r: MemoryRegion, lo: nat, hi: nat)
    requires Sorted(rs) && i < |rs| && lo < hi
    requires (r == MemoryRegion(lo, rs[i].end) && hi == rs[i].base) || (r == MemoryRegion(rs[i].base, hi) && lo == rs[i].end)
    ensures Adjacent(rs[i := r]) <==> (i == 0 || rs[i - 1].end <= r.base) && (i == |rs| - 1 || r.end <= rs[i + 1].base)
    ensures Adjacent(rs[i := r]) ==>
      Sorted(rs[i := r]) && Interval(lo, hi) !! Cover(rs) && Cover(rs[i := r]) == Cover(rs) + Interval(lo, hi)
  {
    var ns := rs[i := r];
    if (i == 0 || rs[i - 1].end <= r.base) && (i == |rs| - 1 || r.end <= rs[i + 1].base) {
      forall j | 0 < j < |ns|
        ensures ns[j - 1].end <= ns[j].base
      {
      }
    }
    if Adjacent(ns) {
      assert i > 0 ==> ns[i - 1].end <= ns[i].base;
      assert i < |rs| - 1 ==> ns[i + 1 - 1].end <= ns[i + 1].base;
      AdjacentIsSorted(ns);
      CoverUpdate(rs, i, r);
      RegionInCover(rs, i);
      GapIsFree(rs, i, r, lo, hi);
    }
  }

  lemma GapIsFree(rs: seq<MemoryRegion>, i: nat, r: MemoryRegion, lo: nat, hi: nat)
    requires i < |rs| && Sorted(rs[i := r]) && r.base <= lo && hi <= r.end
    requires hi <= rs[i].base || rs[i].end <= lo
    ensures Interval(lo, hi) !! Cover(rs)
  {
    forall x, j: nat | Between(lo, x, hi) && j < |rs|
      ensures !rs[j].Has(x)
    {
      if j != i {
        HeldOnce(rs[i := r], i, j, x);
      }
    }
  }

  lemma HeldOnce(rs: seq<MemoryRegion>, i: nat, j: nat, x: int)
    requires Sorted(rs) && i < |rs| && j < |rs| && i != j
    ensures !(rs[i].Has(x) && rs[j].Has(x))
  {
  }

  lemma RemovedMiddle(rs: seq<MemoryRegion>, i: nat, base: nat, end: nat)
    requires Sorted(rs) && i < |rs| && rs[i].base < base <= end < rs[i].end
    ensures Sorted(Removed(rs, i, base, end))
    ensures Cover(Removed(rs, i, base, end)) == Cover(rs) - Interval(base, end)
  {
    var r := rs[i];
    var low, high := MemoryRegion(r.base, base), MemoryRegion(end, r.end);
    var trimmed := rs[i := low];
    assert Sorted(trimmed);
    InsertedBetween(trimmed, i + 1, end, r.end);
    calc {
      Cover(Removed(rs, i, base, end));
    ==
      Cover(trimmed[..i + 1] + [high] + trimmed[i + 1..]);
    ==  { CoverInsert(trimmed, i + 1, high); }
      Cover(trimmed) + Interval(end, r.end);
    ==  { CoverUpdate(rs, i, low); }
      (Cover(rs) - Interval(r.base, r.end)) + Interval(r.base, base) + Interval(end, r.end);
    ==  { RegionInCover(rs, i); SplitInterval(Cover(rs), r.base, base, end, r.end); }
      Cover(rs) - Interval(base, end);
    }
  }

  lemma SplitInterval(s: iset<int>, a: int, b: int, c: int, d: int)
    requires a <= b <= c <= d && Interval(a, d) <= s
    ensures (s - Interval(a, d)) + Interval(a, b) + Interval(c, d) == s - Interval(b, c)
  {
  }

  lemma RemovedWhole(rs: seq<MemoryRegion>, i: nat)
    requires Sorted(rs) && i < |rs|
    ensures Sorted(rs[..i] + rs[i + 1..])
  {
    var ns := rs[..i] + rs[i + 1..];
    assert forall j :: 0 <= j < |ns| ==> ns[j] == rs[if j < i then j else j + 1];
  }

  lemma {:induction false} AdjacentIsSorted(rs: seq<MemoryRegion>)
    requires forall i :: 0 <= i < |rs| ==> rs[i].base < rs[i].end
    requires forall i :: 0 < i < |rs| ==> rs[i - 1].end <= rs[i].base
    ensures Sorted(rs)
  {
    if |rs| <= 1 {
    } else {
      var n := |rs| - 1;
      AdjacentIsSorted(rs[..n]);
      assert forall j :: 0 <= j < n ==> rs[..n][j] == rs[j];
      forall j | 0 <= j < n
        ensures rs[j].end <= rs[n].base
      {
        if j < n - 1 {
          assert rs[j].end <= rs[n - 1].base;
        }
      }
    }
  }

  lemma RegionInCover(rs: seq<MemoryRegion>, i: nat)
    requires i < |rs|
    ensures Interval(rs[i].base, rs[i].end) <= Cover(rs)
  {
    forall x | x in Interval(rs[i].base, rs[i].end)
      ensures x in Cover(rs)
    {
      assert rs[i].Has(x);
    }
  }

  // ---- splitting a range into untyped-sized blocks ----

  /** `ps` lists consecutive non-empty ranges from b to e without gap or overlap. */
  ghost predicate Tiles(ps: seq<MemoryRegion>, b: nat, e: nat) {
    && (ps == [] ==> b == e)
    && (ps != [] ==> ps[0].base == b && ps[|ps| - 1].end == e)
    && (forall i :: 0 <= i < |ps| ==> ps[i].base < ps[i].end)
    && (forall i :: 0 < i < |ps| ==> ps[i - 1].end == ps[i].base)
  }

  function KernelVaddr(paddr: nat, virtualBase: nat): nat {
    WrappingAdd(paddr, virtualBase)
  }

  function KernelPaddr(vaddr: nat, virtualBase: nat): int {
    WrappingSub(vaddr, virtualBase)
  }

  /** One block of the decomposition of a range ending at `end`: a power of two of at
      most 2^maxBits bytes, aligned in kernel virtual address, and the largest such
      block at its place. */
  ghost predicate Block(p: MemoryRegion, end: nat, virtualBase: nat, maxBits: nat) {
    exists bits: nat :: BlockOf(p, bits, end, virtualBase, maxBits)
  }

  ghost predicate BlockOf(p: MemoryRegion, bits: nat, end: nat, virtualBase: nat, maxBits: nat) {
    && bits <= maxBits
    && p.base < p.end <= end
    && p.end - p.base == Pow2(bits)
    && Aligned(KernelVaddr(p.base, virtualBase), bits)
    && (bits < maxBits && p.base + Pow2(bits + 1) <= end ==> !Aligned(KernelVaddr(p.base, virtualBase), bits + 1))
  }

  /** How many blocks are still to come: a rising phase that clears low bits of the
      address, then a falling phase that spends the bits of the size. */
  ghost function BlockBound(base: nat, size: nat): nat {
    if size == 0 then 0
    else if base == 0 || TrailingZeros(base) >= Log2(size) then Log2(size) + 1
    else Log2(size) - TrailingZeros(base) + Log2(size) + 1
  }

  /** A block aligned to its size never crosses the end of the address space. */
  lemma AlignedBlockFits(base: nat, bits: nat)
    requires base < WORD && bits <= 64 && Aligned(base, bits)
    ensures base + Pow2(bits) <= WORD
  {
    Pow2Is64();
    AlignedPow2(64, bits);
    AlignedAdd(WORD, base, bits);
    AlignedAtLeast(WORD - base, bits);
  }

  lemma BitsBelow64(x: nat)
    requires 0 < x < WORD
    ensures Log2(x) <= 63
  {
    Pow2Is64();
    Log2AtLeast(x, 64);
  }

  lemma BlockBoundStep(base: nat, size: nat, bits: nat)
    requires 0 < size && base < WORD && size < WORD
    requires bits == if base == 0 || Log2(size) <= TrailingZeros(base) then Log2(size) else TrailingZeros(base)
    ensures Pow2(bits) <= size
    ensures BlockBound(WrappingAdd(base, Pow2(bits)), size - Pow2(bits)) + 1 <= BlockBound(base, size)
  {
    var sz := Pow2(bits);
    Log2AtLeast(size, bits);
    Log2Bounds(size);
    BitsBelow64(size);
    var base', size' := WrappingAdd(base, sz), size - sz;
    if size' != 0 {
      Log2Mono(size', size);
      if base == 0 || Log2(size) <= TrailingZeros(base) {
        assert size' < sz;
        Log2Bounds(size');
        assert Log2(size') < Log2(size);
        if base' != 0 {
          assert Aligned(base', bits) by {
            BaseStepAligned(base, bits);
          }
          TrailingZerosMax(base', bits);
        }
      } else if base' != 0 {
        assert Aligned(base', bits + 1) by {
          BaseStepAligned(base, bits);
        }
        TrailingZerosMax(base', bits + 1);
      }
    }
  }

  lemma BaseStepAligned(base: nat, bits: nat)
    requires base < WORD && bits <= 63
    requires base == 0 || bits <= TrailingZeros(base)
    ensures Aligned(WrappingAdd(base, Pow2(bits)), bits)
    ensures base != 0 && bits == TrailingZeros(base) ==> Aligned(WrappingAdd(base, Pow2(bits)), bits + 1)
  {
    AlignedBaseStep(base, bits);
    if base + Pow2(bits) == WORD {
      AlignedZero(bits);
      AlignedZero(bits + 1);
    } else {
      assert WrappingAdd(base, Pow2(bits)) == base + Pow2(bits);
      if base != 0 {
        AddLowestBit(base);
      }
    }
  }

  lemma AlignedBaseStep(base: nat, bits: nat)
    requires base < WORD && bits <= 63
    requires base == 0 || bits <= TrailingZeros(base)
    ensures Aligned(base, bits) && Aligned(base + Pow2(bits), bits) && base + Pow2(bits) <= WORD
  {
    if base == 0 {
      AlignedZero(bits);
    } else {
      TrailingZerosMax(base, bits);
    }
    AlignedPow2(bits, bits);
    AlignedAdd(base, Pow2(bits), bits);
    AlignedBlockFits(base, bits);
  }

  function Min(a: int, b: int): int {
    if a < b then a else b
  }

  function BlockBits(base: nat, size: nat, maxBits: nat): (bits: nat)
    requires size > 0
  {
    Min(maxBits, if base == 0 then Log2(size) else Min(Log2(size), TrailingZeros(base)))
  }

  /** The decomposition of [p, end) as the kernel makes it. */
  function Blocks(p: nat, end: nat, virtualBase: nat, maxBits: nat): seq<MemoryRegion>
    requires p <= end
    decreases end - p
  {
    if p == end then []
    else
      var sz := Pow2(BlockBits(KernelVaddr(p, virtualBase), end - p, maxBits));
      if p + sz <= end then [MemoryRegion(p, p + sz)] + Blocks(p + sz, end, virtualBase, maxBits)
      else [MemoryRegion(p, end)]
  }

  lemma NextBlock(p: nat, end: nat, virtualBase: nat, maxBits: nat)
    requires p < end < WORD && virtualBase < WORD && maxBits < 64
    ensures var base := KernelVaddr(p, virtualBase);
      var sz := Pow2(BlockBits(base, end - p, maxBits));
      && sz <= end - p
      && base + sz <= WORD
      && KernelPaddr(base, virtualBase) == p
      && KernelVaddr(p + sz, virtualBase) == WrappingAdd(base, sz)
      && KernelPaddr(WrappingAdd(base, sz), virtualBase) == p + sz
      && Blocks(p, end, virtualBase, maxBits)
         == [MemoryRegion(p, p + sz)] + Blocks(p + sz, end, virtualBase, maxBits)
  {
    var base := KernelVaddr(p, virtualBase);
    var bits := BlockBits(base, end - p, maxBits);
    Log2AtLeast(end - p, bits);
    if base == 0 {
      AlignedZero(bits);
    } else {
      TrailingZerosMax(base, bits);
    }
    AlignedBlockFits(base, bits);
  }

  lemma {:induction false} BlocksTile(p: nat, end: nat, virtualBase: nat, maxBits: nat)
    requires p <= end < WORD && virtualBase < WORD && maxBits < 64
    ensures Tiles(Blocks(p, end, virtualBase, maxBits), p, end)
    decreases end - p
  {
    if p == end {
    } else {
      var q := NextPiece(p, end, virtualBase, maxBits);
      BlocksTile(q, end, virtualBase, maxBits);
      TilesPrepend(p, Blocks(q, end, virtualBase, maxBits), q, end);
    }
  }

  lemma NextPiece(p: nat, end: nat, virtualBase: nat, maxBits: nat) returns (q: nat)
    requires p < end < WORD && virtualBase < WORD && maxBits < 64
    ensures p < q <= end
    ensures Blocks(p, end, virtualBase, maxBits) == [MemoryRegion(p, q)] + Blocks(q, end, virtualBase, maxBits)
  {
    NextBlock(p, end, virtualBase, maxBits);
    q := p + Pow2(BlockBits(KernelVaddr(p, virtualBase), end - p, maxBits));
  }

  lemma TilesPrepend(b: nat, ps: seq<MemoryRegion>, m: nat, e: nat)
    requires Tiles(ps, m, e) && b < m
    ensures Tiles([MemoryRegion(b, m)] + ps, b, e)
  {
  }

  lemma {:induction false} BlocksAreBlocks(p: nat, end: nat, virtualBase: nat, maxBits: nat)
    requires p <= end < WORD && virtualBase < WORD && maxBits < 64
    ensures forall r :: r in Blocks(p, end, virtualBase, maxBits) ==> Block(r, end, virtualBase, maxBits)
    decreases end - p
  {
    if p == end {
    } else {
      NextBlock(p, end, virtualBase, maxBits);
      var base := KernelVaddr(p, virtualBase);
      var bits := BlockBits(base, end - p, maxBits);
      BlocksAreBlocks(p + Pow2(bits), end, virtualBase, maxBits);
      FirstBlock(p, end, virtualBase, maxBits);
    }
  }

  lemma FirstBlock(p: nat, end: nat, virtualBase: nat, maxBits: nat)
    requires p < end < WORD && virtualBase < WORD && maxBits < 64
    ensures var bits := BlockBits(KernelVaddr(p, virtualBase), end - p, maxBits);
      Block(MemoryRegion(p, p + Pow2(bits)), end, virtualBase, maxBits)
  {
    var base := KernelVaddr(p, virtualBase);
    var bits := BlockBits(base, end - p, maxBits);
    Log2AtLeast(end - p, bits);
    Log2AtLeast(end - p, bits + 1);
    if base == 0 {
      AlignedZero(bits);
    } else {
      TrailingZerosMax(base, bits);
      TrailingZerosMax(base, bits + 1);
    }
    assert BlockOf(MemoryRegion(p, p + Pow2(bits)), bits, end, virtualBase, maxBits);
  }

  lemma {:induction false} BlocksCount(p: nat, end: nat, virtualBase: nat, maxBits: nat)
    requires p <= end < WORD && virtualBase < WORD && maxBits < 64
    requires p < end ==> Log2(end - p) <= maxBits
    ensures |Blocks(p, end, virtualBase, maxBits)| <= BlockBound(KernelVaddr(p, virtualBase), end - p)
    decreases end - p
  {
    if p == end {
    } else {
      NextBlock(p, end, virtualBase, maxBits);
      var base := KernelVaddr(p, virtualBase);
      var bits := BlockBits(base, end - p, maxBits);
      BlockBoundStep(base, end - p, bits);
      if p + Pow2(bits) < end {
        Log2Mono(end - (p + Pow2(bits)), end - p);
      }
      BlocksCount(p + Pow2(bits), end, virtualBase, maxBits);
    }
  }

  lemma BlocksAtMost(p: nat, end: nat, virtualBase: nat, maxBits: nat)
    requires p <= end < WORD && virtualBase < WORD && maxBits < 64
    ensures p < end && Log2(end - p) <= maxBits ==>
      |Blocks(p, end, virtualBase, maxBits)| <= 2 * Log2(end - p) + 1
  {
    if p < end && Log2(end - p) <= maxBits {
      BlocksCount(p, end, virtualBase, maxBits);
    }
  }

  lemma MoveHead<T>(done: seq<T>, rest: seq<T>)
    requires rest != []
    ensures (done + [rest[0]]) + rest[1..] == done + rest
  {
  }

  /** Kernel-style decomposition of a range; kernel virtual addresses may wrap. */
  method AlignedPowerOfTwoRegions(region: MemoryRegion, virtualBase: nat, maxBits: nat)
    returns (regions: seq<MemoryRegion>)
    requires region.base <= region.end < WORD && virtualBase < WORD && maxBits < 64
    ensures regions == Blocks(region.base, region.end, virtualBase, maxBits)
  {
    regions := [];
    var base := KernelVaddr(region.base, virtualBase);
    var end := KernelVaddr(region.end, virtualBase);
    ghost var p := region.base;
    ghost var all := Blocks(region.base, region.end, virtualBase, maxBits);
    ghost var rest := all;
    while base != end
      invariant region.base <= p <= region.end && base == KernelVaddr(p, virtualBase)
      invariant rest == Blocks(p, region.end, virtualBase, maxBits)
      invariant regions + rest == all
      decreases region.end - p
    {
      var size := WrappingSub(end, base);
      assert size == region.end - p;
      var bits := BlockBits(base, size, maxBits);
      var sz := Pow2(bits);
      NextBlock(p, region.end, virtualBase, maxBits);
      var basePaddr := KernelPaddr(base, virtualBase);
      var endPaddr := KernelPaddr(WrappingAdd(base, sz), virtualBase);
      assert MemoryRegion(basePaddr, endPaddr) == rest[0];
      MoveHead(regions, rest);
      regions, rest := regions + [MemoryRegion(basePaddr, endPaddr)], rest[1..];
      base := WrappingAdd(base, sz);
      p := p + sz;
    }
    assert rest == [];
  }
}
