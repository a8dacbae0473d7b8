/** The CapDL initialiser's object allocation, simulated by the tool:
    tool/microkit/src/capdl/allocation.rs. */
module Allocator {
  import opened Powers
  import opened MemoryRegions

  /** What the algorithm reads of a spec object. Size 0 stands for objects that need
      no untyped memory. */
  datatype Item = Item(sizeBits: nat, paddr: Option<nat>) {
    function Bytes(): nat {
      Pow2(sizeBits)
    }
  }

  datatype Placement = Placement(ut: nat, paddr: nat)

  /** Object ids of one size still to be placed: [start, end). */
  datatype Range = Range(start: nat, end: nat)

  type Windows = seq<Option<Range>>

  const WORD_SIZE: nat := 64

  /** The documented input order: fixed-address objects first by address, then the
      others by falling size. */
  ghost predicate SpecSorted(objs: seq<Item>) {
    && (forall i :: 0 <= i < |objs| ==> objs[i].sizeBits < WORD_SIZE)
    && (forall i, j :: 0 <= i < j < |objs| ==> (objs[j].paddr.Some? ==> objs[i].paddr.Some?))
    && (forall i, j :: 0 <= i < j < |objs| && objs[j].paddr.Some? ==> objs[i].paddr.value <= objs[j].paddr.value)
    && (forall i, j :: 0 <= i < j < |objs| && objs[i].paddr.None? ==> objs[i].sizeBits >= objs[j].sizeBits)
  }

  ghost predicate FixedPrefix(objs: seq<Item>, n: nat) {
    && n <= |objs|
    && (forall i :: 0 <= i < n ==> objs[i].paddr.Some?)
    && (forall i :: n <= i < |objs| ==> objs[i].paddr.None?)
  }

  /** `partition_point` over the objects. */
  method FirstWithoutPaddr(objs: seq<Item>) returns (n: nat)
    requires SpecSorted(objs)
    ensures FixedPrefix(objs, n)
  {
    n := 0;
    while n < |objs| && objs[n].paddr.Some?
      invariant 0 <= n <= |objs|
      invariant forall i :: 0 <= i < n ==> objs[i].paddr.Some?
    {
      n := n + 1;
    }
  }

  // ---- windows of equally sized objects ----

  ghost predicate WindowHolds(objs: seq<Item>, first: nat, n: nat, s: nat, w: Option<Range>)
    requires n <= |objs|
  {
    match w
    case None => forall id :: first <= id < n ==> objs[id].sizeBits != s || s == 0
    case Some(r) =>
      && s > 0 && first <= r.start < r.end <= n
      && forall id :: first <= id < n ==> (objs[id].sizeBits == s <==> r.start <= id < r.end)
  }

  /** Window s names exactly the objects of size s that have no fixed address. */
  ghost predicate WindowsHold(objs: seq<Item>, first: nat, n: nat, ws: Windows)
    requires n <= |objs|
  {
    |ws| == WORD_SIZE && forall s :: 0 <= s < WORD_SIZE ==> WindowHolds(objs, first, n, s, ws[s])
  }

  method BuildWindows(objs: seq<Item>, first: nat) returns (ws: Windows)
    requires SpecSorted(objs) && FixedPrefix(objs, first)
    ensures WindowsHold(objs, first, |objs|, ws)
  {
    ws := seq(WORD_SIZE, _ => None);
    var id := first;
    while id < |objs|
      invariant first <= id <= |objs|
      invariant WindowsHold(objs, first, id, ws)
    {
      var s := objs[id].sizeBits;
      if s > 0 {
        WindowGrows(objs, first, id, ws);
        match ws[s]
        case Some(r) => ws := ws[s := Some(Range(r.start, r.end + 1))];
        case None => ws := ws[s := Some(Range(id, id + 1))];
      }
      id := id + 1;
    }
  }

  /** Sorting makes the new object the direct successor of its window. */
  lemma WindowGrows(objs: seq<Item>, first: nat, id: nat, ws: Windows)
    requires SpecSorted(objs) && FixedPrefix(objs, first) && first <= id < |objs|
    requires WindowsHold(objs, first, id, ws)
    ensures ws[objs[id].sizeBits].Some? ==> ws[objs[id].sizeBits].value.end == id
  {
    var s := objs[id].sizeBits;
    assert WindowHolds(objs, first, id, s, ws[s]);
    if ws[s].Some? {
      var b := ws[s].value.end;
      assert objs[b - 1].sizeBits == s && objs[b].sizeBits >= s;
    }
  }

  predicate Left(ws: Windows, s: nat) {
    s < |ws| && ws[s].Some? && ws[s].value.start < ws[s].value.end
  }

  /** Windows only lose objects from the front. */
  ghost predicate Shrunk(w0: Windows, w1: Windows) {
    && |w0| == |w1|
    && forall s :: 0 <= s < |w0| ==>
        && (w0[s].Some? <==> w1[s].Some?)
        && (w0[s].Some? ==> w0[s].value.start <= w1[s].value.start <= w1[s].value.end == w0[s].value.end)
  }

  // ---- what has been placed ----

  /** Bookkeeping: the placed objects are the first fixed ones and the spent window fronts. */
  ghost predicate Booked(objs: seq<Item>, first: nat, next: nat, ws: Windows, e: map<nat, Placement>)
    requires forall i :: 0 <= i < |objs| ==> objs[i].sizeBits < |ws|
  {
    forall id :: id in e <==> IsBooked(objs, first, next, ws, id)
  }

  ghost predicate IsBooked(objs: seq<Item>, first: nat, next: nat, ws: Windows, id: nat)
    requires forall i :: 0 <= i < |objs| ==> objs[i].sizeBits < |ws|
  {
    || id < next
    || (first <= id < |objs| && ws[objs[id].sizeBits].Some? && id < ws[objs[id].sizeBits].value.start)
  }

  ghost predicate PlacedWell(objs: seq<Item>, uts: seq<UntypedObject>, id: nat, p: Placement) {
    && id < |objs| && p.ut < |uts|
    && uts[p.ut].region.base <= p.paddr
    && p.paddr + objs[id].Bytes() <= uts[p.ut].region.end
    && (match objs[id].paddr
        case Some(a) => p.paddr == a
        case None => !uts[p.ut].isDevice)
  }

  /** Every placement lies in its untyped, fixed objects on their address, ordinary ones
      outside device memory. */
  ghost predicate Inside(objs: seq<Item>, uts: seq<UntypedObject>, e: map<nat, Placement>) {
    forall id :: id in e ==> PlacedWell(objs, uts, id, e[id])
  }

  ghost predicate Disjoint(objs: seq<Item>, e: map<nat, Placement>)
    requires forall id :: id in e ==> id < |objs|
  {
    forall i, j :: i in e && j in e && i != j ==>
      e[i].paddr + objs[i].Bytes() <= e[j].paddr || e[j].paddr + objs[j].Bytes() <= e[i].paddr
  }

  ghost predicate Below(objs: seq<Item>, e: map<nat, Placement>, cur: nat)
    requires forall id :: id in e ==> id < |objs|
  {
    forall id :: id in e ==> e[id].paddr + objs[id].Bytes() <= cur
  }

  /** Placements are sound and all end at or below the watermark. */
  ghost predicate Good(objs: seq<Item>, uts: seq<UntypedObject>, e: map<nat, Placement>, cur: nat) {
    Inside(objs, uts, e) && Disjoint(objs, e) && Below(objs, e, cur)
  }

  lemma GoodInsert(objs: seq<Item>, uts: seq<UntypedObject>, e: map<nat, Placement>, cur: nat, id: nat, p: Placement)
    requires Good(objs, uts, e, cur) && id !in e && cur <= p.paddr && PlacedWell(objs, uts, id, p)
    ensures Good(objs, uts, e[id := p], p.paddr + objs[id].Bytes())
  {
  }

  // ---- filled untypeds ----

  ghost predicate CoveredBy(objs: seq<Item>, e: map<nat, Placement>, s: nat, x: int) {
    exists id :: id in e && Covers(objs, e, s, id, x)
  }

  ghost predicate Covers(objs: seq<Item>, e: map<nat, Placement>, s: nat, id: nat, x: int)
    requires id in e
  {
    id < |objs| && objs[id].sizeBits >= s && e[id].paddr <= x < e[id].paddr + objs[id].Bytes()
  }

  /** Every byte of [lo, hi) belongs to a placed object of at least 2^s bytes. */
  ghost predicate Full(objs: seq<Item>, e: map<nat, Placement>, s: nat, lo: int, hi: int) {
    forall x :: lo <= x < hi ==> CoveredBy(objs, e, s, x)
  }

  ghost predicate Extends(e0: map<nat, Placement>, e1: map<nat, Placement>) {
    forall id :: id in e0 ==> id in e1 && e1[id] == e0[id]
  }

  /** Nothing is moved and everything new is in one untyped. */
  ghost predicate GrowsIn(e0: map<nat, Placement>, e1: map<nat, Placement>, ut: nat) {
    Extends(e0, e1) && forall id :: id in e1 && id !in e0 ==> e1[id].ut == ut
  }

  lemma FullStays(objs: seq<Item>, e0: map<nat, Placement>, e1: map<nat, Placement>, s: nat, lo: int, hi: int)
    requires Full(objs, e0, s, lo, hi) && Extends(e0, e1)
    ensures Full(objs, e1, s, lo, hi)
  {
    forall x | lo <= x < hi
      ensures CoveredBy(objs, e1, s, x)
    {
      assert CoveredBy(objs, e0, s, x);
      var id :| id in e0 && Covers(objs, e0, s, id, x);
      assert Covers(objs, e1, s, id, x);
    }
  }

  lemma FullGrows(objs: seq<Item>, e: map<nat, Placement>, s: nat, lo: int, cur: int, id: nat, p: Placement)
    requires Full(objs, e, s, lo, cur) && id !in e && id < |objs| && p.paddr == cur && objs[id].sizeBits >= s
    ensures Full(objs, e[id := p], s, lo, cur + objs[id].Bytes())
  {
    var e1 := e[id := p];
    FullStays(objs, e, e1, s, lo, cur);
    forall x | lo <= x < cur + objs[id].Bytes()
      ensures CoveredBy(objs, e1, s, x)
    {
      if x >= cur {
        assert Covers(objs, e1, s, id, x);
      }
    }
  }

  // ---- the greedy loops ----

  /** What stays fixed during allocation: the input and its initial windows. */
  ghost predicate Given(objs: seq<Item>, first: nat, w: Windows) {
    SpecSorted(objs) && FixedPrefix(objs, first) && WindowsHold(objs, first, |objs|, w)
  }

  ghost predicate Ready(
    objs: seq<Item>, first: nat, next: nat, w: Windows, ws: Windows, e: map<nat, Placement>)
    requires Given(objs, first, w)
  {
    next <= first && Shrunk(w, ws) && Booked(objs, first, next, ws, e)
  }

  lemma WindowFront(
    objs: seq<Item>, first: nat, next: nat, w: Windows, ws: Windows, e: map<nat, Placement>, s: nat)
    requires Given(objs, first, w)
    requires Ready(objs, first, next, w, ws, e) && Left(ws, s)
    ensures var id := ws[s].value.start;
      && id !in e && first <= id < |objs| && objs[id].sizeBits == s && s > 0
  {
    var id := ws[s].value.start;
    assert WindowHolds(objs, first, |objs|, s, w[s]);
    assert !IsBooked(objs, first, next, ws, id);
  }

  function Spend(ws: Windows, s: nat): Windows
    requires Left(ws, s)
  {
    ws[s := Some(Range(ws[s].value.start + 1, ws[s].value.end))]
  }

  lemma SpendKeepsReady(
    objs: seq<Item>, first: nat, next: nat, w: Windows, ws: Windows, e: map<nat, Placement>, s: nat, p: Placement)
    requires Given(objs, first, w)
    requires Ready(objs, first, next, w, ws, e) && Left(ws, s)
    ensures Ready(objs, first, next, w, Spend(ws, s), e[ws[s].value.start := p])
  {
    var id := ws[s].value.start;
    var ws1, e1 := Spend(ws, s), e[id := p];
    WindowFront(objs, first, next, w, ws, e, s);
    forall i: nat
      ensures i in e1 <==> IsBooked(objs, first, next, ws1, i)
    {
      assert i in e <==> IsBooked(objs, first, next, ws, i);
      if first <= i < |objs| && i != id {
        var t := objs[i].sizeBits;
        assert WindowHolds(objs, first, |objs|, t, w[t]);
      }
    }
  }

  /** The largest size of at most maxBits that still has objects to place. */
  method LargestLeft(ws: Windows, maxBits: nat) returns (r: Option<nat>)
    requires maxBits < |ws|
    ensures r.Some? ==> r.value <= maxBits && Left(ws, r.value) && forall t :: r.value < t <= maxBits ==> !Left(ws, t)
    ensures r.None? ==> forall t :: 0 <= t <= maxBits ==> !Left(ws, t)
  {
    var s := maxBits + 1;
    while s > 0
      invariant 0 <= s <= maxBits + 1
      invariant forall t :: s <= t <= maxBits ==> !Left(ws, t)
    {
      s := s - 1;
      if Left(ws, s) {
        return Some(s);
      }
    }
    return None;
  }

  /** Greedy filling places everything that still fits: in a power-of-two untyped without
      fixed objects, whatever size is left over fills it completely. `last` bounds all
      sizes that are left and fit in the untyped. */
  ghost predicate Greedy(
    objs: seq<Item>, e: map<nat, Placement>, ws: Windows, base: nat, cur: nat, end: nat, bits: nat, last: nat)
  {
    && base <= cur <= end && end - base == Pow2(bits) && last <= bits < WORD_SIZE
    && Aligned(cur - base, last) && (cur > base ==> cur - base >= Pow2(last))
    && (forall s: nat :: Left(ws, s) && s <= bits ==> s <= last)
    && FilledUp(objs, e, ws, base, cur, bits)
  }

  /** Whatever size is left over and fits in the untyped fills it from base to cur. */
  ghost predicate FilledUp(objs: seq<Item>, e: map<nat, Placement>, ws: Windows, base: nat, cur: nat, bits: nat) {
    forall s: nat :: Left(ws, s) && s <= bits ==> Full(objs, e, s, base, cur)
  }

  /** The objects placed since e0 are aligned to their own size from the base. */
  ghost predicate AlignedSince(objs: seq<Item>, e0: map<nat, Placement>, e: map<nat, Placement>, base: nat) {
    forall id :: id in e && id !in e0 ==> id < |objs| && Aligned(e[id].paddr - base, objs[id].sizeBits)
  }

  /** A greedy round leaves the untyped filled and, short of its end, still greedy. */
  ghost predicate GreedyStep(
    objs: seq<Item>, base: nat, end: nat, bits: nat, e0: map<nat, Placement>, st: State, cur: nat, last: nat)
  {
    match st
    case State(next, ws, e) =>
      && (cur < end ==> Greedy(objs, e, ws, base, cur, end, bits, last))
      && FilledUp(objs, e, ws, base, cur, bits)
      && AlignedSince(objs, e0, e, base)
  }

  lemma AlignedSinceTrans(
    objs: seq<Item>, e0: map<nat, Placement>, e1: map<nat, Placement>, e2: map<nat, Placement>, base: nat)
    requires AlignedSince(objs, e0, e1, base) && AlignedSince(objs, e1, e2, base) && Extends(e1, e2)
    ensures AlignedSince(objs, e0, e2, base)
  {
    forall id | id in e2 && id !in e0
      ensures id < |objs| && Aligned(e2[id].paddr - base, objs[id].sizeBits)
    {
      if id in e1 {
        assert e2[id] == e1[id];
      }
    }
  }

  function MaxSizeBits(base: nat, cur: nat, target: nat): nat
    requires base <= cur < target
  {
    var distance := Log2(target - cur);
    if cur == base then Min(WORD_SIZE, distance) else Min(Log2(cur - base), distance)
  }

  lemma MaxSizeFits(base: nat, cur: nat, target: nat)
    requires base <= cur < target < WORD
    ensures MaxSizeBits(base, cur, target) < WORD_SIZE
    ensures cur + Pow2(MaxSizeBits(base, cur, target)) <= target
  {
    Log2AtLeast(target - cur, MaxSizeBits(base, cur, target));
    BitsBelow64(target - cur);
  }

  /** While greedy, the size bound never hides a size that is left and fits the untyped. */
  lemma GreedyBound(
    objs: seq<Item>, e: map<nat, Placement>, ws: Windows, base: nat, cur: nat, end: nat, bits: nat, last: nat)
    requires Greedy(objs, e, ws, base, cur, end, bits, last) && cur < end < WORD
    ensures last <= MaxSizeBits(base, cur, end) <= bits
  {
    AlignedPow2(bits, last);
    AlignedAdd(Pow2(bits), cur - base, last);
    assert end - cur == Pow2(bits) - (cur - base);
    AlignedAtLeast(end - cur, last);
    Log2AtLeast(end - cur, last);
    Log2Mono(end - cur, Pow2(bits));
    Log2OfPow2(bits);
    if cur > base {
      Log2AtLeast(cur - base, last);
    }
  }

  /** One placement keeps the untyped filled from its base by whatever is still left. */
  lemma GreedyPlace(
    objs: seq<Item>, first: nat, next: nat, w: Windows, ws: Windows, e: map<nat, Placement>,
    base: nat, cur: nat, end: nat, bits: nat, last: nat, s: nat, p: Placement)
    requires Given(objs, first, w)
    requires Ready(objs, first, next, w, ws, e)
    requires Greedy(objs, e, ws, base, cur, end, bits, last) && cur < end < WORD
    requires Left(ws, s) && s <= MaxSizeBits(base, cur, end)
    requires forall t :: s < t <= MaxSizeBits(base, cur, end) ==> !Left(ws, t)
    requires p.paddr == cur
    ensures Greedy(objs, e[ws[s].value.start := p], Spend(ws, s), base, cur + Pow2(s), end, bits, s)
    ensures AlignedSince(objs, e, e[ws[s].value.start := p], base)
  {
    var id := ws[s].value.start;
    var e1, ws1 := e[id := p], Spend(ws, s);
    WindowFront(objs, first, next, w, ws, e, s);
    GreedyBound(objs, e, ws, base, cur, end, bits, last);
    MaxSizeFits(base, cur, end);
    Pow2Mono(s, MaxSizeBits(base, cur, end));
    AlignedWeaken(cur - base, last, s);
    AlignedPow2(s, s);
    AlignedAdd(cur - base, Pow2(s), s);
    PlaceFills(objs, ws, e, base, cur, end, bits, last, s, p);
    assert MaxSizeBits(base, cur, end) <= bits;
  }

  /** After one placement, sizes still left fill the untyped up to the new watermark. */
  lemma PlaceFills(
    objs: seq<Item>, ws: Windows, e: map<nat, Placement>,
    base: nat, cur: nat, end: nat, bits: nat, last: nat, s: nat, p: Placement)
    requires Greedy(objs, e, ws, base, cur, end, bits, last) && Left(ws, s) && p.paddr == cur
    requires ws[s].value.start !in e && ws[s].value.start < |objs| && objs[ws[s].value.start].sizeBits == s
    requires cur < end < WORD && last <= MaxSizeBits(base, cur, end)
    requires forall t :: s < t <= MaxSizeBits(base, cur, end) ==> !Left(ws, t)
    ensures forall t: nat :: Left(Spend(ws, s), t) && t <= bits ==> t <= s
    ensures FilledUp(objs, e[ws[s].value.start := p], Spend(ws, s), base, cur + Pow2(s), bits)
  {
    forall t: nat | Left(Spend(ws, s), t) && t <= bits
      ensures t <= s && Full(objs, e[ws[s].value.start := p], t, base, cur + Pow2(s))
    {
      assert Left(ws, t);
      FullGrows(objs, e, t, base, cur, ws[s].value.start, p);
    }
  }

  /** The moving parts of the simulation. */
  datatype State = State(next: nat, ws: Windows, e: map<nat, Placement>)

  /** Filling only adds sound placements in one untyped while the watermark rises. */
  ghost predicate Advance(
    objs: seq<Item>, uts: seq<UntypedObject>, first: nat, w: Windows, ut: nat, st0: State, cur0: nat, st: State, cur: nat)
    requires Given(objs, first, w)
  {
    match st
    case State(next, ws, e) =>
      && next == st0.next && Ready(objs, first, next, w, ws, e)
      && GrowsIn(st0.e, e, ut) && Shrunk(st0.ws, ws)
      && (Good(objs, uts, st0.e, cur0) ==> Good(objs, uts, e, cur))
  }

  lemma AdvanceTrans(
    objs: seq<Item>, uts: seq<UntypedObject>, first: nat, w: Windows, ut: nat,
    st0: State, cur0: nat, st1: State, cur1: nat, st2: State, cur2: nat)
    requires Given(objs, first, w)
    requires Advance(objs, uts, first, w, ut, st0, cur0, st1, cur1)
    requires Advance(objs, uts, first, w, ut, st1, cur1, st2, cur2)
    ensures Advance(objs, uts, first, w, ut, st0, cur0, st2, cur2)
  {
  }

  lemma Idle(
    objs: seq<Item>, uts: seq<UntypedObject>, first: nat, w: Windows, ut: nat, st: State, cur0: nat, cur: nat)
    requires Given(objs, first, w) && Ready(objs, first, st.next, w, st.ws, st.e) && cur0 <= cur
    ensures Advance(objs, uts, first, w, ut, st, cur0, st, cur)
  {
  }

  lemma Placed(
    objs: seq<Item>, uts: seq<UntypedObject>, first: nat, next: nat, w: Windows, ws: Windows,
    e: map<nat, Placement>, ut: nat, cur: nat, s: nat)
    requires Given(objs, first, w)
    requires Ready(objs, first, next, w, ws, e) && Left(ws, s)
    requires ut < |uts| && !uts[ut].isDevice && uts[ut].region.base <= cur && cur + Pow2(s) <= uts[ut].region.end
    ensures Advance(objs, uts, first, w, ut, State(next, ws, e), cur,
                    State(next, Spend(ws, s), e[ws[s].value.start := Placement(ut, cur)]), cur + Pow2(s))
  {
    WindowFront(objs, first, next, w, ws, e, s);
    SpendKeepsReady(objs, first, next, w, ws, e, s, Placement(ut, cur));
    if Good(objs, uts, e, cur) {
      GoodInsert(objs, uts, e, cur, ws[s].value.start, Placement(ut, cur));
    }
  }

  /** A normal-memory untyped of 2^bits bytes, filled from its base to its end. */
  ghost predicate IsFree(ut: UntypedObject, bits: nat, cur: nat, target: nat, fixedAhead: bool) {
    && !ut.isDevice && !fixedAhead && cur == ut.region.base && target == ut.region.end
    && ut.region.end - ut.region.base == Pow2(bits)
  }

  class SpecContainer {
    const objects: seq<Item>
    var expected: map<nat, Placement>

    constructor (objects: seq<Item>)
      ensures this.objects == objects && expected == map[]
    {
      this.objects := objects;
      expected := map[];
    }

    /** Places the largest object that still fits in 2^maxBits bytes at the watermark. */
    method PlaceOne(ut: nat, cur: nat, maxBits: nat, ws0: Windows, ghost first: nat, ghost next: nat, ghost w: Windows)
      returns (size: Option<nat>, ws: Windows)
      requires Given(objects, first, w)
      requires Ready(objects, first, next, w, ws0, expected) && maxBits < WORD_SIZE
      modifies this
      ensures Ready(objects, first, next, w, ws, expected)
      ensures size.None? ==>
        && expected == old(expected) && ws == ws0
        && forall t: nat :: t <= maxBits ==> !Left(ws0, t)
      ensures size.Some? ==>
        && size.value <= maxBits && Left(ws0, size.value) && ws == Spend(ws0, size.value)
        && (forall t: nat :: size.value < t <= maxBits ==> !Left(ws0, t))
        && ws0[size.value].value.start !in old(expected)
        && expected == old(expected)[ws0[size.value].value.start := Placement(ut, cur)]
    {
      ws := ws0;
      size := LargestLeft(ws, maxBits);
      if size.Some? {
        var s := size.value;
        var id := ws[s].value.start;
        WindowFront(objects, first, next, w, ws, expected, s);
        SpendKeepsReady(objects, first, next, w, ws, expected, s, Placement(ut, cur));
        assert id !in expected;
        expected := expected[id := Placement(ut, cur)];
        ws := Spend(ws, s);
      }
    }

    /** One round of filling: place an object or move the watermark. */
    method FillStep(
      ut: UntypedObject, utIdx: nat, target: nat, fixedAhead: bool, cur0: nat, ws0: Windows,
      ghost uts: seq<UntypedObject>, ghost first: nat, ghost next: nat, ghost w: Windows,
      ghost bits: nat, ghost last0: nat)
      returns (cur: nat, ws: Windows, ghost last: nat)
      requires ut.region.base <= cur0 < target <= ut.region.end < WORD
      requires utIdx < |uts| && uts[utIdx] == ut
      requires Given(objects, first, w)
      requires Ready(objects, first, next, w, ws0, expected)
      modifies this
      ensures cur0 < cur <= target
      ensures Advance(objects, uts, first, w, utIdx, State(next, ws0, old(expected)), cur0, State(next, ws, expected), cur)
      ensures !ut.isDevice && !fixedAhead && Greedy(objects, old(expected), ws0, ut.region.base, cur0, target, bits, last0) ==>
        GreedyStep(objects, ut.region.base, target, bits, old(expected), State(next, ws, expected), cur, last)
    {
      MaxSizeFits(ut.region.base, cur0, target);
      var maxBits := MaxSizeBits(ut.region.base, cur0, target);
      ghost var was := expected;
      var size := None;
      ws, last := ws0, last0;
      if !ut.isDevice {
        size, ws := PlaceOne(utIdx, cur0, maxBits, ws0, first, next, w);
      }
      match size
      case Some(s) =>
        Pow2Mono(s, maxBits);
        Placed(objects, uts, first, next, w, ws0, was, utIdx, cur0, s);
        if !fixedAhead && Greedy(objects, was, ws0, ut.region.base, cur0, target, bits, last0) {
          GreedyPlace(objects, first, next, w, ws0, was, ut.region.base, cur0, target, bits, last0, s,
                      Placement(utIdx, cur0));
          last := s;
        }
        cur := cur0 + Pow2(s);
      case None =>
        if !fixedAhead && !ut.isDevice && Greedy(objects, was, ws0, ut.region.base, cur0, target, bits, last0) {
          GreedyBound(objects, was, ws0, ut.region.base, cur0, target, bits, last0);
        }
        if fixedAhead {
          cur := cur0 + Pow2(maxBits);
        } else {
          cur := target;
        }
        Idle(objects, uts, first, w, utIdx, State(next, ws0, was), cur0, cur);
    }

    /** Fills an untyped from the watermark up to `target` with ordinary objects; the
        watermark ends exactly on the target. */
    method FillTo(
      ut: UntypedObject, utIdx: nat, target: nat, fixedAhead: bool, cur0: nat, ws0: Windows,
      ghost uts: seq<UntypedObject>, ghost first: nat, ghost next: nat, ghost w: Windows, ghost bits: nat)
      returns (cur: nat, ws: Windows)
      requires ut.region.base <= cur0 && target <= ut.region.end < WORD
      requires utIdx < |uts| && uts[utIdx] == ut
      requires Given(objects, first, w)
      requires Ready(objects, first, next, w, ws0, expected)
      modifies this
      ensures cur == if cur0 < target then target else cur0
      ensures Advance(objects, uts, first, w, utIdx, State(next, ws0, old(expected)), cur0, State(next, ws, expected), cur)
      ensures IsFree(ut, bits, cur0, target, fixedAhead) ==>
        && FilledUp(objects, expected, ws, ut.region.base, ut.region.end, bits)
        && AlignedSince(objects, old(expected), expected, ut.region.base)
    {
      cur, ws := cur0, ws0;
      ghost var free := IsFree(ut, bits, cur0, target, fixedAhead);
      ghost var last := bits;
      ghost var st0 := State(next, ws0, expected);
      if free {
        BitsBelow64(Pow2(bits));
        Log2OfPow2(bits);
        AlignedZero(bits);
      }
      Idle(objects, uts, first, w, utIdx, st0, cur0, cur0);
      while cur < target
        invariant cur0 <= cur && (cur0 < target ==> cur <= target) && (target <= cur0 ==> cur == cur0)
        invariant Advance(objects, uts, first, w, utIdx, st0, cur0, State(next, ws, expected), cur)
        invariant free ==>
          GreedyStep(objects, ut.region.base, target, bits, old(expected), State(next, ws, expected), cur, last)
      {
        ghost var st1, cur1, last1 := State(next, ws, expected), cur, last;
        cur, ws, last := FillStep(ut, utIdx, target, fixedAhead, cur, ws, uts, first, next, w, bits, last);
        AdvanceTrans(objects, uts, first, w, utIdx, st0, cur0, st1, cur1, State(next, ws, expected), cur);
        if free {
          AlignedSinceTrans(objects, st0.e, st1.e, expected, ut.region.base);
        }
      }
    }

    /** One untyped: ordinary objects up to each fixed address, then the fixed object. */
    method FillUntyped(
      ut: UntypedObject, utIdx: nat, first: nat, next0: nat, ws0: Windows,
      ghost uts: seq<UntypedObject>, ghost w: Windows, ghost bits: nat)
      returns (panicked: bool, next: nat, ws: Windows)
      requires ut.region.base < ut.region.end < WORD
      requires utIdx < |uts| && uts[utIdx] == ut
      requires Given(objects, first, w)
      requires Ready(objects, first, next0, w, ws0, expected)
      modifies this
      ensures next0 <= next && Ready(objects, first, next, w, ws, expected)
      ensures GrowsIn(old(expected), expected, utIdx) && Shrunk(ws0, ws)
      ensures Landed(objects, first, ut.region, State(next0, ws0, old(expected)), panicked, State(next, ws, expected))
      ensures FixedFit(objects, first, next0, ut) ==>
        && !panicked && (next == first || objects[next].paddr.value >= ut.region.end)
        && (Good(objects, uts, old(expected), ut.region.base) ==> Good(objects, uts, expected, ut.region.end))
      ensures NormalWithoutFixed(objects, first, next0, ut, bits) ==>
        && next == next0
        && FilledUp(objects, expected, ws, ut.region.base, ut.region.end, bits)
        && AlignedSince(objects, old(expected), expected, ut.region.base)
    {
      panicked, next, ws := false, next0, ws0;
      var cur := ut.region.base;
      ghost var st0 := State(next0, ws0, expected);
      TrackStart(objects, first, ut.region, st0, cur);
      while true
        invariant next0 <= next && ut.region.base <= cur
        invariant Ready(objects, first, next, w, ws, expected)
        invariant GrowsIn(old(expected), expected, utIdx) && Shrunk(ws0, ws)
        invariant Tracked(objects, first, ut.region, st0, State(next, ws, expected), cur)
        invariant FixedFit(objects, first, next0, ut) ==>
          && cur <= ut.region.end
          && (next < first ==> cur <= objects[next].paddr.value)
          && (Good(objects, uts, old(expected), ut.region.base) ==> Good(objects, uts, expected, cur))
        invariant NormalWithoutFixed(objects, first, next0, ut, bits) ==>
          next == next0 && cur == ut.region.base && ws == ws0 && expected == old(expected)
        decreases first - next
      {
        var target := ut.region.end;
        if next < first {
          target := Min(ut.region.end, objects[next].paddr.value);
        }
        var fixedAhead := target < ut.region.end;
        ghost var st, cur1 := State(next, ws, expected), cur;
        cur, ws := FillTo(ut, utIdx, target, fixedAhead, cur, ws, uts, first, next, w, bits);
        TrackFilled(objects, first, w, ut.region, st0, st, State(next, ws, expected), cur1);
        if !fixedAhead {
          TrackEnd(objects, first, ut.region, st0, State(next, ws, expected), cur1);
          break;
        }
        ghost var st1 := State(next, ws, expected);
        panicked, cur := PlaceFixed(ut, utIdx, cur, next, first, ws, uts, w);
        next := next + 1;
        TrackFixed(objects, first, ut.region, st0, st1, cur1, State(next, ws, expected), panicked, cur);
        if panicked {
          break;
        }
      }
    }

    /** The watermark must stand on the object's address; anything else is a panic. */
    method PlaceFixed(
      ut: UntypedObject, utIdx: nat, cur0: nat, next: nat, first: nat, ghost ws: Windows,
      ghost uts: seq<UntypedObject>, ghost w: Windows)
      returns (panicked: bool, cur: nat)
      requires utIdx < |uts| && uts[utIdx] == ut && ut.region.base <= cur0
      requires Given(objects, first, w)
      requires Ready(objects, first, next, w, ws, expected) && next < first
      modifies this
      ensures panicked <==> objects[next].paddr.value != cur0
      ensures cur == cur0 + objects[next].Bytes()
      ensures Ready(objects, first, next + 1, w, ws, expected)
      ensures GrowsIn(old(expected), expected, utIdx)
      ensures !panicked && AtHome(objects, first, old(expected)) ==> AtHome(objects, first, expected)
      ensures !panicked && cur <= ut.region.end && Good(objects, uts, old(expected), cur0) ==>
        Good(objects, uts, expected, cur)
    {
      FixedNotBooked(objects, first, next, w, ws, expected, Placement(utIdx, cur0));
      assert next !in expected;
      ghost var was := expected;
      expected := expected[next := Placement(utIdx, cur0)];
      panicked := objects[next].paddr.value != cur0;
      cur := cur0 + objects[next].Bytes();
      if !panicked && cur <= ut.region.end && Good(objects, uts, was, cur0) {
        GoodInsert(objects, uts, was, cur0, next, Placement(utIdx, cur0));
      }
    }

    /** All untypeds, lowest first. */
    method FillAll(
      uts: seq<UntypedObject>, order: seq<nat>, first: nat, ws0: Windows, ghost w: Windows)
      returns (panicked: bool, next: nat, ws: Windows)
      requires Given(objects, first, w) && UntypedsOk(uts) && ByBase(uts, order, |uts|)
      requires Ready(objects, first, 0, w, ws0, expected) && expected == map[]
      modifies this
      ensures panicked || Stage(objects, first, w, uts, order, |order|, State(next, ws, expected))
      ensures panicked ==> !Fine(objects, first, uts) && first > 0
      ensures Outcome(panicked, next) == FixedFrom(objects, first, 0, uts, order, 0)
      ensures panicked || AtHome(objects, first, expected)
    {
      panicked, next, ws := false, 0, ws0;
      var k := 0;
      while k < |order| && !panicked
        invariant 0 <= k <= |order|
        invariant panicked || Stage(objects, first, w, uts, order, k, State(next, ws, expected))
        invariant panicked ==> !Fine(objects, first, uts) && first > 0
        invariant FixedFrom(objects, first, 0, uts, order, 0)
          == if panicked then None else FixedFrom(objects, first, next, uts, order, k)
        invariant panicked || AtHome(objects, first, expected)
      {
        panicked, next, ws := FillNext(uts, order, k, first, next, ws, w);
        k := k + 1;
      }
    }

    method FillNext(
      uts: seq<UntypedObject>, order: seq<nat>, k: nat, first: nat, next0: nat, ws0: Windows, ghost w: Windows)
      returns (panicked: bool, next: nat, ws: Windows)
      requires Given(objects, first, w) && UntypedsOk(uts) && ByBase(uts, order, |uts|) && k < |order|
      requires Stage(objects, first, w, uts, order, k, State(next0, ws0, expected))
      modifies this
      ensures panicked || Stage(objects, first, w, uts, order, k + 1, State(next, ws, expected))
      ensures panicked ==> !Fine(objects, first, uts) && first > 0
      ensures FixedFrom(objects, first, next0, uts, order, k)
        == if panicked then None else FixedFrom(objects, first, next, uts, order, k + 1)
      ensures !panicked && AtHome(objects, first, old(expected)) ==> AtHome(objects, first, expected)
    {
      var ut := uts[order[k]];
      ghost var was := expected;
      if Fine(objects, first, uts) {
        PendingFit(objects, first, uts, order, k, next0);
      }
      panicked, next, ws := FillUntyped(ut, order[k], first, next0, ws0, uts, w, Log2(ut.region.end - ut.region.base));
      LandedIs(objects, first, ut.region, State(next0, ws0, was), panicked, State(next, ws, expected));
      if !panicked {
        assert UntypedDone(objects, first, uts, ut, State(next0, ws0, was), State(next, ws, expected));
        StageStep(objects, first, w, uts, order, k, State(next0, ws0, was), State(next, ws, expected));
      }
    }

    /** The tool's verdict: `ok` when every window is spent. A failed check of the fixed
        addresses ends the simulation only when errors are printed. */
    method Simulate(uts: seq<UntypedObject>, printErrors: bool) returns (panicked: bool, ok: bool, ghost first: nat)
      requires SpecSorted(objects) && expected == map[] && UntypedsOk(uts)
      modifies this
      ensures FixedPrefix(objects, first)
      ensures printErrors && !AllHeld(objects, first, uts) ==> !panicked && !ok
      ensures panicked ==> !Fine(objects, first, uts) && first > 0
      ensures Fine(objects, first, uts) ==>
        && Inside(objects, uts, expected) && Disjoint(objects, expected)
        && AlignedWhereFree(objects, first, uts, expected)
        && (forall id :: id in expected ==> NeedsPlace(objects, id))
        && (ok <==> Complete(objects, expected))
      ensures first == 0 && UntypedsApart(uts) && AllPowersOfTwo(uts) ==>
        (ok <==> exists p :: IsPlacement(objects, uts, p))
      ensures !printErrors || (UntypedsApart(uts) && AllHeld(objects, first, uts)) ==>
        && (!panicked ==> WithoutCheck(objects, first, expected, ok))
        && (UntypedsApart(uts) && FixedApart(objects, first) ==> FixedPlaced(objects, first, uts, expected, panicked))
    {
      var order := SortByBase(uts, |uts|);
      SortIsByBase(uts, |uts|);
      first := FirstWithoutPaddr(objects);
      var firstFree := FirstWithoutPaddr(objects);
      PrefixUnique(objects, first, firstFree);
      var w := BuildWindows(objects, firstFree);
      var checked := CheckFixed(objects, firstFree, uts, order);
      panicked, ok := false, false;
      if !checked && printErrors {
        return;
      }
      InitiallyReady(objects, firstFree, w);
      var next, ws;
      panicked, next, ws := FillAll(uts, order, firstFree, w, w);
      FixedPlaces(objects, firstFree, w, uts, order, State(next, ws, expected), panicked);
      if panicked {
        return;
      }
      ok := AllSpent(ws);
      Verdict(objects, firstFree, w, uts, order, State(next, ws, expected), ok);
      SpentMeansPlaced(objects, firstFree, w, State(next, ws, expected), ok);
    }
  }

  method AllSpent(ws: Windows) returns (ok: bool)
    ensures ok <==> forall s: nat :: s < |ws| && ws[s].Some? ==> ws[s].value.start == ws[s].value.end
  {
    ok := true;
    var s := 0;
    while s < |ws|
      invariant 0 <= s <= |ws|
      invariant ok <==> forall t: nat :: t < s && ws[t].Some? ==> ws[t].value.start == ws[t].value.end
    {
      if ws[s].Some? && ws[s].value.start != ws[s].value.end {
        ok := false;
      }
      s := s + 1;
    }
  }

  lemma PrefixUnique(objs: seq<Item>, m: nat, n: nat)
    requires FixedPrefix(objs, m) && FixedPrefix(objs, n)
    ensures m == n
  {
    assert m < |objs| ==> objs[m].paddr.None?;
    assert n < |objs| ==> objs[n].paddr.None?;
  }

  lemma InitiallyReady(objs: seq<Item>, first: nat, w: Windows)
    requires Given(objs, first, w)
    ensures Ready(objs, first, 0, w, w, map[])
  {
    forall id: nat
      ensures !IsBooked(objs, first, 0, w, id)
    {
      if first <= id < |objs| {
        var s := objs[id].sizeBits;
        assert WindowHolds(objs, first, |objs|, s, w[s]);
      }
    }
  }

  lemma Verdict(
    objs: seq<Item>, first: nat, w: Windows, uts: seq<UntypedObject>, order: seq<nat>, st: State, ok: bool)
    requires Given(objs, first, w) && UntypedsOk(uts) && ByBase(uts, order, |uts|)
    requires Stage(objs, first, w, uts, order, |order|, st)
    requires ok <==> forall s: nat :: s < |st.ws| && st.ws[s].Some? ==> st.ws[s].value.start == st.ws[s].value.end
    ensures Fine(objs, first, uts) ==>
      && Inside(objs, uts, st.e) && Disjoint(objs, st.e) && AlignedWhereFree(objs, first, uts, st.e)
      && (forall id :: id in st.e ==> NeedsPlace(objs, id))
      && (ok <==> Complete(objs, st.e))
    ensures first == 0 && UntypedsApart(uts) && AllPowersOfTwo(uts) ==>
      (ok <==> exists p :: IsPlacement(objs, uts, p))
  {
    if Fine(objs, first, uts) {
      PendingFit(objs, first, uts, order, |order|, st.next);
      BookedMeansNeeded(objs, first, w, st, ok);
      if first == 0 && AllPowersOfTwo(uts) {
        if ok {
          assert IsPlacement(objs, uts, st.e);
        } else {
          var s: nat :| s < |st.ws| && st.ws[s].Some? && st.ws[s].value.start != st.ws[s].value.end;
          assert Left(st.ws, s);
          Shortfall(objs, w, uts, order, st);
        }
      }
    }
  }

  lemma BookedMeansNeeded(objs: seq<Item>, first: nat, w: Windows, st: State, ok: bool)
    requires Given(objs, first, w) && Ready(objs, first, first, w, st.ws, st.e)
    requires ok <==> forall s: nat :: s < |st.ws| && st.ws[s].Some? ==> st.ws[s].value.start == st.ws[s].value.end
    ensures forall id :: id in st.e ==> NeedsPlace(objs, id)
    ensures ok <==> Complete(objs, st.e)
  {
    forall id: nat
      ensures id in st.e ==> NeedsPlace(objs, id)
      ensures ok && NeedsPlace(objs, id) ==> id in st.e
    {
      assert id in st.e <==> IsBooked(objs, first, first, st.ws, id);
      if first <= id < |objs| {
        var s := objs[id].sizeBits;
        assert WindowHolds(objs, first, |objs|, s, w[s]);
      }
    }
    if !ok {
      var s: nat :| s < |st.ws| && st.ws[s].Some? && st.ws[s].value.start != st.ws[s].value.end;
      assert Left(st.ws, s);
      WindowFront(objs, first, first, w, st.ws, st.e, s);
      assert NeedsPlace(objs, st.ws[s].value.start);
    }
  }

  /** Running out of memory is not the fault of the greedy order. */
  lemma Shortfall(objs: seq<Item>, w: Windows, uts: seq<UntypedObject>, order: seq<nat>, st: State)
    requires Given(objs, 0, w) && UntypedsOk(uts) && ByBase(uts, order, |uts|)
    requires Ready(objs, 0, 0, w, st.ws, st.e) && AllFilled(objs, st.e, st.ws, uts, order, |order|)
    requires Inside(objs, uts, st.e) && Disjoint(objs, st.e) && AllPowersOfTwo(uts)
    requires forall id :: id in st.e ==> NeedsPlace(objs, id)
    requires exists s: nat :: Left(st.ws, s)
    ensures forall p :: !IsPlacement(objs, uts, p)
  {
    var s: nat :| Left(st.ws, s);
    var left := st.ws[s].value.start;
    WindowFront(objs, 0, 0, w, st.ws, st.e, s);
    forall u | 0 <= u < |uts| && CouldHold(uts[u], s)
      ensures Full(objs, st.e, s, uts[u].region.base, uts[u].region.end)
    {
      var k := PositionOf(uts, order, u);
      assert UtFilled(objs, st.e, st.ws, uts[order[k]]);
      Log2AtLeast(uts[u].region.end - uts[u].region.base, s);
    }
    forall p
      ensures !IsPlacement(objs, uts, p)
    {
      NoPlacement(objs, uts, st.e, left, p);
    }
  }

  /** What holds when the first k untypeds are done. */
  ghost predicate Stage(
    objs: seq<Item>, first: nat, w: Windows, uts: seq<UntypedObject>, order: seq<nat>, k: nat, st: State)
    requires Given(objs, first, w) && UntypedsOk(uts) && Ids(uts, order) && k <= |order|
  {
    match st
    case State(next, ws, e) =>
      && Ready(objs, first, next, w, ws, e)
      && (Fine(objs, first, uts) ==> Sound(objs, first, uts, order, k, next, e))
      && (first == 0 ==> AllFilled(objs, e, ws, uts, order, k))
  }

  lemma StageStep(
    objs: seq<Item>, first: nat, w: Windows, uts: seq<UntypedObject>, order: seq<nat>, k: nat, st0: State, st: State)
    requires Given(objs, first, w) && UntypedsOk(uts) && ByBase(uts, order, |uts|) && k < |order|
    requires Stage(objs, first, w, uts, order, k, st0)
    requires Ready(objs, first, st.next, w, st.ws, st.e)
    requires GrowsIn(st0.e, st.e, order[k]) && Shrunk(st0.ws, st.ws)
    requires UntypedDone(objs, first, uts, uts[order[k]], st0, st)
    ensures Stage(objs, first, w, uts, order, k + 1, st)
  {
    if Fine(objs, first, uts) {
      SoundStep(objs, first, uts, order, k, st0, st);
    }
    if first == 0 {
      FilledStay(objs, st0.e, st.e, st0.ws, st.ws, uts, order, k);
    }
  }

  /** The state between two untypeds. */
  ghost predicate Sound(
    objs: seq<Item>, first: nat, uts: seq<UntypedObject>, order: seq<nat>, k: nat, next: nat, e: map<nat, Placement>)
    requires FixedPrefix(objs, first) && UntypedsOk(uts) && Ids(uts, order) && k <= |order|
  {
    && (next < first ==> objs[next].paddr.value >= Low(uts, order, k))
    && Good(objs, uts, e, Low(uts, order, k))
    && AlignedWhereFree(objs, first, uts, e)
  }

  /** What filling one untyped achieves. */
  ghost predicate UntypedDone(
    objs: seq<Item>, first: nat, uts: seq<UntypedObject>, ut: UntypedObject, st0: State, st: State)
    requires FixedPrefix(objs, first) && st.next <= first && ut.region.base < ut.region.end
  {
    match st
    case State(next, ws, e) =>
      && (FixedFit(objs, first, st0.next, ut) ==>
            && (next == first || objs[next].paddr.value >= ut.region.end)
            && (Good(objs, uts, st0.e, ut.region.base) ==> Good(objs, uts, e, ut.region.end)))
      && var bits := Log2(ut.region.end - ut.region.base);
         NormalWithoutFixed(objs, first, st0.next, ut, bits) ==>
           && FilledUp(objs, e, ws, ut.region.base, ut.region.end, bits)
           && AlignedSince(objs, st0.e, e, ut.region.base)
  }

  lemma SoundStep(
    objs: seq<Item>, first: nat, uts: seq<UntypedObject>, order: seq<nat>, k: nat, st0: State, st: State)
    requires SpecSorted(objs) && FixedPrefix(objs, first) && UntypedsOk(uts) && Fine(objs, first, uts)
    requires ByBase(uts, order, |uts|) && k < |order| && st.next <= first
    requires Sound(objs, first, uts, order, k, st0.next, st0.e) && GrowsIn(st0.e, st.e, order[k])
    requires UntypedDone(objs, first, uts, uts[order[k]], st0, st)
    ensures Sound(objs, first, uts, order, k + 1, st.next, st.e)
  {
    PendingFit(objs, first, uts, order, k, st0.next);
    LowRises(uts, order, k);
    SoundGrows(objs, first, uts, order, k, st0.next, st.next, st0.e, st.e);
  }

  lemma SoundGrows(
    objs: seq<Item>, first: nat, uts: seq<UntypedObject>, order: seq<nat>, k: nat, next0: nat, next: nat,
    e0: map<nat, Placement>, e1: map<nat, Placement>)
    requires FixedPrefix(objs, first) && UntypedsOk(uts) && Ids(uts, order) && k < |order|
    requires Sound(objs, first, uts, order, k, next0, e0)
    requires Low(uts, order, k) <= uts[order[k]].region.base
    requires FixedFit(objs, first, next0, uts[order[k]]) && GrowsIn(e0, e1, order[k])
    requires next < first ==> objs[next].paddr.value >= uts[order[k]].region.end
    requires Good(objs, uts, e0, uts[order[k]].region.base) ==> Good(objs, uts, e1, uts[order[k]].region.end)
    requires var ut := uts[order[k]];
      NormalWithoutFixed(objs, first, next0, ut, Log2(ut.region.end - ut.region.base)) ==>
        AlignedSince(objs, e0, e1, ut.region.base)
    ensures Sound(objs, first, uts, order, k + 1, next, e1)
  {
    assert Good(objs, uts, e0, uts[order[k]].region.base);
    AlignedWhereFreeGrows(objs, first, uts, e0, e1, order[k], next0);
  }

  /** All fixed addresses pass the check and nothing overlaps. */
  ghost predicate Fine(objs: seq<Item>, first: nat, uts: seq<UntypedObject>)
    requires FixedPrefix(objs, first) && UntypedsOk(uts)
  {
    UntypedsApart(uts) && FixedApart(objs, first) && AllHeld(objs, first, uts)
  }

  /** Where the k-th untyped may start at the earliest. */
  ghost function Low(uts: seq<UntypedObject>, order: seq<nat>, k: nat): nat
    requires Ids(uts, order) && k <= |order|
  {
    if k == 0 then 0 else uts[order[k - 1]].region.end
  }

  lemma OrderedApart(uts: seq<UntypedObject>, order: seq<nat>, i: nat, j: nat)
    requires UntypedsOk(uts) && UntypedsApart(uts) && ByBase(uts, order, |uts|) && i < j < |order|
    ensures uts[order[i]].region.end <= uts[order[j]].region.base
  {
    var a, b := order[i], order[j];
    assert uts[a].region.base <= uts[b].region.base && a != b;
  }

  lemma LowRises(uts: seq<UntypedObject>, order: seq<nat>, k: nat)
    requires UntypedsOk(uts) && UntypedsApart(uts) && ByBase(uts, order, |uts|) && k < |order|
    ensures Low(uts, order, k) <= uts[order[k]].region.base
  {
    if k > 0 {
      OrderedApart(uts, order, k - 1, k);
    }
  }

  /** Fixed objects that are pending when an untyped is reached start in it or later;
      when all untypeds are done none is pending. */
  lemma PendingFit(objs: seq<Item>, first: nat, uts: seq<UntypedObject>, order: seq<nat>, k: nat, next: nat)
    requires SpecSorted(objs) && FixedPrefix(objs, first) && UntypedsOk(uts) && ByBase(uts, order, |uts|)
    requires Fine(objs, first, uts) && k <= |order|
    requires next < first ==> objs[next].paddr.value >= Low(uts, order, k)
    ensures k < |order| ==> FixedFit(objs, first, next, uts[order[k]])
    ensures k == |order| ==> next >= first
  {
    forall i | next <= i < first
      ensures k < |order|
      ensures uts[order[k]].region.base <= objs[i].paddr.value
      ensures objs[i].paddr.value < uts[order[k]].region.end ==>
        objs[i].paddr.value + objs[i].Bytes() <= uts[order[k]].region.end
    {
      PendingFitOne(objs, first, uts, order, k, i);
    }
  }

  lemma LowCovers(uts: seq<UntypedObject>, order: seq<nat>, m: nat, k: nat)
    requires UntypedsOk(uts) && UntypedsApart(uts) && ByBase(uts, order, |uts|) && m < k <= |order|
    ensures uts[order[m]].region.end <= Low(uts, order, k)
  {
    if m + 1 < k {
      OrderedApart(uts, order, m, k - 1);
    }
  }

  lemma PendingFitOne(objs: seq<Item>, first: nat, uts: seq<UntypedObject>, order: seq<nat>, k: nat, i: nat)
    requires FixedPrefix(objs, first) && UntypedsOk(uts) && ByBase(uts, order, |uts|)
    requires UntypedsApart(uts) && AllHeld(objs, first, uts) && k <= |order| && i < first
    requires objs[i].paddr.value >= Low(uts, order, k)
    ensures k < |order|
    ensures uts[order[k]].region.base <= objs[i].paddr.value
    ensures objs[i].paddr.value < uts[order[k]].region.end ==>
      objs[i].paddr.value + objs[i].Bytes() <= uts[order[k]].region.end
  {
    assert HeldBySome(objs, i, uts);
    var u :| 0 <= u < |uts| && HeldBy(objs, i, uts[u]);
    HeldInside(objs, i, uts[u]);
    var m := PositionOf(uts, order, u);
    if m < k {
      LowCovers(uts, order, m, k);
    } else if m > k {
      OrderedApart(uts, order, k, m);
    }
  }

  /** In an untyped without fixed objects every object is aligned to its own size. */
  ghost predicate AlignedWhereFree(objs: seq<Item>, first: nat, uts: seq<UntypedObject>, e: map<nat, Placement>)
    requires FixedPrefix(objs, first) && UntypedsOk(uts)
  {
    forall id :: id in e ==> AlignedIfFree(objs, first, uts, id, e[id])
  }

  ghost predicate AlignedIfFree(objs: seq<Item>, first: nat, uts: seq<UntypedObject>, id: nat, p: Placement)
    requires FixedPrefix(objs, first) && UntypedsOk(uts)
  {
    && id < |objs| && p.ut < |uts|
    && (FreeOfFixed(objs, first, uts[p.ut]) ==> Aligned(p.paddr - uts[p.ut].region.base, objs[id].sizeBits))
  }

  ghost predicate FreeOfFixed(objs: seq<Item>, first: nat, ut: UntypedObject)
    requires FixedPrefix(objs, first) && ut.region.base < ut.region.end
  {
    && ut.region.end - ut.region.base == Pow2(Log2(ut.region.end - ut.region.base))
    && forall i :: 0 <= i < first ==> !ut.region.Has(objs[i].paddr.value)
  }

  lemma AlignedWhereFreeGrows(
    objs: seq<Item>, first: nat, uts: seq<UntypedObject>, e0: map<nat, Placement>, e1: map<nat, Placement>, u: nat, next: nat)
    requires FixedPrefix(objs, first) && UntypedsOk(uts) && u < |uts| && GrowsIn(e0, e1, u)
    requires AlignedWhereFree(objs, first, uts, e0) && Inside(objs, uts, e1)
    requires FixedFit(objs, first, next, uts[u])
    requires NormalWithoutFixed(objs, first, next, uts[u], Log2(uts[u].region.end - uts[u].region.base)) ==>
      AlignedSince(objs, e0, e1, uts[u].region.base)
    ensures AlignedWhereFree(objs, first, uts, e1)
  {
    forall id | id in e1
      ensures AlignedIfFree(objs, first, uts, id, e1[id])
    {
      if id in e0 {
        assert e1[id] == e0[id];
      } else {
        NewAlignedIfFree(objs, first, uts, e0, e1, u, next, id);
      }
    }
  }

  lemma NewAlignedIfFree(
    objs: seq<Item>, first: nat, uts: seq<UntypedObject>, e0: map<nat, Placement>, e1: map<nat, Placement>, u: nat,
    next: nat, id: nat)
    requires FixedPrefix(objs, first) && UntypedsOk(uts) && u < |uts|
    requires FixedFit(objs, first, next, uts[u])
    requires NormalWithoutFixed(objs, first, next, uts[u], Log2(uts[u].region.end - uts[u].region.base)) ==>
      AlignedSince(objs, e0, e1, uts[u].region.base)
    requires id in e1 && id !in e0 && e1[id].ut == u && PlacedWell(objs, uts, id, e1[id])
    ensures AlignedIfFree(objs, first, uts, id, e1[id])
  {
    if FreeOfFixed(objs, first, uts[u]) {
      assert uts[u].region.Has(e1[id].paddr);
      assert objs[id].paddr.None?;
      assert next < first ==> !uts[u].region.Has(objs[next].paddr.value);
    }
  }

  // ---- what the greedy order achieves ----

  ghost predicate UtFilled(objs: seq<Item>, e: map<nat, Placement>, ws: Windows, ut: UntypedObject)
    requires ut.region.base < ut.region.end
  {
    var bits := Log2(ut.region.end - ut.region.base);
    !ut.isDevice && ut.region.end - ut.region.base == Pow2(bits) ==>
      FilledUp(objs, e, ws, ut.region.base, ut.region.end, bits)
  }

  ghost predicate AllFilled(
    objs: seq<Item>, e: map<nat, Placement>, ws: Windows, uts: seq<UntypedObject>, order: seq<nat>, n: nat)
    requires UntypedsOk(uts) && Ids(uts, order) && n <= |order|
  {
    forall k :: 0 <= k < n ==> UtFilled(objs, e, ws, uts[order[k]])
  }

  lemma FilledStay(
    objs: seq<Item>, e0: map<nat, Placement>, e1: map<nat, Placement>, w0: Windows, w1: Windows,
    uts: seq<UntypedObject>, order: seq<nat>, n: nat)
    requires UntypedsOk(uts) && Ids(uts, order) && n <= |order|
    requires AllFilled(objs, e0, w0, uts, order, n) && Extends(e0, e1) && Shrunk(w0, w1)
    ensures AllFilled(objs, e1, w1, uts, order, n)
  {
    forall k | 0 <= k < n
      ensures UtFilled(objs, e1, w1, uts[order[k]])
    {
      var ut := uts[order[k]];
      assert UtFilled(objs, e0, w0, ut);
      forall s: nat | Left(w1, s) && s <= Log2(ut.region.end - ut.region.base)
            && !ut.isDevice && ut.region.end - ut.region.base == Pow2(Log2(ut.region.end - ut.region.base))
        ensures Full(objs, e1, s, ut.region.base, ut.region.end)
      {
        assert Left(w0, s);
        FullStays(objs, e0, e1, s, ut.region.base, ut.region.end);
      }
    }
  }

  lemma FixedNotBooked(
    objs: seq<Item>, first: nat, next: nat, w: Windows, ws: Windows, e: map<nat, Placement>, p: Placement)
    requires Given(objs, first, w)
    requires Ready(objs, first, next, w, ws, e) && next < first
    ensures next !in e
    ensures Ready(objs, first, next + 1, w, ws, e[next := p])
  {
    assert !IsBooked(objs, first, next, ws, next);
    var e1 := e[next := p];
    forall id: nat
      ensures id in e1 <==> IsBooked(objs, first, next + 1, ws, id)
    {
      assert id in e <==> IsBooked(objs, first, next, ws, id);
    }
  }

  /** The pending fixed objects are disjoint, none starts below the untyped, and one that
      starts inside it ends inside it. */
  ghost predicate FixedFit(objs: seq<Item>, first: nat, next: nat, ut: UntypedObject)
    requires FixedPrefix(objs, first)
  {
    && FixedApart(objs, first)
    && forall i :: next <= i < first ==>
        && ut.region.base <= objs[i].paddr.value
        && (objs[i].paddr.value < ut.region.end ==> objs[i].paddr.value + objs[i].Bytes() <= ut.region.end)
  }

  ghost predicate FixedApart(objs: seq<Item>, first: nat)
    requires FixedPrefix(objs, first)
  {
    forall i, j :: 0 <= i < j < first ==> objs[i].paddr.value + objs[i].Bytes() <= objs[j].paddr.value
  }

  ghost predicate NormalWithoutFixed(objs: seq<Item>, first: nat, next: nat, ut: UntypedObject, bits: nat)
    requires FixedPrefix(objs, first)
  {
    && !ut.isDevice && ut.region.end - ut.region.base == Pow2(bits)
    && (next < first ==> objs[next].paddr.value >= ut.region.end)
  }

  // ---- the fixed objects, whatever the check said ----

  function Outcome(panicked: bool, next: nat): Option<nat> {
    if panicked then None else Some(next)
  }

  /** The untyped up to `end` takes fixed objects from `next` on, its watermark at `cur`: the
      first object that it leaves, or None where the watermark has passed the address. */
  ghost function FixedIn(objs: seq<Item>, first: nat, next: nat, cur: nat, end: nat): Option<nat>
    requires FixedPrefix(objs, first)
    decreases first - next
  {
    if next >= first || objs[next].paddr.value >= end then Some(next)
    else if objs[next].paddr.value < cur then None
    else FixedIn(objs, first, next + 1, objs[next].paddr.value + objs[next].Bytes(), end)
  }

  lemma FixedNext(objs: seq<Item>, first: nat, next: nat, cur: nat, end: nat)
    requires FixedPrefix(objs, first)
    ensures FixedIn(objs, first, next, cur, end)
      == if next >= first || objs[next].paddr.value >= end then Some(next)
         else if objs[next].paddr.value < cur then None
         else FixedIn(objs, first, next + 1, objs[next].paddr.value + objs[next].Bytes(), end)
  {
  }

  /** The same across the untypeds from the k-th on. */
  ghost function FixedFrom(
    objs: seq<Item>, first: nat, next: nat, uts: seq<UntypedObject>, order: seq<nat>, k: nat): Option<nat>
    requires FixedPrefix(objs, first) && Ids(uts, order) && k <= |order|
    decreases |order| - k
  {
    if k == |order| then Some(next)
    else
      match FixedIn(objs, first, next, uts[order[k]].region.base, uts[order[k]].region.end)
      case None => None
      case Some(n) => FixedFrom(objs, first, n, uts, order, k + 1)
  }

  /** Placed fixed objects are at their addresses. */
  ghost predicate AtHome(objs: seq<Item>, first: nat, e: map<nat, Placement>)
    requires FixedPrefix(objs, first)
  {
    forall id :: id in e && id < first ==> e[id].paddr == objs[id].paddr.value
  }

  /** Filling with ordinary objects places no fixed ones. */
  lemma HomeStays(objs: seq<Item>, first: nat, w: Windows, st0: State, st: State)
    requires Given(objs, first, w) && st.next == st0.next && Extends(st0.e, st.e)
    requires Ready(objs, first, st0.next, w, st0.ws, st0.e) && Ready(objs, first, st.next, w, st.ws, st.e)
    ensures AtHome(objs, first, st0.e) ==> AtHome(objs, first, st.e)
  {
    forall id | id in st.e && id < first
      ensures id in st0.e
    {
      assert IsBooked(objs, first, st.next, st.ws, id);
      assert IsBooked(objs, first, st0.next, st0.ws, id);
    }
  }

  /** Where filling the region from its base has got, as far as fixed objects go. */
  ghost predicate Tracked(objs: seq<Item>, first: nat, r: MemoryRegion, st0: State, st: State, cur: nat)
    requires FixedPrefix(objs, first)
  {
    match st
    case State(next, _, e) =>
      && FixedIn(objs, first, st0.next, r.base, r.end) == FixedIn(objs, first, next, cur, r.end)
      && (AtHome(objs, first, st0.e) ==> AtHome(objs, first, e))
  }

  ghost predicate Landed(objs: seq<Item>, first: nat, r: MemoryRegion, st0: State, panicked: bool, st: State)
    requires FixedPrefix(objs, first)
  {
    match st
    case State(next, _, e) =>
      && Outcome(panicked, next) == FixedIn(objs, first, st0.next, r.base, r.end)
      && (!panicked && AtHome(objs, first, st0.e) ==> AtHome(objs, first, e))
  }

  lemma LandedIs(objs: seq<Item>, first: nat, r: MemoryRegion, st0: State, panicked: bool, st: State)
    requires FixedPrefix(objs, first) && Landed(objs, first, r, st0, panicked, st)
    ensures FixedIn(objs, first, st0.next, r.base, r.end) == Outcome(panicked, st.next)
    ensures !panicked && AtHome(objs, first, st0.e) ==> AtHome(objs, first, st.e)
  {
  }

  lemma TrackStart(objs: seq<Item>, first: nat, r: MemoryRegion, st: State, cur: nat)
    requires FixedPrefix(objs, first) && cur == r.base
    ensures Tracked(objs, first, r, st, st, cur)
  {
  }

  lemma TrackFilled(
    objs: seq<Item>, first: nat, w: Windows, r: MemoryRegion, st0: State, st: State, st2: State, cur: nat)
    requires Given(objs, first, w) && st2.next == st.next && Extends(st.e, st2.e)
    requires Ready(objs, first, st.next, w, st.ws, st.e) && Ready(objs, first, st2.next, w, st2.ws, st2.e)
    requires Tracked(objs, first, r, st0, st, cur)
    ensures Tracked(objs, first, r, st0, st2, cur)
  {
    HomeStays(objs, first, w, st, st2);
  }

  lemma TrackEnd(objs: seq<Item>, first: nat, r: MemoryRegion, st0: State, st: State, cur: nat)
    requires FixedPrefix(objs, first) && Tracked(objs, first, r, st0, st, cur)
    requires st.next < first ==> objs[st.next].paddr.value >= r.end
    ensures Landed(objs, first, r, st0, false, st)
  {
  }

  lemma TrackFixed(
    objs: seq<Item>, first: nat, r: MemoryRegion, st0: State, st: State, cur: nat, st2: State, panicked: bool, cur2: nat)
    requires FixedPrefix(objs, first) && Tracked(objs, first, r, st0, st, cur)
    requires st.next < first && objs[st.next].paddr.value < r.end && st2.next == st.next + 1
    requires panicked <==> objs[st.next].paddr.value < cur
    requires !panicked ==> cur2 == objs[st.next].paddr.value + objs[st.next].Bytes()
    requires !panicked && AtHome(objs, first, st.e) ==> AtHome(objs, first, st2.e)
    ensures panicked ==> Landed(objs, first, r, st0, true, st2)
    ensures !panicked ==> Tracked(objs, first, r, st0, st2, cur2)
  {
    FixedNext(objs, first, st.next, cur, r.end);
  }

  ghost predicate StartsIn(objs: seq<Item>, i: nat, ut: UntypedObject) {
    i < |objs| && objs[i].paddr.Some? && ut.region.base <= objs[i].paddr.value < ut.region.end
  }

  ghost predicate StartsInSome(objs: seq<Item>, i: nat, uts: seq<UntypedObject>) {
    exists u :: 0 <= u < |uts| && StartsIn(objs, i, uts[u])
  }

  /** A fixed object that starts outside all untypeds, below one of them. */
  ghost predicate Stranded(objs: seq<Item>, i: nat, uts: seq<UntypedObject>, u: nat) {
    && i < |objs| && objs[i].paddr.Some? && u < |uts| && objs[i].paddr.value < uts[u].region.base
    && !StartsInSome(objs, i, uts)
  }

  ghost predicate AnyStranded(objs: seq<Item>, uts: seq<UntypedObject>) {
    exists i: nat, u: nat :: Stranded(objs, i, uts, u)
  }

  /** The simulation panics exactly when a fixed object is stranded; otherwise it places the
      fixed objects that start in an untyped, even where they reach beyond its end. */
  ghost predicate FixedPlaced(
    objs: seq<Item>, first: nat, uts: seq<UntypedObject>, e: map<nat, Placement>, panicked: bool)
  {
    && (panicked <==> AnyStranded(objs, uts))
    && (!panicked ==> forall id: nat :: id < first ==> (id in e <==> StartsInSome(objs, id, uts)))
  }

  /** The verdict looks at the ordinary objects alone. */
  ghost predicate WithoutCheck(objs: seq<Item>, first: nat, e: map<nat, Placement>, ok: bool)
    requires FixedPrefix(objs, first)
  {
    && AtHome(objs, first, e)
    && (ok <==> forall id: nat :: first <= id < |objs| && objs[id].sizeBits > 0 ==> id in e)
  }

  /** With room between the fixed objects, an untyped takes all that start in it. */
  lemma {:induction false} FixedTaken(objs: seq<Item>, first: nat, next: nat, cur: nat, end: nat)
    requires FixedPrefix(objs, first) && FixedApart(objs, first)
    requires next < first ==> cur <= objs[next].paddr.value
    ensures var r := FixedIn(objs, first, next, cur, end);
      && r.Some? && next <= r.value && (next <= first ==> r.value <= first)
      && (forall i :: next <= i < r.value ==> objs[i].paddr.value < end)
      && (r.value < first ==> objs[r.value].paddr.value >= end)
    decreases first - next
  {
    if next < first && objs[next].paddr.value < end {
      FixedTaken(objs, first, next + 1, objs[next].paddr.value + objs[next].Bytes(), end);
    }
  }

  /** The fixed objects below `next` start in an untyped, the others behind the first k. */
  ghost predicate Sorted(
    objs: seq<Item>, first: nat, uts: seq<UntypedObject>, order: seq<nat>, k: nat, next: nat)
    requires FixedPrefix(objs, first) && UntypedsOk(uts) && Ids(uts, order) && k <= |order|
  {
    && next <= first
    && (forall i: nat :: i < next ==> StartsInSome(objs, i, uts))
    && (forall i: nat :: next <= i < first ==> objs[i].paddr.value >= Low(uts, order, k))
  }

  lemma FixedRise(objs: seq<Item>, first: nat, i: nat, j: nat)
    requires FixedPrefix(objs, first) && FixedApart(objs, first) && i <= j < first
    ensures objs[i].paddr.value <= objs[j].paddr.value
  {
  }

  lemma SortedNext(
    objs: seq<Item>, first: nat, uts: seq<UntypedObject>, order: seq<nat>, k: nat, next: nat, n: nat)
    requires FixedPrefix(objs, first) && FixedApart(objs, first) && UntypedsOk(uts) && UntypedsApart(uts)
    requires ByBase(uts, order, |uts|) && k < |order| && Sorted(objs, first, uts, order, k, next)
    requires FixedIn(objs, first, next, uts[order[k]].region.base, uts[order[k]].region.end) == Some(n)
    ensures Sorted(objs, first, uts, order, k + 1, n)
  {
    var ut := uts[order[k]];
    var base, end := ut.region.base, ut.region.end;
    LowRises(uts, order, k);
    FixedNext(objs, first, next, base, end);
    FixedTaken(objs, first, next, base, end);
    forall i: nat | next <= i < n
      ensures StartsInSome(objs, i, uts)
    {
      FixedRise(objs, first, next, i);
      assert StartsIn(objs, i, uts[order[k]]);
    }
    forall i: nat | n <= i < first
      ensures objs[i].paddr.value >= end
    {
      FixedRise(objs, first, n, i);
    }
  }

  /** An untyped that meets an address below its base leaves the object stranded. */
  lemma MetBelow(objs: seq<Item>, first: nat, uts: seq<UntypedObject>, order: seq<nat>, k: nat, next: nat)
    requires FixedPrefix(objs, first) && FixedApart(objs, first) && UntypedsOk(uts) && UntypedsApart(uts)
    requires ByBase(uts, order, |uts|) && k < |order| && Sorted(objs, first, uts, order, k, next)
    requires FixedIn(objs, first, next, uts[order[k]].region.base, uts[order[k]].region.end) == None
    ensures next < first && Stranded(objs, next, uts, order[k])
  {
    var base, end := uts[order[k]].region.base, uts[order[k]].region.end;
    if next < first && base <= objs[next].paddr.value {
      FixedTaken(objs, first, next, base, end);
    }
    FixedNext(objs, first, next, base, end);
    forall u | 0 <= u < |uts|
      ensures !StartsIn(objs, next, uts[u])
    {
      var m := PositionOf(uts, order, u);
      if m < k {
        LowCovers(uts, order, m, k);
      } else if k < m {
        OrderedApart(uts, order, k, m);
      }
    }
  }

  lemma {:induction false} FixedRun(
    objs: seq<Item>, first: nat, uts: seq<UntypedObject>, order: seq<nat>, k: nat, next: nat)
    requires FixedPrefix(objs, first) && FixedApart(objs, first) && UntypedsOk(uts) && UntypedsApart(uts)
    requires ByBase(uts, order, |uts|) && k <= |order| && Sorted(objs, first, uts, order, k, next)
    ensures match FixedFrom(objs, first, next, uts, order, k)
      case None => AnyStranded(objs, uts)
      case Some(n) => Sorted(objs, first, uts, order, |order|, n)
    decreases |order| - k
  {
    if k < |order| {
      match FixedIn(objs, first, next, uts[order[k]].region.base, uts[order[k]].region.end)
      case None => MetBelow(objs, first, uts, order, k, next);
      case Some(n) =>
        SortedNext(objs, first, uts, order, k, next, n);
        FixedRun(objs, first, uts, order, k + 1, n);
    }
  }

  /** Behind all untypeds nothing starts and nothing is stranded. */
  lemma AllSorted(objs: seq<Item>, first: nat, uts: seq<UntypedObject>, order: seq<nat>, n: nat, i: nat)
    requires FixedPrefix(objs, first) && UntypedsOk(uts) && UntypedsApart(uts) && ByBase(uts, order, |uts|)
    requires Sorted(objs, first, uts, order, |order|, n)
    ensures i < first ==> (i < n <==> StartsInSome(objs, i, uts))
    ensures forall u: nat :: !Stranded(objs, i, uts, u)
  {
    if n <= i < first {
      forall u: nat | u < |uts|
        ensures uts[u].region.base < uts[u].region.end <= objs[i].paddr.value
      {
        var m := PositionOf(uts, order, u);
        LowCovers(uts, order, m, |order|);
      }
    }
  }

  lemma FixedPlaces(
    objs: seq<Item>, first: nat, w: Windows, uts: seq<UntypedObject>, order: seq<nat>, st: State, panicked: bool)
    requires Given(objs, first, w) && UntypedsOk(uts) && ByBase(uts, order, |uts|)
    requires Outcome(panicked, st.next) == FixedFrom(objs, first, 0, uts, order, 0)
    requires panicked || Ready(objs, first, st.next, w, st.ws, st.e)
    ensures UntypedsApart(uts) && FixedApart(objs, first) ==> FixedPlaced(objs, first, uts, st.e, panicked)
  {
    if UntypedsApart(uts) && FixedApart(objs, first) {
      var start := 0;
      FixedRun(objs, first, uts, order, start, start);
      if !panicked {
        forall i: nat
          ensures i < first ==> (i in st.e <==> StartsInSome(objs, i, uts))
          ensures forall u: nat :: !Stranded(objs, i, uts, u)
        {
          AllSorted(objs, first, uts, order, st.next, i);
          assert i in st.e <==> IsBooked(objs, first, st.next, st.ws, i);
        }
      }
    }
  }

  lemma SpentMeansPlaced(objs: seq<Item>, first: nat, w: Windows, st: State, ok: bool)
    requires Given(objs, first, w) && Ready(objs, first, st.next, w, st.ws, st.e)
    requires ok <==> forall s: nat :: s < |st.ws| && st.ws[s].Some? ==> st.ws[s].value.start == st.ws[s].value.end
    ensures ok <==> forall id: nat :: first <= id < |objs| && objs[id].sizeBits > 0 ==> id in st.e
  {
    forall id: nat | first <= id < |objs| && objs[id].sizeBits > 0
      ensures ok ==> id in st.e
    {
      var s := objs[id].sizeBits;
      assert WindowHolds(objs, first, |objs|, s, w[s]);
      assert id in st.e <==> IsBooked(objs, first, st.next, st.ws, id);
    }
    if !ok {
      var s: nat :| s < |st.ws| && st.ws[s].Some? && st.ws[s].value.start != st.ws[s].value.end;
      assert Left(st.ws, s);
      WindowFront(objs, first, st.next, w, st.ws, st.e, s);
    }
  }

  // ---- the whole simulation ----

  predicate Ids(uts: seq<UntypedObject>, order: seq<nat>) {
    forall k :: 0 <= k < |order| ==> order[k] < |uts|
  }

  /** Each of the first n untypeds once, by rising base address. */
  ghost predicate ByBase(uts: seq<UntypedObject>, order: seq<nat>, n: nat)
    requires n <= |uts|
  {
    && |order| == n
    && (forall i: nat :: i in order <==> i < n) && Ids(uts, order)
    && (forall i, j :: 0 <= i < j < |order| ==> order[i] != order[j])
    && BasesRise(uts, order)
  }

  ghost predicate BasesRise(uts: seq<UntypedObject>, order: seq<nat>)
    requires Ids(uts, order)
  {
    forall i, j :: 0 <= i < j < |order| ==> uts[order[i]].region.base <= uts[order[j]].region.base
  }

  /** Stable insertion; stands for the library's stable `sort_by_key`. */
  function InsertByBase(uts: seq<UntypedObject>, order: seq<nat>, n: nat): seq<nat>
    requires n < |uts| && Ids(uts, order)
  {
    if order == [] then [n]
    else
      var init, last := order[..|order| - 1], order[|order| - 1];
      if uts[last].region.base <= uts[n].region.base then order + [n] else InsertByBase(uts, init, n) + [last]
  }

  lemma {:induction false} InsertMembers(uts: seq<UntypedObject>, order: seq<nat>, n: nat)
    requires n < |uts| && Ids(uts, order)
    ensures |InsertByBase(uts, order, n)| == |order| + 1
    ensures forall i :: i in InsertByBase(uts, order, n) <==> i == n || i in order
  {
    if order == [] {
    } else {
      var init, last := order[..|order| - 1], order[|order| - 1];
      assert order == init + [last];
      InsertMembers(uts, init, n);
    }
  }

  lemma InsertIds(uts: seq<UntypedObject>, order: seq<nat>, n: nat)
    requires n < |uts| && Ids(uts, order)
    ensures Ids(uts, InsertByBase(uts, order, n))
  {
    InsertMembers(uts, order, n);
    var o := InsertByBase(uts, order, n);
    forall k | 0 <= k < |o|
      ensures o[k] < |uts|
    {
      assert o[k] in o;
    }
  }

  lemma {:induction false} InsertRises(uts: seq<UntypedObject>, order: seq<nat>, n: nat)
    requires n < |uts| && n !in order && Ids(uts, order)
    requires BasesRise(uts, order)
    requires forall i, j :: 0 <= i < j < |order| ==> order[i] != order[j]
    ensures Ids(uts, InsertByBase(uts, order, n))
    ensures BasesRise(uts, InsertByBase(uts, order, n))
    ensures var o := InsertByBase(uts, order, n); forall i, j :: 0 <= i < j < |o| ==> o[i] != o[j]
  {
    InsertMembers(uts, order, n);
    InsertIds(uts, order, n);
    if order == [] {
    } else {
      var init, last := order[..|order| - 1], order[|order| - 1];
      if uts[last].region.base > uts[n].region.base {
        InsertRises(uts, init, n);
        InsertMembers(uts, init, n);
        InsertIds(uts, init, n);
        var o := InsertByBase(uts, init, n);
        forall i | 0 <= i < |o|
          ensures uts[o[i]].region.base <= uts[last].region.base && o[i] != last
        {
          assert o[i] in o;
          if o[i] != n {
            var j :| 0 <= j < |init| && init[j] == o[i];
            assert order[j] == o[i];
          }
        }
      }
    }
  }

  function SortByBase(uts: seq<UntypedObject>, n: nat): (order: seq<nat>)
    requires n <= |uts|
    ensures Ids(uts, order)
  {
    if n == 0 then []
    else
      InsertIds(uts, SortByBase(uts, n - 1), n - 1);
      InsertByBase(uts, SortByBase(uts, n - 1), n - 1)
  }

  lemma InsertKeepsByBase(uts: seq<UntypedObject>, order: seq<nat>, n: nat)
    requires n < |uts| && ByBase(uts, order, n)
    ensures Ids(uts, InsertByBase(uts, order, n)) && ByBase(uts, InsertByBase(uts, order, n), n + 1)
  {
    InsertMembers(uts, order, n);
    InsertRises(uts, order, n);
  }

  lemma {:induction false} SortIsByBase(uts: seq<UntypedObject>, n: nat)
    requires n <= |uts|
    ensures ByBase(uts, SortByBase(uts, n), n)
  {
    if n == 0 {
    } else {
      SortIsByBase(uts, n - 1);
      InsertKeepsByBase(uts, SortByBase(uts, n - 1), n - 1);
    }
  }

  // ---- the check of fixed addresses ----

  /** The object lies in the power-of-two block that the untyped starts with. */
  ghost predicate HeldBy(objs: seq<Item>, i: nat, ut: UntypedObject)
    requires i < |objs| && objs[i].paddr.Some? && ut.region.base < ut.region.end
  {
    && ut.region.base <= objs[i].paddr.value
    && objs[i].paddr.value + objs[i].Bytes()
       <= ut.region.base + Pow2(TrailingZeros(ut.region.end - ut.region.base))
  }

  ghost predicate HeldBySome(objs: seq<Item>, i: nat, uts: seq<UntypedObject>)
    requires i < |objs| && objs[i].paddr.Some? && UntypedsOk(uts)
  {
    exists k :: 0 <= k < |uts| && HeldBy(objs, i, uts[k])
  }

  ghost predicate AllHeld(objs: seq<Item>, first: nat, uts: seq<UntypedObject>)
    requires first <= |objs| && (forall i :: 0 <= i < first ==> objs[i].paddr.Some?) && UntypedsOk(uts)
  {
    forall i :: 0 <= i < first ==> HeldBySome(objs, i, uts)
  }

  lemma HeldInside(objs: seq<Item>, i: nat, ut: UntypedObject)
    requires i < |objs| && objs[i].paddr.Some? && ut.region.base < ut.region.end && HeldBy(objs, i, ut)
    ensures ut.region.base <= objs[i].paddr.value < ut.region.end
    ensures objs[i].paddr.value + objs[i].Bytes() <= ut.region.end
  {
    TrailingZerosAtMost(ut.region.end - ut.region.base);
  }

  /** Only the last untyped that starts at or below the object is tried; with disjoint
      untypeds no other one can hold it. */
  method CheckFixed(objs: seq<Item>, first: nat, uts: seq<UntypedObject>, order: seq<nat>) returns (ok: bool)
    requires FixedPrefix(objs, first) && UntypedsOk(uts) && ByBase(uts, order, |uts|)
    ensures ok ==> AllHeld(objs, first, uts)
    ensures UntypedsApart(uts) && AllHeld(objs, first, uts) ==> ok
  {
    ok := true;
    var i := 0;
    while i < first
      invariant 0 <= i <= first
      invariant ok ==> AllHeld(objs, i, uts)
      invariant UntypedsApart(uts) && AllHeld(objs, first, uts) ==> ok
    {
      var held := CheckOne(objs, i, uts, order);
      ok := ok && held;
      i := i + 1;
    }
  }

  method CheckOne(objs: seq<Item>, i: nat, uts: seq<UntypedObject>, order: seq<nat>) returns (ok: bool)
    requires i < |objs| && objs[i].paddr.Some? && UntypedsOk(uts) && ByBase(uts, order, |uts|)
    ensures ok ==> HeldBySome(objs, i, uts)
    ensures UntypedsApart(uts) && HeldBySome(objs, i, uts) ==> ok
  {
    var base := objs[i].paddr.value;
    var after := 0;
    while after < |order| && uts[order[after]].region.base <= base
      invariant 0 <= after <= |order|
      invariant after > 0 ==> uts[order[after - 1]].region.base <= base
    {
      after := after + 1;
    }
    if after == 0 {
      ok := false;
    } else {
      var ut := uts[order[after - 1]];
      ok := base + objs[i].Bytes() <= ut.region.base + Pow2(TrailingZeros(ut.region.end - ut.region.base));
      assert ok ==> HeldBy(objs, i, uts[order[after - 1]]);
    }
    if UntypedsApart(uts) && HeldBySome(objs, i, uts) {
      var k :| 0 <= k < |uts| && HeldBy(objs, i, uts[k]);
      HeldInside(objs, i, uts[k]);
      var m := PositionOf(uts, order, k);
      assert uts[order[m]] == uts[k];
    }
  }

  lemma PositionOf(uts: seq<UntypedObject>, order: seq<nat>, k: nat) returns (m: nat)
    requires ByBase(uts, order, |uts|) && k < |uts|
    ensures m < |order| && order[m] == k
  {
    assert k in order;
    m :| 0 <= m < |order| && order[m] == k;
  }

  // ---- no placement exists when the simulation runs out ----

  /** Sized objects, which need untyped memory, and all fixed ones. */
  ghost predicate NeedsPlace(objs: seq<Item>, id: nat) {
    id < |objs| && (objs[id].paddr.Some? || objs[id].sizeBits > 0)
  }

  ghost predicate Complete(objs: seq<Item>, e: map<nat, Placement>) {
    forall id :: id in e <==> NeedsPlace(objs, id)
  }

  ghost predicate IsPlacement(objs: seq<Item>, uts: seq<UntypedObject>, e: map<nat, Placement>) {
    Inside(objs, uts, e) && Disjoint(objs, e) && Complete(objs, e)
  }

  ghost predicate InBlock(lo: int, n: nat, x: int) {
    lo <= x < lo + n
  }

  ghost function Bytes(lo: int, n: nat): set<int> {
    set x | lo <= x < lo + n && InBlock(lo, n, x)
  }

  lemma {:induction false} BytesCount(lo: int, n: nat)
    ensures |Bytes(lo, n)| == n
  {
    if n == 0 {
      assert Bytes(lo, n) == {};
    } else {
      BytesCount(lo, n - 1);
      assert Bytes(lo, n) == Bytes(lo, n - 1) + {lo + n - 1};
    }
  }

  ghost predicate Big(objs: seq<Item>, e: map<nat, Placement>, s: nat, id: nat) {
    id in e && id < |objs| && objs[id].sizeBits >= s
  }

  /** Addresses taken by the objects of at least 2^s bytes among the first n. */
  ghost function Taken(objs: seq<Item>, e: map<nat, Placement>, s: nat, n: nat): set<int> {
    if n == 0 then {}
    else if Big(objs, e, s, n - 1) then Taken(objs, e, s, n - 1) + Bytes(e[n - 1].paddr, objs[n - 1].Bytes())
    else Taken(objs, e, s, n - 1)
  }

  ghost function TakenBytes(objs: seq<Item>, e: map<nat, Placement>, s: nat, n: nat): nat {
    if n == 0 then 0
    else if Big(objs, e, s, n - 1) then TakenBytes(objs, e, s, n - 1) + objs[n - 1].Bytes()
    else TakenBytes(objs, e, s, n - 1)
  }

  lemma {:induction false} TakenMembers(objs: seq<Item>, e: map<nat, Placement>, s: nat, n: nat, x: int)
    ensures x in Taken(objs, e, s, n) <==>
      exists id :: 0 <= id < n && Big(objs, e, s, id) && e[id].paddr <= x < e[id].paddr + objs[id].Bytes()
  {
    if n == 0 {
    } else {
      TakenMembers(objs, e, s, n - 1, x);
      if Big(objs, e, s, n - 1) && e[n - 1].paddr <= x < e[n - 1].paddr + objs[n - 1].Bytes() {
        assert x in Bytes(e[n - 1].paddr, objs[n - 1].Bytes());
      }
    }
  }

  /** Disjoint objects take exactly the sum of their sizes. */
  lemma {:induction false} TakenCount(objs: seq<Item>, uts: seq<UntypedObject>, e: map<nat, Placement>, s: nat, n: nat)
    requires Inside(objs, uts, e) && Disjoint(objs, e)
    ensures |Taken(objs, e, s, n)| == TakenBytes(objs, e, s, n)
  {
    if n == 0 {
    } else {
      TakenCount(objs, uts, e, s, n - 1);
      if Big(objs, e, s, n - 1) {
        var old', new' := Taken(objs, e, s, n - 1), Bytes(e[n - 1].paddr, objs[n - 1].Bytes());
        BytesCount(e[n - 1].paddr, objs[n - 1].Bytes());
        forall x | x in new'
          ensures x !in old'
        {
          TakenMembers(objs, e, s, n - 1, x);
        }
        assert old' !! new';
      }
    }
  }

  lemma {:induction false} TakenMore(objs: seq<Item>, e0: map<nat, Placement>, e1: map<nat, Placement>, s: nat, n: nat)
    requires forall id :: Big(objs, e0, s, id) ==> Big(objs, e1, s, id)
    ensures TakenBytes(objs, e0, s, n) <= TakenBytes(objs, e1, s, n)
    ensures forall id :: 0 <= id < n && Big(objs, e1, s, id) && !Big(objs, e0, s, id) ==>
      TakenBytes(objs, e0, s, n) < TakenBytes(objs, e1, s, n)
  {
    if n == 0 {
    } else {
      TakenMore(objs, e0, e1, s, n - 1);
    }
  }

  lemma SubsetCount(a: set<int>, b: set<int>)
    requires a <= b
    ensures |a| <= |b|
  {
    assert b == a + (b - a);
    assert a !! (b - a);
  }

  ghost predicate CouldHold(ut: UntypedObject, s: nat) {
    !ut.isDevice && Pow2(s) <= ut.region.end - ut.region.base
  }

  /** An object of size 2^s is left over and every normal untyped that could hold it is
      full of objects of at least that size: then no placement exists at all. */
  lemma NoPlacement(
    objs: seq<Item>, uts: seq<UntypedObject>, e: map<nat, Placement>, left: nat, p: map<nat, Placement>)
    requires Inside(objs, uts, e) && Disjoint(objs, e)
    requires forall id :: id in e ==> NeedsPlace(objs, id)
    requires left < |objs| && left !in e && NeedsPlace(objs, left)
    requires forall id :: 0 <= id < |objs| ==> objs[id].paddr.None?
    requires forall u :: 0 <= u < |uts| && CouldHold(uts[u], objs[left].sizeBits) ==>
      Full(objs, e, objs[left].sizeBits, uts[u].region.base, uts[u].region.end)
    ensures !IsPlacement(objs, uts, p)
  {
    if IsPlacement(objs, uts, p) {
      var s, n := objs[left].sizeBits, |objs|;
      forall id | Big(objs, e, s, id)
        ensures Big(objs, p, s, id)
      {
      }
      assert Big(objs, p, s, left);
      TakenMore(objs, e, p, s, n);
      TakenCount(objs, uts, e, s, n);
      TakenCount(objs, uts, p, s, n);
      forall x | x in Taken(objs, p, s, n)
        ensures x in Taken(objs, e, s, n)
      {
        TakenMembers(objs, p, s, n, x);
        var id :| 0 <= id < n && Big(objs, p, s, id) && p[id].paddr <= x < p[id].paddr + objs[id].Bytes();
        Pow2Mono(s, objs[id].sizeBits);
        assert PlacedWell(objs, uts, id, p[id]);
        assert CouldHold(uts[p[id].ut], s);
        assert CoveredBy(objs, e, s, x);
        var c :| c in e && Covers(objs, e, s, c, x);
        TakenMembers(objs, e, s, n, x);
        assert Big(objs, e, s, c);
      }
      SubsetCount(Taken(objs, p, s, n), Taken(objs, e, s, n));
    }
  }
}