/** Sorting the objects of a finished spec and renumbering every reference to them: step 6
    of `build_capdl_spec` in tool/microkit/src/capdl/builder.rs. */
module Renumber {
  import opened MemoryRegions
  import Allocator

  type Name = string

  datatype Cte = Cte(slot: nat, obj: nat, rights: nat)

  /** The parts of an object that the pass looks at; `body` stands for the rest. */
  datatype Obj = Obj(name: Name, sizeBits: nat, paddr: Option<nat>, isCNode: bool, slots: Option<seq<Cte>>, body: nat)

  datatype IrqEntry = IrqEntry(irq: nat, handler: nat)

  datatype Spec = Spec(objects: seq<Obj>, irqs: seq<IrqEntry>)

  // ---- the order of objects ----

  /** Lexicographic order of names. */
  predicate NameLess(a: Name, b: Name) {
    b != [] && (a == [] || a[0] < b[0] || (a[0] == b[0] && NameLess(a[1..], b[1..])))
  }

  lemma {:induction false} NameTotal(a: Name, b: Name)
    ensures a == b || NameLess(a, b) || NameLess(b, a)
    ensures !(NameLess(a, b) && NameLess(b, a))
    decreases |a|
  {
    if a != [] && b != [] {
      NameTotal(a[1..], b[1..]);
      assert a == [a[0]] + a[1..] && b == [b[0]] + b[1..];
    }
  }

  lemma {:induction false} NameTransitive(a: Name, b: Name, c: Name)
    requires NameLess(a, b) && NameLess(b, c)
    ensures NameLess(a, c)
    decreases |a|
  {
    if a != [] && a[0] == b[0] == c[0] {
      NameTransitive(a[1..], b[1..], c[1..]);
    }
  }

  /** The comparator of the sort says Less. */
  predicate Before(a: Obj, b: Obj) {
    if a.paddr.None? && b.paddr.Some? then false
    else if a.paddr.Some? && b.paddr.None? then true
    else if a.paddr.Some? && b.paddr.Some? && a.paddr.value != b.paddr.value then a.paddr.value < b.paddr.value
    else if a.sizeBits != b.sizeBits then a.sizeBits > b.sizeBits
    else NameLess(a.name, b.name)
  }

  /** With different names the comparator is a strict total order. */
  lemma BeforeTotal(a: Obj, b: Obj)
    ensures a.name != b.name ==> Before(a, b) || Before(b, a)
    ensures !(Before(a, b) && Before(b, a)) && !Before(a, a)
  {
    NameTotal(a.name, b.name);
    NameTotal(a.name, a.name);
  }

  lemma BeforeTransitive(a: Obj, b: Obj, c: Obj)
    requires Before(a, b) && Before(b, c)
    ensures Before(a, c)
  {
    if NameLess(a.name, b.name) && NameLess(b.name, c.name) {
      NameTransitive(a.name, b.name, c.name);
    }
  }

  ghost predicate UniqueNames(objs: seq<Obj>) {
    forall i, j :: 0 <= i < j < |objs| ==> objs[i].name != objs[j].name
  }

  ghost predicate Sorted(objs: seq<Obj>) {
    forall i, j :: 0 <= i < j < |objs| ==> Before(objs[i], objs[j])
  }

  /** The comparator has no answer: it stops the tool. */
  predicate Tied(a: Obj, b: Obj) {
    !Before(a, b) && !Before(b, a)
  }

  lemma TiedMeans(a: Obj, b: Obj)
    ensures Tied(a, b) <==> a.paddr == b.paddr && a.sizeBits == b.sizeBits && a.name == b.name
  {
    NameTotal(a.name, b.name);
  }

  ghost predicate NoTies(objs: seq<Obj>) {
    forall i, j :: 0 <= i < j < |objs| ==> !Tied(objs[i], objs[j])
  }

  // ---- rearrangements ----

  ghost predicate IsPerm(p: seq<nat>, n: nat) {
    && |p| == n
    && (forall k :: 0 <= k < n ==> p[k] < n)
    && (forall i, j :: 0 <= i < j < n ==> p[i] != p[j])
    && (forall x: nat :: x < n ==> x in p)
  }

  ghost predicate Rearranges<T>(p: seq<nat>, s: seq<T>, r: seq<T>) {
    IsPerm(p, |s|) && |r| == |s| && forall k :: 0 <= k < |r| ==> r[k] == s[p[k]]
  }

  lemma InsertPerm(p: seq<nat>, n: nat, at: nat)
    requires IsPerm(p, n) && at <= n
    ensures IsPerm(p[..at] + [n] + p[at..], n + 1)
  {
    var q := p[..at] + [n] + p[at..];
    forall x: nat | x < n + 1
      ensures x in q
    {
      if x < n {
        assert x in p;
        var k :| 0 <= k < n && p[k] == x;
        assert q[if k < at then k else k + 1] == x;
      } else {
        assert q[at] == n;
      }
    }
  }

  lemma InsertRearranges<T>(p: seq<nat>, s: seq<T>, r: seq<T>, x: T, at: nat)
    requires Rearranges(p, s, r) && at <= |s|
    ensures Rearranges(p[..at] + [|s|] + p[at..], s + [x], r[..at] + [x] + r[at..])
  {
    InsertPerm(p, |s|, at);
  }

  /** Where the object belongs in a sorted list; None where the comparator stops the tool. */
  method FindPlace(objs: seq<Obj>, x: Obj) returns (at: Option<nat>)
    requires Sorted(objs)
    ensures at.None? <==> exists k :: 0 <= k < |objs| && Tied(objs[k], x)
    ensures at.Some? ==> at.value <= |objs| && Sorted(objs[..at.value] + [x] + objs[at.value..])
  {
    var k := 0;
    while k < |objs| && Before(objs[k], x)
      invariant 0 <= k <= |objs|
      invariant forall j :: 0 <= j < k ==> Before(objs[j], x)
    {
      k := k + 1;
    }
    if k < |objs| && !Before(x, objs[k]) {
      return None;
    }
    forall j | k <= j < |objs|
      ensures Before(x, objs[j])
    {
      if k < j {
        BeforeTransitive(x, objs[k], objs[j]);
      }
    }
    return Some(k);
  }

  /** `sort_by` with the comparator above. Any sort compares two equal objects if there are
      such, and then the comparator stops the tool. */
  method SortObjects(objs: seq<Obj>) returns (sorted: Option<seq<Obj>>, ghost perm: seq<nat>)
    ensures sorted.Some? <==> NoTies(objs)
    ensures sorted.Some? ==> Sorted(sorted.value) && Rearranges(perm, objs, sorted.value)
  {
    var r := [];
    perm := [];
    var i := 0;
    while i < |objs|
      invariant 0 <= i <= |objs| && NoTies(objs[..i])
      invariant Sorted(r) && Rearranges(perm, objs[..i], r)
    {
      var at := FindPlace(r, objs[i]);
      TieFound(perm, objs, i, r);
      if at.None? {
        return None, perm;
      }
      InsertRearranges(perm, objs[..i], r, objs[i], at.value);
      assert objs[..i + 1] == objs[..i] + [objs[i]];
      r := r[..at.value] + [objs[i]] + r[at.value..];
      perm := perm[..at.value] + [i] + perm[at.value..];
      i := i + 1;
    }
    assert objs[..i] == objs;
    return Some(r), perm;
  }

  /** Ties with the sorted part are ties with the earlier objects. */
  lemma TieFound(perm: seq<nat>, objs: seq<Obj>, i: nat, r: seq<Obj>)
    requires i < |objs| && NoTies(objs[..i]) && Rearranges(perm, objs[..i], r)
    ensures (exists k :: 0 <= k < |r| && Tied(r[k], objs[i])) ==> !NoTies(objs)
    ensures (forall k :: 0 <= k < |r| ==> !Tied(r[k], objs[i])) ==> NoTies(objs[..i + 1])
  {
    if k :| 0 <= k < |r| && Tied(r[k], objs[i]) {
      assert r[k] == objs[perm[k]];
    } else {
      forall j | 0 <= j < i
        ensures !Tied(objs[j], objs[i])
      {
        assert j in perm;
        var k :| 0 <= k < |perm| && perm[k] == j;
        assert r[k] == objs[..i][j];
      }
    }
  }

  ghost predicate KeySorted<T>(key: T -> nat, s: seq<T>) {
    forall i, j :: 0 <= i < j < |s| ==> key(s[i]) <= key(s[j])
  }

  /** The last place where x keeps the list sorted. */
  method FindKeyPlace<T>(key: T -> nat, s: seq<T>, x: T) returns (at: nat)
    requires KeySorted(key, s)
    ensures at <= |s| && KeySorted(key, s[..at] + [x] + s[at..])
  {
    at := |s|;
    while at > 0 && key(x) < key(s[at - 1])
      invariant 0 <= at <= |s|
      invariant forall k :: at <= k < |s| ==> key(x) <= key(s[k])
    {
      at := at - 1;
    }
  }

  /** `sort_by_key`. */
  method SortByKey<T>(key: T -> nat, s: seq<T>) returns (r: seq<T>, ghost perm: seq<nat>)
    ensures KeySorted(key, r) && Rearranges(perm, s, r)
  {
    r, perm := [], [];
    var i := 0;
    while i < |s|
      invariant 0 <= i <= |s|
      invariant KeySorted(key, r) && Rearranges(perm, s[..i], r)
    {
      var at := FindKeyPlace(key, r, s[i]);
      InsertRearranges(perm, s[..i], r, s[i], at);
      assert s[..i + 1] == s[..i] + [s[i]];
      r := r[..at] + [s[i]] + r[at..];
      perm := perm[..at] + [i] + perm[at..];
      i := i + 1;
    }
    assert s[..i] == s;
  }

  function SlotNumber(cte: Cte): nat {
    cte.slot
  }

  function IrqNumber(entry: IrqEntry): nat {
    entry.irq
  }

  // ---- the maps between ids ----

  ghost predicate RefsOk(objs: seq<Obj>, irqs: seq<IrqEntry>) {
    && (forall i :: 0 <= i < |objs| && objs[i].slots.Some? ==> SlotsInRange(objs[i].slots.value, |objs|))
    && (forall i :: 0 <= i < |irqs| ==> irqs[i].handler < |objs|)
  }

  ghost predicate SlotsInRange(s: seq<Cte>, n: nat) {
    forall k :: 0 <= k < |s| ==> s[k].obj < n
  }

  /** The id is that of the last object with its name. */
  ghost predicate LastOfName(objs: seq<Obj>, i: nat) {
    i < |objs| && forall j :: i < j < |objs| ==> objs[j].name != objs[i].name
  }

  method OldIds(objs: seq<Obj>) returns (m: map<Name, nat>)
    ensures forall i :: 0 <= i < |objs| ==> objs[i].name in m
    ensures forall name :: name in m ==> LastOfName(objs, m[name]) && objs[m[name]].name == name
  {
    m := map[];
    var id := 0;
    while id < |objs|
      invariant 0 <= id <= |objs|
      invariant forall i :: 0 <= i < id ==> objs[i].name in m
      invariant forall name :: name in m ==> LastOfName(objs[..id], m[name]) && objs[m[name]].name == name
    {
      m := m[objs[id].name := id];
      id := id + 1;
    }
    assert objs[..id] == objs;
  }

  /** The map takes every old id to the place where the sort put that object. */
  ghost predicate Inverts(m: map<nat, nat>, perm: seq<nat>) {
    && (forall i: nat :: i in m <==> i < |perm|)
    && (forall k :: 0 <= k < |perm| ==> perm[k] in m && m[perm[k]] == k)
  }

  /** The last place of a name in the sorted list. */
  ghost predicate LastPlace(sorted: seq<Obj>, name: Name, k: nat) {
    k < |sorted| && sorted[k].name == name && forall j :: k < j < |sorted| ==> sorted[j].name != name
  }

  /** Through their names, the last id of each name goes to the last place of that name. */
  ghost predicate ByName(m: map<nat, nat>, objs: seq<Obj>, sorted: seq<Obj>) {
    && (forall i: nat :: i in m <==> LastOfName(objs, i))
    && (forall i: nat :: i in m ==> i < |objs| && LastPlace(sorted, objs[i].name, m[i]))
  }

  method NewIds(objs: seq<Obj>, sorted: seq<Obj>, oldIds: map<Name, nat>, ghost perm: seq<nat>)
    returns (m: map<nat, nat>)
    requires Rearranges(perm, objs, sorted)
    requires forall i :: 0 <= i < |objs| ==> objs[i].name in oldIds
    requires forall name :: name in oldIds ==> LastOfName(objs, oldIds[name]) && objs[oldIds[name]].name == name
    ensures ByName(m, objs, sorted)
  {
    m := map[];
    var newId := 0;
    while newId < |sorted|
      invariant 0 <= newId <= |sorted|
      invariant forall k :: 0 <= k < newId ==> sorted[k].name in oldIds && oldIds[sorted[k].name] in m
      invariant PlacedSoFar(m, objs, sorted[..newId])
    {
      assert sorted[newId] == objs[perm[newId]];
      PlacedNext(m, objs, sorted, newId, oldIds[sorted[newId].name]);
      m := m[oldIds[sorted[newId].name] := newId];
      newId := newId + 1;
    }
    assert sorted[..newId] == sorted;
    forall i: nat | LastOfName(objs, i)
      ensures i in m
    {
      NameSorted(perm, objs, sorted, i);
      OneLast(objs, i, oldIds[objs[i].name]);
    }
  }

  lemma NameSorted(perm: seq<nat>, objs: seq<Obj>, sorted: seq<Obj>, i: nat)
    requires Rearranges(perm, objs, sorted) && i < |objs|
    ensures exists k :: 0 <= k < |sorted| && sorted[k] == objs[i]
  {
    assert i in perm;
    var k :| 0 <= k < |perm| && perm[k] == i;
    assert sorted[k] == objs[i];
  }

  ghost predicate PlacedSoFar(m: map<nat, nat>, objs: seq<Obj>, sorted: seq<Obj>) {
    forall i :: i in m ==> LastOfName(objs, i) && LastPlace(sorted, objs[i].name, m[i])
  }

  lemma PlacedNext(m: map<nat, nat>, objs: seq<Obj>, sorted: seq<Obj>, n: nat, id: nat)
    requires n < |sorted| && PlacedSoFar(m, objs, sorted[..n])
    requires LastOfName(objs, id) && objs[id].name == sorted[n].name
    ensures PlacedSoFar(m[id := n], objs, sorted[..n + 1])
  {
    forall i | i in m && i != id
      ensures LastPlace(sorted[..n + 1], objs[i].name, m[i])
    {
      assert LastPlace(sorted[..n], objs[i].name, m[i]);
      if objs[i].name == sorted[n].name {
        OneLast(objs, i, id);
      }
    }
  }

  lemma OneLast(objs: seq<Obj>, i: nat, j: nat)
    requires LastOfName(objs, i) && LastOfName(objs, j) && objs[i].name == objs[j].name
    ensures i == j
  {
  }

  /** With unique names every id has its place. */
  lemma ByNameInverts(m: map<nat, nat>, objs: seq<Obj>, sorted: seq<Obj>, perm: seq<nat>)
    requires UniqueNames(objs) && Rearranges(perm, objs, sorted) && ByName(m, objs, sorted)
    ensures Inverts(m, perm)
  {
    forall i: nat
      ensures i in m <==> i < |perm|
    {
      assert i < |perm| ==> LastOfName(objs, i);
    }
    forall k | 0 <= k < |perm|
      ensures perm[k] in m && m[perm[k]] == k
    {
      var i := perm[k];
      assert i in m && LastPlace(sorted, objs[i].name, m[i]);
      assert objs[perm[m[i]]].name == objs[i].name;
    }
  }

  /** A reference keeps its object exactly when no other object of its name is sorted behind it. */
  lemma ReferenceKept(m: map<nat, nat>, objs: seq<Obj>, sorted: seq<Obj>, perm: seq<nat>, i: nat)
    requires Rearranges(perm, objs, sorted) && ByName(m, objs, sorted) && Sorted(sorted) && i in m
    ensures i < |objs| && m[i] < |perm| && objs[perm[m[i]]].name == objs[i].name
    ensures perm[m[i]] == i <==>
      forall j :: 0 <= j < |objs| && objs[j].name == objs[i].name && j != i ==> Before(objs[j], objs[i])
  {
    var k := m[i];
    assert LastPlace(sorted, objs[i].name, k) && sorted[k] == objs[perm[k]];
    if perm[k] == i {
      LastIsBehind(objs, sorted, perm, k);
    } else {
      LostIsBefore(objs, sorted, perm, i, k);
    }
  }

  lemma LastIsBehind(objs: seq<Obj>, sorted: seq<Obj>, perm: seq<nat>, k: nat)
    requires Rearranges(perm, objs, sorted) && Sorted(sorted) && k < |sorted| && LastPlace(sorted, sorted[k].name, k)
    ensures forall j :: 0 <= j < |objs| && objs[j].name == sorted[k].name && j != perm[k] ==> Before(objs[j], sorted[k])
  {
    forall j | 0 <= j < |objs| && objs[j].name == sorted[k].name && j != perm[k]
      ensures Before(objs[j], sorted[k])
    {
      assert j in perm;
      var l :| 0 <= l < |perm| && perm[l] == j;
      assert sorted[l] == objs[j];
    }
  }

  lemma LostIsBefore(objs: seq<Obj>, sorted: seq<Obj>, perm: seq<nat>, i: nat, k: nat)
    requires Rearranges(perm, objs, sorted) && Sorted(sorted) && i < |objs|
    requires LastPlace(sorted, objs[i].name, k) && perm[k] != i
    ensures perm[k] < |objs| && objs[perm[k]].name == objs[i].name && !Before(objs[perm[k]], objs[i])
  {
    assert i in perm;
    var l :| 0 <= l < |perm| && perm[l] == i;
    assert sorted[l] == objs[i] && l < k;
    BeforeTotal(sorted[l], sorted[k]);
  }

  /** The renumbering is a bijection on the ids. */
  lemma NewIdsBijective(m: map<nat, nat>, perm: seq<nat>)
    requires IsPerm(perm, |perm|) && Inverts(m, perm)
    ensures forall i: nat :: i < |perm| ==> i in m && m[i] < |perm| && perm[m[i]] == i
    ensures forall i: nat, j: nat :: i < |perm| && j < |perm| && m[i] == m[j] ==> i == j
  {
    forall i: nat | i < |perm|
      ensures i in m && m[i] < |perm| && perm[m[i]] == i
    {
      assert i in perm;
      var k :| 0 <= k < |perm| && perm[k] == i;
    }
  }

  // ---- rewriting the references ----

  function NewCte(m: map<nat, nat>, cte: Cte): Cte {
    cte.(obj := if cte.obj in m then m[cte.obj] else cte.obj)
  }

  function NewSlots(m: map<nat, nat>, s: seq<Cte>): seq<Cte> {
    seq(|s|, k requires 0 <= k < |s| => NewCte(m, s[k]))
  }

  /** The object afterwards: same name, size, address and rest; its slots hold the same
      capabilities, with new ids, for a CNode in the order of their slot numbers. */
  ghost predicate SameObject(m: map<nat, nat>, a: Obj, b: Obj) {
    && b == a.(slots := b.slots)
    && (match a.slots
        case None => b.slots == None
        case Some(s) =>
          && b.slots.Some?
          && (if a.isCNode then
                KeySorted(SlotNumber, b.slots.value) && exists p: seq<nat> :: Rearranges(p, NewSlots(m, s), b.slots.value)
              else b.slots.value == NewSlots(m, s)))
  }

  /** None where a reference has no new id. */
  method RenumberObject(m: map<nat, nat>, a: Obj) returns (b: Option<Obj>)
    ensures b.Some? <==> (a.slots.Some? ==> RefsIn(m, a.slots.value))
    ensures b.Some? ==> SameObject(m, a, b.value)
  {
    match a.slots
    case None => return Some(a);
    case Some(s) =>
      var slots := s;
      var k := 0;
      while k < |s|
        invariant 0 <= k <= |s| && |slots| == |s|
        invariant slots[..k] == NewSlots(m, s)[..k] && slots[k..] == s[k..]
        invariant forall j :: 0 <= j < k ==> s[j].obj in m
      {
        assert slots[k] == slots[k..][0] == s[k];
        if slots[k].obj !in m {
          return None;
        }
        slots := slots[k := slots[k].(obj := m[slots[k].obj])];
        k := k + 1;
      }
      assert slots == slots[..k] == NewSlots(m, s);
      if a.isCNode {
        ghost var perm;
        slots, perm := SortByKey(SlotNumber, slots);
        assert Rearranges(perm, NewSlots(m, s), slots);
      }
      return Some(a.(slots := Some(slots)));
  }

  ghost predicate OneToOne(m: map<nat, nat>, n: nat) {
    forall i: nat, j: nat :: i < n && j < n && i in m && j in m && m[i] == m[j] ==> i == j
  }

  ghost predicate Renumbered(m: map<nat, nat>, before: Spec, after: Spec) {
    match before
    case Spec(objects, irqs) =>
      && |after.objects| == |objects|
      && (forall i: nat :: i < |objects| ==> i in m && m[i] < |objects| && SameObject(m, objects[i], after.objects[m[i]]))
      && OneToOne(m, |objects|)
      && Sorted(after.objects)
      && KeySorted(IrqNumber, after.irqs)
      && exists p: seq<nat> :: Rearranges(p, NewIrqs(m, irqs), after.irqs)
  }

  function NewIrqs(m: map<nat, nat>, s: seq<IrqEntry>): seq<IrqEntry> {
    seq(|s|, k requires 0 <= k < |s| => s[k].(handler := if s[k].handler in m then m[s[k].handler] else s[k].handler))
  }

  method RenumberObjects(m: map<nat, nat>, sorted: seq<Obj>) returns (r: Option<seq<Obj>>)
    ensures r.Some? <==> AllRefsIn(m, sorted)
    ensures r.Some? ==> |r.value| == |sorted| && forall i :: 0 <= i < |sorted| ==> SameObject(m, sorted[i], r.value[i])
  {
    var objects := [];
    var i := 0;
    while i < |sorted|
      invariant 0 <= i <= |sorted| && |objects| == i
      invariant forall k :: 0 <= k < i ==> SameObject(m, sorted[k], objects[k])
      invariant forall k :: 0 <= k < i && sorted[k].slots.Some? ==> RefsIn(m, sorted[k].slots.value)
    {
      var b := RenumberObject(m, sorted[i]);
      if b.None? {
        return None;
      }
      objects := objects + [b.value];
      i := i + 1;
    }
    return Some(objects);
  }

  ghost predicate RefsIn(m: map<nat, nat>, s: seq<Cte>) {
    forall k :: 0 <= k < |s| ==> s[k].obj in m
  }

  ghost predicate AllRefsIn(m: map<nat, nat>, objs: seq<Obj>) {
    forall i :: 0 <= i < |objs| && objs[i].slots.Some? ==> RefsIn(m, objs[i].slots.value)
  }

  ghost predicate HandlersIn(m: map<nat, nat>, irqs: seq<IrqEntry>) {
    forall i :: 0 <= i < |irqs| ==> irqs[i].handler in m
  }

  method RenumberIrqs(m: map<nat, nat>, irqs: seq<IrqEntry>) returns (r: Option<seq<IrqEntry>>)
    ensures r == if HandlersIn(m, irqs) then Some(NewIrqs(m, irqs)) else None
  {
    var entries := [];
    var i := 0;
    while i < |irqs|
      invariant 0 <= i <= |irqs| && entries == NewIrqs(m, irqs)[..i]
      invariant forall k :: 0 <= k < i ==> irqs[k].handler in m
    {
      if irqs[i].handler !in m {
        return None;
      }
      entries := entries + [irqs[i].(handler := m[irqs[i].handler])];
      i := i + 1;
    }
    assert NewIrqs(m, irqs)[..i] == NewIrqs(m, irqs);
    return Some(entries);
  }

  /** Every reference is to the last object of its name. */
  ghost predicate RefsKept(spec: Spec) {
    match spec
    case Spec(objects, irqs) =>
      && AllKept(objects)
      && (forall i :: 0 <= i < |irqs| ==> LastOfName(objects, irqs[i].handler))
  }

  ghost predicate SlotsKept(objs: seq<Obj>, s: seq<Cte>) {
    forall k :: 0 <= k < |s| ==> LastOfName(objs, s[k].obj)
  }

  /** The outcome through a map of ids: the objects are sorted, and references follow names. */
  ghost predicate Rewired(m: map<nat, nat>, before: Spec, after: Spec, sorted: seq<Obj>, perm: seq<nat>) {
    match before
    case Spec(objects, irqs) =>
      && Sorted(sorted) && Rearranges(perm, objects, sorted) && ByName(m, objects, sorted)
      && |after.objects| == |sorted|
      && (forall k :: 0 <= k < |sorted| ==> SameObject(m, sorted[k], after.objects[k]))
      && KeySorted(IrqNumber, after.irqs)
      && exists p: seq<nat> :: Rearranges(p, NewIrqs(m, irqs), after.irqs)
  }

  /** Sorts the objects and renumbers every reference; m is the map from old to new ids. It
      stops exactly where two objects tie or a reference is not to the last of its name. */
  method SortAndRenumber(before: Spec) returns (after: Option<Spec>, m: map<nat, nat>, ghost sorted: seq<Obj>, ghost perm: seq<nat>)
    ensures after.Some? <==> NoTies(before.objects) && RefsKept(before)
    ensures after.Some? ==> Rewired(m, before, after.value, sorted, perm)
    ensures UniqueNames(before.objects) && RefsOk(before.objects, before.irqs) ==>
      after.Some? && Renumbered(m, before, after.value)
  {
    m, sorted := map[], [];
    if UniqueNames(before.objects) && RefsOk(before.objects, before.irqs) {
      UniqueIsKept(before);
    }
    var oldIds := OldIds(before.objects);
    var objects;
    objects, perm := SortObjects(before.objects);
    if objects.None? {
      return None, m, sorted, perm;
    }
    sorted := objects.value;
    m := NewIds(before.objects, objects.value, oldIds, perm);
    RefsInMeans(m, before, sorted, perm);
    objects := RenumberObjects(m, objects.value);
    if objects.None? {
      return None, m, sorted, perm;
    }
    var irqs := RenumberIrqs(m, before.irqs);
    if irqs.None? {
      return None, m, sorted, perm;
    }
    var entries;
    ghost var irqPerm;
    entries, irqPerm := SortByKey(IrqNumber, irqs.value);
    after := Some(Spec(objects.value, entries));
    assert Rearranges(irqPerm, NewIrqs(m, before.irqs), after.value.irqs);
    if UniqueNames(before.objects) {
      UniqueRenumbered(m, before, after.value, sorted, perm);
    }
  }

  lemma UniqueIsKept(spec: Spec)
    requires UniqueNames(spec.objects) && RefsOk(spec.objects, spec.irqs)
    ensures NoTies(spec.objects) && RefsKept(spec)
  {
    forall i, j | 0 <= i < j < |spec.objects|
      ensures !Tied(spec.objects[i], spec.objects[j])
    {
      BeforeTotal(spec.objects[i], spec.objects[j]);
    }
  }

  lemma RefsInMeans(m: map<nat, nat>, spec: Spec, sorted: seq<Obj>, perm: seq<nat>)
    requires Rearranges(perm, spec.objects, sorted) && ByName(m, spec.objects, sorted)
    ensures AllRefsIn(m, sorted) && HandlersIn(m, spec.irqs) <==> RefsKept(spec)
  {
    SlotsInMeans(m, spec.objects, sorted, perm);
    assert HandlersIn(m, spec.irqs) <==>
      forall i :: 0 <= i < |spec.irqs| ==> LastOfName(spec.objects, spec.irqs[i].handler);
  }

  ghost predicate AllKept(objs: seq<Obj>) {
    forall i :: 0 <= i < |objs| && objs[i].slots.Some? ==> SlotsKept(objs, objs[i].slots.value)
  }

  lemma RefsInIsKept(m: map<nat, nat>, objs: seq<Obj>, s: seq<Cte>)
    requires forall i: nat :: i in m <==> LastOfName(objs, i)
    ensures RefsIn(m, s) <==> SlotsKept(objs, s)
  {
  }

  lemma SlotsInMeans(m: map<nat, nat>, objs: seq<Obj>, sorted: seq<Obj>, perm: seq<nat>)
    requires Rearranges(perm, objs, sorted) && ByName(m, objs, sorted)
    ensures AllRefsIn(m, sorted) <==> AllKept(objs)
  {
    forall i | 0 <= i < |objs| && objs[i].slots.Some?
      ensures AllRefsIn(m, sorted) ==> SlotsKept(objs, objs[i].slots.value)
    {
      NameSorted(perm, objs, sorted, i);
      RefsInIsKept(m, objs, objs[i].slots.value);
    }
    forall k | 0 <= k < |sorted| && sorted[k].slots.Some?
      ensures AllKept(objs) ==> RefsIn(m, sorted[k].slots.value)
    {
      assert sorted[k] == objs[perm[k]];
      RefsInIsKept(m, objs, sorted[k].slots.value);
    }
  }

  /** With unique names the rewiring is the renumbering of every object. */
  lemma UniqueRenumbered(m: map<nat, nat>, before: Spec, after: Spec, sorted: seq<Obj>, perm: seq<nat>)
    requires UniqueNames(before.objects) && Rewired(m, before, after, sorted, perm)
    ensures Renumbered(m, before, after)
  {
    ByNameInverts(m, before.objects, sorted, perm);
    NewIdsBijective(m, perm);
    StaysSorted(m, sorted, after.objects);
    forall i: nat | i < |before.objects|
      ensures i in m && m[i] < |before.objects| && SameObject(m, before.objects[i], after.objects[m[i]])
    {
      assert sorted[m[i]] == before.objects[perm[m[i]]];
    }
  }

  lemma StaysSorted(m: map<nat, nat>, sorted: seq<Obj>, r: seq<Obj>)
    requires Sorted(sorted) && |r| == |sorted|
    requires forall i :: 0 <= i < |r| ==> SameObject(m, sorted[i], r[i])
    ensures Sorted(r)
  {
    forall i, j | 0 <= i < j < |r|
      ensures Before(r[i], r[j])
    {
      assert Before(sorted[i], sorted[j]);
    }
  }

  // ---- what it means ----

  ghost predicate Points(spec: Spec, i: nat, slot: nat, rights: nat, j: nat) {
    && i < |spec.objects| && j < |spec.objects| && spec.objects[i].slots.Some?
    && Cte(slot, j, rights) in spec.objects[i].slots.value
  }

  lemma {:induction false} SlotKept(m: map<nat, nat>, a: Obj, b: Obj, cte: Cte, n: nat)
    requires SameObject(m, a, b) && a.slots.Some? && SlotsInRange(a.slots.value, n)
    requires forall i: nat :: i < n ==> i in m
    requires OneToOne(m, n) && cte.obj < n
    ensures cte in a.slots.value <==> NewCte(m, cte) in b.slots.value
  {
    var s := a.slots.value;
    var t := NewSlots(m, s);
    if cte in s {
      var k :| 0 <= k < |s| && s[k] == cte;
      assert t[k] == NewCte(m, cte);
    }
    if NewCte(m, cte) in t {
      var k :| 0 <= k < |t| && t[k] == NewCte(m, cte);
      assert s[k] == cte;
    }
    if a.isCNode {
      var p: seq<nat> :| Rearranges(p, t, b.slots.value);
      RearrangedMembers(p, t, b.slots.value, NewCte(m, cte));
    }
  }

  lemma RearrangedMembers<T>(p: seq<nat>, s: seq<T>, r: seq<T>, x: T)
    requires Rearranges(p, s, r)
    ensures x in s <==> x in r
  {
    if x in s {
      var k: nat :| k < |s| && s[k] == x;
      assert k in p;
      var j :| 0 <= j < |p| && p[j] == k;
      assert r[j] == x;
    }
  }

  /** The capability graph is preserved: every slot points, with the same rights, to the
      object it pointed to before, and objects keep their names. */
  lemma GraphPreserved(m: map<nat, nat>, before: Spec, after: Spec, i: nat, slot: nat, rights: nat, j: nat)
    requires Renumbered(m, before, after) && RefsOk(before.objects, before.irqs)
    requires i < |before.objects| && j < |before.objects|
    ensures Points(before, i, slot, rights, j) <==> Points(after, m[i], slot, rights, m[j])
    ensures after.objects[m[j]].name == before.objects[j].name
  {
    var a, b := before.objects[i], after.objects[m[i]];
    assert SameObject(m, a, b) && SameObject(m, before.objects[j], after.objects[m[j]]);
    if a.slots.Some? {
      SlotKept(m, a, b, Cte(slot, j, rights), |before.objects|);
    }
  }

  /** Every interrupt is handled by the object that handled it before. */
  lemma IrqsPreserved(m: map<nat, nat>, before: Spec, after: Spec, irq: nat, h: nat)
    requires Renumbered(m, before, after) && RefsOk(before.objects, before.irqs) && h < |before.objects|
    ensures IrqEntry(irq, h) in before.irqs <==> IrqEntry(irq, m[h]) in after.irqs
  {
    var t := NewIrqs(m, before.irqs);
    var p: seq<nat> :| Rearranges(p, t, after.irqs);
    RearrangedMembers(p, t, after.irqs, IrqEntry(irq, m[h]));
    if IrqEntry(irq, h) in before.irqs {
      var k :| 0 <= k < |t| && before.irqs[k] == IrqEntry(irq, h);
      assert t[k] == IrqEntry(irq, m[h]);
    }
    if IrqEntry(irq, m[h]) in t {
      var k :| 0 <= k < |t| && t[k] == IrqEntry(irq, m[h]);
      assert before.irqs[k] == IrqEntry(irq, h);
    }
  }

  // ---- when names are unique ----

  /** A reference to an object whose name comes up again stops the pass. */
  lemma SharedNameStops(spec: Spec, a: nat, slot: nat, rights: nat, i: nat, j: nat)
    requires Points(spec, a, slot, rights, i) && i < j < |spec.objects| && spec.objects[j].name == spec.objects[i].name
    ensures !RefsKept(spec)
  {
    assert !LastOfName(spec.objects, i);
  }

  /** The names of the two CNodes of every domain. */
  function CNodeNames(pds: seq<Name>): seq<Name> {
    seq(2 * |pds|, k requires 0 <= k < 2 * |pds| => CNodeName(pds, k))
  }

  function CNodeName(pds: seq<Name>, k: nat): Name
    requires k < 2 * |pds|
  {
    if k % 2 == 0 then "cnode_" + pds[k / 2] else "cnode_" + (pds[k / 2] + "_root")
  }

  ghost predicate AllDifferent(names: seq<Name>) {
    forall i, j :: 0 <= i < j < |names| ==> names[i] != names[j]
  }

  /** No domain is named like another one with `_root` behind it. */
  ghost predicate NoRootTwin(pds: seq<Name>) {
    forall i, j :: 0 <= i < |pds| && 0 <= j < |pds| ==> pds[i] != pds[j] + "_root"
  }

  lemma SamePrefix(p: Name, a: Name, b: Name)
    ensures p + a == p + b <==> a == b
  {
    assert (p + a)[|p|..] == a && (p + b)[|p|..] == b;
  }

  lemma SameSuffix(a: Name, b: Name, s: Name)
    ensures a + s == b + s <==> a == b
  {
    if a + s == b + s {
      assert |a| == |b| && (a + s)[..|a|] == a && (b + s)[..|b|] == b;
    }
  }

  lemma SameCNodeName(pds: seq<Name>, i: nat, j: nat)
    requires i < 2 * |pds| && j < 2 * |pds|
    ensures CNodeName(pds, i) == CNodeName(pds, j) <==>
      if i % 2 == j % 2 then pds[i / 2] == pds[j / 2]
      else if i % 2 == 0 then pds[i / 2] == pds[j / 2] + "_root"
      else pds[j / 2] == pds[i / 2] + "_root"
  {
    var a, b := pds[i / 2], pds[j / 2];
    SamePrefix("cnode_", a, b);
    SamePrefix("cnode_", a, b + "_root");
    SamePrefix("cnode_", a + "_root", b);
    SamePrefix("cnode_", a + "_root", b + "_root");
    SameSuffix(a, b, "_root");
  }

  /** The CNodes have different names exactly when the domains have and none is the root twin
      of another. */
  lemma CNodeNamesUnique(pds: seq<Name>)
    ensures AllDifferent(CNodeNames(pds)) <==> AllDifferent(pds) && NoRootTwin(pds)
  {
    if AllDifferent(CNodeNames(pds)) {
      DomainsDiffer(pds, CNodeNames(pds));
    } else if AllDifferent(pds) && NoRootTwin(pds) {
      CNodesDiffer(pds);
    }
  }

  lemma DomainsDiffer(pds: seq<Name>, names: seq<Name>)
    requires names == CNodeNames(pds) && AllDifferent(names)
    ensures AllDifferent(pds) && NoRootTwin(pds)
  {
    forall i: nat, j: nat | i < j < |pds|
      ensures pds[i] != pds[j]
    {
      NodeAt(pds, i);
      NodeAt(pds, j);
      DifferAt(names, 2 * i, 2 * j);
    }
    forall i: nat, j: nat | i < |pds| && j < |pds|
      ensures pds[i] != pds[j] + "_root"
    {
      NodeAt(pds, i);
      RootAt(pds, j);
      DifferAt(names, 2 * i, 2 * j + 1);
    }
  }

  lemma DifferAt(names: seq<Name>, a: nat, b: nat)
    requires AllDifferent(names) && a != b && a < |names| && b < |names|
    ensures names[a] != names[b]
  {
  }

  lemma NodeAt(pds: seq<Name>, i: nat)
    requires i < |pds|
    ensures CNodeNames(pds)[2 * i] == "cnode_" + pds[i]
  {
    assert (2 * i) % 2 == 0 && (2 * i) / 2 == i;
  }

  lemma RootAt(pds: seq<Name>, i: nat)
    requires i < |pds|
    ensures CNodeNames(pds)[2 * i + 1] == "cnode_" + (pds[i] + "_root")
  {
    assert (2 * i + 1) % 2 == 1 && (2 * i + 1) / 2 == i;
  }

  lemma CNodesDiffer(pds: seq<Name>)
    requires AllDifferent(pds) && NoRootTwin(pds)
    ensures AllDifferent(CNodeNames(pds))
  {
    forall i: nat, j: nat | i < j < 2 * |pds|
      ensures CNodeName(pds, i) != CNodeName(pds, j)
    {
      SameCNodeName(pds, i, j);
      if i % 2 == j % 2 {
        assert i / 2 < j / 2;
      }
    }
  }

  function Items(objs: seq<Obj>): seq<Allocator.Item> {
    seq(|objs|, i requires 0 <= i < |objs| => Allocator.Item(objs[i].sizeBits, objs[i].paddr))
  }

  /** The result is in the order that the allocator needs: fixed addresses first and
      ascending, then falling sizes. */
  lemma SortedForAllocator(objs: seq<Obj>)
    requires Sorted(objs) && forall i :: 0 <= i < |objs| ==> objs[i].sizeBits < 64
    ensures Allocator.SpecSorted(Items(objs))
  {
    forall i, j | 0 <= i < j < |objs|
      ensures objs[j].paddr.Some? ==> objs[i].paddr.Some? && objs[i].paddr.value <= objs[j].paddr.value
      ensures objs[i].paddr.None? ==> objs[i].sizeBits >= objs[j].sizeBits
    {
      assert Before(objs[i], objs[j]);
    }
  }
}
