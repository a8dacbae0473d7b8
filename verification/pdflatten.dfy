/** Flattening the tree of protection domains into a list with parent links:
    `pd_tree_to_list` and `pd_flatten` in tool/microkit/src/sdf.rs. */
module PdFlatten {
  import opened MemoryRegions
  import Bytes

  /** What a domain carries besides its children; childId is used below another domain. */
  datatype Info = Info(name: string, childId: nat, vcpus: seq<nat>)

  datatype Pd = Pd(info: Info, children: seq<Pd>)

  datatype Entry = Entry(info: Info, parent: Option<nat>)

  datatype Result = Flat(entries: seq<Entry>) | DuplicateId(name: string, childId: nat)

  // ---- the flattened forest ----

  function Size(pd: Pd): nat {
    1 + SizeAll(pd.children)
  }

  function SizeAll(pds: seq<Pd>): nat {
    if pds == [] then 0 else Size(pds[0]) + SizeAll(pds[1..])
  }

  /** Preorder from position `start`; every entry names its parent's position. */
  function FlattenAll(pds: seq<Pd>, parent: Option<nat>, start: nat): seq<Entry> {
    if pds == [] then []
    else
      [Entry(pds[0].info, parent)] + FlattenAll(pds[0].children, Some(start), start + 1)
      + FlattenAll(pds[1..], parent, start + Size(pds[0]))
  }

  lemma {:induction false} FlattenLength(pds: seq<Pd>, parent: Option<nat>, start: nat)
    ensures |FlattenAll(pds, parent, start)| == SizeAll(pds)
    decreases pds
  {
    if pds != [] {
      FlattenLength(pds[0].children, Some(start), start + 1);
      FlattenLength(pds[1..], parent, start + Size(pds[0]));
    }
  }

  /** A parent link is the one given from outside or points to an earlier entry. */
  predicate LinkOk(e: Entry, parent: Option<nat>, start: nat, position: nat) {
    e.parent == parent || (e.parent.Some? && start <= e.parent.value < position)
  }

  ghost predicate LinksOk(s: seq<Entry>, parent: Option<nat>, start: nat) {
    forall k: nat :: k < |s| ==> LinkOk(s[k], parent, start, start + k)
  }

  lemma LinksJoin(e: Entry, inner: seq<Entry>, rest: seq<Entry>, parent: Option<nat>, start: nat, next: nat)
    requires e.parent == parent && next == start + 1 + |inner|
    requires LinksOk(inner, Some(start), start + 1) && LinksOk(rest, parent, next)
    ensures LinksOk([e] + inner + rest, parent, start)
  {
    var s := [e] + inner + rest;
    forall k: nat | k < |s|
      ensures LinkOk(s[k], parent, start, start + k)
    {
      if 0 < k < next - start {
        assert s[k] == inner[k - 1] && LinkOk(inner[k - 1], Some(start), start + 1, start + 1 + (k - 1));
      } else if next - start <= k {
        var j: nat := k - (next - start);
        assert s[k] == rest[j] && LinkOk(rest[j], parent, next, next + j);
      }
    }
  }

  lemma {:induction false} FlattenLinks(pds: seq<Pd>, parent: Option<nat>, start: nat)
    ensures LinksOk(FlattenAll(pds, parent, start), parent, start)
    decreases pds
  {
    if pds != [] {
      var next := start + Size(pds[0]);
      FlattenLinks(pds[0].children, Some(start), start + 1);
      FlattenLinks(pds[1..], parent, next);
      FlattenLength(pds[0].children, Some(start), start + 1);
      LinksJoin(Entry(pds[0].info, parent), FlattenAll(pds[0].children, Some(start), start + 1),
                FlattenAll(pds[1..], parent, next), parent, start, next);
    }
  }

  // ---- the links name the real parents ----

  /** The k-th domain of the forest in preorder. */
  function DomainAt(pds: seq<Pd>, k: nat): Pd
    requires k < SizeAll(pds)
  {
    if k == 0 then pds[0]
    else if k < Size(pds[0]) then DomainAt(pds[0].children, k - 1)
    else DomainAt(pds[1..], k - Size(pds[0]))
  }

  /** Entry e stands for domain k, and its link for the domain k is a child of. */
  ghost predicate NamesParent(e: Entry, pds: seq<Pd>, parent: Option<nat>, start: nat, k: nat)
    requires k < SizeAll(pds)
  {
    && e.info == DomainAt(pds, k).info
    && ((e.parent == parent && DomainAt(pds, k) in pds) || ChildOf(e.parent, pds, start, k))
  }

  ghost predicate ChildOf(link: Option<nat>, pds: seq<Pd>, start: nat, k: nat)
    requires k < SizeAll(pds)
  {
    match link
    case None => false
    case Some(q) => start <= q < start + k && DomainAt(pds, k) in DomainAt(pds, q - start).children
  }

  lemma {:induction false} LinksAreParents(pds: seq<Pd>, parent: Option<nat>, start: nat, k: nat)
    requires k < SizeAll(pds)
    ensures k < |FlattenAll(pds, parent, start)|
    ensures NamesParent(FlattenAll(pds, parent, start)[k], pds, parent, start, k)
    decreases pds
  {
    var size := Size(pds[0]);
    FlattenLength(pds, parent, start);
    FlattenLength(pds[0].children, Some(start), start + 1);
    var inner, rest := FlattenAll(pds[0].children, Some(start), start + 1), FlattenAll(pds[1..], parent, start + size);
    ThreeParts(Entry(pds[0].info, parent), inner, rest, k);
    if 0 < k < size {
      LinksAreParents(pds[0].children, Some(start), start + 1, k - 1);
      InnerParent(inner[k - 1], pds, parent, start, k);
    } else if size <= k {
      LinksAreParents(pds[1..], parent, start + size, k - size);
      RestParent(rest[k - size], pds, parent, start, k);
    }
  }

  lemma ThreeParts(e: Entry, inner: seq<Entry>, rest: seq<Entry>, k: nat)
    requires k < 1 + |inner| + |rest|
    ensures ([e] + inner + rest)[k] == if k == 0 then e else if k <= |inner| then inner[k - 1] else rest[k - 1 - |inner|]
  {
  }

  lemma InnerParent(e: Entry, pds: seq<Pd>, parent: Option<nat>, start: nat, k: nat)
    requires pds != [] && 0 < k < Size(pds[0]) && k < SizeAll(pds)
    requires NamesParent(e, pds[0].children, Some(start), start + 1, k - 1)
    ensures NamesParent(e, pds, parent, start, k)
  {
    if ChildOf(e.parent, pds[0].children, start + 1, k - 1) {
      var q := e.parent.value;
      assert DomainAt(pds, q - start) == DomainAt(pds[0].children, q - (start + 1));
    } else {
      assert DomainAt(pds, 0) == pds[0];
    }
    assert ChildOf(e.parent, pds, start, k);
  }

  lemma RestParent(e: Entry, pds: seq<Pd>, parent: Option<nat>, start: nat, k: nat)
    requires pds != [] && Size(pds[0]) <= k < SizeAll(pds)
    requires NamesParent(e, pds[1..], parent, start + Size(pds[0]), k - Size(pds[0]))
    ensures NamesParent(e, pds, parent, start, k)
  {
    var size := Size(pds[0]);
    if ChildOf(e.parent, pds[1..], start + size, k - size) {
      var q := e.parent.value;
      assert DomainAt(pds, q - start) == DomainAt(pds[1..], q - (start + size));
      assert ChildOf(e.parent, pds, start, k);
    }
  }

  /** Entry k of the list is domain k in preorder; a root has no parent, and any other entry
      names the position of the domain whose child it is. */
  lemma FlattenLinksRealParents(pds: seq<Pd>, k: nat)
    requires k < SizeAll(pds)
    ensures k < |FlattenAll(pds, None, 0)|
    ensures var e := FlattenAll(pds, None, 0)[k];
      && e.info == DomainAt(pds, k).info
      && (match e.parent
          case None => DomainAt(pds, k) in pds
          case Some(q) => q < k && DomainAt(pds, k) in DomainAt(pds, q).children)
  {
    LinksAreParents(pds, None, 0, k);
  }

  // ---- the checks ----

  /** No child id occurs twice below a domain or is the id of one of its vCPUs. */
  ghost predicate IdsOk(pd: Pd) {
    && (forall i, j :: 0 <= i < j < |pd.children| ==> pd.children[i].info.childId != pd.children[j].info.childId)
    && (forall i :: 0 <= i < |pd.children| ==> pd.children[i].info.childId !in pd.info.vcpus)
  }

  ghost predicate TreeOk(pd: Pd) {
    IdsOk(pd) && forall i :: 0 <= i < |pd.children| ==> TreeOk(pd.children[i])
  }

  function ChildIds(pds: seq<Pd>): seq<nat> {
    seq(|pds|, i requires 0 <= i < |pds| => pds[i].info.childId)
  }

  method CheckIds(pd: Pd) returns (clash: Option<nat>)
    ensures clash.None? <==> IdsOk(pd)
  {
    var childIds: seq<nat> := [];
    var i := 0;
    while i < |pd.children|
      invariant 0 <= i <= |pd.children| && childIds == ChildIds(pd.children)[..i]
      invariant forall a, b :: 0 <= a < b < i ==> pd.children[a].info.childId != pd.children[b].info.childId
      invariant forall a :: 0 <= a < i ==> pd.children[a].info.childId !in pd.info.vcpus
    {
      var childId := pd.children[i].info.childId;
      if childId in childIds {
        return Some(childId);
      }
      var v := 0;
      while v < |pd.info.vcpus|
        invariant 0 <= v <= |pd.info.vcpus| && childId !in pd.info.vcpus[..v]
      {
        if childId == pd.info.vcpus[v] {
          return Some(childId);
        }
        v := v + 1;
      }
      assert pd.info.vcpus[..v] == pd.info.vcpus;
      assert forall a :: 0 <= a < i ==> childIds[a] == pd.children[a].info.childId;
      childIds := childIds + [childId];
      i := i + 1;
    }
    return None;
  }

  /** A tree: its root and all that is below it. */
  function FlattenOne(pd: Pd, parent: Option<nat>, start: nat): seq<Entry> {
    [Entry(pd.info, parent)] + FlattenAll(pd.children, Some(start), start + 1)
  }

  lemma FlattenFirst(pds: seq<Pd>, parent: Option<nat>, start: nat)
    requires pds != []
    ensures FlattenAll(pds, parent, start)
      == FlattenOne(pds[0], parent, start) + FlattenAll(pds[1..], parent, start + Size(pds[0]))
    ensures SizeAll(pds) == Size(pds[0]) + SizeAll(pds[1..])
  {
  }

  lemma FlattenSingle(pd: Pd, parent: Option<nat>, start: nat)
    ensures FlattenAll([pd], parent, start) == FlattenOne(pd, parent, start)
  {
    FlattenFirst([pd], parent, start);
    assert [pd][1..] == [];
    assert FlattenOne(pd, parent, start) + [] == FlattenOne(pd, parent, start);
  }

  lemma TailOfTake<T>(s: seq<T>, i: nat)
    requires 0 < i <= |s|
    ensures s[..i] != [] && s[..i][0] == s[0] && s[..i][1..] == s[1..][..i - 1]
  {
  }

  lemma Regroup<T>(a: seq<T>, b: seq<T>, c: seq<T>)
    ensures a + (b + c) == (a + b) + c
  {
  }

  lemma {:induction false} FlattenSplit(pds: seq<Pd>, i: nat, parent: Option<nat>, start: nat)
    requires i < |pds|
    ensures FlattenAll(pds[..i + 1], parent, start)
      == FlattenAll(pds[..i], parent, start) + FlattenOne(pds[i], parent, start + SizeAll(pds[..i]))
    decreases i
  {
    TailOfTake(pds, i + 1);
    FlattenFirst(pds[..i + 1], parent, start);
    if i == 0 {
      SplitFirst(pds, parent, start);
    } else {
      var rest, next := pds[1..], start + Size(pds[0]);
      FlattenSplit(rest, i - 1, parent, next);
      TailOfTake(pds, i);
      FlattenFirst(pds[..i], parent, start);
      Regroup(FlattenOne(pds[0], parent, start), FlattenAll(rest[..i - 1], parent, next),
              FlattenOne(pds[i], parent, start + SizeAll(pds[..i])));
    }
  }

  lemma SplitFirst(pds: seq<Pd>, parent: Option<nat>, start: nat)
    requires pds != []
    ensures FlattenAll(pds[..1], parent, start)
      == FlattenAll(pds[..0], parent, start) + FlattenOne(pds[0], parent, start + SizeAll(pds[..0]))
  {
    assert pds[..1] == [pds[0]];
    FlattenSingle(pds[0], parent, start);
  }

  /** A domain, with its parent link set, at position idx of the whole list, followed by all
      domains below it. */
  method TreeToList(pd: Pd, parent: Option<nat>, idx: nat) returns (r: Result)
    ensures r.Flat? <==> TreeOk(pd)
    ensures r.Flat? ==> r.entries == FlattenOne(pd, parent, idx)
    decreases pd
  {
    var clash := CheckIds(pd);
    if clash.Some? {
      return DuplicateId(pd.info.name, clash.value);
    }
    var newChildPds: seq<Entry> := [];
    var i := 0;
    while i < |pd.children|
      invariant 0 <= i <= |pd.children|
      invariant newChildPds == FlattenAll(pd.children[..i], Some(idx), idx + 1)
      invariant forall a :: 0 <= a < i ==> TreeOk(pd.children[a])
    {
      FlattenLength(pd.children[..i], Some(idx), idx + 1);
      FlattenSplit(pd.children, i, Some(idx), idx + 1);
      var below := TreeToList(pd.children[i], Some(idx), idx + |newChildPds| + 1);
      if below.DuplicateId? {
        return below;
      }
      newChildPds := newChildPds + below.entries;
      i := i + 1;
    }
    assert pd.children[..i] == pd.children;
    return Flat([Entry(pd.info, parent)] + newChildPds);
  }

  /** Flattens the roots one after the other; fails exactly when some id clashes. */
  method Flatten(pds: seq<Pd>) returns (r: Result)
    ensures r.Flat? <==> forall i :: 0 <= i < |pds| ==> TreeOk(pds[i])
    ensures r.Flat? ==> r.entries == FlattenAll(pds, None, 0)
  {
    var allPds: seq<Entry> := [];
    var i := 0;
    while i < |pds|
      invariant 0 <= i <= |pds| && allPds == FlattenAll(pds[..i], None, 0)
      invariant forall a :: 0 <= a < i ==> TreeOk(pds[a])
    {
      FlattenLength(pds[..i], None, 0);
      FlattenSplit(pds, i, None, 0);
      var tree := TreeToList(pds[i], None, |allPds|);
      if tree.DuplicateId? {
        return tree;
      }
      allPds := allPds + tree.entries;
      i := i + 1;
    }
    assert pds[..i] == pds;
    return Flat(allPds);
  }

  // ---- nothing is lost ----

  /** The domain at position i, rebuilt from parent links alone. */
  function Build(flat: seq<Entry>, i: nat): Pd
    requires i < |flat|
    decreases |flat| - i, 0
  {
    Pd(flat[i].info, BuildAll(flat, Some(i), i + 1))
  }

  /** The domains from position `from` on whose parent link is this one. */
  function BuildAll(flat: seq<Entry>, parent: Option<nat>, from: nat): seq<Pd>
    decreases |flat| - from, 1
  {
    if from >= |flat| then []
    else (if flat[from].parent == parent then [Build(flat, from)] else []) + BuildAll(flat, parent, from + 1)
  }

  /** No entry of [from, to) hangs below the given parent. */
  ghost predicate NoChildren(flat: seq<Entry>, parent: Option<nat>, from: nat, to: nat) {
    match parent
    case None => forall k :: from <= k < to && k < |flat| ==> flat[k].parent != None
    case Some(q) => forall k :: from <= k < to && k < |flat| ==> flat[k].parent != Some(q)
  }

  lemma {:induction false} Skip(flat: seq<Entry>, parent: Option<nat>, from: nat, to: nat)
    requires from <= to <= |flat| && NoChildren(flat, parent, from, to)
    ensures BuildAll(flat, parent, from) == BuildAll(flat, parent, to)
    decreases |flat| - from
  {
    if from < to {
      Skip(flat, parent, from + 1, to);
    }
  }

  lemma {:induction false} SkipToEnd(flat: seq<Entry>, parent: Option<nat>, from: nat)
    requires from <= |flat| && NoChildren(flat, parent, from, |flat|)
    ensures BuildAll(flat, parent, from) == []
    decreases |flat| - from
  {
    if from < |flat| {
      SkipToEnd(flat, parent, from + 1);
    }
  }

  /** No entry from `end` on hangs below an entry of [start, end). */
  ghost predicate Closed(flat: seq<Entry>, start: nat, end: nat) {
    forall k :: end <= k < |flat| && flat[k].parent.Some? ==> !(start <= flat[k].parent.value < end)
  }

  ghost predicate Holds(flat: seq<Entry>, pds: seq<Pd>, parent: Option<nat>, start: nat) {
    && start + SizeAll(pds) <= |flat|
    && flat[start..start + SizeAll(pds)] == FlattenAll(pds, parent, start)
  }

  /** The block of a forest inside a list splits into its first tree and the rest. */
  lemma HoldsParts(flat: seq<Entry>, pds: seq<Pd>, parent: Option<nat>, start: nat)
    requires pds != [] && Holds(flat, pds, parent, start)
    ensures flat[start] == Entry(pds[0].info, parent)
    ensures Holds(flat, pds[0].children, Some(start), start + 1)
    ensures Holds(flat, pds[1..], parent, start + Size(pds[0]))
  {
    var size := Size(pds[0]);
    var inner, rest := FlattenAll(pds[0].children, Some(start), start + 1), FlattenAll(pds[1..], parent, start + size);
    FlattenLength(pds[0].children, Some(start), start + 1);
    FlattenLength(pds[1..], parent, start + size);
    SplitBlock(flat, start, start + SizeAll(pds), Entry(pds[0].info, parent), inner, rest, size);
  }

  /** A block made of one entry and two parts has the parts in their places. */
  lemma SplitBlock(flat: seq<Entry>, start: nat, end: nat, e: Entry, inner: seq<Entry>, rest: seq<Entry>, size: nat)
    requires start <= end <= |flat| && flat[start..end] == [e] + inner + rest && 1 + |inner| == size
    ensures start < end && flat[start] == e && start + size <= end
    ensures flat[start + 1..start + size] == inner && flat[start + size..end] == rest
  {
    SplitAt(flat[start..end], e, inner, rest, size);
    assert flat[start..end][0] == flat[start];
    Bytes.SliceOfSlice(flat, start, end, 1, size);
    Bytes.SliceOfSlice(flat, start, end, size, end - start);
  }

  lemma SplitAt(all: seq<Entry>, e: Entry, inner: seq<Entry>, rest: seq<Entry>, size: nat)
    requires all == [e] + inner + rest && 1 + |inner| == size
    ensures size <= |all| && all[0] == e && all[1..size] == inner && all[size..] == rest
  {
  }

  lemma BlockLinks(flat: seq<Entry>, pds: seq<Pd>, parent: Option<nat>, start: nat, k: nat)
    requires Holds(flat, pds, parent, start) && start <= k < start + SizeAll(pds)
    ensures LinkOk(flat[k], parent, start, k)
  {
    FlattenLinks(pds, parent, start);
    var s := FlattenAll(pds, parent, start);
    FlattenLength(pds, parent, start);
    assert s[k - start] == flat[k] && LinkOk(s[k - start], parent, start, start + (k - start));
  }

  /** The forest occupies a block of the list: its links point into the block or to the
      given parent before it, and no link from behind points into it. */
  ghost predicate Block(flat: seq<Entry>, pds: seq<Pd>, parent: Option<nat>, start: nat) {
    match parent
    case None => Holds(flat, pds, parent, start) && Closed(flat, start, start + SizeAll(pds))
    case Some(q) => q < start && Holds(flat, pds, parent, start) && Closed(flat, start, start + SizeAll(pds))
  }

  /** The first tree of a block: its children are a block, what follows it is a block, no
      entry behind it is its child and no entry inside it is its sibling. */
  lemma {:induction false} BlockParts(flat: seq<Entry>, pds: seq<Pd>, parent: Option<nat>, start: nat)
    requires pds != [] && Block(flat, pds, parent, start)
    ensures var next := start + Size(pds[0]);
      && next <= |flat| && flat[start] == Entry(pds[0].info, parent)
      && Block(flat, pds[0].children, Some(start), start + 1) && Block(flat, pds[1..], parent, next)
      && NoChildren(flat, Some(start), next, |flat|) && NoChildren(flat, parent, start + 1, next)
  {
    var next := start + Size(pds[0]);
    HoldsParts(flat, pds, parent, start);
    forall k | start < k < next
      ensures flat[k].parent.Some? && start <= flat[k].parent.value
    {
      BlockLinks(flat, pds[0].children, Some(start), start + 1, k);
    }
    forall k | next <= k < |flat| && flat[k].parent.Some?
      ensures !(start <= flat[k].parent.value < next)
    {
      if k < start + SizeAll(pds) {
        BlockLinks(flat, pds[1..], parent, next, k);
      }
    }
  }

  lemma {:induction false} Rebuilds(flat: seq<Entry>, pds: seq<Pd>, parent: Option<nat>, start: nat)
    requires Block(flat, pds, parent, start)
    ensures BuildAll(flat, parent, start) == pds + BuildAll(flat, parent, start + SizeAll(pds))
    decreases pds, 0
  {
    if pds == [] {
      EmptyBefore(pds, BuildAll(flat, parent, start));
    } else {
      var next := start + Size(pds[0]);
      BlockParts(flat, pds, parent, start);
      RebuildsChildren(flat, pds[0].children, start, next);
      RebuildsRest(flat, pds[1..], parent, start + 1, next);
      RebuildJoin(flat, pds, parent, start, BuildAll(flat, parent, next + SizeAll(pds[1..])));
    }
  }

  lemma {:induction false} RebuildsChildren(flat: seq<Entry>, kids: seq<Pd>, start: nat, next: nat)
    requires Block(flat, kids, Some(start), start + 1)
    requires next == start + 1 + SizeAll(kids) <= |flat| && NoChildren(flat, Some(start), next, |flat|)
    ensures BuildAll(flat, Some(start), start + 1) == kids
    decreases kids, 1
  {
    SkipToEnd(flat, Some(start), next);
    Rebuilds(flat, kids, Some(start), start + 1);
    EmptyBehind(kids, BuildAll(flat, Some(start), next));
  }

  lemma {:induction false} RebuildsRest(flat: seq<Entry>, pds: seq<Pd>, parent: Option<nat>, from: nat, next: nat)
    requires Block(flat, pds, parent, next)
    requires from <= next <= |flat| && NoChildren(flat, parent, from, next)
    ensures BuildAll(flat, parent, from) == pds + BuildAll(flat, parent, next + SizeAll(pds))
    decreases pds, 1
  {
    Skip(flat, parent, from, next);
    Rebuilds(flat, pds, parent, next);
  }

  lemma EmptyBefore(s: seq<Pd>, t: seq<Pd>)
    requires s == []
    ensures s + t == t
  {
  }

  lemma EmptyBehind(s: seq<Pd>, t: seq<Pd>)
    requires t == []
    ensures s + t == s
  {
  }

  lemma RebuildJoin(flat: seq<Entry>, pds: seq<Pd>, parent: Option<nat>, start: nat, end: seq<Pd>)
    requires pds != [] && start < |flat| && flat[start] == Entry(pds[0].info, parent)
    requires BuildAll(flat, Some(start), start + 1) == pds[0].children
    requires BuildAll(flat, parent, start + 1) == pds[1..] + end
    ensures BuildAll(flat, parent, start) == pds + end
  {
    BuildFirst(flat, parent, start);
    FirstAndRest(pds, end);
  }

  lemma BuildFirst(flat: seq<Entry>, parent: Option<nat>, start: nat)
    requires start < |flat| && flat[start].parent == parent
    ensures BuildAll(flat, parent, start)
      == [Pd(flat[start].info, BuildAll(flat, Some(start), start + 1))] + BuildAll(flat, parent, start + 1)
  {
  }

  lemma FirstAndRest(pds: seq<Pd>, end: seq<Pd>)
    requires pds != []
    ensures [pds[0]] + (pds[1..] + end) == pds + end
  {
  }

  /** The list has one entry per domain, roots have no parent, every other parent is at a
      smaller position, and rebuilding from the links gives back the forest. */
  lemma FlattenIsInvertible(pds: seq<Pd>)
    ensures var flat := FlattenAll(pds, None, 0);
      && |flat| == SizeAll(pds)
      && (forall k: nat :: k < |flat| ==> flat[k].parent.None? || flat[k].parent.value < k)
      && BuildAll(flat, None, 0) == pds
  {
    var flat := FlattenAll(pds, None, 0);
    FlattenLength(pds, None, 0);
    FlattenLinks(pds, None, 0);
    forall k: nat | k < |flat|
      ensures flat[k].parent.None? || flat[k].parent.value < k
    {
      assert LinkOk(flat[k], None, 0, 0 + k);
    }
    assert flat[0..0 + SizeAll(pds)] == flat;
    Rebuilds(flat, pds, None, 0);
    assert BuildAll(flat, None, 0) == pds + [];
  }
}
