/** Channels of a system description and the checks that `parse` makes on them:
    tool/microkit/src/sdf.rs. */
module Channels {
  import opened MemoryRegions

  datatype End = End(pd: nat, id: nat, notify: bool, pp: bool)

  datatype Channel = Channel(endA: End, endB: End) {
    /** The end on one side; the other side is its peer. */
    function At(b: bool): End {
      if b then endB else endA
    }
  }

  datatype CapKind = TcbKind | ScKind | VSpaceKind | CSpaceKind

  /** A capability of domain pd that the description asks to be put in a slot. */
  datatype CapMap = CapMap(kind: CapKind, pd: nat, slot: nat)

  /** The parts of a protection domain that reach its capability space. */
  datatype Domain = Domain(
    priority: nat, passive: bool, smc: bool, hasChildren: bool, parent: Option<nat>, childId: nat,
    hasVm: bool, vcpus: seq<nat>, irqs: seq<nat>, ioports: seq<nat>, userCaps: seq<CapMap>)

  datatype System = System(pds: seq<Domain>, channels: seq<Channel>, x86: bool, benchmark: bool)

  const MAX_ID: nat := 61
  const CAP_MAP_MAX_SLOT: nat := 128

  predicate Distinct(s: seq<nat>) {
    forall i, j :: 0 <= i < j < |s| ==> s[i] != s[j]
  }

  predicate AllBelow(s: seq<nat>, bound: nat) {
    forall i :: 0 <= i < |s| ==> s[i] < bound
  }

  predicate CapMapsOk(maps: seq<CapMap>, domains: nat) {
    && (forall i :: 0 <= i < |maps| ==> 0 < maps[i].slot < CAP_MAP_MAX_SLOT && maps[i].pd < domains)
    && (forall i, j :: 0 <= i < j < |maps| ==> maps[i].slot != maps[j].slot)
  }

  predicate DomainOk(sys: System, p: nat)
    requires p < |sys.pds|
  {
    var pd := sys.pds[p];
    && AllBelow(pd.irqs, MAX_ID + 1)
    && AllBelow(pd.ioports, MAX_ID + 1) && Distinct(pd.ioports)
    && AllBelow(pd.vcpus, MAX_ID + 1) && Distinct(pd.vcpus) && (pd.vcpus != [] ==> pd.hasVm)
    && CapMapsOk(pd.userCaps, |sys.pds|)
    && (pd.parent.Some? ==> pd.parent.value < p && sys.pds[pd.parent.value].hasChildren)
  }

  predicate EndOk(sys: System, e: End) {
    e.pd < |sys.pds| && e.id <= MAX_ID
  }

  /** What reading the elements one by one guarantees: ids in range, parents before
      children, at most one `pp` end per channel. */
  predicate WellFormed(sys: System) {
    match sys
    case System(pds, channels, _, _) =>
      && (forall p: nat :: p < |pds| ==> DomainOk(sys, p))
      && (forall k: nat :: k < |channels| ==>
           && EndOk(sys, channels[k].endA) && EndOk(sys, channels[k].endB)
           && !(channels[k].endA.pp && channels[k].endB.pp))
  }

  /** A domain receives on an endpoint when anything can call or fault into it. */
  predicate NeedsEp(sys: System, p: nat)
    requires p < |sys.pds|
  {
    || sys.pds[p].hasChildren
    || sys.pds[p].hasVm
    || exists k :: 0 <= k < |sys.channels| && CallsInto(sys.channels[k], p)
  }

  predicate CallsInto(c: Channel, p: nat) {
    (c.endA.pp && c.endB.pd == p) || (c.endB.pp && c.endA.pd == p)
  }

  // ---- the declarative meaning of the checks ----

  predicate SameId(e: End, f: End) {
    e.pd == f.pd && e.id == f.id
  }

  /** A protected call goes to a domain of strictly higher priority, and on x86 never to
      one that runs a virtual machine. */
  predicate CallsUp(sys: System, c: Channel)
    requires EndOk(sys, c.endA) && EndOk(sys, c.endB)
  {
    forall b :: c.At(b).pp ==>
      && sys.pds[c.At(b).pd].priority < sys.pds[c.At(!b).pd].priority
      && !(sys.x86 && sys.pds[c.At(!b).pd].hasVm)
  }

  ghost predicate NoClash(sys: System, j: nat, k: nat)
    requires j < |sys.channels| && k < |sys.channels|
  {
    forall b, c :: !SameId(sys.channels[j].At(b), sys.channels[k].At(c))
  }

  ghost predicate IrqFree(sys: System, k: nat)
    requires k < |sys.channels| && WellFormed(sys)
  {
    forall b :: sys.channels[k].At(b).id !in sys.pds[sys.channels[k].At(b).pd].irqs
  }

  /** In every domain, interrupts and the ends of different channels have different ids. */
  ghost predicate Accepted(sys: System) {
    match sys
    case System(pds, channels, _, _) =>
      && WellFormed(sys)
      && (forall p: nat :: p < |pds| ==> Distinct(pds[p].irqs))
      && (forall k: nat :: k < |channels| ==> IrqFree(sys, k) && CallsUp(sys, channels[k]))
      && (forall j: nat, k: nat :: j < k < |channels| ==> NoClash(sys, j, k))
  }

  // ---- the checking loops ----

  /** Ids in use in domain p after the interrupts and the first k channels. */
  function UsedIds(sys: System, k: nat, p: nat): seq<nat>
    requires p < |sys.pds| && k <= |sys.channels|
  {
    if k == 0 then sys.pds[p].irqs
    else
      var c := sys.channels[k - 1];
      UsedIds(sys, k - 1, p)
      + (if c.endA.pd == p then [c.endA.id] else [])
      + (if c.endB.pd == p then [c.endB.id] else [])
  }

  ghost predicate UsedBy(sys: System, j: nat, b: bool, p: nat, x: nat) {
    j < |sys.channels| && sys.channels[j].At(b).pd == p && sys.channels[j].At(b).id == x
  }

  lemma {:induction false} UsedIdsAre(sys: System, k: nat, p: nat, x: nat)
    requires p < |sys.pds| && k <= |sys.channels|
    ensures x in UsedIds(sys, k, p) <==>
      x in sys.pds[p].irqs || exists j: nat, b :: j < k && UsedBy(sys, j, b, p, x)
  {
    if k > 0 {
      UsedIdsAre(sys, k - 1, p, x);
      var c := sys.channels[k - 1];
      assert c.endA == c.At(false) && c.endB == c.At(true);
      assert UsedBy(sys, k - 1, false, p, x) <==> c.endA.pd == p && c.endA.id == x;
      assert UsedBy(sys, k - 1, true, p, x) <==> c.endB.pd == p && c.endB.id == x;
    }
  }

  predicate PassesStep(sys: System, k: nat)
    requires WellFormed(sys) && k < |sys.channels|
  {
    var c := sys.channels[k];
    && c.endA.id !in UsedIds(sys, k, c.endA.pd)
    && c.endB.id !in UsedIds(sys, k, c.endB.pd)
    && CallsUp(sys, c)
  }

  lemma StepMeans(sys: System, k: nat)
    requires WellFormed(sys) && k < |sys.channels|
    ensures PassesStep(sys, k) <==>
      && IrqFree(sys, k) && CallsUp(sys, sys.channels[k])
      && forall j: nat :: j < k ==> NoClash(sys, j, k)
  {
    var c := sys.channels[k];
    assert c.endA == c.At(false) && c.endB == c.At(true);
    UsedIdsAre(sys, k, c.endA.pd, c.endA.id);
    UsedIdsAre(sys, k, c.endB.pd, c.endB.id);
    forall j: nat, b | j < k
      ensures UsedBy(sys, j, b, c.endA.pd, c.endA.id) <==> SameId(sys.channels[j].At(b), c.At(false))
      ensures UsedBy(sys, j, b, c.endB.pd, c.endB.id) <==> SameId(sys.channels[j].At(b), c.At(true))
    {
    }
    if forall j: nat :: j < k ==> NoClash(sys, j, k) {
      forall j: nat, b | j < k
        ensures !UsedBy(sys, j, b, c.endA.pd, c.endA.id) && !UsedBy(sys, j, b, c.endB.pd, c.endB.id)
      {
        assert NoClash(sys, j, k);
      }
    }
  }

  method CallsUpCheck(sys: System, c: Channel) returns (ok: bool)
    requires EndOk(sys, c.endA) && EndOk(sys, c.endB) && !(c.endA.pp && c.endB.pp)
    ensures ok <==> CallsUp(sys, c)
  {
    var a, b := sys.pds[c.endA.pd], sys.pds[c.endB.pd];
    assert c.endA == c.At(false) && c.endB == c.At(true);
    if c.endA.pp && a.priority >= b.priority {
      return false;
    } else if c.endB.pp && b.priority >= a.priority {
      return false;
    }
    if sys.x86 && ((c.endA.pp && b.hasVm) || (c.endB.pp && a.hasVm)) {
      return false;
    }
    return true;
  }

  method CheckIrqs(sys: System) returns (ok: bool, chIds: seq<seq<nat>>)
    requires WellFormed(sys)
    ensures ok <==> forall p: nat :: p < |sys.pds| ==> Distinct(sys.pds[p].irqs)
    ensures ok ==> |chIds| == |sys.pds| && forall p: nat :: p < |sys.pds| ==> chIds[p] == UsedIds(sys, 0, p)
  {
    chIds := seq(|sys.pds|, _ => []);
    var p := 0;
    while p < |sys.pds|
      invariant 0 <= p <= |sys.pds| == |chIds|
      invariant forall q: nat :: q < p ==> chIds[q] == sys.pds[q].irqs && Distinct(sys.pds[q].irqs)
      invariant forall q: nat :: p <= q < |sys.pds| ==> chIds[q] == []
    {
      var irqs := sys.pds[p].irqs;
      var i := 0;
      while i < |irqs|
        invariant 0 <= i <= |irqs| && |chIds| == |sys.pds|
        invariant forall q: nat :: q < p ==> chIds[q] == sys.pds[q].irqs
        invariant chIds[p] == irqs[..i] && Distinct(irqs[..i])
        invariant forall q: nat :: p < q < |sys.pds| ==> chIds[q] == []
      {
        if irqs[i] in chIds[p] {
          return false, chIds;
        }
        chIds := chIds[p := chIds[p] + [irqs[i]]];
        i := i + 1;
      }
      assert irqs[..|irqs|] == irqs;
      p := p + 1;
    }
    ok := true;
  }

  /** The channel checks accept exactly the systems described by `Accepted`. */
  method CheckChannels(sys: System) returns (ok: bool)
    requires WellFormed(sys)
    ensures ok <==> Accepted(sys)
  {
    var chIds;
    ok, chIds := CheckIrqs(sys);
    if !ok {
      return false;
    }
    var k := 0;
    while k < |sys.channels|
      invariant 0 <= k <= |sys.channels| && |chIds| == |sys.pds|
      invariant forall p: nat :: p < |sys.pds| ==> chIds[p] == UsedIds(sys, k, p)
      invariant forall j: nat :: j < k ==> PassesStep(sys, j)
    {
      var c := sys.channels[k];
      ok := CallsUpCheck(sys, c);
      if c.endA.id in chIds[c.endA.pd] || c.endB.id in chIds[c.endB.pd] || !ok {
        StepMeans(sys, k);
        return false;
      }
      chIds := chIds[c.endA.pd := chIds[c.endA.pd] + [c.endA.id]];
      chIds := chIds[c.endB.pd := chIds[c.endB.pd] + [c.endB.id]];
      k := k + 1;
    }
    forall j: nat | j < |sys.channels|
      ensures IrqFree(sys, j) && CallsUp(sys, sys.channels[j])
      ensures forall i: nat :: i < j ==> NoClash(sys, i, j)
    {
      StepMeans(sys, j);
    }
    return true;
  }

  /** The checks let a channel of a domain with itself use one id twice. */
  lemma SelfChannelIsAccepted(sys: System, e: End)
    requires sys.pds == [Domain(1, false, false, false, None, 0, false, [], [], [], [])]
    requires e == End(0, 7, true, false) && sys.channels == [Channel(e, e)]
    ensures Accepted(sys)
  {
    assert DomainOk(sys, 0);
    assert sys.channels[0].At(true) == e && sys.channels[0].At(false) == e;
  }

  /** Both ends of every channel differ in domain or id. */
  predicate ProperChannels(sys: System) {
    forall k: nat :: k < |sys.channels| ==> !SameId(sys.channels[k].endA, sys.channels[k].endB)
  }

  /** An accepted protected call never stays inside its domain. */
  lemma CallsLeaveDomain(sys: System, k: nat, b: bool)
    requires Accepted(sys) && k < |sys.channels| && sys.channels[k].At(b).pp
    ensures sys.channels[k].At(b).pd != sys.channels[k].At(!b).pd
  {
    assert CallsUp(sys, sys.channels[k]);
  }

  /** Ends with one id in one domain are the same end. */
  lemma EndsUnique(sys: System, j: nat, b: bool, k: nat, c: bool)
    requires Accepted(sys) && ProperChannels(sys) && j < |sys.channels| && k < |sys.channels|
    requires SameId(sys.channels[j].At(b), sys.channels[k].At(c))
    ensures j == k && b == c
  {
    assert j < k ==> NoClash(sys, j, k);
    assert k < j ==> NoClash(sys, k, j);
  }
}
