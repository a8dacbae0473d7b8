/** From an event's sender to the entry point it reaches: capability pointers, masks and
    badges (tool/microkit/src/capdl/builder.rs, tool/microkit/src/symbols.rs,
    libmicrokit/include/microkit.h, libmicrokit/src/main.c). */
module Events {
  import opened Powers
  import opened Words
  import opened MemoryRegions
  import opened Channels
  import opened CapSpaces

  // ---- no slot is filled twice ----

  ghost predicate NoDup(s: seq<Cte>) {
    forall i, j :: 0 <= i < j < |s| ==> s[i].slot != s[j].slot
  }

  ghost predicate Within(s: seq<Cte>, lo: nat, hi: nat) {
    forall i :: 0 <= i < |s| ==> lo <= s[i].slot < hi
  }

  ghost predicate Avoids(s: seq<Cte>, lo: nat, hi: nat) {
    forall i :: 0 <= i < |s| ==> !(lo <= s[i].slot < hi)
  }

  ghost predicate Positive(s: seq<Cte>) {
    forall i :: 0 <= i < |s| ==> s[i].slot > 0
  }

  lemma NoDupAppend(a: seq<Cte>, b: seq<Cte>, lo: nat, hi: nat)
    requires NoDup(a) && NoDup(b) && Avoids(a, lo, hi) && Within(b, lo, hi)
    ensures NoDup(a + b)
  {
  }

  lemma NoDupConcat(a: seq<Cte>, b: seq<Cte>)
    requires NoDup(a) && NoDup(b) && Apart(a, b)
    ensures NoDup(a + b)
  {
  }

  ghost predicate Apart(a: seq<Cte>, b: seq<Cte>) {
    forall x, y :: x in a && y in b ==> x.slot != y.slot
  }

  lemma WithinAppend(a: seq<Cte>, b: seq<Cte>, lo: nat, hi: nat)
    requires Within(a, lo, hi) && Within(b, lo, hi)
    ensures Within(a + b, lo, hi)
  {
  }

  lemma FixedNoDup(sys: System, p: nat)
    requires p < |sys.pds|
    ensures NoDup(FixedCaps(sys, p)) && Within(FixedCaps(sys, p), 1, 7)
  {
  }

  lemma {:induction false} VcpuNoDup(x86: bool, p: nat, ids: seq<nat>)
    requires AllBelow(ids, 62) && Distinct(ids)
    ensures var s := VcpuCaps(x86, p, ids);
      && NoDup(s) && Within(s, 266, 392)
      && forall i :: 0 <= i < |s| ==> OfVcpu(ids, s[i].slot)
  {
    if ids != [] {
      VcpuNoDup(x86, p, ids[..|ids| - 1]);
      var before, s := VcpuCaps(x86, p, ids[..|ids| - 1]), VcpuCaps(x86, p, ids);
      forall i | 0 <= i < |before|
        ensures OfVcpu(ids, s[i].slot) && s[i].slot != 330 + ids[|ids| - 1] && s[i].slot != 266 + ids[|ids| - 1]
      {
        OlderVcpu(ids, before[i].slot);
      }
      forall i | |before| <= i < |s|
        ensures OfVcpu(ids, s[i].slot)
      {
        var j := |ids| - 1;
        assert s[i].slot == 330 + ids[j] || s[i].slot == 266 + ids[j];
      }
    }
  }

  ghost predicate OfVcpu(ids: seq<nat>, slot: nat) {
    exists j :: 0 <= j < |ids| && (slot == 330 + ids[j] || slot == 266 + ids[j])
  }

  lemma OlderVcpu(ids: seq<nat>, slot: nat)
    requires ids != [] && AllBelow(ids, 62) && Distinct(ids) && OfVcpu(ids[..|ids| - 1], slot)
    ensures OfVcpu(ids, slot) && slot != 330 + ids[|ids| - 1] && slot != 266 + ids[|ids| - 1]
  {
    var init := ids[..|ids| - 1];
    var j :| 0 <= j < |init| && (slot == 330 + init[j] || slot == 266 + init[j]);
    assert ids[j] == init[j] && ids[j] < 62 && ids[|ids| - 1] < 62;
  }

  lemma PartsNoDup(a: seq<Cte>, b: seq<Cte>, c: seq<Cte>, d: seq<Cte>, e: seq<Cte>)
    requires NoDup(a) && NoDup(b) && NoDup(c) && NoDup(d) && NoDup(e)
    requires Within(a, 1, 7) && Within(b, 138, 200) && Within(c, 394, 456) && Within(d, 266, 392) && Within(e, 7, 8)
    ensures NoDup(a + b + c + d + e) && Avoids(a + b + c + d + e, 10, 138) && Positive(a + b + c + d + e)
    ensures Avoids(a + b + c + d + e, 202, 266)
  {
    NoDupAppend(a, b, 138, 200);
    NoDupAppend(a + b, c, 394, 456);
    NoDupAppend(a + b + c, d, 266, 392);
    NoDupAppend(a + b + c + d, e, 7, 8);
  }

  lemma DomainNoDup(sys: System, p: nat)
    requires Accepted(sys) && p < |sys.pds|
    ensures NoDup(DomainCaps(sys, p)) && Avoids(DomainCaps(sys, p), 10, 138) && Positive(DomainCaps(sys, p))
    ensures Avoids(DomainCaps(sys, p), 202, 266)
  {
    assert DomainOk(sys, p);
    var pd := sys.pds[p];
    var irqs, ports := IrqCaps(p, pd.irqs), IoPortCaps(p, pd.ioports);
    FixedNoDup(sys, p);
    VcpuNoDup(sys.x86, p, pd.vcpus);
    assert NoDup(irqs) && Within(irqs, 138, 200);
    assert NoDup(ports) && Within(ports, 394, 456);
    PartsNoDup(FixedCaps(sys, p), irqs, ports, VcpuCaps(sys.x86, p, pd.vcpus),
               if pd.smc then [Cte(ARM_SMC_CAP, SmcCap)] else []);
  }

  ghost predicate GivenBy(c: Channel, b: bool, p: nat, cte: Cte) {
    && c.At(b).pd == p
    && ((c.At(b).notify && cte == NotifyCte(c, b)) || (c.At(b).pp && cte == CallCte(c, b)))
  }

  lemma {:induction false} ChannelCapsAre(channels: seq<Channel>, k: nat, p: nat, cte: Cte)
    requires k <= |channels|
    ensures cte in ChannelCaps(channels, k, p) <==> exists j: nat, b :: j < k && GivenBy(channels[j], b, p, cte)
  {
    if k > 0 {
      ChannelCapsAre(channels, k - 1, p, cte);
      var c := channels[k - 1];
      assert cte in OneChannelCaps(c, p) <==> GivenBy(c, false, p, cte) || GivenBy(c, true, p, cte);
    }
  }

  /** No channel joins a domain to itself under one id with notifications both ways. */
  ghost predicate NoDoubleNotify(sys: System) {
    match sys
    case System(_, channels, _, _) => forall k: nat :: k < |channels| ==> SingleNotify(channels[k])
  }

  /** What a caller can check of one channel. */
  predicate SingleNotify(c: Channel) {
    !(SameId(c.endA, c.endB) && c.endA.notify && c.endB.notify)
  }

  ghost predicate CleanChannel(c: Channel, p: nat) {
    match c
    case Channel(_, _) => NoDup(OneChannelCaps(c, p)) && Within(OneChannelCaps(c, p), 10, 138)
  }

  /** The first k channels fill no slot of domain p twice. */
  ghost predicate CleanChannels(sys: System, k: nat, p: nat) {
    match sys
    case System(_, channels, _, _) =>
      k <= |channels| && NoDup(ChannelCaps(channels, k, p)) && Within(ChannelCaps(channels, k, p), 10, 138)
  }

  lemma OneChannelClean(sys: System, k: nat, p: nat)
    requires Accepted(sys) && k < |sys.channels| && SingleNotify(sys.channels[k])
    ensures CleanChannel(sys.channels[k], p)
  {
    var c := sys.channels[k];
    assert c.endA == c.At(false) && c.endB == c.At(true);
  }

  lemma {:induction false} ChannelsClean(sys: System, k: nat, p: nat)
    requires Accepted(sys) && NoDoubleNotify(sys) && k <= |sys.channels|
    ensures CleanChannels(sys, k, p)
  {
    if k == 0 {
      NoneClean(sys, p);
    } else {
      ChannelsClean(sys, k - 1, p);
      NotifiesOnce(sys, k - 1);
      CleanNext(sys, k - 1, k, p);
    }
  }

  lemma NotifiesOnce(sys: System, k: nat)
    requires NoDoubleNotify(sys) && k < |sys.channels|
    ensures SingleNotify(sys.channels[k])
  {
  }

  lemma NoneClean(sys: System, p: nat)
    ensures CleanChannels(sys, 0, p)
  {
    assert ChannelCaps(sys.channels, 0, p) == [];
  }

  lemma CleanNext(sys: System, k: nat, next: nat, p: nat)
    requires Accepted(sys) && k < |sys.channels| && SingleNotify(sys.channels[k]) && CleanChannels(sys, k, p)
    requires next == k + 1
    ensures CleanChannels(sys, next, p)
  {
    OneChannelClean(sys, k, p);
    EarlierApart(sys, k, p);
    ChannelStep(sys, k, p);
  }

  lemma ChannelStep(sys: System, k: nat, p: nat)
    requires k < |sys.channels| && Apart(ChannelCaps(sys.channels, k, p), OneChannelCaps(sys.channels[k], p))
    requires CleanChannels(sys, k, p) && CleanChannel(sys.channels[k], p)
    ensures CleanChannels(sys, k + 1, p)
  {
    NoDupConcat(ChannelCaps(sys.channels, k, p), OneChannelCaps(sys.channels[k], p));
    WithinAppend(ChannelCaps(sys.channels, k, p), OneChannelCaps(sys.channels[k], p), 10, 138);
  }

  lemma EarlierApart(sys: System, k: nat, p: nat)
    requires Accepted(sys) && k < |sys.channels|
    ensures Apart(ChannelCaps(sys.channels, k, p), OneChannelCaps(sys.channels[k], p))
  {
    forall x, y | x in ChannelCaps(sys.channels, k, p) && y in OneChannelCaps(sys.channels[k], p)
      ensures x.slot != y.slot
    {
      EarlierSlotsDiffer(sys, k, p, x, y);
    }
  }

  lemma EarlierSlotsDiffer(sys: System, k: nat, p: nat, x: Cte, y: Cte)
    requires Accepted(sys) && k < |sys.channels|
    requires x in ChannelCaps(sys.channels, k, p) && y in OneChannelCaps(sys.channels[k], p)
    ensures x.slot != y.slot
  {
    var c := sys.channels[k];
    ChannelCapsAre(sys.channels, k, p, x);
    var m: nat, b :| m < k && GivenBy(sys.channels[m], b, p, x);
    OneChannelCapsAre(c, p, y);
    var d :| GivenBy(c, d, p, y);
    EndBounded(sys, m, b);
    EndBounded(sys, k, d);
    EndsApart(sys, m, b, k, d);
    GivenApart(sys.channels[m], b, c, d, p, x, y);
  }

  lemma EndsApart(sys: System, m: nat, b: bool, k: nat, d: bool)
    requires Accepted(sys) && m < k < |sys.channels|
    ensures !SameId(sys.channels[m].At(b), sys.channels[k].At(d))
  {
    assert NoClash(sys, m, k);
  }

  lemma GivenApart(c: Channel, b: bool, e: Channel, d: bool, p: nat, x: Cte, y: Cte)
    requires GivenBy(c, b, p, x) && GivenBy(e, d, p, y) && !SameId(c.At(b), e.At(d))
    requires c.At(b).id <= MAX_ID && e.At(d).id <= MAX_ID
    ensures x.slot != y.slot
  {
  }

  lemma OneChannelCapsAre(c: Channel, p: nat, cte: Cte)
    ensures cte in OneChannelCaps(c, p) <==> exists b :: GivenBy(c, b, p, cte)
  {
    assert cte in OneChannelCaps(c, p) <==> GivenBy(c, false, p, cte) || GivenBy(c, true, p, cte);
  }

  lemma EndBounded(sys: System, k: nat, b: bool)
    requires WellFormed(sys) && k < |sys.channels|
    ensures sys.channels[k].At(b).id <= MAX_ID && sys.channels[k].At(b).pd < |sys.pds|
  {
    assert EndOk(sys, sys.channels[k].endA) && EndOk(sys, sys.channels[k].endB);
  }

  lemma NoDupParts(a: seq<Cte>, b: seq<Cte>)
    requires NoDup(a + b)
    ensures NoDup(a) && NoDup(b)
  {
    var s := a + b;
    assert forall i :: 0 <= i < |a| ==> a[i] == s[i];
    assert forall i :: 0 <= i < |b| ==> b[i] == s[|a| + i];
  }

  lemma {:induction false} NoDupPrefix(channels: seq<Channel>, k: nat, j: nat, p: nat)
    requires j < k <= |channels| && NoDup(ChannelCaps(channels, k, p))
    ensures NoDup(OneChannelCaps(channels[j], p))
    decreases k
  {
    NoDupParts(ChannelCaps(channels, k - 1, p), OneChannelCaps(channels[k - 1], p));
    if j < k - 1 {
      NoDupPrefix(channels, k - 1, j, p);
    }
  }

  ghost predicate NoDupAll(sys: System) {
    forall p: nat :: p < |sys.pds| ==> NoDup(NodeCaps(sys, p))
  }

  /** The checks of the parser leave exactly one way to fill a slot twice. */
  lemma SlotsUnique(sys: System)
    requires Accepted(sys)
    ensures NoDupAll(sys) <==> NoDoubleNotify(sys)
  {
    if NoDoubleNotify(sys) {
      forall p: nat | p < |sys.pds|
        ensures NoDup(NodeCaps(sys, p))
      {
        DomainNoDup(sys, p);
        ChannelsClean(sys, |sys.channels|, p);
        NoDupAppend(DomainCaps(sys, p), ChannelCaps(sys.channels, |sys.channels|, p), 10, 138);
      }
    }
    if NoDupAll(sys) {
      forall k: nat | k < |sys.channels|
        ensures SingleNotify(sys.channels[k])
      {
        var c := sys.channels[k];
        var p := c.endA.pd;
        assert EndOk(sys, c.endA);
        assert NoDup(NodeCaps(sys, p));
        NoDupParts(DomainCaps(sys, p), ChannelCaps(sys.channels, |sys.channels|, p));
        NoDupPrefix(sys.channels, |sys.channels|, k, p);
        DoubleNotifyClashes(c);
      }
    }
  }

  lemma DoubleNotifyClashes(c: Channel)
    requires NoDup(OneChannelCaps(c, c.endA.pd))
    ensures SingleNotify(c)
  {
    var s := OneChannelCaps(c, c.endA.pd);
    assert c.endA == c.At(false) && c.endB == c.At(true);
    assert c.endA.pd == c.endB.pd && c.endA.notify && c.endB.notify ==>
        |s| >= 2 && s[0] == NotifyCte(c, false) && s[1] == NotifyCte(c, true);
  }

  // ---- capability pointers ----

  function FindCap(s: seq<Cte>, slot: nat): Option<Cap> {
    if s == [] then None
    else if s[0].slot == slot then Some(s[0].cap)
    else FindCap(s[1..], slot)
  }

  lemma {:induction false} FindCapIs(s: seq<Cte>, slot: nat, cap: Cap)
    requires NoDup(s)
    ensures FindCap(s, slot) == Some(cap) <==> Cte(slot, cap) in s
  {
    if s != [] {
      assert NoDup(s[1..]) by {
        assert s == [s[0]] + s[1..];
        NoDupParts([s[0]], s[1..]);
      }
      FindCapIs(s[1..], slot, cap);
      assert Cte(slot, cap) in s <==> s[0] == Cte(slot, cap) || Cte(slot, cap) in s[1..];
      assert Cte(slot, cap) in s[1..] ==> s[0].slot != slot;
    }
  }

  /** Bits [shift, shift + width) of a word. */
  function Field(x: nat, shift: nat, width: nat): nat {
    (x / Pow2(shift)) % Pow2(width)
  }

  /** Lookup of a capability pointer: each CNode consumes its guard, then its radix. */
  function Resolve(spaces: Spaces, cap: Cap, cptr: nat, bits: nat): Option<Cap>
    decreases bits
  {
    match cap
    case CNodeCap(node, radix, guardSize) =>
      if radix == 0 || guardSize + radix > bits || Field(cptr, bits - guardSize, guardSize) != 0 then None
      else
        var rest := bits - guardSize - radix;
        (match FindCap(spaces.Slots(node), Field(cptr, rest, radix))
         case None => None
         case Some(next) =>
           if rest == 0 || !next.CNodeCap? then Some(next) else Resolve(spaces, next, cptr, rest))
    case _ => None
  }

  /** What a pointer of domain p resolves to. */
  function Reached(spaces: Spaces, p: nat, cptr: nat): Option<Cap> {
    Resolve(spaces, RootCap(p), cptr, 64)
  }

  lemma SmallField(x: nat, shift: nat, width: nat)
    requires x < Pow2(shift)
    ensures Field(x, shift, width) == 0
  {
    UniqueMod(x, 0, Pow2(shift), x);
    UniqueMod(0, 0, Pow2(width), 0);
  }

  lemma SmallPowers()
    ensures Pow2(6) == 64 && Pow2(9) == 512 && Pow2(0) == 1 && Pow2(8) == 256
  {
    assert Pow2(3) == 8;
    assert Pow2(6) == 64;
  }

  lemma SmallPointer(cptr: nat)
    requires cptr < 512
    ensures Field(cptr, 64, 0) == 0 && Field(cptr, 58, 6) == 0 && Field(cptr, 9, 49) == 0 && Field(cptr, 0, 9) == cptr
  {
    SmallPowers();
    Pow2Mono(9, 58);
    Pow2Mono(9, 64);
    SmallField(cptr, 64, 0);
    SmallField(cptr, 58, 6);
    SmallField(cptr, 9, 49);
  }

  /** A pointer below 512 passes slot 0 of the root and a zero guard and ends in the
      Microkit CNode. */
  lemma ResolvesInNode(sys: System, spaces: Spaces, p: nat, cptr: nat)
    requires Built(sys, spaces) && p < |sys.pds| && cptr < 512
    ensures Resolve(spaces, RootCap(p), cptr, 64) == FindCap(NodeCaps(sys, p), cptr)
  {
    SmallPointer(cptr);
    var inner := CNodeCap(MicrokitNode(p), 9, GUARD);
    assert spaces.Slots(RootNode(p)) == RootCaps(sys, p) && spaces.Slots(MicrokitNode(p)) == NodeCaps(sys, p);
    assert RootCaps(sys, p)[0] == Cte(0, inner);
    assert FindCap(RootCaps(sys, p), 0) == Some(inner);
    assert Resolve(spaces, inner, cptr, 58) == FindCap(NodeCaps(sys, p), cptr);
  }

  /** `microkit_cspace_root_slot_to_cptr`: the slot in the top six bits, or the null pointer. */
  function SlotToCptr(slot: nat): nat {
    if slot == 0 || slot >= 64 then 0 else slot * Pow2(58)
  }

  lemma {:induction false} FindCapConcat(a: seq<Cte>, b: seq<Cte>, slot: nat)
    ensures FindCap(a + b, slot) == if FindCap(a, slot).Some? then FindCap(a, slot) else FindCap(b, slot)
    decreases |a|
  {
    if a == [] {
      assert a + b == b;
    } else {
      FindCapConcat(a[1..], b, slot);
      assert (a + b)[0] == a[0] && (a + b)[1..] == a[1..] + b;
    }
  }

  lemma {:induction false} FindCapNone(s: seq<Cte>, slot: nat)
    requires forall i :: 0 <= i < |s| ==> s[i].slot != slot
    ensures FindCap(s, slot) == None
    decreases |s|
  {
    if s != [] {
      FindCapNone(s[1..], slot);
    }
  }

  /** The TCB of a child that was put into this slot of its parent's root CNode. */
  function ChildAt(sys: System, p: nat, slot: nat): Option<Cap> {
    FindCap(ChildCaps(sys.pds, |sys.pds|, p), slot)
  }

  /** What a slot of the root CNode holds. */
  lemma RootSlot(sys: System, p: nat, i: nat)
    requires WellFormed(sys) && p < |sys.pds| && i < |sys.pds[p].userCaps|
    ensures var m := sys.pds[p].userCaps[i];
      FindCap(RootCaps(sys, p), m.slot)
        == if ChildAt(sys, p, m.slot).Some? then ChildAt(sys, p, m.slot) else Some(UserCap(m))
  {
    assert DomainOk(sys, p);
    var maps := sys.pds[p].userCaps;
    var m, user := maps[i], UserCaps(maps);
    FindCapConcat([RootStart(p)] + ChildCaps(sys.pds, |sys.pds|, p), user, m.slot);
    FindCapConcat([RootStart(p)], ChildCaps(sys.pds, |sys.pds|, p), m.slot);
    assert FindCap([RootStart(p)], m.slot) == None;
    assert user[i] == Cte(m.slot, UserCap(m));
    FindCapIs(user, m.slot, UserCap(m));
  }

  lemma ResolvesInRoot(sys: System, spaces: Spaces, p: nat, slot: nat, cap: Cap)
    requires Built(sys, spaces) && p < |sys.pds| && 0 < slot < 64
    requires FindCap(RootCaps(sys, p), slot) == Some(cap)
    ensures Reached(spaces, p, SlotToCptr(slot))
      == if cap.CNodeCap? then Resolve(spaces, cap, SlotToCptr(slot), 58) else Some(cap)
  {
    var cptr := SlotToCptr(slot);
    TopField(slot);
    SmallField(cptr, 64, 0);
    assert spaces.Slots(RootNode(p)) == RootCaps(sys, p);
  }

  /** A capability for a root CNode is not the end of the lookup: the remaining bits are
      zero and lead on to slot 0 of that CNode. */
  lemma ResolvesThroughRoot(sys: System, spaces: Spaces, q: nat, slot: nat)
    requires Built(sys, spaces) && q < |sys.pds| && 0 < slot < 64
    ensures Resolve(spaces, CNodeCap(RootNode(q), 6, CSPACE_GUARD), SlotToCptr(slot), 58) == Some(RootStart(q).cap)
  {
    LowFields(slot);
    assert spaces.Slots(RootNode(q)) == RootCaps(sys, q);
    assert RootCaps(sys, q)[0] == RootStart(q);
    assert FindCap(RootCaps(sys, q), 0) == Some(RootStart(q).cap);
  }

  lemma LowFields(slot: nat)
    requires 0 < slot < 64
    ensures Field(SlotToCptr(slot), 58, 0) == 0
    ensures Field(SlotToCptr(slot), 6, 52) == 0 && Field(SlotToCptr(slot), 0, 6) == 0
  {
    SmallPowers();
    Pow2Add(6, 52);
    var high := Pow2(52);
    assert SlotToCptr(slot) == (slot * high) * 64 by {
      ThreeFactors(slot, high, 64);
    }
    MultipleMod(slot * high, 64);
    MultipleMod(slot, high);
  }

  lemma ThreeFactors(a: nat, b: nat, c: nat)
    ensures a * (b * c) == (a * b) * c
  {
  }

  /** Slot 0 and the slots in which libmicrokit looks for the TCBs of children stay empty. */
  lemma EmptySlots(sys: System, p: nat, slot: nat)
    requires Accepted(sys) && p < |sys.pds| && (slot == 0 || BASE_CHILD_TCB_CAP <= slot < BASE_VM_TCB_CAP)
    ensures FindCap(NodeCaps(sys, p), slot) == None
  {
    DomainNoDup(sys, p);
    ChannelsWithin(sys, |sys.channels|, p);
    FindCapNone(NodeCaps(sys, p), slot);
  }

  lemma {:induction false} ChannelsWithin(sys: System, k: nat, p: nat)
    requires WellFormed(sys) && k <= |sys.channels|
    ensures Within(ChannelCaps(sys.channels, k, p), 10, 138)
  {
    if k > 0 {
      ChannelsWithin(sys, k - 1, p);
      EndBounded(sys, k - 1, false);
      EndBounded(sys, k - 1, true);
      OneChannelWithin(sys.channels[k - 1], p);
      WithinAppend(ChannelCaps(sys.channels, k - 1, p), OneChannelCaps(sys.channels[k - 1], p), 10, 138);
    }
  }

  lemma OneChannelWithin(c: Channel, p: nat)
    requires c.At(false).id <= MAX_ID && c.At(true).id <= MAX_ID
    ensures Within(OneChannelCaps(c, p), 10, 138)
  {
  }

  /** The pointer by which libmicrokit would reach the TCB of a child resolves to nothing. */
  lemma ChildTcbUnreached(sys: System, spaces: Spaces, p: nat, child: nat)
    requires Accepted(sys) && Built(sys, spaces) && p < |sys.pds| && child < 64
    ensures Reached(spaces, p, BASE_CHILD_TCB_CAP + child) == None
  {
    ResolvesInNode(sys, spaces, p, BASE_CHILD_TCB_CAP + child);
    EmptySlots(sys, p, BASE_CHILD_TCB_CAP + child);
  }

  /** The pointer made from a user slot resolves to the capability that was asked for exactly
      when the slot is one of the 64 of the root CNode, the capability is not for another
      CNode, and no child's TCB took the slot first. */
  lemma UserSlotResolves(sys: System, spaces: Spaces, p: nat, i: nat)
    requires Accepted(sys) && Built(sys, spaces) && p < |sys.pds| && i < |sys.pds[p].userCaps|
    ensures var m := sys.pds[p].userCaps[i];
      Reached(spaces, p, SlotToCptr(m.slot)) == Some(UserCap(m)) <==>
        && m.slot < 64 && m.kind != CSpaceKind
        && (ChildAt(sys, p, m.slot) == None || ChildAt(sys, p, m.slot) == Some(UserCap(m)))
    ensures var m := sys.pds[p].userCaps[i];
      m.slot >= 64 ==> Reached(spaces, p, SlotToCptr(m.slot)) == None
    ensures var m := sys.pds[p].userCaps[i];
      m.slot < 64 && m.kind == CSpaceKind && ChildAt(sys, p, m.slot) == None ==>
        Reached(spaces, p, SlotToCptr(m.slot)) == Some(RootStart(m.pd).cap)
  {
    assert DomainOk(sys, p);
    var m := sys.pds[p].userCaps[i];
    if m.slot >= 64 {
      ResolvesInNode(sys, spaces, p, 0);
      EmptySlots(sys, p, 0);
    } else {
      RootSlot(sys, p, i);
      ChildAtIsTcb(sys.pds, |sys.pds|, p, m.slot);
      LowSlotResolves(sys, spaces, p, m, ChildAt(sys, p, m.slot));
    }
  }

  lemma LowSlotResolves(sys: System, spaces: Spaces, p: nat, m: CapMap, child: Option<Cap>)
    requires Built(sys, spaces) && p < |sys.pds| && 0 < m.slot < 64 && m.pd < |sys.pds|
    requires child.Some? ==> child.value.TcbCap?
    requires FindCap(RootCaps(sys, p), m.slot) == if child.Some? then child else Some(UserCap(m))
    ensures Reached(spaces, p, SlotToCptr(m.slot))
      == if child.Some? then child
         else if m.kind == CSpaceKind then Some(RootStart(m.pd).cap)
         else Some(UserCap(m))
  {
    ResolvesInRoot(sys, spaces, p, m.slot, FindCap(RootCaps(sys, p), m.slot).value);
    ResolvesThroughRoot(sys, spaces, m.pd, m.slot);
  }

  lemma {:induction false} ChildAtIsTcb(pds: seq<Domain>, k: nat, p: nat, slot: nat)
    requires k <= |pds|
    ensures var f := FindCap(ChildCaps(pds, k, p), slot); f.Some? ==> f.value.TcbCap?
  {
    if k > 0 {
      ChildAtIsTcb(pds, k - 1, p, slot);
      FindCapConcat(ChildCaps(pds, k - 1, p), ChildPart(pds, k - 1, p), slot);
    }
  }

  /** Children whose slots are not cut to 32 bits stay clear of the user slots. */
  lemma {:induction false} ChildrenStayClear(pds: seq<Domain>, k: nat, p: nat, slot: nat)
    requires k <= |pds| && slot < CAP_MAP_MAX_SLOT
    requires forall q: nat :: q < |pds| ==> pds[q].childId < 0x1_0000_0000 - BASE_CHILD_TCB_CAP
    ensures FindCap(ChildCaps(pds, k, p), slot) == None
  {
    if k > 0 {
      ChildrenStayClear(pds, k - 1, p, slot);
      FindCapConcat(ChildCaps(pds, k - 1, p), ChildPart(pds, k - 1, p), slot);
    }
  }

  lemma HighSlotMisses(sys: System, spaces: Spaces, p: nat, i: nat)
    requires Accepted(sys) && Built(sys, spaces) && p < |sys.pds| && i < |sys.pds[p].userCaps|
    requires sys.pds[p].userCaps[i].slot >= 64
    ensures Reached(spaces, p, SlotToCptr(sys.pds[p].userCaps[i].slot)) == None
  {
    UserSlotResolves(sys, spaces, p, i);
  }

  lemma CSpaceCapMisses(sys: System, spaces: Spaces, p: nat, i: nat)
    requires Accepted(sys) && Built(sys, spaces) && p < |sys.pds| && i < |sys.pds[p].userCaps|
    requires sys.pds[p].userCaps[i].slot < 64 && sys.pds[p].userCaps[i].kind == CSpaceKind
    requires forall q: nat :: q < |sys.pds| ==> sys.pds[q].childId < 0x1_0000_0000 - BASE_CHILD_TCB_CAP
    ensures Reached(spaces, p, SlotToCptr(sys.pds[p].userCaps[i].slot))
      == Some(CNodeCap(MicrokitNode(sys.pds[p].userCaps[i].pd), 9, GUARD))
  {
    ChildrenStayClear(sys.pds, |sys.pds|, p, sys.pds[p].userCaps[i].slot);
    UserSlotResolves(sys, spaces, p, i);
  }

  /** A system that the tool accepts and builds, whose two user slots both miss. */
  lemma UserSlotsThatMiss(sys: System, spaces: Spaces)
    requires sys.channels == [] && !sys.x86 && !sys.benchmark
    requires sys.pds == [Domain(1, false, false, false, None, 0, false, [], [], [],
                                [CapMap(TcbKind, 0, 64), CapMap(CSpaceKind, 0, 1)])]
    ensures Accepted(sys) && ChildrenFit(sys)
    ensures Built(sys, spaces) ==> Reached(spaces, 0, SlotToCptr(64)) == None
    ensures Built(sys, spaces) ==> Reached(spaces, 0, SlotToCptr(1)) == Some(CNodeCap(MicrokitNode(0), 9, GUARD))
  {
    assert DomainOk(sys, 0);
    if Built(sys, spaces) {
      HighSlotMisses(sys, spaces, 0, 0);
      CSpaceCapMisses(sys, spaces, 0, 1);
    }
  }

  lemma TopField(slot: nat)
    requires 0 < slot < 64
    ensures Field(SlotToCptr(slot), 58, 6) == slot && SlotToCptr(slot) < Pow2(64)
  {
    SmallPowers();
    MultipleMod(slot, Pow2(58));
    Pow2Add(6, 58);
    MulMono(slot, 63, Pow2(58));
  }

  lemma MulMono(a: nat, b: nat, m: nat)
    requires a <= b
    ensures a * m <= b * m
  {
  }

  // ---- masks patched into the domains ----

  function MaskAdd(mask: nat, e: End, p: nat, on: bool): nat {
    if e.pd == p && on then Or(mask, Pow2(e.id)) else mask
  }

  function NotificationBits(channels: seq<Channel>, k: nat, p: nat): nat
    requires k <= |channels|
  {
    if k == 0 then 0
    else
      var c := channels[k - 1];
      MaskAdd(MaskAdd(NotificationBits(channels, k - 1, p), c.endA, p, c.endA.notify), c.endB, p, c.endB.notify)
  }

  function PpBits(channels: seq<Channel>, k: nat, p: nat): nat
    requires k <= |channels|
  {
    if k == 0 then 0
    else
      var c := channels[k - 1];
      MaskAdd(MaskAdd(PpBits(channels, k - 1, p), c.endA, p, c.endA.pp), c.endB, p, c.endB.pp)
  }

  ghost predicate NotifyEnd(sys: System, k: nat, b: bool, p: nat, id: nat) {
    k < |sys.channels| && sys.channels[k].At(b).pd == p && sys.channels[k].At(b).id == id && sys.channels[k].At(b).notify
  }

  ghost predicate CallEnd(sys: System, k: nat, b: bool, p: nat, id: nat) {
    k < |sys.channels| && sys.channels[k].At(b).pd == p && sys.channels[k].At(b).id == id && sys.channels[k].At(b).pp
  }

  lemma MaskAddBits(mask: nat, e: End, p: nat, on: bool, i: nat)
    ensures Bit(MaskAdd(mask, e, p, on), i) <==> Bit(mask, i) || (e.pd == p && on && e.id == i)
  {
    OrBits(mask, Pow2(e.id), i);
    OneBit(e.id, i);
  }

  lemma {:induction false} NotificationBitsAre(sys: System, k: nat, p: nat, i: nat)
    requires k <= |sys.channels|
    ensures Bit(NotificationBits(sys.channels, k, p), i) <==> exists j: nat, b :: j < k && NotifyEnd(sys, j, b, p, i)
  {
    if k == 0 {
      ZeroBits(i);
    } else {
      NotificationBitsAre(sys, k - 1, p, i);
      var c := sys.channels[k - 1];
      var before := NotificationBits(sys.channels, k - 1, p);
      MaskAddBits(before, c.endA, p, c.endA.notify, i);
      MaskAddBits(MaskAdd(before, c.endA, p, c.endA.notify), c.endB, p, c.endB.notify, i);
      assert NotifyEnd(sys, k - 1, false, p, i) <==> c.endA.pd == p && c.endA.notify && c.endA.id == i;
      assert NotifyEnd(sys, k - 1, true, p, i) <==> c.endB.pd == p && c.endB.notify && c.endB.id == i;
    }
  }

  lemma {:induction false} PpBitsAre(sys: System, k: nat, p: nat, i: nat)
    requires k <= |sys.channels|
    ensures Bit(PpBits(sys.channels, k, p), i) <==> exists j: nat, b :: j < k && CallEnd(sys, j, b, p, i)
  {
    if k == 0 {
      ZeroBits(i);
    } else {
      PpBitsAre(sys, k - 1, p, i);
      var c := sys.channels[k - 1];
      var before := PpBits(sys.channels, k - 1, p);
      MaskAddBits(before, c.endA, p, c.endA.pp, i);
      MaskAddBits(MaskAdd(before, c.endA, p, c.endA.pp), c.endB, p, c.endB.pp, i);
      assert CallEnd(sys, k - 1, false, p, i) <==> c.endA.pd == p && c.endA.pp && c.endA.id == i;
      assert CallEnd(sys, k - 1, true, p, i) <==> c.endB.pd == p && c.endB.pp && c.endB.id == i;
    }
  }

  /** The loop that computes the masks written to a domain's image. */
  method PatchedMasks(sys: System, p: nat) returns (notifications: nat, pps: nat, irqs: nat)
    requires p < |sys.pds|
    ensures notifications == NotificationBits(sys.channels, |sys.channels|, p)
    ensures pps == PpBits(sys.channels, |sys.channels|, p)
    ensures irqs == OrAll(sys.pds[p].irqs)
  {
    notifications, pps, irqs := 0, 0, 0;
    var k := 0;
    while k < |sys.channels|
      invariant 0 <= k <= |sys.channels|
      invariant notifications == NotificationBits(sys.channels, k, p) && pps == PpBits(sys.channels, k, p)
    {
      var channel := sys.channels[k];
      if channel.endA.pd == p {
        if channel.endA.notify {
          notifications := Or(notifications, Pow2(channel.endA.id));
        }
        if channel.endA.pp {
          pps := Or(pps, Pow2(channel.endA.id));
        }
      }
      if channel.endB.pd == p {
        if channel.endB.notify {
          notifications := Or(notifications, Pow2(channel.endB.id));
        }
        if channel.endB.pp {
          pps := Or(pps, Pow2(channel.endB.id));
        }
      }
      k := k + 1;
    }
    var ids := sys.pds[p].irqs;
    var i := 0;
    while i < |ids|
      invariant 0 <= i <= |ids| && irqs == OrAll(ids[..i])
    {
      irqs := Or(irqs, Pow2(ids[i]));
      assert ids[..i + 1][..i] == ids[..i];
      i := i + 1;
    }
    assert ids[..i] == ids;
  }

  /** The guard of the libmicrokit calls. */
  predicate GuardPasses(mask: nat, ch: nat) {
    ch <= MAX_ID && Bit(mask, ch)
  }

  // ---- calls reach what the builder installed ----

  lemma NodeSlot(sys: System, spaces: Spaces, p: nat, slot: nat, cap: Cap)
    requires Accepted(sys) && NoDoubleNotify(sys) && Built(sys, spaces) && p < |sys.pds| && 10 <= slot < 138
    ensures Resolve(spaces, RootCap(p), slot, 64) == Some(cap) <==>
      exists k: nat, b :: k < |sys.channels| && GivenBy(sys.channels[k], b, p, Cte(slot, cap))
  {
    SlotsUnique(sys);
    assert NoDup(NodeCaps(sys, p));
    ResolvesInNode(sys, spaces, p, slot);
    FindCapIs(NodeCaps(sys, p), slot, cap);
    DomainNoDup(sys, p);
    ChannelCapsAre(sys.channels, |sys.channels|, p, Cte(slot, cap));
    assert Cte(slot, cap) !in DomainCaps(sys, p);
  }

  lemma NotifyGuard(sys: System, p: nat, ch: nat)
    requires Accepted(sys)
    ensures GuardPasses(NotificationBits(sys.channels, |sys.channels|, p), ch)
      <==> exists k: nat, b :: NotifyEnd(sys, k, b, p, ch)
  {
    NotificationBitsAre(sys, |sys.channels|, p, ch);
    forall k: nat, b | NotifyEnd(sys, k, b, p, ch)
      ensures ch <= MAX_ID
    {
      EndBounded(sys, k, b);
    }
  }

  lemma CallGuard(sys: System, p: nat, ch: nat)
    requires Accepted(sys)
    ensures GuardPasses(PpBits(sys.channels, |sys.channels|, p), ch) <==> exists k: nat, b :: CallEnd(sys, k, b, p, ch)
  {
    PpBitsAre(sys, |sys.channels|, p, ch);
    forall k: nat, b | CallEnd(sys, k, b, p, ch)
      ensures ch <= MAX_ID
    {
      EndBounded(sys, k, b);
    }
  }

  lemma NotifySlot(sys: System, spaces: Spaces, p: nat, ch: nat, cap: Cap)
    requires Accepted(sys) && NoDoubleNotify(sys) && Built(sys, spaces) && p < |sys.pds| && ch < 64
    ensures Reached(spaces, p, BASE_OUTPUT_NOTIFICATION_CAP + ch) == Some(cap) <==>
      exists k: nat, b :: NotifyEnd(sys, k, b, p, ch) && cap == NotifyCte(sys.channels[k], b).cap
  {
    var slot := BASE_OUTPUT_NOTIFICATION_CAP + ch;
    NodeSlot(sys, spaces, p, slot, cap);
    forall k: nat, b | k < |sys.channels|
      ensures GivenBy(sys.channels[k], b, p, Cte(slot, cap))
        <==> NotifyEnd(sys, k, b, p, ch) && cap == NotifyCte(sys.channels[k], b).cap
    {
      NotifyGiven(sys, k, b, p, ch, cap);
    }
  }

  lemma NotifyGiven(sys: System, k: nat, b: bool, p: nat, ch: nat, cap: Cap)
    requires WellFormed(sys) && k < |sys.channels| && ch < 64
    ensures GivenBy(sys.channels[k], b, p, Cte(BASE_OUTPUT_NOTIFICATION_CAP + ch, cap))
      <==> NotifyEnd(sys, k, b, p, ch) && cap == NotifyCte(sys.channels[k], b).cap
  {
    EndBounded(sys, k, b);
  }

  lemma CallSlot(sys: System, spaces: Spaces, p: nat, ch: nat, cap: Cap)
    requires Accepted(sys) && NoDoubleNotify(sys) && Built(sys, spaces) && p < |sys.pds| && ch < 64
    ensures Reached(spaces, p, BASE_OUTPUT_ENDPOINT_CAP + ch) == Some(cap) <==>
      exists k: nat, b :: CallEnd(sys, k, b, p, ch) && cap == CallCte(sys.channels[k], b).cap
  {
    var slot := BASE_OUTPUT_ENDPOINT_CAP + ch;
    NodeSlot(sys, spaces, p, slot, cap);
    forall k: nat, b | k < |sys.channels|
      ensures GivenBy(sys.channels[k], b, p, Cte(slot, cap))
        <==> CallEnd(sys, k, b, p, ch) && cap == CallCte(sys.channels[k], b).cap
    {
      CallGiven(sys, k, b, p, ch, cap);
    }
  }

  lemma CallGiven(sys: System, k: nat, b: bool, p: nat, ch: nat, cap: Cap)
    requires WellFormed(sys) && k < |sys.channels| && ch < 64
    ensures GivenBy(sys.channels[k], b, p, Cte(BASE_OUTPUT_ENDPOINT_CAP + ch, cap))
      <==> CallEnd(sys, k, b, p, ch) && cap == CallCte(sys.channels[k], b).cap
  {
    EndBounded(sys, k, b);
  }

  /** The guard of `microkit_notify` passes exactly when the pointer it then uses resolves.
      What it resolves to is the notification of the peer, badged with the peer's id. */
  lemma NotifyReaches(sys: System, spaces: Spaces, p: nat, ch: nat)
    requires Accepted(sys) && NoDoubleNotify(sys) && Built(sys, spaces) && p < |sys.pds| && ch < 64
    ensures GuardPasses(NotificationBits(sys.channels, |sys.channels|, p), ch)
      <==> Reached(spaces, p, BASE_OUTPUT_NOTIFICATION_CAP + ch).Some?
    ensures forall k: nat, b :: NotifyEnd(sys, k, b, p, ch) ==>
      Reached(spaces, p, BASE_OUTPUT_NOTIFICATION_CAP + ch)
        == Some(NtfnCap(sys.channels[k].At(!b).pd, Pow2(sys.channels[k].At(!b).id)))
  {
    NotifyGuard(sys, p, ch);
    var found := Reached(spaces, p, BASE_OUTPUT_NOTIFICATION_CAP + ch);
    if found.Some? {
      NotifySlot(sys, spaces, p, ch, found.value);
    }
    forall k: nat, b | NotifyEnd(sys, k, b, p, ch)
      ensures found == Some(NotifyCte(sys.channels[k], b).cap)
    {
      NotifySlot(sys, spaces, p, ch, NotifyCte(sys.channels[k], b).cap);
    }
  }

  /** The same for `microkit_ppcall`: the pointer resolves to the endpoint of another
      domain, badged as a call with the peer's id. */
  lemma CallReaches(sys: System, spaces: Spaces, p: nat, ch: nat)
    requires Accepted(sys) && NoDoubleNotify(sys) && Built(sys, spaces) && p < |sys.pds| && ch < 64
    ensures GuardPasses(PpBits(sys.channels, |sys.channels|, p), ch)
      <==> Reached(spaces, p, BASE_OUTPUT_ENDPOINT_CAP + ch).Some?
    ensures forall k: nat, b :: CallEnd(sys, k, b, p, ch) ==>
      && sys.channels[k].At(!b).pd != p
      && Reached(spaces, p, BASE_OUTPUT_ENDPOINT_CAP + ch)
         == Some(EpCap(sys.channels[k].At(!b).pd, Or(PPC_BADGE, sys.channels[k].At(!b).id)))
  {
    CallGuard(sys, p, ch);
    var found := Reached(spaces, p, BASE_OUTPUT_ENDPOINT_CAP + ch);
    if found.Some? {
      CallSlot(sys, spaces, p, ch, found.value);
    }
    forall k: nat, b | CallEnd(sys, k, b, p, ch)
      ensures sys.channels[k].At(!b).pd != p && found == Some(CallCte(sys.channels[k], b).cap)
    {
      CallsLeaveDomain(sys, k, b);
      CallSlot(sys, spaces, p, ch, CallCte(sys.channels[k], b).cap);
    }
  }

  lemma IrqInstalled(sys: System, p: nat, ch: nat)
    requires p < |sys.pds| && ch in sys.pds[p].irqs
    ensures Cte(BASE_IRQ_CAP + ch, IrqHandlerCap(p, ch)) in NodeCaps(sys, p)
  {
    var irqs := sys.pds[p].irqs;
    var i :| 0 <= i < |irqs| && irqs[i] == ch;
    var caps := IrqCaps(p, irqs);
    assert caps[i] in caps;
    assert caps[i] in DomainCaps(sys, p);
  }

  /** The same for `microkit_irq_ack`. */
  lemma AckReaches(sys: System, spaces: Spaces, p: nat, ch: nat)
    requires Accepted(sys) && NoDoubleNotify(sys) && Built(sys, spaces) && p < |sys.pds|
    ensures GuardPasses(OrAll(sys.pds[p].irqs), ch) <==> ch in sys.pds[p].irqs
    ensures ch in sys.pds[p].irqs ==> Reached(spaces, p, BASE_IRQ_CAP + ch) == Some(IrqHandlerCap(p, ch))
  {
    assert DomainOk(sys, p);
    OrAllBits(sys.pds[p].irqs, ch);
    if ch in sys.pds[p].irqs {
      IrqInstalled(sys, p, ch);
      SlotsUnique(sys);
      assert NoDup(NodeCaps(sys, p));
      ResolvesInNode(sys, spaces, p, BASE_IRQ_CAP + ch);
      FindCapIs(NodeCaps(sys, p), BASE_IRQ_CAP + ch, IrqHandlerCap(p, ch));
    }
  }

  // ---- what a received badge means ----

  datatype Event = Fault(child: nat) | Protected(ch: nat) | Notified(ids: seq<nat>)

  function Decode(badge: nat): Event {
    if Bit(badge, 62) then Fault(badge % 256)
    else if badge / 0x8000_0000_0000_0000 != 0 then Protected(badge % 64)
    else Notified(BitsFrom(badge, 0))
  }

  /** What can signal a domain: the far end of a channel, or an interrupt. */
  datatype Source = FromPeer(k: nat, b: bool) | FromIrq(i: nat)

  ghost predicate Signals(sys: System, p: nat, s: Source)
    requires p < |sys.pds|
  {
    match s
    case FromPeer(k, b) => k < |sys.channels| && sys.channels[k].At(b).notify && sys.channels[k].At(!b).pd == p
    case FromIrq(i) => i < |sys.pds[p].irqs|
  }

  /** The channel id by which the signalled domain knows the source. */
  function IdOf(sys: System, p: nat, s: Source): nat
    requires p < |sys.pds|
  {
    match s
    case FromPeer(k, b) => if k < |sys.channels| then sys.channels[k].At(!b).id else 0
    case FromIrq(i) => if i < |sys.pds[p].irqs| then sys.pds[p].irqs[i] else 0
  }

  function Ids(sys: System, p: nat, pending: seq<Source>): seq<nat>
    requires p < |sys.pds|
  {
    seq(|pending|, i requires 0 <= i < |pending| => IdOf(sys, p, pending[i]))
  }

  lemma IdBounded(sys: System, p: nat, s: Source)
    requires Accepted(sys) && p < |sys.pds| && Signals(sys, p, s)
    ensures IdOf(sys, p, s) <= MAX_ID
  {
    assert DomainOk(sys, p);
    match s
    case FromPeer(k, b) =>
      assert EndOk(sys, sys.channels[k].endA) && EndOk(sys, sys.channels[k].endB);
    case FromIrq(i) =>
  }

  lemma IdsDelivered(sys: System, p: nat, pending: seq<Source>)
    requires Accepted(sys) && p < |sys.pds|
    requires forall i :: 0 <= i < |pending| ==> Signals(sys, p, pending[i])
    ensures var ids := Ids(sys, p, pending);
      && Decode(OrAll(ids)).Notified?
      && Ascending(Decode(OrAll(ids)).ids)
      && forall x :: x in Decode(OrAll(ids)).ids <==> x in ids
  {
    var ids := Ids(sys, p, pending);
    var badge := OrAll(ids);
    forall i: nat | 62 <= i
      ensures !Bit(badge, i)
    {
      OrAllBits(ids, i);
      if i in ids {
        var j :| 0 <= j < |ids| && ids[j] == i;
        IdBounded(sys, p, pending[j]);
      }
    }
    Words.Fits(badge, 62);
    BadgeBits();
    BitsFromAscend(badge, 0);
    forall x: nat
      ensures x in BitsFrom(badge, 0) <==> x in ids
    {
      BitsFromAreBits(badge, 0, x);
      OrAllBits(ids, x);
    }
  }

  /** A peer that signals domain p does so with the bit of the id by which p knows it. */
  lemma SignalBadge(sys: System, spaces: Spaces, p: nat, k: nat, b: bool)
    requires Accepted(sys) && NoDoubleNotify(sys) && Built(sys, spaces) && p < |sys.pds|
    requires Signals(sys, p, FromPeer(k, b))
    ensures var sender := sys.channels[k].At(b);
      GuardPasses(NotificationBits(sys.channels, |sys.channels|, sender.pd), sender.id)
    ensures var sender := sys.channels[k].At(b);
      Reached(spaces, sender.pd, BASE_OUTPUT_NOTIFICATION_CAP + sender.id)
         == Some(NtfnCap(p, Pow2(IdOf(sys, p, FromPeer(k, b)))))
  {
    var sender := sys.channels[k].At(b);
    EndBounded(sys, k, b);
    NotifyReaches(sys, spaces, sender.pd, sender.id);
    assert NotifyEnd(sys, k, b, sender.pd, sender.id);
  }

  /** The capability through which the source signals: what the peer's pointer resolves to, or
      what the interrupt is bound to. */
  ghost function SignalCap(sys: System, spaces: Spaces, p: nat, s: Source): Option<Cap> {
    match s
    case FromPeer(k, b) =>
      if k < |sys.channels| then
        Reached(spaces, sys.channels[k].At(b).pd, BASE_OUTPUT_NOTIFICATION_CAP + sys.channels[k].At(b).id)
      else None
    case FromIrq(i) => if p < |spaces.bound| && i < |spaces.bound[p]| then Some(spaces.bound[p][i]) else None
  }

  /** Every source of a domain signals it with the bit of the id by which it knows the source. */
  lemma SourceSignals(sys: System, spaces: Spaces, p: nat, s: Source)
    requires Accepted(sys) && NoDoubleNotify(sys) && Built(sys, spaces) && p < |sys.pds| && Signals(sys, p, s)
    ensures SignalCap(sys, spaces, p, s) == Some(NtfnCap(p, Pow2(IdOf(sys, p, s))))
  {
    match s
    case FromPeer(k, b) => PeerSignals(sys, spaces, p, k, b);
    case FromIrq(i) => IrqBadge(sys, spaces, p, i);
  }

  lemma PeerSignals(sys: System, spaces: Spaces, p: nat, k: nat, b: bool)
    requires Accepted(sys) && NoDoubleNotify(sys) && Built(sys, spaces) && p < |sys.pds|
    requires Signals(sys, p, FromPeer(k, b))
    ensures SignalCap(sys, spaces, p, FromPeer(k, b)) == Some(NtfnCap(p, Pow2(IdOf(sys, p, FromPeer(k, b)))))
  {
    SignalBadge(sys, spaces, p, k, b);
    PeerCap(sys, spaces, p, k, b, Some(NtfnCap(p, Pow2(IdOf(sys, p, FromPeer(k, b))))));
  }

  lemma PeerCap(sys: System, spaces: Spaces, p: nat, k: nat, b: bool, cap: Option<Cap>)
    requires k < |sys.channels|
    requires Reached(spaces, sys.channels[k].At(b).pd, BASE_OUTPUT_NOTIFICATION_CAP + sys.channels[k].At(b).id) == cap
    ensures SignalCap(sys, spaces, p, FromPeer(k, b)) == cap
  {
  }

  lemma IrqBadge(sys: System, spaces: Spaces, p: nat, i: nat)
    requires Built(sys, spaces) && p < |sys.pds| && i < |sys.pds[p].irqs|
    ensures SignalCap(sys, spaces, p, FromIrq(i)) == Some(NtfnCap(p, Pow2(sys.pds[p].irqs[i])))
  {
  }

  function BadgeOf(cap: Option<Cap>): nat {
    match cap
    case Some(NtfnCap(_, badge)) => badge
    case _ => 0
  }

  /** The badge that the domain receives: the OR of what its pending sources signalled. */
  ghost function OrBadges(sys: System, spaces: Spaces, p: nat, pending: seq<Source>): nat {
    if pending == [] then 0
    else
      Or(OrBadges(sys, spaces, p, pending[..|pending| - 1]),
         BadgeOf(SignalCap(sys, spaces, p, pending[|pending| - 1])))
  }

  ghost predicate AllSignal(sys: System, p: nat, pending: seq<Source>)
    requires p < |sys.pds|
  {
    forall i :: 0 <= i < |pending| ==> Signals(sys, p, pending[i])
  }

  lemma {:induction false} BadgesAreIds(sys: System, spaces: Spaces, p: nat, pending: seq<Source>)
    requires Accepted(sys) && NoDoubleNotify(sys) && Built(sys, spaces) && p < |sys.pds|
    requires AllSignal(sys, p, pending)
    ensures OrBadges(sys, spaces, p, pending) == OrAll(Ids(sys, p, pending))
    decreases |pending|
  {
    if pending != [] {
      var init, last := pending[..|pending| - 1], pending[|pending| - 1];
      BadgesAreIds(sys, spaces, p, init);
      SourceSignals(sys, spaces, p, last);
      assert Ids(sys, p, pending)[..|pending| - 1] == Ids(sys, p, init);
    }
  }

  /** The handler runs `notified` for exactly the ids of the pending sources, ascending. */
  ghost predicate NotifiesAll(e: Event, sys: System, p: nat, pending: seq<Source>)
    requires p < |sys.pds|
  {
    match e
    case Notified(ids) => Ascending(ids) && forall x :: x in ids <==> x in Ids(sys, p, pending)
    case _ => false
  }

  /** Whatever set of sources is pending, the OR of the badges of their capabilities makes the
      handler call `notified` once for each of their ids, in ascending order, and nothing else. */
  lemma SignalsDelivered(sys: System, spaces: Spaces, p: nat, pending: seq<Source>)
    requires Accepted(sys) && NoDoubleNotify(sys) && Built(sys, spaces) && p < |sys.pds|
    requires AllSignal(sys, p, pending)
    ensures NotifiesAll(Decode(OrBadges(sys, spaces, p, pending)), sys, p, pending)
  {
    BadgesAreIds(sys, spaces, p, pending);
    IdsDelivered(sys, p, pending);
  }

  lemma PeerIsNotIrq(sys: System, p: nat, k: nat, b: bool, i: nat)
    requires Accepted(sys) && p < |sys.pds|
    requires Signals(sys, p, FromPeer(k, b)) && Signals(sys, p, FromIrq(i))
    ensures IdOf(sys, p, FromPeer(k, b)) != IdOf(sys, p, FromIrq(i))
  {
    assert IrqFree(sys, k);
    assert sys.pds[p].irqs[i] in sys.pds[p].irqs;
    var e := sys.channels[k].At(!b);
    assert e.id !in sys.pds[e.pd].irqs;
  }

  /** Two different sources of a domain never share an id. */
  lemma SourcesApart(sys: System, p: nat, s: Source, t: Source)
    requires Accepted(sys) && ProperChannels(sys) && p < |sys.pds|
    requires Signals(sys, p, s) && Signals(sys, p, t)
    ensures IdOf(sys, p, s) == IdOf(sys, p, t) ==> s == t
  {
    match (s, t)
    case (FromPeer(k, b), FromPeer(j, c)) =>
      if IdOf(sys, p, s) == IdOf(sys, p, t) {
        EndsUnique(sys, k, !b, j, !c);
      }
    case (FromPeer(k, b), FromIrq(i)) => PeerIsNotIrq(sys, p, k, b, i);
    case (FromIrq(i), FromPeer(k, b)) => PeerIsNotIrq(sys, p, k, b, i);
    case (FromIrq(i), FromIrq(j)) =>
      assert Distinct(sys.pds[p].irqs);
  }

  lemma BadgeBits()
    ensures Pow2(62) == FAULT_BADGE && Pow2(63) == PPC_BADGE
  {
    Pow2Is64();
  }

  lemma {:induction false} OrLow(k: nat, n: nat, y: nat)
    requires n <= k
    ensures Or(Pow2(k), y) % Pow2(n) == y % Pow2(n)
    decreases n
  {
    if n > 0 {
      OrLow(k - 1, n - 1, y / 2);
      var x := Or(Pow2(k), y);
      OrHalves(k, y);
      HalveMod(x, Pow2(n - 1));
      HalveMod(y, Pow2(n - 1));
    }
  }

  lemma OrHalves(k: nat, y: nat)
    requires k > 0
    ensures Or(Pow2(k), y) / 2 == Or(Pow2(k - 1), y / 2) && Or(Pow2(k), y) % 2 == y % 2
  {
    var h := Or(Pow2(k - 1), y / 2);
    assert Pow2(k) == 2 * Pow2(k - 1);
    assert (2 * h + y % 2) / 2 == h;
    assert y / 2 == 0 ==> h == Pow2(k - 1);
  }

  lemma CallBadge(k: nat, id: nat)
    requires 6 < k && id < 64
    ensures Or(Pow2(k), id) == Pow2(k) + id && Or(Pow2(k), id) % 64 == id && !Bit(Or(Pow2(k), id), k - 1)
  {
    SmallFit(k, id);
    OrAdds(k, id);
    BitBelow(k, id);
    OrLowSix(k, id);
  }

  lemma OrLowSix(k: nat, id: nat)
    requires 6 < k && id < 64
    ensures Or(Pow2(k), id) % 64 == id
  {
    SmallPowers();
    OrLow(k, 6, id);
  }

  lemma SmallFit(k: nat, id: nat)
    requires 6 < k && id < 64
    ensures id < Pow2(k - 1) <= Pow2(k)
  {
    SmallPowers();
    Pow2Mono(6, k - 1);
    Pow2Mono(k - 1, k);
  }

  lemma BitBelow(k: nat, y: nat)
    requires 0 < k && y < Pow2(k - 1)
    ensures !Bit(Or(Pow2(k), y), k - 1)
  {
    OrBits(Pow2(k), y, k - 1);
    OneBit(k, k - 1);
    HighBits(y, k - 1, k - 1);
  }

  /** A protected call arrives as `protected` with the id of the callee's end. */
  lemma CallDelivered(id: nat)
    requires id <= MAX_ID
    ensures Decode(Or(PPC_BADGE, id)) == Protected(id)
  {
    BadgeBits();
    CallBadge(63, id);
  }

  /** Through this capability, calls reach the callee and arrive under its own id. */
  ghost predicate CallArrives(cap: Option<Cap>, callee: End) {
    match cap
    case Some(EpCap(pd, badge)) => pd == callee.pd && Decode(badge) == Protected(callee.id)
    case _ => false
  }

  /** From `microkit_ppcall` on one end to `protected` with the id of the other end. */
  lemma CallEndToEnd(sys: System, spaces: Spaces, k: nat, b: bool)
    requires Accepted(sys) && NoDoubleNotify(sys) && Built(sys, spaces)
    requires k < |sys.channels| && sys.channels[k].At(b).pp
    ensures var caller := sys.channels[k].At(b);
      GuardPasses(PpBits(sys.channels, |sys.channels|, caller.pd), caller.id)
    ensures var caller := sys.channels[k].At(b);
      CallArrives(Reached(spaces, caller.pd, BASE_OUTPUT_ENDPOINT_CAP + caller.id), sys.channels[k].At(!b))
  {
    var caller, callee := sys.channels[k].At(b), sys.channels[k].At(!b);
    EndBounded(sys, k, b);
    EndBounded(sys, k, !b);
    assert CallEnd(sys, k, b, caller.pd, caller.id);
    CallReaches(sys, spaces, caller.pd, caller.id);
    CallGuard(sys, caller.pd, caller.id);
    CallDelivered(callee.id);
  }

  lemma FaultBadge(k: nat, child: nat)
    requires 8 <= k
    ensures Bit(Or(Pow2(k), child), k) && Or(Pow2(k), child) % 256 == child % 256
  {
    OrBits(Pow2(k), child, k);
    OneBit(k, k);
    SmallPowers();
    OrLow(k, 8, child);
  }

  lemma FaultDecoded(child: nat)
    ensures Decode(Or(FAULT_BADGE, child)) == Fault(child % 256)
  {
    var k := 62;
    BadgeBits();
    FaultBadge(k, child);
    DecodeFault(Or(FAULT_BADGE, child), k);
  }

  lemma DecodeFault(badge: nat, k: nat)
    requires k == 62 && Bit(badge, k)
    ensures Decode(badge) == Fault(badge % 256)
  {
  }

  /** Slot 2 of a domain's node holds the capability through which its faults go. */
  lemma FaultCapReached(sys: System, spaces: Spaces, p: nat)
    requires Built(sys, spaces) && p < |sys.pds|
    ensures Reached(spaces, p, FAULT_EP_CAP) == Some(FaultCap(sys, p))
  {
    var first, cte := FixedCaps(sys, p), Cte(FAULT_EP_CAP, FaultCap(sys, p));
    ResolvesInNode(sys, spaces, p, FAULT_EP_CAP);
    FixedNoDup(sys, p);
    assert cte in first;
    FindCapIs(first, FAULT_EP_CAP, cte.cap);
    var rest := AfterFixed(sys, p);
    FindCapConcat(first, rest, FAULT_EP_CAP);
    NodeSplits(sys, p);
  }

  function AfterFixed(sys: System, p: nat): seq<Cte>
    requires p < |sys.pds|
  {
    var pd := sys.pds[p];
    IrqCaps(p, pd.irqs) + (IoPortCaps(p, pd.ioports) + (VcpuCaps(sys.x86, p, pd.vcpus)
    + ((if pd.smc then [Cte(ARM_SMC_CAP, SmcCap)] else []) + ChannelCaps(sys.channels, |sys.channels|, p))))
  }

  lemma NodeSplits(sys: System, p: nat)
    requires p < |sys.pds|
    ensures NodeCaps(sys, p) == FixedCaps(sys, p) + AfterFixed(sys, p)
  {
    var pd := sys.pds[p];
    JoinCaps(FixedCaps(sys, p), IrqCaps(p, pd.irqs), IoPortCaps(p, pd.ioports), VcpuCaps(sys.x86, p, pd.vcpus),
             if pd.smc then [Cte(ARM_SMC_CAP, SmcCap)] else [], ChannelCaps(sys.channels, |sys.channels|, p));
  }

  /** A fault of a child goes to its parent's endpoint and arrives as `fault` with the low
      eight bits of the child's id. */
  lemma FaultDelivered(sys: System, p: nat)
    requires WellFormed(sys) && p < |sys.pds| && sys.pds[p].parent.Some?
    ensures FaultArrives(FaultCap(sys, p), sys.pds[p].parent.value, sys.pds[p].childId)
    ensures sys.pds[p].parent.value < p && NeedsEp(sys, sys.pds[p].parent.value)
  {
    assert DomainOk(sys, p);
    FaultDecoded(sys.pds[p].childId);
  }

  /** Through this capability, faults reach this domain, and under their own id exactly when
      it is below 256. */
  ghost predicate FaultArrives(cap: Cap, parent: nat, child: nat) {
    match cap
    case EpCap(pd, badge) =>
      && pd == parent && Decode(badge) == Fault(child % 256) && (Decode(badge) == Fault(child) <==> child < 256)
    case _ => false
  }

  /** A child with id 256 is accepted and built, and arrives at its parent as child 0. */
  lemma LargeChildIdIsLost(sys: System)
    requires sys.channels == [] && !sys.x86 && !sys.benchmark
    requires sys.pds == [Domain(2, false, false, true, None, 0, false, [], [], [], []),
                         Domain(1, false, false, false, Some(0), 256, false, [], [], [], [])]
    ensures Accepted(sys) && ChildrenFit(sys)
    ensures FaultCap(sys, 1).EpCap? && FaultCap(sys, 1).pd == 0 && Decode(FaultCap(sys, 1).badge) == Fault(0)
  {
    LargeChildIsAccepted(sys);
    FaultDelivered(sys, 1);
    ChildIdsTaken(sys, 1);
  }

  lemma LargeChildIsAccepted(sys: System)
    requires sys.channels == [] && |sys.pds| == 2
    requires sys.pds[0] == Domain(2, false, false, true, None, 0, false, [], [], [], [])
    requires sys.pds[1] == Domain(1, false, false, false, Some(0), 256, false, [], [], [], [])
    ensures Accepted(sys)
  {
    assert DomainOk(sys, 0) && DomainOk(sys, 1);
  }

  /** Which child ids the builder takes. */
  lemma ChildIdsTaken(sys: System, p: nat)
    requires p < |sys.pds| && sys.pds[p].parent.Some? && sys.pds[p].childId < 0x1_0000_0000 - BASE_CHILD_TCB_CAP
    ensures ChildFits(sys, p) <==> sys.pds[p].childId < 310
  {
  }
}
