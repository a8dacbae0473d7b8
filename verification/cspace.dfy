/** Capability spaces of the protection domains: steps 3 and 4 of `build_capdl_spec` in
    tool/microkit/src/capdl/builder.rs, the masks of tool/microkit/src/symbols.rs, and the
    pointers that libmicrokit uses to reach the capabilities. */
module CapSpaces {
  import opened Powers
  import opened Words
  import opened MemoryRegions
  import opened Channels

  const FAULT_BADGE: nat := 0x4000_0000_0000_0000
  const PPC_BADGE: nat := 0x8000_0000_0000_0000

  const INPUT_CAP: nat := 1
  const FAULT_EP_CAP: nat := 2
  const VSPACE_CAP: nat := 3
  const REPLY_CAP: nat := 4
  const MONITOR_EP_CAP: nat := 5
  const TCB_CAP: nat := 6
  const ARM_SMC_CAP: nat := 7
  const BASE_OUTPUT_NOTIFICATION_CAP: nat := 10
  const BASE_OUTPUT_ENDPOINT_CAP: nat := 74
  const BASE_IRQ_CAP: nat := 138
  const BASE_CHILD_TCB_CAP: nat := 202
  const BASE_VM_TCB_CAP: nat := 266
  const BASE_VCPU_CAP: nat := 330
  const BASE_IOPORT_CAP: nat := 394

  /** Slots of the Microkit CNode; no capability may be inserted above them. */
  const PD_CAP_SIZE: nat := 512

  datatype Node = RootNode(pd: nat) | MicrokitNode(pd: nat)

  datatype Cap =
    | NtfnCap(pd: nat, badge: nat)
    | EpCap(pd: nat, badge: nat)
    | MonitorEpCap(badge: nat)
    | IrqHandlerCap(pd: nat, id: nat)
    | VSpaceCap(pd: nat)
    | TcbCap(pd: nat)
    | ReplyCap(pd: nat)
    | IoPortCap(pd: nat, id: nat)
    | VcpuCap(pd: nat, id: nat)
    | VmTcbCap(pd: nat, id: nat)
    | SmcCap
    | ScCap(pd: nat)
    | CNodeCap(node: Node, radix: nat, guardSize: nat)

  datatype Cte = Cte(slot: nat, cap: Cap)

  /** The CNodes of every domain, and what its interrupts signal. */
  datatype Spaces = Spaces(roots: seq<seq<Cte>>, nodes: seq<seq<Cte>>, bound: seq<seq<Cap>>) {
    function Slots(n: Node): seq<Cte> {
      match n
      case RootNode(p) => if p < |roots| then roots[p] else []
      case MicrokitNode(p) => if p < |nodes| then nodes[p] else []
    }
  }

  // ---- what a domain starts with ----

  /** Badge of the capability through which faults of domain p are reported. */
  function FaultCap(sys: System, p: nat): Cap
    requires p < |sys.pds|
  {
    match sys.pds[p].parent
    case Some(q) => EpCap(q, Or(FAULT_BADGE, sys.pds[p].childId))
    case None => MonitorEpCap(p + 1)
  }

  function InputCap(sys: System, p: nat): Cap
    requires p < |sys.pds|
  {
    if NeedsEp(sys, p) then EpCap(p, 0) else NtfnCap(p, 0)
  }

  function FixedCaps(sys: System, p: nat): seq<Cte>
    requires p < |sys.pds|
  {
    (if sys.benchmark then [Cte(TCB_CAP, TcbCap(p))] else [])
    + [Cte(VSPACE_CAP, VSpaceCap(p)), Cte(FAULT_EP_CAP, FaultCap(sys, p))]
    + (if sys.pds[p].passive then [Cte(MONITOR_EP_CAP, MonitorEpCap(p + 1))] else [])
    + [Cte(INPUT_CAP, InputCap(sys, p)), Cte(REPLY_CAP, ReplyCap(p))]
  }

  function IrqCaps(p: nat, irqs: seq<nat>): seq<Cte> {
    seq(|irqs|, i requires 0 <= i < |irqs| => Cte(BASE_IRQ_CAP + irqs[i], IrqHandlerCap(p, irqs[i])))
  }

  /** The notification that each interrupt object is bound to. */
  function BoundCaps(p: nat, irqs: seq<nat>): seq<Cap> {
    seq(|irqs|, i requires 0 <= i < |irqs| => NtfnCap(p, Pow2(irqs[i])))
  }

  function IoPortCaps(p: nat, ids: seq<nat>): seq<Cte> {
    seq(|ids|, i requires 0 <= i < |ids| => Cte(BASE_IOPORT_CAP + ids[i], IoPortCap(p, ids[i])))
  }

  function VcpuCaps(x86: bool, p: nat, ids: seq<nat>): seq<Cte> {
    if ids == [] then []
    else
      var id := ids[|ids| - 1];
      VcpuCaps(x86, p, ids[..|ids| - 1]) + [Cte(BASE_VCPU_CAP + id, VcpuCap(p, id))]
      + (if x86 then [] else [Cte(BASE_VM_TCB_CAP + id, VmTcbCap(p, id))])
  }

  function DomainCaps(sys: System, p: nat): seq<Cte>
    requires p < |sys.pds|
  {
    var pd := sys.pds[p];
    FixedCaps(sys, p) + IrqCaps(p, pd.irqs) + IoPortCaps(p, pd.ioports) + VcpuCaps(sys.x86, p, pd.vcpus)
    + (if pd.smc then [Cte(ARM_SMC_CAP, SmcCap)] else [])
  }

  // ---- what the channels add ----

  function NotifyCte(c: Channel, b: bool): Cte {
    Cte(BASE_OUTPUT_NOTIFICATION_CAP + c.At(b).id, NtfnCap(c.At(!b).pd, Pow2(c.At(!b).id)))
  }

  function CallCte(c: Channel, b: bool): Cte {
    Cte(BASE_OUTPUT_ENDPOINT_CAP + c.At(b).id, EpCap(c.At(!b).pd, Or(PPC_BADGE, c.At(!b).id)))
  }

  function NotifyCaps(c: Channel, b: bool, p: nat): seq<Cte> {
    if c.At(b).notify && c.At(b).pd == p then [NotifyCte(c, b)] else []
  }

  function CallCaps(c: Channel, b: bool, p: nat): seq<Cte> {
    if c.At(b).pp && c.At(b).pd == p then [CallCte(c, b)] else []
  }

  function OneChannelCaps(c: Channel, p: nat): seq<Cte> {
    NotifyCaps(c, false, p) + NotifyCaps(c, true, p) + CallCaps(c, false, p) + CallCaps(c, true, p)
  }

  function ChannelCaps(channels: seq<Channel>, k: nat, p: nat): seq<Cte>
    requires k <= |channels|
  {
    if k == 0 then [] else ChannelCaps(channels, k - 1, p) + OneChannelCaps(channels[k - 1], p)
  }

  function NodeCaps(sys: System, p: nat): seq<Cte>
    requires p < |sys.pds|
  {
    DomainCaps(sys, p) + ChannelCaps(sys.channels, |sys.channels|, p)
  }

  /** Guard of the Microkit CNode: 64 address bits less 9 for itself and 6 for the root. */
  const GUARD: nat := 64 - 9 - 6

  /** Guard of a root CNode that another domain may use: 64 less 6 for each of the two. */
  const CSPACE_GUARD: nat := 64 - 6 - 6

  function UserCap(m: CapMap): Cap {
    match m.kind
    case TcbKind => TcbCap(m.pd)
    case ScKind => ScCap(m.pd)
    case VSpaceKind => VSpaceCap(m.pd)
    case CSpaceKind => CNodeCap(RootNode(m.pd), 6, CSPACE_GUARD)
  }

  function UserCaps(maps: seq<CapMap>): seq<Cte> {
    seq(|maps|, i requires 0 <= i < |maps| => Cte(maps[i].slot, UserCap(maps[i])))
  }

  /** Where a child's TCB goes in its parent's root CNode; the number is cut to 32 bits. */
  function ChildSlot(id: nat): nat {
    (BASE_CHILD_TCB_CAP + id) % 0x1_0000_0000
  }

  /** The TCB of domain k, if it is a child of p. */
  function ChildPart(pds: seq<Domain>, k: nat, p: nat): seq<Cte>
    requires k < |pds|
  {
    if pds[k].parent == Some(p) then [Cte(ChildSlot(pds[k].childId), TcbCap(k))] else []
  }

  /** TCBs of the children of p among the first k domains. */
  function ChildCaps(pds: seq<Domain>, k: nat, p: nat): seq<Cte>
    requires k <= |pds|
  {
    if k == 0 then []
    else
      ChildCaps(pds, k - 1, p) + ChildPart(pds, k - 1, p)
  }

  /** The slot that domain p asks for in its parent's space passes the insertion check. */
  predicate ChildFits(sys: System, p: nat)
    requires p < |sys.pds|
  {
    sys.pds[p].parent.Some? ==> ChildSlot(sys.pds[p].childId) < PD_CAP_SIZE
  }

  predicate ChildrenFit(sys: System) {
    forall p: nat :: p < |sys.pds| ==> ChildFits(sys, p)
  }

  function RootStart(p: nat): Cte {
    Cte(0, CNodeCap(MicrokitNode(p), 9, GUARD))
  }

  function RootCaps(sys: System, p: nat): seq<Cte>
    requires p < |sys.pds|
  {
    [RootStart(p)] + ChildCaps(sys.pds, |sys.pds|, p) + UserCaps(sys.pds[p].userCaps)
  }

  function RootCap(p: nat): Cap {
    CNodeCap(RootNode(p), 6, 0)
  }

  ghost predicate Built(sys: System, spaces: Spaces) {
    && |spaces.nodes| == |sys.pds| && |spaces.roots| == |sys.pds|
    && (forall p: nat :: p < |sys.pds| ==> spaces.nodes[p] == NodeCaps(sys, p) && spaces.roots[p] == RootCaps(sys, p))
    && IrqsBound(sys, |sys.pds|, spaces.bound)
  }

  /** The interrupts of the first p domains signal their domains with their own bits. */
  ghost predicate IrqsBound(sys: System, p: nat, bound: seq<seq<Cap>>) {
    match sys
    case System(pds, _, _, _) =>
      p <= |pds| && |bound| == p && forall q: nat :: q < p ==> bound[q] == BoundCaps(q, pds[q].irqs)
  }

  // ---- the endpoints that the builder relies on ----

  /** The target of a protected call has an endpoint. */
  lemma CallTargetNeedsEp(sys: System, k: nat, b: bool)
    requires WellFormed(sys) && k < |sys.channels| && sys.channels[k].At(b).pp
    ensures NeedsEp(sys, sys.channels[k].At(!b).pd)
  {
    assert CallsInto(sys.channels[k], sys.channels[k].At(!b).pd);
  }

  lemma JoinCaps(a: seq<Cte>, b: seq<Cte>, c: seq<Cte>, d: seq<Cte>, e: seq<Cte>, f: seq<Cte>)
    ensures a + b + c + d + e + f == a + (b + (c + d + e + f))
    ensures a + b + c + d + e + f == a + (b + (c + (d + (e + f))))
  {
  }

  ghost predicate ParentsFirst(pds: seq<Domain>) {
    forall q: nat :: q < |pds| ==> ComesAfterParent(pds[q], q)
  }

  predicate ComesAfterParent(pd: Domain, q: nat) {
    pd.parent.Some? ==> pd.parent.value < q
  }

  lemma ParentsAreFirst(sys: System)
    requires WellFormed(sys)
    ensures ParentsFirst(sys.pds)
  {
    forall q: nat | q < |sys.pds|
      ensures ComesAfterParent(sys.pds[q], q)
    {
      assert DomainOk(sys, q);
    }
  }

  lemma {:induction false} NoChildYet(pds: seq<Domain>, k: nat, p: nat)
    requires ParentsFirst(pds) && k <= |pds| && k <= p + 1
    ensures ChildCaps(pds, k, p) == []
    decreases k
  {
    if k > 0 {
      NoChildYet(pds, k - 1, p);
      assert ComesAfterParent(pds[k - 1], k - 1);
    }
  }

  lemma ChildCapsNext(pds: seq<Domain>, k: nat, p: nat)
    requires k < |pds|
    ensures [RootStart(p)] + ChildCaps(pds, k + 1, p) == [RootStart(p)] + ChildCaps(pds, k, p) + ChildPart(pds, k, p)
  {
  }

  ghost predicate RootsAt(sys: System, p: nat, roots: seq<seq<Cte>>) {
    match sys
    case System(pds, _, _, _) =>
      p <= |pds| && |roots| == p && forall q: nat :: q < p ==> roots[q] == [RootStart(q)] + ChildCaps(pds, p, q)
  }

  /** One more domain: its TCB in its parent's root, and a root of its own. */
  lemma RootsNext(sys: System, p: nat, was: seq<seq<Cte>>, roots: seq<seq<Cte>>)
    requires WellFormed(sys) && p < |sys.pds| && RootsAt(sys, p, was) && |roots| == p
    requires forall q: nat :: q < p ==> roots[q] == was[q] + ChildPart(sys.pds, p, q)
    ensures RootsAt(sys, p + 1, roots + [[RootStart(p)]])
  {
    ParentsAreFirst(sys);
    NoChildYet(sys.pds, p + 1, p);
    assert [RootStart(p)] + [] == [RootStart(p)];
    forall q: nat | q < p
      ensures roots[q] == [RootStart(q)] + ChildCaps(sys.pds, p + 1, q)
    {
      ChildCapsNext(sys.pds, p, q);
    }
  }

  /** The first p domains have their fixed capabilities. */
  ghost predicate Ready(sys: System, p: nat, nodes: seq<seq<Cte>>, roots: seq<seq<Cte>>, endpoints: seq<bool>) {
    match sys
    case System(pds, _, _, _) =>
      && p <= |pds| && |nodes| == p && RootsAt(sys, p, roots) && |endpoints| == p
      && forall q: nat :: q < p ==> nodes[q] == DomainCaps(sys, q) && endpoints[q] == NeedsEp(sys, q)
  }

  lemma ReadyNext(
    sys: System, p: nat, nodes: seq<seq<Cte>>, roots: seq<seq<Cte>>, endpoints: seq<bool>, caps: seq<Cte>, endpoint: bool)
    requires p < |sys.pds| && |nodes| == p && |endpoints| == p && RootsAt(sys, p + 1, roots)
    requires forall q: nat :: q < p ==> nodes[q] == DomainCaps(sys, q) && endpoints[q] == NeedsEp(sys, q)
    requires caps == DomainCaps(sys, p) && endpoint == NeedsEp(sys, p)
    ensures Ready(sys, p + 1, nodes + [caps], roots, endpoints + [endpoint])
  {
  }

  /** The capabilities of the first k channels are in place. */
  ghost predicate Connected(sys: System, k: nat, nodes: seq<seq<Cte>>, endpoints: seq<bool>) {
    match sys
    case System(pds, channels, _, _) =>
      && k <= |channels| && |nodes| == |pds| && |endpoints| == |pds|
      && (forall p: nat :: p < |pds| ==> nodes[p] == DomainCaps(sys, p) + ChannelCaps(channels, k, p))
      && (forall p: nat :: p < |pds| ==> endpoints[p] == NeedsEp(sys, p))
  }

  /** The first p domains have their user capabilities. */
  ghost predicate Rooted(sys: System, p: nat, roots: seq<seq<Cte>>) {
    match sys
    case System(pds, _, _, _) =>
      && p <= |pds| == |roots|
      && (forall q: nat :: q < p ==> roots[q] == RootCaps(sys, q))
      && (forall q: nat :: p <= q < |pds| ==> roots[q] == [RootStart(q)] + ChildCaps(pds, |pds|, q))
  }

  // ---- the builder ----

  class SpecBuilder {
    var roots: seq<seq<Cte>>
    var nodes: seq<seq<Cte>>
    var endpoints: seq<bool>
    var bound: seq<seq<Cap>>

    constructor ()
      ensures roots == [] && nodes == [] && endpoints == [] && bound == []
    {
      roots, nodes, endpoints, bound := [], [], [], [];
    }

    /** The capabilities every domain has, and whether it receives on an endpoint. */
    method FirstCaps(sys: System, p: nat) returns (caps: seq<Cte>, endpoint: bool)
      requires WellFormed(sys) && p < |sys.pds| && Ready(sys, p, nodes, roots, endpoints)
      ensures caps == FixedCaps(sys, p) && endpoint == NeedsEp(sys, p)
    {
      var pd := sys.pds[p];
      caps := if sys.benchmark then [Cte(TCB_CAP, TcbCap(p))] else [];
      caps := caps + [Cte(VSPACE_CAP, VSpaceCap(p))];
      assert DomainOk(sys, p);
      match pd.parent {
        case Some(q) =>
          assert endpoints[q];
          caps := caps + [Cte(FAULT_EP_CAP, EpCap(q, Or(FAULT_BADGE, pd.childId)))];
        case None =>
          caps := caps + [Cte(FAULT_EP_CAP, MonitorEpCap(p + 1))];
      }
      if pd.passive {
        caps := caps + [Cte(MONITOR_EP_CAP, MonitorEpCap(p + 1))];
      }
      endpoint := NeedsEp(sys, p);
      caps := caps + [Cte(INPUT_CAP, if endpoint then EpCap(p, 0) else NtfnCap(p, 0))];
      caps := caps + [Cte(REPLY_CAP, ReplyCap(p))];
    }

    /** The TCB of a child goes into its parent's root CNode; a slot above the limit stops
        the tool. */
    method InsertChildTcb(sys: System, p: nat) returns (ok: bool)
      requires WellFormed(sys) && p < |sys.pds| && |roots| == p
      modifies this`roots
      ensures ok <==> ChildFits(sys, p)
      ensures ok ==> |roots| == p && forall q: nat :: q < p ==> roots[q] == old(roots)[q] + ChildPart(sys.pds, p, q)
    {
      var pd := sys.pds[p];
      assert DomainOk(sys, p);
      if pd.parent.Some? {
        var q := pd.parent.value;
        var slot := ChildSlot(pd.childId);
        if !(slot < PD_CAP_SIZE) {
          return false;
        }
        roots := roots[q := roots[q] + [Cte(slot, TcbCap(p))]];
      }
      ok := true;
    }

    /** Creates the objects and capability space of domain p. */
    method AddDomain(sys: System, p: nat) returns (ok: bool)
      requires WellFormed(sys) && p < |sys.pds| && Ready(sys, p, nodes, roots, endpoints) && IrqsBound(sys, p, bound)
      modifies this
      ensures ok <==> ChildFits(sys, p)
      ensures ok ==> Ready(sys, p + 1, nodes, roots, endpoints) && IrqsBound(sys, p + 1, bound)
    {
      var pd := sys.pds[p];
      var caps, endpoint := FirstCaps(sys, p);
      ok := InsertChildTcb(sys, p);
      if !ok {
        return;
      }
      var irqCaps;
      caps, irqCaps := PushDeviceCaps(sys.x86, p, pd, caps);
      assert DomainOk(sys, p);
      assert pd.vcpus != [] ==> endpoint;
      if pd.smc {
        caps := caps + [Cte(ARM_SMC_CAP, SmcCap)];
      }
      RootsNext(sys, p, old(roots), roots);
      ReadyNext(sys, p, nodes, roots + [[RootStart(p)]], endpoints, caps, endpoint);
      nodes, endpoints := nodes + [caps], endpoints + [endpoint];
      roots, bound := roots + [[RootStart(p)]], bound + [irqCaps];
    }

    static method PushDeviceCaps(x86: bool, p: nat, pd: Domain, before: seq<Cte>)
      returns (caps: seq<Cte>, bound: seq<Cap>)
      ensures bound == BoundCaps(p, pd.irqs)
      ensures caps == before + IrqCaps(p, pd.irqs) + IoPortCaps(p, pd.ioports) + VcpuCaps(x86, p, pd.vcpus)
    {
      caps, bound := before, [];
      var i := 0;
      while i < |pd.irqs|
        invariant 0 <= i <= |pd.irqs| && caps == before + IrqCaps(p, pd.irqs)[..i]
        invariant bound == BoundCaps(p, pd.irqs)[..i]
      {
        bound := bound + [NtfnCap(p, Pow2(pd.irqs[i]))];
        caps := caps + [Cte(BASE_IRQ_CAP + pd.irqs[i], IrqHandlerCap(p, pd.irqs[i]))];
        i := i + 1;
      }
      ghost var withIrqs := caps;
      i := 0;
      while i < |pd.ioports|
        invariant 0 <= i <= |pd.ioports| && caps == withIrqs + IoPortCaps(p, pd.ioports)[..i]
      {
        caps := caps + [Cte(BASE_IOPORT_CAP + pd.ioports[i], IoPortCap(p, pd.ioports[i]))];
        i := i + 1;
      }
      ghost var withPorts := caps;
      i := 0;
      while i < |pd.vcpus|
        invariant 0 <= i <= |pd.vcpus| && caps == withPorts + VcpuCaps(x86, p, pd.vcpus[..i])
      {
        var id := pd.vcpus[i];
        caps := caps + [Cte(BASE_VCPU_CAP + id, VcpuCap(p, id))];
        if !x86 {
          caps := caps + [Cte(BASE_VM_TCB_CAP + id, VmTcbCap(p, id))];
        }
        assert pd.vcpus[..i + 1][..i] == pd.vcpus[..i];
        i := i + 1;
      }
      assert pd.vcpus[..i] == pd.vcpus;
    }

    /** Pushes one capability into the Microkit CNode of a domain. */
    method Insert(p: nat, cte: Cte)
      requires p < |nodes| && cte.slot < PD_CAP_SIZE
      modifies this`nodes
      ensures nodes == old(nodes)[p := old(nodes)[p] + [cte]]
    {
      nodes := nodes[p := nodes[p] + [cte]];
    }

    method AddNotify(c: Channel, b: bool)
      requires c.At(b).pd < |nodes| && c.At(b).id <= MAX_ID
      modifies this`nodes
      ensures |nodes| == |old(nodes)|
      ensures forall p: nat :: p < |nodes| ==> nodes[p] == old(nodes)[p] + NotifyCaps(c, b, p)
    {
      if c.At(b).notify {
        Insert(c.At(b).pd, Cte(BASE_OUTPUT_NOTIFICATION_CAP + c.At(b).id, NtfnCap(c.At(!b).pd, Pow2(c.At(!b).id))));
      }
    }

    method AddCall(sys: System, k: nat, b: bool)
      requires WellFormed(sys) && k < |sys.channels| && |nodes| == |sys.pds| == |endpoints|
      requires forall p: nat :: p < |sys.pds| ==> endpoints[p] == NeedsEp(sys, p)
      modifies this`nodes
      ensures |nodes| == |old(nodes)|
      ensures forall p: nat :: p < |nodes| ==> nodes[p] == old(nodes)[p] + CallCaps(sys.channels[k], b, p)
    {
      var c := sys.channels[k];
      if c.At(b).pp {
        assert EndOk(sys, c.endA) && EndOk(sys, c.endB);
        CallTargetNeedsEp(sys, k, b);
        assert endpoints[c.At(!b).pd];
        Insert(c.At(b).pd, Cte(BASE_OUTPUT_ENDPOINT_CAP + c.At(b).id, EpCap(c.At(!b).pd, Or(PPC_BADGE, c.At(!b).id))));
      }
    }

    /** The up to four capabilities of channel k. */
    method AddChannel(sys: System, k: nat)
      requires WellFormed(sys) && k < |sys.channels| && Connected(sys, k, nodes, endpoints)
      modifies this`nodes
      ensures Connected(sys, k + 1, nodes, endpoints)
    {
      var c := sys.channels[k];
      assert EndOk(sys, c.endA) && EndOk(sys, c.endB);
      AddNotify(c, false);
      AddNotify(c, true);
      AddCall(sys, k, false);
      AddCall(sys, k, true);
      forall p: nat | p < |sys.pds|
        ensures nodes[p] == DomainCaps(sys, p) + ChannelCaps(sys.channels, k + 1, p)
      {
        assert nodes[p] == old(nodes)[p] + NotifyCaps(c, false, p) + NotifyCaps(c, true, p)
                           + CallCaps(c, false, p) + CallCaps(c, true, p);
        JoinCaps(DomainCaps(sys, p), ChannelCaps(sys.channels, k, p), NotifyCaps(c, false, p), NotifyCaps(c, true, p),
                 CallCaps(c, false, p), CallCaps(c, true, p));
      }
    }

    /** Step 5: capabilities that the system description asks for, in the root CNode. */
    method AddUserCaps(sys: System, p: nat)
      requires p < |sys.pds| && |roots| == |sys.pds|
      requires roots[p] == [RootStart(p)] + ChildCaps(sys.pds, |sys.pds|, p)
      modifies this`roots
      ensures roots == old(roots)[p := RootCaps(sys, p)]
    {
      var maps := sys.pds[p].userCaps;
      var i := 0;
      while i < |maps|
        invariant 0 <= i <= |maps|
        invariant |roots| == |sys.pds| && roots[p] == old(roots)[p] + UserCaps(maps)[..i]
        invariant forall q: nat :: q < |sys.pds| && q != p ==> roots[q] == old(roots)[q]
      {
        roots := roots[p := roots[p] + [Cte(maps[i].slot, UserCap(maps[i]))]];
        i := i + 1;
      }
      assert UserCaps(maps)[..i] == UserCaps(maps);
      assert roots[p] == RootCaps(sys, p);
    }

    method AddDomains(sys: System) returns (ok: bool)
      requires WellFormed(sys) && nodes == [] && roots == [] && endpoints == [] && bound == []
      modifies this
      ensures ok <==> ChildrenFit(sys)
      ensures ok ==> Connected(sys, 0, nodes, endpoints) && Rooted(sys, 0, roots) && IrqsBound(sys, |sys.pds|, bound)
    {
      var p := 0;
      while p < |sys.pds|
        invariant 0 <= p <= |sys.pds| && Ready(sys, p, nodes, roots, endpoints) && IrqsBound(sys, p, bound)
        invariant forall q: nat :: q < p ==> ChildFits(sys, q)
      {
        ok := AddDomain(sys, p);
        if !ok {
          return;
        }
        p := p + 1;
      }
      ok := true;
      forall q: nat | q < |sys.pds|
        ensures nodes[q] == DomainCaps(sys, q) + ChannelCaps(sys.channels, 0, q)
      {
        assert DomainCaps(sys, q) + [] == DomainCaps(sys, q);
      }
    }

    method AddChannels(sys: System)
      requires WellFormed(sys) && Connected(sys, 0, nodes, endpoints)
      modifies this`nodes
      ensures Connected(sys, |sys.channels|, nodes, endpoints)
    {
      var k := 0;
      while k < |sys.channels|
        invariant 0 <= k <= |sys.channels| && Connected(sys, k, nodes, endpoints)
      {
        AddChannel(sys, k);
        k := k + 1;
      }
    }

    method AddAllUserCaps(sys: System)
      requires Rooted(sys, 0, roots)
      modifies this`roots
      ensures Rooted(sys, |sys.pds|, roots)
    {
      var p := 0;
      while p < |sys.pds|
        invariant 0 <= p <= |sys.pds| && Rooted(sys, p, roots)
      {
        AddUserCaps(sys, p);
        p := p + 1;
      }
    }

    /** Builds every capability space; none of the endpoints it expects is missing, and the
        only check that can stop it is the one on the slots of children. */
    method Build(sys: System) returns (r: Option<Spaces>)
      requires WellFormed(sys) && nodes == [] && roots == [] && endpoints == [] && bound == []
      modifies this
      ensures r.Some? <==> ChildrenFit(sys)
      ensures r.Some? ==> r.value == Spaces(roots, nodes, bound) && Built(sys, r.value)
    {
      var ok := AddDomains(sys);
      if !ok {
        return None;
      }
      AddChannels(sys);
      AddAllUserCaps(sys);
      r := Some(Spaces(roots, nodes, bound));
    }
  }
}
