/** The tool's check that a system fits: boot emulation, then simulated allocation
    (tool/microkit/src/main.rs). */
module BootAllocation {
  import opened KernelConfig
  import opened Powers
  import opened MemoryRegions
  import opened KernelBoot
  import opened Allocator

  predicate NoneFixed(objects: seq<Item>) {
    forall i :: 0 <= i < |objects| ==> objects[i].paddr.None?
  }

  /** Objects with fixed addresses do not overlap. */
  ghost predicate FixedClear(objects: seq<Item>) {
    forall i, j :: 0 <= i < j < |objects| && objects[i].paddr.Some? && objects[j].paddr.Some? ==>
      objects[i].paddr.value + objects[i].Bytes() <= objects[j].paddr.value
  }

  /** No object with a fixed address starts in the untyped. */
  ghost predicate Unfixed(objects: seq<Item>, ut: UntypedObject) {
    forall i :: 0 <= i < |objects| && objects[i].paddr.Some? ==> !ut.region.Has(objects[i].paddr.value)
  }

  /** Objects in untypeds without fixed ones are aligned to their sizes where the kernel sees them. */
  ghost predicate KernelAligned(objects: seq<Item>, uts: seq<UntypedObject>, e: map<nat, Placement>, virtualBase: nat) {
    forall id :: id in e ==> KernelAlignedAt(objects, uts, id, e[id], virtualBase)
  }

  ghost predicate KernelAlignedAt(objects: seq<Item>, uts: seq<UntypedObject>, id: nat, p: Placement, virtualBase: nat) {
    && id < |objects| && p.ut < |uts|
    && (Unfixed(objects, uts[p.ut]) ==> Aligned(KernelVaddr(p.paddr, virtualBase), objects[id].sizeBits))
  }

  lemma NoFixedPrefix(objects: seq<Item>, first: nat)
    requires FixedPrefix(objects, first) && NoneFixed(objects)
    ensures first == 0
  {
    FirstIsFixed(objects, first);
  }

  lemma FirstIsFixed(objects: seq<Item>, first: nat)
    requires FixedPrefix(objects, first)
    ensures first > 0 ==> objects != [] && objects[0].paddr.Some?
  {
  }

  /** Alignment to the base of a block that the kernel sees aligned is alignment there. */
  lemma KernelAddressAligned(base: nat, bits: nat, paddr: nat, s: nat, virtualBase: nat)
    requires base + Pow2(bits) < WORD && virtualBase < WORD && Aligned(KernelVaddr(base, virtualBase), bits)
    requires base <= paddr && paddr + Pow2(s) <= base + Pow2(bits) && bits < 64
    requires Aligned(paddr - base, s)
    ensures Aligned(KernelVaddr(paddr, virtualBase), s)
  {
    AlignedBlockFits(KernelVaddr(base, virtualBase), bits);
    if s > bits {
      Pow2Mono(bits + 1, s);
    }
    AlignedWeaken(KernelVaddr(base, virtualBase), bits, s);
    AlignedAdd(KernelVaddr(base, virtualBase), paddr - base, s);
    assert KernelVaddr(paddr, virtualBase) == KernelVaddr(base, virtualBase) + (paddr - base);
  }

  lemma PlacedAligned(
    objects: seq<Item>, first: nat, uts: seq<UntypedObject>, e: map<nat, Placement>, virtualBase: nat, id: nat)
    requires FixedPrefix(objects, first) && PowersOfTwo(uts) && VirtuallyAligned(uts, virtualBase) && virtualBase < WORD
    requires Inside(objects, uts, e) && AlignedWhereFree(objects, first, uts, e) && id in e
    ensures KernelAlignedAt(objects, uts, id, e[id], virtualBase)
  {
    var p := e[id];
    assert PlacedWell(objects, uts, id, p) && AlignedIfFree(objects, first, uts, id, p);
    var region := uts[p.ut].region;
    var bits := Log2(region.end - region.base);
    if Unfixed(objects, uts[p.ut]) {
      BitsBelow64(region.end - region.base);
      assert FreeOfFixed(objects, first, uts[p.ut]);
      KernelAddressAligned(region.base, bits, p.paddr, objects[id].sizeBits, virtualBase);
    }
  }

  /** What the verdict means for the untypeds that the boot leaves. */
  ghost predicate Fitted(
    objects: seq<Item>, uts: seq<UntypedObject>, ok: bool, e: map<nat, Placement>, virtualBase: nat)
  {
    && (FixedClear(objects) && ok ==> IsPlacement(objects, uts, e) && KernelAligned(objects, uts, e, virtualBase))
    && (NoneFixed(objects) ==> (ok <==> exists q :: IsPlacement(objects, uts, q)))
  }

  lemma FittedMeans(
    objects: seq<Item>, first: nat, uts: seq<UntypedObject>, ok: bool, e: map<nat, Placement>, virtualBase: nat)
    requires FixedPrefix(objects, first) && PowersOfTwo(uts) && UntypedsApart(uts)
    requires VirtuallyAligned(uts, virtualBase) && virtualBase < WORD
    requires !AllHeld(objects, first, uts) ==> !ok
    requires Fine(objects, first, uts) ==>
      && Inside(objects, uts, e) && Disjoint(objects, e) && AlignedWhereFree(objects, first, uts, e)
      && (ok <==> Complete(objects, e))
    requires first == 0 ==> (ok <==> exists q :: IsPlacement(objects, uts, q))
    ensures Fitted(objects, uts, ok, e, virtualBase)
  {
    if NoneFixed(objects) {
      NoFixedPrefix(objects, first);
    }
    if FixedClear(objects) && ok {
      assert Fine(objects, first, uts);
      forall id | id in e
        ensures KernelAlignedAt(objects, uts, id, e[id], virtualBase)
      {
        PlacedAligned(objects, first, uts, e, virtualBase, id);
      }
    }
  }

  /** Boot emulation followed by simulated allocation. On a sound platform a positive verdict
      comes with a placement in what the boot leaves, and without fixed addresses the verdict
      is exactly whether there is one. */
  method FitsAfterBoot(objects: seq<Item>, config: Config, p: Platform, task: MemoryRegion, image: MemoryRegion)
    returns (r: Result<BootInfo>, ok: bool, placed: map<nat, Placement>)
    requires SpecSorted(objects)
    requires config.virtualBase < WORD && config.minimumPageSize > 0 && !config.arch.X86?
    requires InWord(Cover(p.device)) && InWord(Cover(p.normal))
    requires p.kernel.base <= p.kernel.end && p.boot.base <= p.boot.end < WORD
    requires task.base <= task.end && image.base <= image.end
    ensures BootResult(r, config, p, task, image)
    ensures r.Failure? ==> !ok
    ensures r.Success? && PlatformOk(p) ==> Fitted(objects, r.value.untypeds, ok, placed, config.virtualBase)
  {
    r := EmulateKernelBoot(config, p, task, image);
    if r.Failure? {
      return r, false, map[];
    }
    var container := new SpecContainer(objects);
    var panicked;
    ghost var first;
    panicked, ok, first := container.Simulate(r.value.untypeds, true);
    placed := container.expected;
    if PlatformOk(p) {
      FittedMeans(objects, first, r.value.untypeds, ok, placed, config.virtualBase);
    }
  }
}
