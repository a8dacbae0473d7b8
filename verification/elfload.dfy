/** Loading an ELF image into a VSpace of the spec:
    `add_elf_to_spec` in tool/microkit/src/capdl/builder.rs. */
module ElfLoading {
  import opened KernelConfig
  import opened Powers
  import opened MemoryRegions
  import opened PageTables
  import Bytes

  type Byte = Bytes.Byte

  /** A loadable segment; `data` has the segment's size in memory. */
  datatype Segment = Segment(vaddr: nat, data: seq<Byte>, read: bool, write: bool, execute: bool) {
    function End(): nat {
      vaddr + |data|
    }
  }

  const PAGE: nat := 0x1000

  /** What the page that starts at cur holds of segment i. */
  function PageFill(seg: Segment, elf: nat, i: nat, cur: nat): seq<FillEntry> {
    var destOffset := if cur < seg.vaddr then seg.vaddr - cur else 0;
    var sectionOffset := cur + destOffset - seg.vaddr;
    if sectionOffset < |seg.data| then
      var len := Min(0x1000 - destOffset, |seg.data| - sectionOffset);
      if len >= 0 && sectionOffset >= 0 then [FillEntry(destOffset, destOffset + len, elf, i, sectionOffset)] else []
    else []
  }

  /** Page number p holds a byte of the segment. */
  predicate HasPage(seg: Segment, p: nat) {
    |seg.data| > 0 && seg.vaddr / 0x1000 <= p <= (seg.End() - 1) / 0x1000
  }

  /** The entry covers exactly the addresses of the page that belong to the segment, and
      takes them from the matching place of the segment. */
  lemma PageFillExact(seg: Segment, elf: nat, i: nat, p: nat, x: nat)
    requires HasPage(seg, p) && x < 0x1000
    ensures var fill := PageFill(seg, elf, i, p * 0x1000);
      && |fill| == 1 && fill[0].elf == elf && fill[0].segment == i
      && fill[0].start <= fill[0].end <= 0x1000
      && (fill[0].start <= x < fill[0].end <==> seg.vaddr <= p * 0x1000 + x < seg.End())
      && (fill[0].start <= x < fill[0].end ==> fill[0].source + (x - fill[0].start) == p * 0x1000 + x - seg.vaddr)
  {
  }

  /** Which pages are mapped once the first n segments, and the pages below c of segment
      n, are loaded. */
  ghost predicate DoneBy(segs: seq<Segment>, n: nat, c: nat, j: nat, p: nat) {
    j < |segs| && HasPage(segs[j], p) && (j < n || (j == n && p < c))
  }

  /** The page of the address space that an address falls into; the space repeats beyond its
      limit. */
  function SpotOf(config: Config, a: nat): nat {
    Page(config, NumLevels(config) - 1, a)
  }

  function Spot(config: Config, p: nat): nat {
    SpotOf(config, p * 0x1000)
  }

  /** Page p of segment j is done, and it took the given spot. */
  ghost predicate DoneAt(config: Config, segs: seq<Segment>, n: nat, c: nat, j: nat, p: nat, spot: nat) {
    DoneBy(segs, n, c, j, p) && Spot(config, p) == spot
  }

  ghost predicate FrameHolds(objs: Objs, cap: Cap, elf: nat, segs: seq<Segment>, j: nat, p: nat)
    requires j < |segs|
  {
    && cap.FrameCap? && cap.obj < |objs|
    && objs[cap.obj].body == Frame(PageFill(segs[j], elf, j, p * 0x1000))
    && cap.read == segs[j].read && cap.write == segs[j].write && cap.execute == segs[j].execute && cap.cached
  }

  ghost predicate HeldFor(
    config: Config, objs: Objs, cap: Cap, elf: nat, segs: seq<Segment>, n: nat, c: nat, j: nat, p: nat, spot: nat)
  {
    DoneAt(config, segs, n, c, j, p, spot) && FrameHolds(objs, cap, elf, segs, j, p)
  }

  ghost predicate PageState(
    config: Config, objs: Objs, root: nat, elf: nat, segs: seq<Segment>, n: nat, c: nat, a: nat)
    requires Valid(config, objs) && IsRoot(objs, root)
  {
    match Lookup(config, objs, root, a)
    case None => forall j: nat, p: nat :: !DoneAt(config, segs, n, c, j, p, SpotOf(config, a))
    case Some((cap, level)) =>
      && level == NumLevels(config) - 1
      && exists j: nat, p: nat :: HeldFor(config, objs, cap, elf, segs, n, c, j, p, SpotOf(config, a))
  }

  /** Exactly the done pages are mapped, each to a frame with its segment's bytes. */
  ghost predicate Loaded(config: Config, objs: Objs, root: nat, elf: nat, segs: seq<Segment>, n: nat, c: nat) {
    && Valid(config, objs) && IsRoot(objs, root)
    && forall a: nat :: PageState(config, objs, root, elf, segs, n, c, a)
  }

  /** No two pages of the segments take the same spot. */
  ghost predicate PagesApart(config: Config, segs: seq<Segment>) {
    forall k: nat, p: nat :: k < |segs| && HasPage(segs[k], p) ==> FreePage(config, segs, k, p)
  }

  /** The spot of page p of segment n is free of earlier pages. */
  ghost predicate FreePage(config: Config, segs: seq<Segment>, n: nat, p: nat) {
    forall j: nat, q: nat :: !DoneAt(config, segs, n, p, j, q, Spot(config, p))
  }

  /** Every segment lies inside the address space. */
  ghost predicate InSpace(config: Config, segs: seq<Segment>) {
    forall j :: 0 <= j < |segs| ==> segs[j].End() <= Limit(config)
  }

  /** Inside the address space, pages are apart exactly when no page holds bytes of two
      segments. */
  lemma PagesApartInSpace(config: Config, segs: seq<Segment>)
    requires InSpace(config, segs)
    ensures PagesApart(config, segs)
      <==> forall j: nat, k: nat, p: nat :: j < k < |segs| ==> !(HasPage(segs[j], p) && HasPage(segs[k], p))
  {
    if PagesApart(config, segs) {
      forall j: nat, k: nat, p: nat | j < k < |segs|
        ensures !(HasPage(segs[j], p) && HasPage(segs[k], p))
      {
        if HasPage(segs[k], p) {
          assert !DoneAt(config, segs, k, p, j, p, Spot(config, p));
        }
      }
    }
    if forall j: nat, k: nat, p: nat :: j < k < |segs| ==> !(HasPage(segs[j], p) && HasPage(segs[k], p)) {
      forall k: nat, p: nat, j: nat, q: nat | k < |segs| && HasPage(segs[k], p)
        ensures !DoneAt(config, segs, k, p, j, q, Spot(config, p))
      {
        if DoneBy(segs, k, p, j, q) {
          SpotInSpace(config, segs[k], p);
          SpotInSpace(config, segs[j], q);
        }
      }
    }
  }

  /** Two segments one address space apart share no address, but they collide. */
  lemma AliasedSegments(config: Config, a: Segment, b: Segment)
    requires |a.data| > 0 && |b.data| > 0 && b.vaddr == a.vaddr + Limit(config)
    ensures !PagesApart(config, [a, b])
  {
    var p, q, segs := a.vaddr / 0x1000, b.vaddr / 0x1000, [a, b];
    var n := Pages(config, NumLevels(config) - 1);
    PagesFill(config, NumLevels(config) - 1);
    assert q == p + n;
    PageNumber(p);
    PageNumber(q);
    UniqueMod(q, p / n + 1, n, p % n);
    assert HasPage(segs[0], p) && HasPage(segs[1], q);
    assert DoneAt(config, segs, 1, q, 0, p, Spot(config, q));
  }

  lemma SpotInSpace(config: Config, seg: Segment, p: nat)
    requires seg.End() <= Limit(config) && HasPage(seg, p)
    ensures Spot(config, p) == p
  {
    PageNumber(p);
    PageBelowLimit(config, NumLevels(config) - 1, p * 0x1000);
  }

  lemma AppendKeepsLoaded(
    config: Config, objs: Objs, obj: NamedObject, root: nat, elf: nat, segs: seq<Segment>, n: nat, c: nat)
    requires Loaded(config, objs, root, elf, segs, n, c) && Inert(config, obj)
    ensures Loaded(config, objs + [obj], root, elf, segs, n, c)
  {
    AppendKeepsValid(config, objs, obj);
    forall a: nat
      ensures PageState(config, objs + [obj], root, elf, segs, n, c, a)
    {
      AppendKeepsWalk(config, objs, obj, root, TopLevel(config), a);
      assert PageState(config, objs, root, elf, segs, n, c, a);
      match Lookup(config, objs, root, a)
      case None =>
      case Some((cap, level)) =>
        var spot := SpotOf(config, a);
        var j: nat, p: nat :| HeldFor(config, objs, cap, elf, segs, n, c, j, p, spot);
        assert HeldFor(config, objs + [obj], cap, elf, segs, n, c, j, p, spot);
    }
  }

  /** The frame that is about to be mapped at page p of segment n. */
  ghost predicate NewFrame(objs: Objs, cap: Cap, elf: nat, segs: seq<Segment>, n: nat, p: nat) {
    n < |segs| && HasPage(segs[n], p) && FrameHolds(objs, cap, elf, segs, n, p)
  }

  lemma MappedPage(
    config: Config, objs: Objs, root: nat, elf: nat, segs: seq<Segment>, n: nat, p: nat, cap: Cap, objs2: Objs, a: nat)
    requires Loaded(config, objs, root, elf, segs, n, p) && NewFrame(objs, cap, elf, segs, n, p)
    requires Valid(config, objs2) && IsRoot(objs2, root)
    requires forall f: nat :: f < |objs| && objs[f].body.Frame? ==> f < |objs2| && objs2[f] == objs[f]
    requires Lookup(config, objs2, root, a)
      == if SpotOf(config, a) == Spot(config, p) then Some((cap, NumLevels(config) - 1)) else Lookup(config, objs, root, a)
    ensures PageState(config, objs2, root, elf, segs, n, p + 1, a)
  {
    var spot, c := SpotOf(config, a), p + 1;
    if spot == Spot(config, p) {
      assert HeldFor(config, objs2, cap, elf, segs, n, c, n, p, spot);
    } else {
      assert PageState(config, objs, root, elf, segs, n, p, a);
      match Lookup(config, objs, root, a)
      case None =>
        forall j: nat, q: nat
          ensures !DoneAt(config, segs, n, c, j, q, spot)
        {
          assert !DoneAt(config, segs, n, p, j, q, spot);
        }
      case Some((old', level)) =>
        var j: nat, q: nat :| HeldFor(config, objs, old', elf, segs, n, p, j, q, spot);
        assert HeldFor(config, objs2, old', elf, segs, n, c, j, q, spot);
    }
  }

  ghost predicate StepOutcome(
    config: Config, root: nat, elf: nat, segs: seq<Segment>, n: nat, p: nat, r: MapResult)
  {
    match r
    case Err(_) => !FreePage(config, segs, n, p)
    case Ok(objs2) => FreePage(config, segs, n, p) && Loaded(config, objs2, root, elf, segs, n, p + 1)
  }

  /** Mapping the next page of segment n succeeds exactly when no earlier page has its spot. */
  lemma LoadStep(
    config: Config, objs: Objs, pd: string, root: nat, elf: nat, segs: seq<Segment>, n: nat, p: nat, cap: Cap)
    requires Loaded(config, objs, root, elf, segs, n, p) && NewFrame(objs, cap, elf, segs, n, p)
    requires IsFrameCap(objs, cap)
    ensures StepOutcome(config, root, elf, segs, n, p,
              MapFrom(config, objs, pd, root, TopLevel(config), NumLevels(config) - 1, cap, p * 0x1000))
  {
    var v, target := p * 0x1000, NumLevels(config) - 1;
    var r := MapFrom(config, objs, pd, root, TopLevel(config), target, cap, v);
    MapPageRefines(config, objs, pd, root, false, cap, v);
    SmallPageBlocked(config, objs, root, v);
    FreeIsUnmapped(config, objs, root, elf, segs, n, p);
    if r.Ok? {
      StepLoads(config, objs, pd, root, elf, segs, n, p, cap, r.objs);
    }
  }

  /** Before page p of segment n is mapped, its address is unmapped exactly when no earlier
      page has its spot. */
  lemma FreeIsUnmapped(config: Config, objs: Objs, root: nat, elf: nat, segs: seq<Segment>, n: nat, p: nat)
    requires Loaded(config, objs, root, elf, segs, n, p)
    ensures Lookup(config, objs, root, p * 0x1000).None? <==> FreePage(config, segs, n, p)
  {
    var v := p * 0x1000;
    assert PageState(config, objs, root, elf, segs, n, p, v);
    match Lookup(config, objs, root, v)
    case None =>
      forall j: nat, q: nat
        ensures !DoneAt(config, segs, n, p, j, q, Spot(config, p))
      {
        assert !DoneAt(config, segs, n, p, j, q, SpotOf(config, v));
      }
    case Some((cap, level)) =>
      var j: nat, q: nat :| HeldFor(config, objs, cap, elf, segs, n, p, j, q, SpotOf(config, v));
      assert DoneAt(config, segs, n, p, j, q, Spot(config, p));
  }

  lemma PageNumber(p: nat)
    ensures (p * 0x1000) / 0x1000 == p
  {
  }

  lemma RootStaysRoot(config: Config, objs: Objs, objs2: Objs, root: nat, v: nat, target: nat, cap: Cap)
    requires Valid(config, objs) && Valid(config, objs2) && IsRoot(objs, root) && IsLevel(config, target)
    requires TranslationUpdated(config, objs, objs2, root, v, target, cap)
    ensures IsRoot(objs2, root)
  {
    var before := Lookup(config, objs, root, v);
    assert IsRoot(objs2, root);
  }

  lemma StepLoads(
    config: Config, objs: Objs, pd: string, root: nat, elf: nat, segs: seq<Segment>, n: nat, p: nat, cap: Cap, objs2: Objs)
    requires Loaded(config, objs, root, elf, segs, n, p) && NewFrame(objs, cap, elf, segs, n, p)
    requires Ok(objs2) == MapFrom(config, objs, pd, root, TopLevel(config), NumLevels(config) - 1, cap, p * 0x1000)
    requires Valid(config, objs2)
      && TranslationUpdated(config, objs, objs2, root, p * 0x1000, NumLevels(config) - 1, cap)
    ensures Loaded(config, objs2, root, elf, segs, n, p + 1)
  {
    var target, c := NumLevels(config) - 1, p + 1;
    RootStaysRoot(config, objs, objs2, root, p * 0x1000, target, cap);
    forall f: nat | f < |objs| && objs[f].body.Frame?
      ensures f < |objs2| && objs2[f] == objs[f]
    {
      MapFromKeepsFrames(config, objs, pd, root, TopLevel(config), target, cap, p * 0x1000, f);
    }
    forall a: nat
      ensures PageState(config, objs2, root, elf, segs, n, c, a)
    {
      MappedPage(config, objs, root, elf, segs, n, p, cap, objs2, a);
    }
  }

  lemma SameDone(
    config: Config, objs: Objs, root: nat, elf: nat, segs: seq<Segment>, n: nat, c: nat, n2: nat, c2: nat)
    requires Loaded(config, objs, root, elf, segs, n, c)
    requires forall j: nat, p: nat :: DoneBy(segs, n, c, j, p) <==> DoneBy(segs, n2, c2, j, p)
    ensures Loaded(config, objs, root, elf, segs, n2, c2)
  {
    forall a: nat
      ensures PageState(config, objs, root, elf, segs, n2, c2, a)
    {
      assert PageState(config, objs, root, elf, segs, n, c, a);
      match Lookup(config, objs, root, a)
      case None =>
        forall j: nat, q: nat
          ensures !DoneAt(config, segs, n2, c2, j, q, SpotOf(config, a))
        {
          assert !DoneAt(config, segs, n, c, j, q, SpotOf(config, a));
        }
      case Some((cap, level)) =>
        var j: nat, q: nat :| HeldFor(config, objs, cap, elf, segs, n, c, j, q, SpotOf(config, a));
        assert HeldFor(config, objs, cap, elf, segs, n2, c2, j, q, SpotOf(config, a));
    }
  }

  // ---- the loading loops ----

  ghost predicate SameLookup(config: Config, was: Objs, objs: Objs, q: nat, w: nat)
    requires Valid(config, was) && Valid(config, objs)
  {
    IsRoot(was, q) ==>
      IsRoot(objs, q) && Lookup(config, objs, q, w) == Lookup(config, was, q, w)
  }

  /** Every VSpace of the earlier spec translates as before. */
  ghost predicate SpacesKept(config: Config, was: Objs, objs: Objs)
    requires Valid(config, was) && Valid(config, objs)
  {
    forall q: nat, w: nat :: SameLookup(config, was, objs, q, w)
  }

  /** A run of the loader on the spec `was`, whose new VSpace is the object |was|. */
  datatype Loading = Loading(config: Config, was: Objs, elf: nat, segs: seq<Segment>)

  /** All pages done so far were free when their turn came. */
  ghost predicate ApartSoFar(config: Config, segs: seq<Segment>, n: nat, c: nat) {
    forall k: nat, p: nat :: DoneBy(segs, n, c, k, p) ==> FreePage(config, segs, k, p)
  }

  ghost predicate Progress(run: Loading, objs: Objs, n: nat, c: nat) {
    match run
    case Loading(config, was, elf, segs) =>
      && Valid(config, was)
      && Loaded(config, objs, |was|, elf, segs, n, c)
      && SpacesKept(config, was, objs)
      && ApartSoFar(config, segs, n, c)
  }

  lemma ProgressStart(run: Loading, objs: Objs, pd: string)
    requires Valid(run.config, run.was)
    requires objs == run.was + [NamedObject(RootName(pd), PageTable(true, TopLevel(run.config), []))]
    ensures Progress(run, objs, 0, 0)
  {
    match run
    case Loading(config, was, elf, segs) =>
      var root := NamedObject(RootName(pd), PageTable(true, TopLevel(config), []));
      AppendKeepsValid(config, was, root);
      forall a: nat
        ensures PageState(config, objs, |was|, elf, segs, 0, 0, a)
      {
        FreshRootMapsNothing(config, was, RootName(pd), a);
      }
      AppendKeepsSpaces(config, was, was, root);
  }

  lemma AppendKeepsSpaces(config: Config, was: Objs, objs: Objs, obj: NamedObject)
    requires Valid(config, was) && Valid(config, objs) && SpacesKept(config, was, objs) && Inert(config, obj)
    ensures Valid(config, objs + [obj]) && SpacesKept(config, was, objs + [obj])
  {
    AppendKeepsValid(config, objs, obj);
    forall q: nat, w: nat
      ensures SameLookup(config, was, objs + [obj], q, w)
    {
      assert SameLookup(config, was, objs, q, w);
      if IsRoot(was, q) {
        AppendKeepsWalk(config, objs, obj, q, TopLevel(config), w);
      }
    }
  }

  lemma ProgressAppend(run: Loading, objs: Objs, obj: NamedObject, n: nat, c: nat)
    requires Progress(run, objs, n, c) && Inert(run.config, obj)
    ensures Progress(run, objs + [obj], n, c)
  {
    match run
    case Loading(config, was, elf, segs) =>
      AppendKeepsLoaded(config, objs, obj, |was|, elf, segs, n, c);
      AppendKeepsSpaces(config, was, objs, obj);
  }

  lemma MapKeepsSpaces(config: Config, was: Objs, objs: Objs, objs2: Objs, v: nat, target: nat, cap: Cap)
    requires Valid(config, was) && Valid(config, objs) && SpacesKept(config, was, objs)
    requires Valid(config, objs2) && IsRoot(objs, |was|) && IsLevel(config, target)
    requires TranslationUpdated(config, objs, objs2, |was|, v, target, cap)
    ensures SpacesKept(config, was, objs2)
  {
    forall q: nat, w: nat
      ensures SameLookup(config, was, objs2, q, w)
    {
      assert SameLookup(config, was, objs, q, w);
      if IsRoot(was, q) {
        assert q != |was|;
        assert Lookup(config, objs2, q, w) == Lookup(config, objs, q, w);
      }
    }
  }

  /** What one page of the loop does to the spec. */
  ghost predicate PageOutcome(run: Loading, objs: Objs, n: nat, p: nat, ok: bool) {
    if ok then Progress(run, objs, n, p + 1) else n < |run.segs| && HasPage(run.segs[n], p) && !FreePage(run.config, run.segs, n, p)
  }

  lemma ProgressStep(run: Loading, objs: Objs, pd: string, n: nat, p: nat, cap: Cap)
    requires Progress(run, objs, n, p) && NewFrame(objs, cap, run.elf, run.segs, n, p)
    ensures var r := MapFrom(run.config, objs, pd, |run.was|, TopLevel(run.config), NumLevels(run.config) - 1,
                             cap, p * 0x1000);
      PageOutcome(run, r.objs, n, p, r.Ok?)
  {
    match run
    case Loading(config, was, elf, segs) =>
      var target := NumLevels(config) - 1;
      var r := MapFrom(config, objs, pd, |was|, TopLevel(config), target, cap, p * 0x1000);
      LoadStep(config, objs, pd, |was|, elf, segs, n, p, cap);
      MapPageRefines(config, objs, pd, |was|, false, cap, p * 0x1000);
      if r.Ok? {
        MapKeepsSpaces(config, was, objs, r.objs, p * 0x1000, target, cap);
        var c := p + 1;
        forall k: nat, q: nat | DoneBy(segs, n, c, k, q)
          ensures FreePage(config, segs, k, q)
        {
          assert DoneBy(segs, n, p, k, q) || (k == n && q == p);
        }
      }
  }

  /** Fills, creates and maps the frame of one page. */
  method LoadPage(
    container: SpecContainer, config: Config, pd: string, elf: nat, segs: seq<Segment>,
    i: nat, cur: nat, frameSequence: nat, vspace: nat, ghost run: Loading, ghost p: nat)
    returns (ok: bool)
    requires run.config == config && run.elf == elf && run.segs == segs && |run.was| == vspace
    requires Progress(run, container.objects, i, p)
    requires i < |segs| && HasPage(segs[i], p) && cur == p * 0x1000
    modifies container
    ensures PageOutcome(run, container.objects, i, p, ok)
  {
    var segment := segs[i];
    var fill: seq<FillEntry> := [];
    var destOffset := 0;
    if cur < segment.vaddr {
      destOffset := segment.vaddr - cur;
    }
    var sectionOffset := cur + destOffset - segment.vaddr;
    if sectionOffset < |segment.data| {
      var length := Min(PAGE - destOffset, |segment.data| - sectionOffset);
      fill := fill + [FillEntry(destOffset, destOffset + length, elf, i, sectionOffset)];
    }
    ghost var objs := container.objects;
    var frame := NamedObject(FrameName(pd, frameSequence), Frame(fill));
    ProgressAppend(run, objs, frame, i, p);
    var id := container.AddRootObject(frame);
    var cap := FrameCap(id, segment.read, segment.write, segment.execute, true);
    ProgressStep(run, container.objects, pd, i, p, cap);
    ok := container.MapPage(config, pd, vspace, cap, false, cur);
  }

  /** All pages of segment i, in ascending order. */
  method LoadSegment(
    container: SpecContainer, config: Config, pd: string, elf: nat, segs: seq<Segment>,
    i: nat, frameSequence: nat, vspace: nat, ghost run: Loading)
    returns (ok: bool, next: nat)
    requires run.config == config && run.elf == elf && run.segs == segs && |run.was| == vspace
    requires Progress(run, container.objects, i, 0)
    requires i < |segs| && |segs[i].data| > 0
    modifies container
    ensures if ok then Progress(run, container.objects, i + 1, 0) else !PagesApart(config, segs)
  {
    next := frameSequence;
    var cur := RoundDown(segs[i].vaddr, 0x1000);
    ghost var p := segs[i].vaddr / 0x1000;
    SegmentStarts(run, container.objects, i);
    while cur < segs[i].vaddr + |segs[i].data|
      invariant cur == p * 0x1000 && p >= segs[i].vaddr / 0x1000
      invariant Progress(run, container.objects, i, p)
      decreases segs[i].vaddr + |segs[i].data| - cur
    {
      PageAhead(segs[i], p);
      ok := LoadPage(container, config, pd, elf, segs, i, cur, next, vspace, run, p);
      if !ok {
        return false, next;
      }
      next := next + 1;
      cur := cur + PAGE;
      p := p + 1;
    }
    SegmentEnds(run, container.objects, i, p);
    ok := true;
  }

  lemma PageAhead(seg: Segment, p: nat)
    requires |seg.data| > 0 && seg.vaddr / 0x1000 <= p && p * 0x1000 < seg.End()
    ensures HasPage(seg, p)
  {
  }

  lemma SegmentStarts(run: Loading, objs: Objs, i: nat)
    requires Progress(run, objs, i, 0) && i < |run.segs|
    ensures Progress(run, objs, i, run.segs[i].vaddr / 0x1000)
    ensures RoundDown(run.segs[i].vaddr, 0x1000) == (run.segs[i].vaddr / 0x1000) * 0x1000
  {
    SameProgress(run, objs, i, 0, i, run.segs[i].vaddr / 0x1000);
  }

  lemma SegmentEnds(run: Loading, objs: Objs, i: nat, p: nat)
    requires Progress(run, objs, i, p) && i < |run.segs| && run.segs[i].End() <= p * 0x1000
    ensures Progress(run, objs, i + 1, 0)
  {
    SameProgress(run, objs, i, p, i + 1, 0);
  }

  lemma ApartAtEnd(config: Config, segs: seq<Segment>)
    requires ApartSoFar(config, segs, |segs|, 0)
    ensures PagesApart(config, segs)
  {
    forall k: nat, p: nat | k < |segs| && HasPage(segs[k], p)
      ensures FreePage(config, segs, k, p)
    {
      assert DoneBy(segs, |segs|, 0, k, p);
    }
  }

  lemma SameProgress(run: Loading, objs: Objs, n: nat, c: nat, n2: nat, c2: nat)
    requires Progress(run, objs, n, c)
    requires forall j: nat, p: nat :: DoneBy(run.segs, n, c, j, p) <==> DoneBy(run.segs, n2, c2, j, p)
    ensures Progress(run, objs, n2, c2)
  {
    match run
    case Loading(config, was, elf, segs) =>
      SameDone(config, objs, |was|, elf, segs, n, c, n2, c2);
      forall k: nat, p: nat | DoneBy(segs, n2, c2, k, p)
        ensures FreePage(config, segs, k, p)
      {
        assert DoneBy(segs, n, c, k, p);
      }
  }

  /** What adding an ELF promises about the spec it leaves behind. */
  ghost predicate ElfAdded(run: Loading, objs: Objs, ok: bool) {
    match run
    case Loading(config, was, elf, segs) =>
      && Valid(config, was)
      && (ok <==> PagesApart(config, segs))
      && (ok ==> Loaded(config, objs, |was|, elf, segs, |segs|, 0) && SpacesKept(config, was, objs))
  }

  /** Adds a VSpace holding the loadable segments of an ELF. It succeeds exactly when no two
      pages take one spot; then the VSpace holds the segments and no other VSpace changed. */
  method AddElfToSpec(container: SpecContainer, config: Config, pd: string, elf: nat, segs: seq<Segment>)
    returns (ok: bool, vspace: nat)
    requires Valid(config, container.objects)
    modifies container
    ensures vspace == |old(container.objects)|
    ensures ElfAdded(Loading(config, old(container.objects), elf, segs), container.objects, ok)
  {
    ghost var run := Loading(config, container.objects, elf, segs);
    vspace := container.CreateVSpace(config, pd);
    ProgressStart(run, container.objects, pd);
    var frameSequence := 0;
    var i := 0;
    while i < |segs|
      invariant 0 <= i <= |segs|
      invariant Progress(run, container.objects, i, 0)
    {
      if |segs[i].data| == 0 {
        SameProgress(run, container.objects, i, 0, i + 1, 0);
      } else {
        ok, frameSequence := LoadSegment(container, config, pd, elf, segs, i, frameSequence, vspace, run);
        if !ok {
          return false, vspace;
        }
      }
      i := i + 1;
    }
    ApartAtEnd(config, segs);
    var tcb := NamedObject(AnyName("tcb_" + pd), Other);
    ProgressAppend(run, container.objects, tcb, |segs|, 0);
    var tcbId := container.AddRootObject(tcb);
    ok := true;
  }

  // ---- what the loaded image reads as ----

  /** The byte at an address: the entry of its frame that covers it, if any. */
  ghost function ByteAt(config: Config, objs: Objs, root: nat, segs: seq<Segment>, a: nat): Option<Byte>
    requires Valid(config, objs) && IsRoot(objs, root)
  {
    match Lookup(config, objs, root, a)
    case None => None
    case Some((cap, level)) =>
      if cap.obj < |objs| && objs[cap.obj].body.Frame? then
        FilledByte(objs[cap.obj].body.fill, segs, a % 0x1000)
      else None
  }

  ghost function FilledByte(fill: seq<FillEntry>, segs: seq<Segment>, x: nat): Option<Byte> {
    if fill == [] then None
    else
      var e := fill[0];
      if e.start <= x < e.end && e.segment < |segs| && e.source + (x - e.start) < |segs[e.segment].data|
      then Some(segs[e.segment].data[e.source + (x - e.start)])
      else FilledByte(fill[1..], segs, x)
  }

  ghost predicate InSegment(segs: seq<Segment>, i: nat, a: nat) {
    i < |segs| && segs[i].vaddr <= a < segs[i].End()
  }

  lemma PageFillReads(segs: seq<Segment>, elf: nat, j: nat, p: nat, x: nat)
    requires j < |segs| && HasPage(segs[j], p) && x < 0x1000
    ensures FilledByte(PageFill(segs[j], elf, j, p * 0x1000), segs, x)
      == if InSegment(segs, j, p * 0x1000 + x) then Some(segs[j].data[p * 0x1000 + x - segs[j].vaddr]) else None
  {
    PageFillExact(segs[j], elf, j, p, x);
    var fill := PageFill(segs[j], elf, j, p * 0x1000);
    assert fill[1..] == [];
  }

  /** Two addresses name the same byte of the address space. */
  predicate SameByte(config: Config, a: nat, b: nat) {
    SpotOf(config, a) == SpotOf(config, b) && a % 0x1000 == b % 0x1000
  }

  /** The address space repeats every Limit bytes. */
  lemma SameByteIsModulo(config: Config, a: nat, b: nat)
    ensures SameByte(config, a, b) <==> a % Limit(config) == b % Limit(config)
  {
    var n := Pages(config, NumLevels(config) - 1);
    PagesFill(config, NumLevels(config) - 1);
    ByteNumber(a, n);
    ByteNumber(b, n);
  }

  lemma ByteNumber(a: nat, n: nat)
    requires n > 0
    ensures a % (n * 0x1000) == ((a / 0x1000) % n) * 0x1000 + a % 0x1000
  {
    var q, r := (a / 0x1000) / n, (a / 0x1000) % n;
    assert a == (q * n + r) * 0x1000 + a % 0x1000;
    assert (q * n + r) * 0x1000 == q * (n * 0x1000) + r * 0x1000;
    UniqueMod(a, q, n * 0x1000, r * 0x1000 + a % 0x1000);
  }

  /** A loaded image reads back as its segments, and as nothing elsewhere. */
  lemma LoadedBytes(config: Config, objs: Objs, root: nat, elf: nat, segs: seq<Segment>, a: nat)
    requires Loaded(config, objs, root, elf, segs, |segs|, 0) && PagesApart(config, segs)
    ensures forall i: nat, b: nat :: InSegment(segs, i, b) && SameByte(config, a, b) ==>
      ByteAt(config, objs, root, segs, a) == Some(segs[i].data[b - segs[i].vaddr])
    ensures (forall i: nat, b: nat :: !(InSegment(segs, i, b) && SameByte(config, a, b))) ==>
      ByteAt(config, objs, root, segs, a) == None
  {
    var spot, x := SpotOf(config, a), a % 0x1000;
    assert PageState(config, objs, root, elf, segs, |segs|, 0, a);
    match Lookup(config, objs, root, a)
    case None =>
      forall i: nat, b: nat | InSegment(segs, i, b)
        ensures !SameByte(config, a, b)
      {
        SegmentHasPage(config, segs, i, b);
        assert !DoneAt(config, segs, |segs|, 0, i, b / 0x1000, spot);
      }
    case Some((cap, level)) =>
      var j: nat, p: nat :| HeldFor(config, objs, cap, elf, segs, |segs|, 0, j, p, spot);
      PageFillReads(segs, elf, j, p, x);
      PageAddress(config, p, x);
      forall i: nat, b: nat | InSegment(segs, i, b) && SameByte(config, a, b)
        ensures i == j && b == p * 0x1000 + x
      {
        SegmentHasPage(config, segs, i, b);
        OnePage(config, segs, i, b / 0x1000, j, p);
      }
  }

  lemma PageAddress(config: Config, p: nat, x: nat)
    requires x < 0x1000
    ensures SpotOf(config, p * 0x1000 + x) == Spot(config, p) && (p * 0x1000 + x) % 0x1000 == x
  {
    PageNumber(p);
    assert (p * 0x1000 + x) / 0x1000 == p;
  }

  /** Pages that are apart and take the same spot are one page. */
  lemma OnePage(config: Config, segs: seq<Segment>, i: nat, q: nat, j: nat, p: nat)
    requires PagesApart(config, segs) && i < |segs| && j < |segs| && HasPage(segs[i], q) && HasPage(segs[j], p)
    requires Spot(config, q) == Spot(config, p)
    ensures i == j && q == p
  {
    assert !DoneAt(config, segs, i, q, j, p, Spot(config, q));
    assert !DoneAt(config, segs, j, p, i, q, Spot(config, p));
  }

  lemma SegmentHasPage(config: Config, segs: seq<Segment>, i: nat, a: nat)
    requires InSegment(segs, i, a)
    ensures HasPage(segs[i], a / 0x1000) && a == (a / 0x1000) * 0x1000 + a % 0x1000
    ensures Spot(config, a / 0x1000) == SpotOf(config, a)
  {
    PageNumber(a / 0x1000);
  }
}
