/** The packed image of the boot loader and the copy loop that unpacks it:
    tool/microkit/src/loader.rs, loader/src/loader.c and loader/src/cutil.c. */
module LoaderImage {
  import opened Powers
  import opened MemoryRegions
  import opened Bytes

  datatype Region = Region(addr: nat, data: seq<Byte>) {
    function End(): nat {
      addr + |data|
    }

    predicate Has(x: int) {
      addr <= x < End()
    }
  }

  /** One entry of the region table in front of the packed data. */
  datatype Metadata = Metadata(loadAddr: nat, size: nat, offset: nat, kind: nat)

  datatype Header = Header(
    magic: nat, size: nat, kernelEntry: nat, uiPRegStart: nat, uiPRegEnd: nat, pvOffset: nat, vEntry: nat,
    numRegions: nat)

  const HEADER_SIZE: nat := 64
  const METADATA_SIZE: nat := 32
  const MAGIC: nat := 0x5e14dead14de5ead

  datatype Loader = Loader(image: seq<Byte>, header: Header, metadata: seq<Metadata>, regions: seq<Region>)

  // ---- the overlap check ----

  predicate Clear(a: Region, b: Region) {
    b.End() <= a.addr || b.addr >= a.End()
  }

  /** An empty region in the middle of another one. */
  predicate EmptyInside(a: Region, b: Region) {
    a.data == [] && b.addr < a.addr < b.End()
  }

  /** Regions are clear when they share no address and none is an empty one inside the other. */
  lemma ClearMeans(a: Region, b: Region)
    ensures Clear(a, b) <==> (forall x :: !(a.Has(x) && b.Has(x))) && !EmptyInside(a, b) && !EmptyInside(b, a)
  {
    var x := if a.addr < b.addr then b.addr else a.addr;
    if !Clear(a, b) && !EmptyInside(a, b) && !EmptyInside(b, a) {
      assert a.Has(x) && b.Has(x);
    }
  }

  ghost predicate AllClear(regions: seq<Region>) {
    forall i, j :: 0 <= i < j < |regions| ==> Clear(regions[i], regions[j])
  }

  /** Passes exactly when the given regions are pairwise clear. */
  method CheckNonOverlapping(regions: seq<Region>) returns (ok: bool)
    ensures ok <==> AllClear(regions)
  {
    var j := 0;
    while j < |regions|
      invariant 0 <= j <= |regions| && AllClear(regions[..j])
    {
      var end := regions[j].addr + |regions[j].data|;
      var i := 0;
      while i < j
        invariant 0 <= i <= j
        invariant forall k :: 0 <= k < i ==> Clear(regions[k], regions[j])
      {
        if !(end <= regions[i].addr || regions[j].addr >= regions[i].End()) {
          return false;
        }
        i := i + 1;
      }
      j := j + 1;
    }
    assert regions[..j] == regions;
    return true;
  }

  // ---- packing ----

  function TotalSize(regions: seq<Region>): nat {
    if regions == [] then 0 else TotalSize(regions[..|regions| - 1]) + |regions[|regions| - 1].data|
  }

  /** The table entry of region i. */
  function MetadataAt(regions: seq<Region>, i: nat): Metadata
    requires i < |regions|
  {
    Metadata(regions[i].addr, |regions[i].data|, TotalSize(regions[..i]), 1)
  }

  function AllMetadata(regions: seq<Region>): seq<Metadata> {
    seq(|regions|, i requires 0 <= i < |regions| => MetadataAt(regions, i))
  }

  function HeaderWords(h: Header): seq<nat> {
    [h.magic, h.size, h.kernelEntry, h.uiPRegStart, h.uiPRegEnd, h.pvOffset, h.vEntry, h.numRegions]
  }

  function MetadataWords(m: Metadata): seq<nat> {
    [m.loadAddr, m.size, m.offset, m.kind]
  }

  function PackHeader(h: Header): seq<Byte> {
    PackWords(HeaderWords(h))
  }

  function PackMetadata(m: Metadata): seq<Byte> {
    PackWords(MetadataWords(m))
  }

  function PackTable(ms: seq<Metadata>): seq<Byte> {
    if ms == [] then [] else PackTable(ms[..|ms| - 1]) + PackMetadata(ms[|ms| - 1])
  }

  function PackData(regions: seq<Region>): seq<Byte> {
    if regions == [] then [] else PackData(regions[..|regions| - 1]) + regions[|regions| - 1].data
  }

  /** What follows the loader's own code. */
  function Payload(l: Loader): seq<Byte> {
    PackHeader(l.header) + PackTable(l.metadata) + PackData(l.regions)
  }

  /** The addresses and entry points that the header carries for the kernel. */
  datatype Entries = Entries(kernelEntry: nat, uiPRegStart: nat, uiPRegEnd: nat, pvOffset: nat, vEntry: nat)

  function LoaderOf(image: seq<Byte>, e: Entries, regions: seq<Region>): Loader {
    Loader(image,
           Header(MAGIC, HEADER_SIZE + TotalSize(regions) + METADATA_SIZE * |regions|, e.kernelEntry, e.uiPRegStart,
                  e.uiPRegEnd, e.pvOffset, e.vEntry, |regions|),
           AllMetadata(regions), regions)
  }

  /** The end of `Loader::new`: checks the regions against each other and the image and lays
      them out one behind the other. */
  method NewLoader(image: seq<Byte>, imageVaddr: nat, e: Entries, regions: seq<Region>) returns (l: Option<Loader>)
    ensures l.Some? <==> AllClear(regions + [Region(imageVaddr, image)])
    ensures l.Some? ==> l.value == LoaderOf(image, e, regions)
  {
    var ok := CheckNonOverlapping(regions + [Region(imageVaddr, image)]);
    if !ok {
      return None;
    }
    var metadata: seq<Metadata> := [];
    var offset := 0;
    var i := 0;
    while i < |regions|
      invariant 0 <= i <= |regions|
      invariant metadata == AllMetadata(regions)[..i] && offset == TotalSize(regions[..i])
    {
      metadata := metadata + [Metadata(regions[i].addr, |regions[i].data|, offset, 1)];
      assert regions[..i + 1][..i] == regions[..i];
      offset := offset + |regions[i].data|;
      i := i + 1;
    }
    assert regions[..i] == regions;
    var size := HEADER_SIZE;
    i := 0;
    while i < |metadata|
      invariant 0 <= i <= |metadata| == |regions|
      invariant size == HEADER_SIZE + TotalSize(regions[..i]) + METADATA_SIZE * i
    {
      assert regions[..i + 1][..i] == regions[..i];
      size := size + metadata[i].size + METADATA_SIZE;
      i := i + 1;
    }
    var header := Header(MAGIC, size, e.kernelEntry, e.uiPRegStart, e.uiPRegEnd, e.pvOffset, e.vEntry, |regions|);
    return Some(Loader(image, header, metadata, regions));
  }

  method ToBytes(l: Loader) returns (bytes: seq<Byte>)
    ensures bytes == l.image + Payload(l)
  {
    bytes := l.image;
    bytes := bytes + PackHeader(l.header);
    ghost var before := bytes;
    var i := 0;
    while i < |l.metadata|
      invariant 0 <= i <= |l.metadata| && bytes == before + PackTable(l.metadata[..i])
    {
      bytes := bytes + PackMetadata(l.metadata[i]);
      assert l.metadata[..i + 1][..i] == l.metadata[..i];
      i := i + 1;
    }
    assert l.metadata[..i] == l.metadata;
    before := bytes;
    i := 0;
    while i < |l.regions|
      invariant 0 <= i <= |l.regions| && bytes == before + PackData(l.regions[..i])
    {
      bytes := bytes + l.regions[i].data;
      assert l.regions[..i + 1][..i] == l.regions[..i];
      i := i + 1;
    }
    assert l.regions[..i] == l.regions;
    JoinBytes(l.image, PackHeader(l.header), PackTable(l.metadata), PackData(l.regions));
  }

  lemma JoinBytes(a: seq<Byte>, h: seq<Byte>, t: seq<Byte>, d: seq<Byte>)
    ensures a + h + t + d == a + (h + t + d)
  {
  }

  // ---- where things are in the payload ----

  lemma {:induction false} TableLayout(ms: seq<Metadata>, i: nat)
    requires i < |ms|
    ensures |PackTable(ms)| == 32 * |ms| && PackTable(ms)[32 * i..32 * i + 32] == PackMetadata(ms[i])
    decreases |ms|
  {
    var init, last := ms[..|ms| - 1], ms[|ms| - 1];
    TableLength(init);
    WordsLength(MetadataWords(last));
    if i < |init| {
      TableLayout(init, i);
      assert PackTable(ms)[32 * i..32 * i + 32] == PackTable(init)[32 * i..32 * i + 32];
    }
  }

  lemma {:induction false} TableLength(ms: seq<Metadata>)
    ensures |PackTable(ms)| == 32 * |ms|
    decreases |ms|
  {
    if ms != [] {
      TableLength(ms[..|ms| - 1]);
      WordsLength(MetadataWords(ms[|ms| - 1]));
    }
  }

  lemma {:induction false} DataLayout(regions: seq<Region>, i: nat)
    requires i < |regions|
    ensures var at := TotalSize(regions[..i]);
      && |PackData(regions)| == TotalSize(regions)
      && at + |regions[i].data| <= TotalSize(regions)
      && PackData(regions)[at..at + |regions[i].data|] == regions[i].data
    decreases |regions|
  {
    var init, last := regions[..|regions| - 1], regions[|regions| - 1];
    DataLength(init);
    if i < |init| {
      DataLayout(init, i);
      assert init[..i] == regions[..i];
      var at := TotalSize(regions[..i]);
      assert PackData(regions)[at..at + |regions[i].data|] == PackData(init)[at..at + |regions[i].data|];
    } else {
      assert regions[..i] == init;
    }
  }

  lemma {:induction false} DataLength(regions: seq<Region>)
    ensures |PackData(regions)| == TotalSize(regions)
    decreases |regions|
  {
    if regions != [] {
      DataLength(regions[..|regions| - 1]);
    }
  }

  // ---- unpacking ----

  /** Memory after the bytes of data are written at addr. */
  function Written(m: seq<Byte>, addr: nat, data: seq<Byte>): seq<Byte>
    requires addr + |data| <= |m|
  {
    m[..addr] + data + m[addr + |data|..]
  }

  ghost predicate FitsIn(regions: seq<Region>, size: nat) {
    forall i :: 0 <= i < |regions| ==> regions[i].End() <= size
  }

  /** Memory after all regions are written, in order. */
  ghost function Unpacked(m: seq<Byte>, regions: seq<Region>): (r: seq<Byte>)
    requires FitsIn(regions, |m|)
    ensures |r| == |m|
  {
    if regions == [] then m
    else
      var last := regions[|regions| - 1];
      Written(Unpacked(m, regions[..|regions| - 1]), last.addr, last.data)
  }

  ghost predicate Untouched(regions: seq<Region>, a: nat) {
    forall i :: 0 <= i < |regions| ==> !(regions[i].addr <= a < regions[i].End())
  }

  lemma {:induction false} UnpackedElsewhere(m: seq<Byte>, regions: seq<Region>, a: nat)
    requires FitsIn(regions, |m|) && a < |m| && Untouched(regions, a)
    ensures Unpacked(m, regions)[a] == m[a]
    decreases |regions|
  {
    if regions != [] {
      UnpackedElsewhere(m, regions[..|regions| - 1], a);
    }
  }

  /** Every region ends up at its destination. */
  lemma {:induction false} UnpackedRegion(m: seq<Byte>, regions: seq<Region>, i: nat, a: nat)
    requires FitsIn(regions, |m|) && AllClear(regions) && i < |regions|
    requires regions[i].addr <= a < regions[i].End()
    ensures Unpacked(m, regions)[a] == regions[i].data[a - regions[i].addr]
    decreases |regions|
  {
    if i < |regions| - 1 {
      UnpackedRegion(m, regions[..|regions| - 1], i, a);
      assert Clear(regions[i], regions[|regions| - 1]);
    }
  }

  /** A forward byte copy, whether or not the two ranges overlap. */
  function Copied(m: seq<Byte>, dst: nat, src: nat, sz: nat): seq<Byte>
    requires dst + sz <= |m| && src + sz <= |m|
    decreases sz
  {
    if sz == 0 then m else Copied(m[dst := m[src]], dst + 1, src + 1, sz - 1)
  }

  /** `memcpy`: a byte loop through two moving pointers. */
  method Memcpy(mem: array<Byte>, dst: nat, src: nat, sz: nat)
    requires dst + sz <= mem.Length && src + sz <= mem.Length
    modifies mem
    ensures mem[..] == Copied(old(mem[..]), dst, src, sz)
  {
    var d, s, left := dst, src, sz;
    while left > 0
      invariant 0 <= left <= sz && d == dst + (sz - left) && s == src + (sz - left)
      invariant Copied(mem[..], d, s, left) == Copied(old(mem[..]), dst, src, sz)
    {
      ghost var m := mem[..];
      left := left - 1;
      mem[d] := mem[s];
      assert mem[..] == m[d := m[s]];
      d, s := d + 1, s + 1;
    }
  }

  /** Between ranges that do not overlap, the target receives the source and nothing else
      changes. */
  lemma {:induction false} CopiedIsWritten(m: seq<Byte>, dst: nat, src: nat, sz: nat)
    requires dst + sz <= |m| && src + sz <= |m| && (dst + sz <= src || src + sz <= dst)
    ensures Copied(m, dst, src, sz) == Written(m, dst, m[src..src + sz])
    decreases sz
  {
    if sz > 0 {
      var m2 := m[dst := m[src]];
      CopiedIsWritten(m2, dst + 1, src + 1, sz - 1);
      WrittenStep(m, dst, src, sz);
    } else {
      NothingWritten(m, dst, m[src..src + sz]);
    }
  }

  lemma NothingWritten(m: seq<Byte>, dst: nat, data: seq<Byte>)
    requires dst <= |m| && data == []
    ensures Written(m, dst, data) == m
  {
  }

  lemma WrittenStep(m: seq<Byte>, dst: nat, src: nat, sz: nat)
    requires sz > 0 && dst + sz <= |m| && src + sz <= |m| && (dst + sz <= src || src + sz <= dst)
    ensures var m2 := m[dst := m[src]];
      Written(m2, dst + 1, m2[src + 1..src + sz]) == Written(m, dst, m[src..src + sz])
  {
    var m2 := m[dst := m[src]];
    assert m2[src + 1..src + sz] == m[src + 1..src + sz];
    assert m[src..src + sz] == [m[src]] + m[src + 1..src + sz];
    assert m2[..dst + 1] == m[..dst] + [m[src]];
    assert m2[dst + sz..] == m[dst + sz..];
  }

  /** The loader data, as found in memory at this address, is this payload. */
  ghost predicate PayloadAt(m: seq<Byte>, at: nat, p: seq<Byte>) {
    at + |p| <= |m| && m[at..at + |p|] == p
  }

  /** All numbers fit their fields, and everything lies in memory. */
  ghost predicate Readable(l: Loader, at: nat, size: nat) {
    match l
    case Loader(_, header, metadata, regions) =>
      && size < WORD && at + |Payload(l)| <= size && FitsIn(regions, size) && |regions| < 0x1_0000_0000
      && metadata == AllMetadata(regions) && header.numRegions == |regions|
  }

  /** No destination touches what is packed. */
  ghost predicate ClearOfPayload(l: Loader, at: nat) {
    forall i :: 0 <= i < |l.regions| ==> l.regions[i].End() <= at || at + |Payload(l)| <= l.regions[i].addr
  }

  ghost predicate Unpackable(l: Loader, at: nat, size: nat) {
    Readable(l, at, size) && ClearOfPayload(l, at)
  }

  function ReadWord(mem: array<Byte>, at: nat): nat
    requires at + 8 <= mem.Length
    reads mem
  {
    ReadLe(mem[..], at, 8)
  }

  lemma PayloadLength(l: Loader)
    requires l.metadata == AllMetadata(l.regions)
    ensures |PackHeader(l.header)| == 64 && |PackTable(l.metadata)| == 32 * |l.regions|
    ensures |PackData(l.regions)| == TotalSize(l.regions)
  {
    WordsLength(HeaderWords(l.header));
    TableLength(l.metadata);
    DataLength(l.regions);
  }

  /** Where region i is described and where its data is, in the payload. */
  lemma PayloadParts(l: Loader, i: nat)
    requires l.metadata == AllMetadata(l.regions) && i < |l.regions|
    ensures var p, n, m := Payload(l), |l.regions|, MetadataAt(l.regions, i);
      && |p| == 64 + 32 * n + TotalSize(l.regions)
      && m.offset + m.size <= TotalSize(l.regions)
      && p[64 + 32 * i..64 + 32 * i + 32] == PackMetadata(m)
      && p[64 + 32 * n + m.offset..64 + 32 * n + m.offset + m.size] == l.regions[i].data
  {
    PayloadLength(l);
    TableLayout(l.metadata, i);
    DataLayout(l.regions, i);
    var m := MetadataAt(l.regions, i);
    var h, t, d := PackHeader(l.header), PackTable(l.metadata), PackData(l.regions);
    MiddleSlice(h, t, d, 32 * i, 32 * i + 32);
    LastSlice(h + t, d, m.offset, m.offset + m.size);
  }

  /** The table entry of region i, in memory. */
  lemma EntryInMemory(l: Loader, mem: seq<Byte>, at: nat, i: nat)
    requires Readable(l, at, |mem|) && PayloadAt(mem, at, Payload(l)) && i < |l.regions|
    ensures var entry := at + 64 + 32 * i;
      entry + 32 <= |mem| && mem[entry..entry + 32] == PackMetadata(MetadataAt(l.regions, i))
  {
    PayloadParts(l, i);
    SubSlice(mem, at, Payload(l), 64 + 32 * i, 64 + 32 * i + 32);
  }

  /** The data of region i, in memory. */
  lemma DataInMemory(l: Loader, mem: seq<Byte>, at: nat, i: nat)
    requires Readable(l, at, |mem|) && PayloadAt(mem, at, Payload(l)) && i < |l.regions|
    ensures var m, data := MetadataAt(l.regions, i), at + 64 + 32 * |l.regions|;
      && data + m.offset + m.size <= at + |Payload(l)| <= |mem|
      && mem[data + m.offset..data + m.offset + m.size] == l.regions[i].data
  {
    PayloadParts(l, i);
    var n, m := |l.regions|, MetadataAt(l.regions, i);
    SubSlice(mem, at, Payload(l), 64 + 32 * n + m.offset, 64 + 32 * n + m.offset + m.size);
  }

  /** Reading an entry of the table out of memory gives back what was packed. */
  lemma FieldsInMemory(l: Loader, mem: seq<Byte>, at: nat, i: nat)
    requires Readable(l, at, |mem|) && i < |l.regions|
    requires var entry := at + 64 + 32 * i;
      entry + 32 <= |mem| && mem[entry..entry + 32] == PackMetadata(MetadataAt(l.regions, i))
    requires MetadataAt(l.regions, i).offset + MetadataAt(l.regions, i).size <= |mem|
    ensures var m, entry := MetadataAt(l.regions, i), at + 64 + 32 * i;
      && ReadLe(mem, entry, 8) == m.loadAddr && ReadLe(mem, entry + 8, 8) == m.size
      && ReadLe(mem, entry + 16, 8) == m.offset
  {
    var ws, entry := MetadataWords(MetadataAt(l.regions, i)), at + 64 + 32 * i;
    WordsLength(ws);
    assert l.regions[i].End() <= |mem|;
    ReadWordOf(mem, entry, ws, 0);
    ReadWordOf(mem, entry, ws, 1);
    ReadWordOf(mem, entry, ws, 2);
  }

  lemma CountInMemory(l: Loader, mem: seq<Byte>, at: nat)
    requires Readable(l, at, |mem|) && PayloadAt(mem, at, Payload(l))
    ensures at + 64 + 32 * |l.regions| <= |mem| && ReadLe(mem, at + 56, 8) == |l.regions|
    ensures l.header.magic < WORD ==> ReadLe(mem, at, 8) == l.header.magic
  {
    PayloadLength(l);
    var h, rest := PackHeader(l.header), PackTable(l.metadata) + PackData(l.regions);
    assert Payload(l) == h + rest;
    assert Payload(l)[0..64] == h;
    SubSlice(mem, at, Payload(l), 0, 64);
    ReadWordOf(mem, at, HeaderWords(l.header), 7);
    if l.header.magic < WORD {
      ReadWordOf(mem, at, HeaderWords(l.header), 0);
    }
  }

  /** Writing a region leaves the payload alone. */
  lemma PayloadSurvives(l: Loader, m: seq<Byte>, at: nat, i: nat)
    requires Unpackable(l, at, |m|) && PayloadAt(m, at, Payload(l)) && i < |l.regions|
    ensures PayloadAt(Written(m, l.regions[i].addr, l.regions[i].data), at, Payload(l))
  {
    var r := l.regions[i];
    var m2 := Written(m, r.addr, r.data);
    forall k | at <= k < at + |Payload(l)|
      ensures m2[k] == m[k]
    {
    }
    assert m2[at..at + |Payload(l)|] == m[at..at + |Payload(l)|];
  }

  /** The loop has copied the first i regions and not yet touched the payload. */
  ghost predicate CopiedSoFar(l: Loader, at: nat, was: seq<Byte>, m: seq<Byte>, i: nat) {
    match l
    case Loader(_, _, _, regions) =>
      && i <= |regions| && Unpackable(l, at, |m|) && PayloadAt(m, at, Payload(l))
      && FitsIn(regions[..i], |was|) && m == Unpacked(was, regions[..i])
  }

  lemma CopiedNext(l: Loader, at: nat, was: seq<Byte>, m: seq<Byte>, i: nat)
    requires CopiedSoFar(l, at, was, m, i) && i < |l.regions|
    ensures l.regions[i].End() <= |m|
    ensures CopiedSoFar(l, at, was, Written(m, l.regions[i].addr, l.regions[i].data), i + 1)
  {
    PayloadSurvives(l, m, at, i);
    assert l.regions[..i + 1][..i] == l.regions[..i];
  }

  /** The table entry at r describes region g, whose data lies behind base. */
  ghost predicate Describes(m: seq<Byte>, r: nat, base: nat, g: Region) {
    match g
    case Region(addr, data) =>
      && r + 24 <= |m| && ReadLe(m, r, 8) == addr && ReadLe(m, r + 8, 8) == |data|
      && var from := base + ReadLe(m, r + 16, 8);
         && from + |data| <= |m| && addr + |data| <= |m| && (addr + |data| <= from || from + |data| <= addr)
         && m[from..from + |data|] == data
  }

  /** What the loop finds in the table. */
  lemma CopyStep(l: Loader, m: seq<Byte>, at: nat, i: nat)
    requires Unpackable(l, at, |m|) && PayloadAt(m, at, Payload(l)) && i < |l.regions|
    ensures Describes(m, at + 64 + 32 * i, at + 64 + 32 * |l.regions|, l.regions[i])
  {
    EntryInMemory(l, m, at, i);
    DataInMemory(l, m, at, i);
    FieldsInMemory(l, m, at, i);
  }

  /** One turn of the copy loop on memory m; None where it would leave memory. */
  function CopyTurn(m: seq<Byte>, r: nat, base: nat): Option<seq<Byte>> {
    if r + METADATA_SIZE > |m| then None
    else
      var loadAddr, size, from := ReadLe(m, r, 8), ReadLe(m, r + 8, 8), base + ReadLe(m, r + 16, 8);
      if loadAddr + size > |m| || from + size > |m| then None else Some(Copied(m, loadAddr, from, size))
  }

  lemma {:induction false} CopiedLength(m: seq<Byte>, dst: nat, src: nat, sz: nat)
    requires dst + sz <= |m| && src + sz <= |m|
    ensures |Copied(m, dst, src, sz)| == |m|
    decreases sz
  {
    if sz > 0 {
      CopiedLength(m[dst := m[src]], dst + 1, src + 1, sz - 1);
    }
  }

  /** The copy loop from turn i on: it reads the count and the table anew in every turn, from
      the memory that it is writing. */
  function CopyLoop(m: seq<Byte>, loaderData: nat, base: nat, i: nat): Option<seq<Byte>>
    decreases |m| - i
  {
    if loaderData + HEADER_SIZE > |m| || i > |m| then None
    else if i >= ReadLe(m, loaderData + 56, 8) then Some(m)
    else
      match CopyTurn(m, loaderData + HEADER_SIZE + METADATA_SIZE * i, base)
      case None => None
      case Some(m2) => if |m2| == |m| then CopyLoop(m2, loaderData, base, i + 1) else None
  }

  /** `copy_data` on a memory image. */
  function CopyAll(m: seq<Byte>, loaderData: nat): Option<seq<Byte>> {
    if loaderData + HEADER_SIZE > |m| then None
    else CopyLoop(m, loaderData, loaderData + HEADER_SIZE + METADATA_SIZE * ReadLe(m, loaderData + 56, 8), 0)
  }

  method CopyRegion(mem: array<Byte>, r: nat, base: nat) returns (ok: bool)
    modifies mem
    ensures ok <==> CopyTurn(old(mem[..]), r, base).Some?
    ensures ok ==> CopyTurn(old(mem[..]), r, base) == Some(mem[..])
  {
    if r + METADATA_SIZE > mem.Length {
      return false;
    }
    var loadAddr := ReadWord(mem, r);
    var size := ReadWord(mem, r + 8);
    var from := base + ReadWord(mem, r + 16);
    if loadAddr + size > mem.Length || from + size > mem.Length {
      return false;
    }
    Memcpy(mem, loadAddr, from, size);
    return true;
  }

  lemma LoopStarts(m: seq<Byte>, at: nat, base: nat, i: nat)
    requires at + 64 <= |m| && base == at + 64 + 32 * ReadLe(m, at + 56, 8) && i == 0
    ensures CopyAll(m, at) == CopyLoop(m, at, base, i)
  {
  }

  lemma LoopEnds(m: seq<Byte>, at: nat, base: nat, i: nat)
    requires at + 64 <= |m| && ReadLe(m, at + 56, 8) <= i <= |m|
    ensures CopyLoop(m, at, base, i) == Some(m)
  {
  }

  lemma LoopGoesOn(m: seq<Byte>, at: nat, base: nat, i: nat, r: Option<seq<Byte>>)
    requires at + 64 <= |m| && i < ReadLe(m, at + 56, 8) && CopyTurn(m, at + 64 + 32 * i, base) == r
    requires r.Some? ==> |r.value| == |m|
    ensures r.Some? ==> i < |m|
    ensures CopyLoop(m, at, base, i)
      == if r.None? || i > |m| then None else CopyLoop(r.value, at, base, i + 1)
  {
  }

  /** One turn of the copy loop. */
  method CopyNext(mem: array<Byte>, loaderData: nat, base: nat, i: nat) returns (ok: bool)
    requires loaderData + 64 <= mem.Length && i < ReadLe(mem[..], loaderData + 56, 8)
    modifies mem
    ensures !ok ==> CopyLoop(old(mem[..]), loaderData, base, i) == None
    ensures ok ==> i < mem.Length
    ensures ok ==> CopyLoop(old(mem[..]), loaderData, base, i) == CopyLoop(mem[..], loaderData, base, i + 1)
  {
    ok := CopyRegion(mem, loaderData + HEADER_SIZE + METADATA_SIZE * i, base);
    LoopGoesOn(old(mem[..]), loaderData, base, i, if ok then Some(mem[..]) else None);
  }

  /** The turns of the copy loop from first on. */
  method CopyTurns(mem: array<Byte>, loaderData: nat, base: nat, first: nat) returns (ok: bool)
    requires loaderData + HEADER_SIZE <= mem.Length && first <= mem.Length
    modifies mem
    ensures ok <==> CopyLoop(old(mem[..]), loaderData, base, first).Some?
    ensures ok ==> CopyLoop(old(mem[..]), loaderData, base, first) == Some(mem[..])
  {
    var i := first;
    ghost var all := CopyLoop(mem[..], loaderData, base, first);
    while i < ReadWord(mem, loaderData + 56)
      invariant i <= mem.Length && CopyLoop(mem[..], loaderData, base, i) == all
      decreases mem.Length - i
    {
      ok := CopyNext(mem, loaderData, base, i);
      if !ok {
        return false;
      }
      i := i + 1;
    }
    LoopEnds(mem[..], loaderData, base, i);
    return true;
  }

  /** The copy loop of the loader; false where it would leave memory. */
  method CopyData(mem: array<Byte>, loaderData: nat) returns (ok: bool)
    modifies mem
    ensures ok <==> CopyAll(old(mem[..]), loaderData).Some?
    ensures ok ==> CopyAll(old(mem[..]), loaderData) == Some(mem[..])
  {
    if loaderData + HEADER_SIZE > mem.Length {
      return false;
    }
    var base := loaderData + HEADER_SIZE + METADATA_SIZE * ReadWord(mem, loaderData + 56);
    var first := 0;
    LoopStarts(mem[..], loaderData, base, first);
    ok := CopyTurns(mem, loaderData, base, first);
  }

  // ---- unpacking what was packed ----

  lemma TurnUnpacks(l: Loader, m: seq<Byte>, at: nat, i: nat)
    requires Unpackable(l, at, |m|) && PayloadAt(m, at, Payload(l)) && i < |l.regions|
    ensures l.regions[i].End() <= |m|
    ensures CopyTurn(m, at + 64 + 32 * i, at + 64 + 32 * |l.regions|)
      == Some(Written(m, l.regions[i].addr, l.regions[i].data))
  {
    var g := l.regions[i];
    EntryInMemory(l, m, at, i);
    CopyStep(l, m, at, i);
    DescribedTurn(m, at + 64 + 32 * i, at + 64 + 32 * |l.regions|, g);
  }

  lemma DescribedTurn(m: seq<Byte>, r: nat, base: nat, g: Region)
    requires Describes(m, r, base, g) && r + 32 <= |m|
    ensures g.End() <= |m| && CopyTurn(m, r, base) == Some(Written(m, g.addr, g.data))
  {
    CopiedIsWritten(m, g.addr, base + ReadLe(m, r + 16, 8), |g.data|);
  }

  lemma {:induction false} LoopUnpacks(l: Loader, was: seq<Byte>, m: seq<Byte>, at: nat, i: nat)
    requires CopiedSoFar(l, at, was, m, i) && FitsIn(l.regions, |was|)
    ensures CopyLoop(m, at, at + 64 + 32 * |l.regions|, i) == Some(Unpacked(was, l.regions))
    decreases |l.regions| - i
  {
    if i < |l.regions| {
      TurnUnpacks(l, m, at, i);
      CopiedNext(l, at, was, m, i);
      LoopStep(l, m, at, i);
      LoopUnpacks(l, was, Written(m, l.regions[i].addr, l.regions[i].data), at, i + 1);
    } else {
      CountInMemory(l, m, at);
      LoopEnd(m, at, at + 64 + 32 * |l.regions|, i);
      assert l.regions[..i] == l.regions;
    }
  }

  lemma LoopStep(l: Loader, m: seq<Byte>, at: nat, i: nat)
    requires Unpackable(l, at, |m|) && PayloadAt(m, at, Payload(l)) && i < |l.regions| && l.regions[i].End() <= |m|
    ensures CopyLoop(m, at, at + 64 + 32 * |l.regions|, i)
      == CopyLoop(Written(m, l.regions[i].addr, l.regions[i].data), at, at + 64 + 32 * |l.regions|, i + 1)
  {
    TurnUnpacks(l, m, at, i);
    PackedTurn(l, m, at, i, Written(m, l.regions[i].addr, l.regions[i].data));
  }

  lemma PackedTurn(l: Loader, m: seq<Byte>, at: nat, i: nat, m2: seq<Byte>)
    requires Readable(l, at, |m|) && PayloadAt(m, at, Payload(l)) && i < |l.regions|
    requires CopyTurn(m, at + 64 + 32 * i, at + 64 + 32 * |l.regions|) == Some(m2) && |m2| == |m|
    ensures CopyLoop(m, at, at + 64 + 32 * |l.regions|, i) == CopyLoop(m2, at, at + 64 + 32 * |l.regions|, i + 1)
  {
    CountInMemory(l, m, at);
    LoopTurn(m, at, at + 64 + 32 * |l.regions|, i, |l.regions|, m2);
  }

  lemma LoopTurn(m: seq<Byte>, at: nat, base: nat, i: nat, n: nat, m2: seq<Byte>)
    requires at + 64 + 32 * n <= |m| && ReadLe(m, at + 56, 8) == n && i < n
    requires CopyTurn(m, at + 64 + 32 * i, base) == Some(m2) && |m2| == |m|
    ensures CopyLoop(m, at, base, i) == CopyLoop(m2, at, base, i + 1)
  {
  }

  lemma LoopEnd(m: seq<Byte>, at: nat, base: nat, i: nat)
    requires at + 64 <= |m| && i <= |m| && ReadLe(m, at + 56, 8) == i
    ensures CopyLoop(m, at, base, i) == Some(m)
  {
  }

  /** The loop over a packed table performs exactly the copies of all regions, when no
      destination touches what is packed. */
  lemma CopyAllUnpacks(l: Loader, m: seq<Byte>, at: nat)
    requires Unpackable(l, at, |m|) && PayloadAt(m, at, Payload(l))
    ensures CopyAll(m, at) == Some(Unpacked(m, l.regions))
  {
    var first := 0;
    LoopUnpacksAll(l, m, at, first);
    AllIsPackedLoop(l, m, at, first, Unpacked(m, l.regions));
  }

  lemma AllIsPackedLoop(l: Loader, m: seq<Byte>, at: nat, i: nat, r: seq<Byte>)
    requires Readable(l, at, |m|) && PayloadAt(m, at, Payload(l)) && i == 0
    requires CopyLoop(m, at, at + 64 + 32 * |l.regions|, i) == Some(r)
    ensures CopyAll(m, at) == Some(r)
  {
    CountInMemory(l, m, at);
    AllIsLoop(m, at, |l.regions|, i, r);
  }

  lemma LoopUnpacksAll(l: Loader, m: seq<Byte>, at: nat, first: nat)
    requires Unpackable(l, at, |m|) && PayloadAt(m, at, Payload(l)) && first == 0
    ensures FitsIn(l.regions, |m|)
    ensures CopyLoop(m, at, at + 64 + 32 * |l.regions|, first) == Some(Unpacked(m, l.regions))
  {
    NothingCopied(l, m, at, first);
    LoopUnpacks(l, m, m, at, first);
  }

  lemma NothingCopied(l: Loader, m: seq<Byte>, at: nat, i: nat)
    requires Unpackable(l, at, |m|) && PayloadAt(m, at, Payload(l)) && i == 0
    ensures CopiedSoFar(l, at, m, m, i)
  {
    assert l.regions[..i] == [];
  }

  lemma AllIsLoop(m: seq<Byte>, at: nat, n: nat, i: nat, r: seq<Byte>)
    requires at + 64 <= |m| && ReadLe(m, at + 56, 8) == n && i == 0
    requires CopyLoop(m, at, at + 64 + 32 * n, i) == Some(r)
    ensures CopyAll(m, at) == Some(r)
  {
  }

  /** Packing and then copying restores memory: each region's destination holds exactly the
      region's data, and every other address keeps its byte. */
  lemma CopyRestores(image: seq<Byte>, imageVaddr: nat, e: Entries, regions: seq<Region>, m: seq<Byte>)
    requires AllClear(regions + [Region(imageVaddr, image)]) && FitsIn(regions, |m|)
    ensures forall i: nat, a: nat :: i < |regions| && regions[i].addr <= a < regions[i].End() ==>
      Unpacked(m, regions)[a] == regions[i].data[a - regions[i].addr]
    ensures forall a: nat :: a < |m| && Untouched(regions, a) ==> Unpacked(m, regions)[a] == m[a]
    ensures forall a: nat :: imageVaddr <= a < imageVaddr + |image| && a < |m| ==> Unpacked(m, regions)[a] == m[a]
  {
    var all := regions + [Region(imageVaddr, image)];
    assert AllClear(regions) by {
      assert forall i :: 0 <= i < |regions| ==> all[i] == regions[i];
    }
    forall i: nat, a: nat | i < |regions| && regions[i].addr <= a < regions[i].End()
      ensures Unpacked(m, regions)[a] == regions[i].data[a - regions[i].addr]
    {
      UnpackedRegion(m, regions, i, a);
    }
    forall a: nat | a < |m| && Untouched(regions, a)
      ensures Unpacked(m, regions)[a] == m[a]
    {
      UnpackedElsewhere(m, regions, a);
    }
    forall a: nat | imageVaddr <= a < imageVaddr + |image| && a < |m|
      ensures Unpacked(m, regions)[a] == m[a]
    {
      forall i | 0 <= i < |regions|
        ensures !(regions[i].addr <= a < regions[i].End())
      {
        assert Clear(all[i], all[|regions|]);
      }
      UnpackedElsewhere(m, regions, a);
    }
  }

  /** The loader's image, where it is linked, and what it carries. */
  datatype Packing = Packing(image: seq<Byte>, imageVaddr: nat, entries: Entries, regions: seq<Region>) {
    function AsLoader(): Loader {
      LoaderOf(image, entries, regions)
    }

    function Bytes(): seq<Byte> {
      image + Payload(AsLoader())
    }

    /** Where the payload starts. */
    function DataAt(): nat {
      imageVaddr + |image|
    }
  }

  /** What passes the overlap check of `Loader::new`. */
  ghost predicate Packable(p: Packing) {
    AllClear(p.regions + [Region(p.imageVaddr, p.image)])
  }

  /** What loader and payload need of memory: room, and no destination over the payload. */
  ghost predicate Bootable(p: Packing, size: nat) {
    match p
    case Packing(_, imageVaddr, _, regions) =>
      && FitsIn(regions, size) && |regions| < 0x1_0000_0000
      && imageVaddr + |p.Bytes()| <= size < WORD && ClearOfPayload(p.AsLoader(), p.DataAt())
  }

  /** Memory after unpacking: each destination holds its region's data, the image and all
      memory outside image and payload are as they were. */
  ghost predicate Restored(was: seq<Byte>, m: seq<Byte>, p: Packing) {
    match p
    case Packing(image, imageVaddr, _, regions) =>
      && |m| == |was|
      && (forall i: nat, a: nat :: i < |regions| && regions[i].addr <= a < regions[i].End() && a < |m| ==>
           m[a] == regions[i].data[a - regions[i].addr])
      && (forall a: nat :: imageVaddr <= a < imageVaddr + |image| && a < |m| ==> m[a] == image[a - imageVaddr])
      && (forall a: nat :: a < |m| && !(imageVaddr <= a < imageVaddr + |p.Bytes()|) && Untouched(regions, a) ==>
           m[a] == was[a])
  }

  lemma WrittenAt(m: seq<Byte>, addr: nat, data: seq<Byte>, a: nat)
    requires addr + |data| <= |m| && a < |m|
    ensures |Written(m, addr, data)| == |m|
    ensures Written(m, addr, data)[a] == if addr <= a < addr + |data| then data[a - addr] else m[a]
  {
  }

  lemma WrittenParts(m: seq<Byte>, addr: nat, image: seq<Byte>, payload: seq<Byte>)
    requires addr + |image + payload| <= |m|
    ensures var w := Written(m, addr, image + payload);
      |w| == |m| && w[addr + |image|..addr + |image| + |payload|] == payload
  {
    var w := Written(m, addr, image + payload);
    MiddleSlice(m[..addr], image + payload, m[addr + |image + payload|..], |image|, |image| + |payload|);
  }

  lemma PlacedBytes(m: seq<Byte>, addr: nat, image: seq<Byte>, payload: seq<Byte>)
    requires addr + |image + payload| <= |m|
    ensures var w := Written(m, addr, image + payload);
      && |w| == |m|
      && (forall a: nat :: addr <= a < addr + |image| && a < |m| ==> w[a] == image[a - addr])
      && (forall a: nat :: a < |m| && !(addr <= a < addr + |image + payload|) ==> w[a] == m[a])
  {
    forall a: nat | a < |m|
      ensures Written(m, addr, image + payload)[a]
        == if addr <= a < addr + |image + payload| then (image + payload)[a - addr] else m[a]
    {
      WrittenAt(m, addr, image + payload, a);
    }
  }

  lemma PlacedUnpacks(p: Packing, m: seq<Byte>)
    requires Bootable(p, |m|)
    ensures var placed := Written(m, p.imageVaddr, p.Bytes());
      |placed| == |m| && FitsIn(p.regions, |m|) && CopyAll(placed, p.DataAt()) == Some(Unpacked(placed, p.regions))
  {
    WrittenParts(m, p.imageVaddr, p.image, Payload(p.AsLoader()));
    CopyAllUnpacks(p.AsLoader(), Written(m, p.imageVaddr, p.Bytes()), p.DataAt());
  }

  /** The image and its payload have been put in memory. */
  ghost predicate Placed(was: seq<Byte>, m: seq<Byte>, p: Packing) {
    match p
    case Packing(image, imageVaddr, _, _) =>
      && |m| == |was|
      && (forall a: nat :: imageVaddr <= a < imageVaddr + |image| && a < |m| ==> m[a] == image[a - imageVaddr])
      && (forall a: nat :: a < |m| && !(imageVaddr <= a < imageVaddr + |p.Bytes()|) ==> m[a] == was[a])
  }

  /** The regions have been copied out, which leaves the image and all other memory alone. */
  ghost predicate UnpackedFrom(was: seq<Byte>, m: seq<Byte>, p: Packing) {
    match p
    case Packing(image, imageVaddr, _, regions) =>
      && |m| == |was|
      && (forall i: nat, a: nat :: i < |regions| && regions[i].addr <= a < regions[i].End() && a < |m| ==>
           m[a] == regions[i].data[a - regions[i].addr])
      && (forall a: nat :: imageVaddr <= a < imageVaddr + |image| && a < |m| ==> m[a] == was[a])
      && (forall a: nat :: a < |m| && Untouched(regions, a) ==> m[a] == was[a])
  }

  lemma ImagePlaced(p: Packing, m: seq<Byte>)
    requires p.imageVaddr + |p.Bytes()| <= |m|
    ensures Placed(m, Written(m, p.imageVaddr, p.Bytes()), p)
  {
    PlacedBytes(m, p.imageVaddr, p.image, Payload(p.AsLoader()));
  }

  lemma ImageUnpacked(p: Packing, m: seq<Byte>)
    requires Packable(p) && FitsIn(p.regions, |m|)
    ensures UnpackedFrom(m, Unpacked(m, p.regions), p)
  {
    CopyRestores(p.image, p.imageVaddr, p.entries, p.regions, m);
  }

  lemma RestoredThrough(was: seq<Byte>, placed: seq<Byte>, m: seq<Byte>, p: Packing)
    requires Placed(was, placed, p) && UnpackedFrom(placed, m, p)
    ensures Restored(was, m, p)
  {
  }

  /** From the checked regions to memory: the packed image, placed at its address, unpacks to
      the regions and leaves everything else alone. */
  lemma PackedImageUnpacks(p: Packing, m: seq<Byte>)
    requires Packable(p) && Bootable(p, |m|)
    ensures var r := CopyAll(Written(m, p.imageVaddr, p.Bytes()), p.DataAt());
      r.Some? && Restored(m, r.value, p)
  {
    var placed := Written(m, p.imageVaddr, p.Bytes());
    PlacedUnpacks(p, m);
    ImagePlaced(p, m);
    ImageUnpacked(p, placed);
    RestoredThrough(m, placed, Unpacked(placed, p.regions), p);
  }

  /** What the tool writes, if the check passes. */
  method Pack(p: Packing) returns (r: Option<seq<Byte>>)
    ensures r.Some? <==> Packable(p)
    ensures r.Some? ==> r.value == p.Bytes()
  {
    var l := NewLoader(p.image, p.imageVaddr, p.entries, p.regions);
    if l.None? {
      return None;
    }
    var bytes := ToBytes(l.value);
    return Some(bytes);
  }

  /** The tool's packing and the loader's unpacking, one after the other. */
  method PackAndBoot(p: Packing, mem: array<Byte>) returns (packed: bool, ok: bool)
    requires Bootable(p, mem.Length)
    modifies mem
    ensures packed <==> Packable(p)
    ensures packed ==> ok && Restored(old(mem[..]), mem[..], p)
  {
    var bytes := Pack(p);
    if bytes.None? {
      return false, false;
    }
    PackedImageUnpacks(p, mem[..]);
    Place(mem, p.imageVaddr, bytes.value);
    ok := CopyData(mem, p.DataAt());
    return true, ok;
  }

  /** The firmware puts the image where it is linked. */
  method Place(mem: array<Byte>, addr: nat, bytes: seq<Byte>)
    requires addr + |bytes| <= mem.Length
    modifies mem
    ensures mem[..] == Written(old(mem[..]), addr, bytes)
  {
    forall k | 0 <= k < |bytes| {
      mem[addr + k] := bytes[k];
    }
  }

  // ---- why the payload must stay clear ----

  /** A region that passes the overlap check but starts one byte behind its own packed data
      does not arrive: its second byte is overwritten before it is read. */
  lemma PayloadOverlapCorrupts(image: seq<Byte>, imageVaddr: nat, e: Entries, m: seq<Byte>)
    requires var at := imageVaddr + |image|; at + 99 <= |m| < WORD
    requires var at := imageVaddr + |image|;
      PayloadAt(m, at, Payload(LoaderOf(image, e, [Region(at + 97, [0, 1])])))
    ensures var at := imageVaddr + |image|; var regions := [Region(at + 97, [0, 1])];
      && AllClear(regions + [Region(imageVaddr, image)])
      && CopyAll(m, at).Some? && |CopyAll(m, at).value| == |m|
      && CopyAll(m, at).value[at + 98] != regions[0].data[1]
  {
    var at := imageVaddr + |image|;
    var regions := [Region(at + 97, [0, 1])];
    var l := LoaderOf(image, e, regions);
    OneRegion(l, m, at);
    var m1 := m[at + 97 := m[at + 96]];
    var m2 := m1[at + 98 := m1[at + 97]];
    Smeared(m, at + 97, at + 96, m1, m2);
    OneTurn(m, m2, at);
  }

  /** What memory holds for a loader with one region of two bytes. */
  lemma OneRegion(l: Loader, m: seq<Byte>, at: nat)
    requires l.regions == [Region(at + 97, [0, 1])] && l.metadata == AllMetadata(l.regions) && l.header.numRegions == 1
    requires at + 99 <= |m| < WORD && PayloadAt(m, at, Payload(l))
    ensures ReadLe(m, at + 56, 8) == 1 && ReadLe(m, at + 64, 8) == at + 97
    ensures ReadLe(m, at + 72, 8) == 2 && ReadLe(m, at + 80, 8) == 0 && m[at + 96] == 0
  {
    PayloadLength(l);
    assert l.regions[..0] == [];
    assert Readable(l, at, |m|);
    CountInMemory(l, m, at);
    EntryInMemory(l, m, at, 0);
    DataInMemory(l, m, at, 0);
    FieldsInMemory(l, m, at, 0);
    assert m[at + 96] == m[at + 96..at + 98][0];
  }

  lemma Smeared(m: seq<Byte>, dst: nat, src: nat, m1: seq<Byte>, m2: seq<Byte>)
    requires dst == src + 1 && dst + 2 <= |m| && m1 == m[dst := m[src]] && m2 == m1[dst + 1 := m1[dst]]
    ensures Copied(m, dst, src, 2) == m2 && m2[dst + 1] == m[src]
  {
    assert Copied(m, dst, src, 2) == Copied(m1, dst + 1, src + 1, 1);
    assert Copied(m1, dst + 1, src + 1, 1) == Copied(m2, dst + 2, src + 2, 0);
  }

  lemma OneTurn(m: seq<Byte>, m2: seq<Byte>, at: nat)
    requires at + 99 <= |m| && |m2| == |m| && ReadLe(m, at + 56, 8) == 1
    requires ReadLe(m, at + 64, 8) == at + 97 && ReadLe(m, at + 72, 8) == 2 && ReadLe(m, at + 80, 8) == 0
    requires Copied(m, at + 97, at + 96, 2) == m2 && forall k :: 0 <= k < at + 97 ==> m2[k] == m[k]
    ensures CopyAll(m, at) == Some(m2)
  {
    var first := 0;
    assert m2[at + 56..at + 64] == m[at + 56..at + 64];
    LoopTurn(m, at, at + 96, first, 1, m2);
    LoopEnd(m2, at, at + 96, 1);
    AllIsLoop(m, at, 1, first, m2);
  }
}
