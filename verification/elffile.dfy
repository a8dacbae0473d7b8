/** Writing and reading 64-bit little-endian ELF files (System V gABI, chapters 4 and 5):
    tool/microkit/src/elf.rs. */
module ElfFiles {
  import opened Powers
  import opened Words
  import opened MemoryRegions
  import opened Bytes

  datatype Data = RealData(bytes: seq<Byte>) | UninitialisedData(size: nat)

  datatype Segment = Segment(data: Data, physAddr: nat, virtAddr: nat, loadable: bool, attrs: nat) {
    function FileBytes(): seq<Byte> {
      match data
      case RealData(bytes) => bytes
      case UninitialisedData(_) => []
    }

    function MemSize(): nat {
      match data
      case RealData(bytes) => |bytes|
      case UninitialisedData(size) => size
    }
  }

  datatype ProgramHeader = ProgramHeader(segmentIdx: nat, kind: nat)

  datatype Elf = Elf(entry: nat, machine: nat, segments: seq<Segment>, headers: seq<ProgramHeader>)

  const PHENT_TYPE_LOADABLE: nat := 1
  const EHSIZE: nat := 64
  const PHENTSIZE: nat := 56
  const SHENTSIZE: nat := 64

  datatype Phdr = Phdr(kind: nat, flags: nat, offset: nat, vaddr: nat, paddr: nat, filesz: nat, memsz: nat, align: nat)

  /** The fields of a section header that are not always zero. */
  datatype Shdr = Shdr(kind: nat, flags: nat, addr: nat, offset: nat, size: nat)

  function Zeros(n: nat): seq<Byte> {
    seq(n, _ => 0)
  }

  // ---- the written file ----

  function Concat(parts: seq<seq<Byte>>): seq<Byte> {
    if parts == [] then [] else Concat(parts[..|parts| - 1]) + parts[|parts| - 1]
  }

  lemma ConcatLast(parts: seq<seq<Byte>>, part: seq<Byte>)
    ensures Concat(parts + [part]) == Concat(parts) + part
  {
    assert (parts + [part])[..|parts|] == parts;
  }

  function PackHalves(hs: seq<nat>): seq<Byte> {
    if hs == [] then [] else Le(hs[0], 2) + PackHalves(hs[1..])
  }

  /** e_ident: magic, class, data, version, ABI and padding. */
  const IDENT: seq<Byte> := [0x7F, 0x45, 0x4C, 0x46, 2, 1, 1, 0, 0, 0, 0, 0, 0, 0, 0, 0]

  function Truncate16(x: nat): nat {
    x % 0x1_0000
  }

  function PackEhdr(elf: Elf): seq<Byte> {
    Concat([IDENT, Le(2, 2) + Le(elf.machine, 2) + Le(1, 4), PackWords(EhdrWords(elf)), Le(0, 4), PackHalves(EhdrHalves(elf))])
  }

  /** e_entry, e_phoff and e_shoff. */
  function EhdrWords(elf: Elf): seq<nat> {
    [elf.entry, EHSIZE, EHSIZE + |elf.headers| * PHENTSIZE]
  }

  /** e_ehsize to e_shstrndx. */
  function EhdrHalves(elf: Elf): seq<nat> {
    [EHSIZE, PHENTSIZE, Truncate16(|elf.headers|), SHENTSIZE, Truncate16(|elf.segments| + 2), Truncate16(|elf.segments| + 1)]
  }

  function PackPhdr(p: Phdr): seq<Byte> {
    Le(p.kind, 4) + Le(p.flags, 4) + PackWords(PhdrWords(p))
  }

  /** p_offset to p_align. */
  function PhdrWords(p: Phdr): seq<nat> {
    [p.offset, p.vaddr, p.paddr, p.filesz, p.memsz, p.align]
  }

  function PackShdr(s: Shdr): seq<Byte> {
    Concat([Le(0, 4), Le(s.kind, 4), PackWords([s.flags, s.addr, s.offset, s.size]), Le(0, 4) + Le(0, 4), PackWords([0, 0])])
  }

  function FileSize(segs: seq<Segment>): nat {
    if segs == [] then 0 else FileSize(segs[..|segs| - 1]) + |segs[|segs| - 1].FileBytes()|
  }

  /** Where the data of the segments starts. */
  function DataStart(elf: Elf): nat {
    EHSIZE + |elf.headers| * PHENTSIZE + (|elf.segments| + 2) * SHENTSIZE
  }

  function PhdrFor(elf: Elf, k: nat): Phdr
    requires k < |elf.headers| && elf.headers[k].segmentIdx < |elf.segments|
  {
    var i := elf.headers[k].segmentIdx;
    var seg := elf.segments[i];
    Phdr(elf.headers[k].kind, seg.attrs, DataStart(elf) + FileSize(elf.segments[..i]), seg.virtAddr, seg.physAddr,
         |seg.FileBytes()|, seg.MemSize(), 0)
  }

  const SHF_WRITE: nat := 1
  const SHF_ALLOC: nat := 2
  const SHF_EXECINSTR: nat := 3

  predicate IsWritable(seg: Segment) {
    (seg.attrs / 2) % 2 == 1
  }

  predicate IsExecutable(seg: Segment) {
    seg.attrs % 2 == 1
  }

  /** Section flags as `section_flags` computes them. */
  function SectionFlags(seg: Segment): nat {
    var flags := if IsWritable(seg) then Or(SHF_ALLOC, SHF_WRITE) else SHF_ALLOC;
    if IsExecutable(seg) then Or(flags, SHF_EXECINSTR) else flags
  }

  /** Section flags with the numbers of the System V gABI, chapter 4. */
  function GabiFlags(seg: Segment): nat {
    2 + (if IsWritable(seg) then 1 else 0) + (if IsExecutable(seg) then 4 else 0)
  }

  /** The flags are those of the gABI exactly when the segment is not executable: an
      executable one reads as writable and not as executable. */
  lemma SectionFlagsMissExecutable(seg: Segment)
    ensures SectionFlags(seg) == GabiFlags(seg) <==> !IsExecutable(seg)
    ensures IsExecutable(seg) ==> SectionFlags(seg) == SHF_ALLOC + SHF_WRITE
  {
    assert Or(2, 1) == 3;
    assert Or(3, 3) == 3;
    assert Or(2, 3) == 3;
  }

  /** The section that mirrors segment i. */
  function ShdrFor(elf: Elf, i: nat): Shdr
    requires i < |elf.segments|
  {
    var seg := elf.segments[i];
    Shdr(1, SectionFlags(seg), seg.physAddr, DataStart(elf) + FileSize(elf.segments[..i]), |seg.FileBytes()|)
  }

  /** The one-byte string table behind the data. */
  function StrtabShdr(elf: Elf): Shdr {
    Shdr(3, 0, 0, DataStart(elf) + FileSize(elf.segments), 1)
  }

  function PhdrRows(elf: Elf, n: nat): seq<seq<Byte>>
    requires IndicesOk(elf) && n <= |elf.headers|
  {
    seq(n, k requires 0 <= k < n => PackPhdr(PhdrFor(elf, k)))
  }

  function PhdrTable(elf: Elf, n: nat): seq<Byte>
    requires IndicesOk(elf) && n <= |elf.headers|
  {
    Concat(PhdrRows(elf, n))
  }

  function ShdrRows(elf: Elf, n: nat): seq<seq<Byte>>
    requires n <= |elf.segments|
  {
    seq(n, i requires 0 <= i < n => PackShdr(ShdrFor(elf, i)))
  }

  function ShdrTable(elf: Elf, n: nat): seq<Byte>
    requires n <= |elf.segments|
  {
    Concat(ShdrRows(elf, n))
  }

  function AllData(segs: seq<Segment>): seq<Byte> {
    if segs == [] then [] else AllData(segs[..|segs| - 1]) + segs[|segs| - 1].FileBytes()
  }

  predicate IndicesOk(elf: Elf) {
    match elf
    case Elf(_, _, segments, headers) => forall k :: 0 <= k < |headers| ==> headers[k].segmentIdx < |segments|
  }

  /** File header, program headers, section headers, data and string table. */
  function Parts(ehdr: seq<Byte>, phdrs: seq<Byte>, shdrs: seq<Byte>, strtab: seq<Byte>, data: seq<Byte>): seq<seq<Byte>> {
    [ehdr, phdrs, Zeros(SHENTSIZE), shdrs, strtab, data, Zeros(1)]
  }

  function Serialised(elf: Elf): seq<Byte>
    requires IndicesOk(elf)
  {
    Concat(Parts(PackEhdr(elf), PhdrTable(elf, |elf.headers|), ShdrTable(elf, |elf.segments|), PackShdr(StrtabShdr(elf)),
                 AllData(elf.segments)))
  }

  // ---- reading ----

  datatype Ehdr = Ehdr(phoff: nat, phentsize: nat, phnum: nat)

  datatype Result = Ok(segments: seq<Segment>) | Err

  function ReadEhdr(bytes: seq<Byte>): Option<Ehdr> {
    if |bytes| < EHSIZE || bytes[..4] != IDENT[..4] || bytes[4] != 2 || bytes[5] != 1 then None
    else Some(Ehdr(ReadLe(bytes, 32, 8), ReadLe(bytes, 54, 2), ReadLe(bytes, 56, 2)))
  }

  function ReadPhdr(bytes: seq<Byte>, at: nat): Phdr
    requires at + PHENTSIZE <= |bytes|
  {
    Phdr(ReadLe(bytes, at, 4), ReadLe(bytes, at + 4, 4), ReadLe(bytes, at + 8, 8), ReadLe(bytes, at + 16, 8),
         ReadLe(bytes, at + 24, 8), ReadLe(bytes, at + 32, 8), ReadLe(bytes, at + 40, 8), ReadLe(bytes, at + 48, 8))
  }

  function SegmentAt(bytes: seq<Byte>, p: Phdr): Option<Segment> {
    if p.filesz <= p.memsz && p.offset + p.filesz <= |bytes| then
      Some(Segment(RealData(bytes[p.offset..p.offset + p.filesz] + Zeros(p.memsz - p.filesz)),
                   p.paddr, p.vaddr, true, p.flags))
    else None
  }

  /** Where header i starts. The product is computed in 16 bits: it wraps around in release
      builds and is an error where overflow is checked. */
  function PhdrStart(bytes: seq<Byte>, h: Ehdr, i: nat, checked: bool): Option<nat> {
    var product := i * h.phentsize;
    if checked && (product >= 0x1_0000 || h.phoff + product >= WORD) then None
    else
      var start := (h.phoff + product % 0x1_0000) % WORD;
      if h.phentsize != PHENTSIZE || start + PHENTSIZE > |bytes| then None else Some(start)
  }

  function Prepend(s: seq<Segment>, r: Result): Result {
    match r
    case Err => Err
    case Ok(t) => Ok(s + t)
  }

  function ReadFrom(bytes: seq<Byte>, h: Ehdr, i: nat, checked: bool): Result
    decreases h.phnum - i
  {
    if i >= h.phnum then Ok([])
    else
      match PhdrStart(bytes, h, i, checked)
      case None => Err
      case Some(at) =>
        if at + PHENTSIZE > |bytes| then Err
        else
          var p := ReadPhdr(bytes, at);
          if checked && p.offset + p.filesz >= WORD then Err
          else if p.kind != PHENT_TYPE_LOADABLE then ReadFrom(bytes, h, i + 1, checked)
          else
            match SegmentAt(bytes, p)
            case None => Err
            case Some(seg) => Prepend([seg], ReadFrom(bytes, h, i + 1, checked))
  }

  /** The loadable segments of a file; Err stands for an error or a panic. */
  function Read(bytes: seq<Byte>, checked: bool): Result {
    match ReadEhdr(bytes)
    case None => Err
    case Some(h) => if h.phnum == 0 then Err else ReadFrom(bytes, h, 0, checked)
  }

  /** What reading the headers from i on gives. */
  ghost predicate IsRest(bytes: seq<Byte>, h: Ehdr, i: nat, checked: bool, r: Result) {
    match h
    case Ehdr(_, _, _) => r == ReadFrom(bytes, h, i, checked)
  }

  /** One turn of the reading loop: the segment that a loadable header describes. */
  method ReadHeader(bytes: seq<Byte>, h: Ehdr, i: nat, checked: bool, ghost rest: Result)
    returns (r: Result, ghost next: Result)
    requires i < h.phnum && IsRest(bytes, h, i, checked, rest)
    ensures IsRest(bytes, h, i + 1, checked, next)
    ensures rest == if r.Ok? then Prepend(r.segments, next) else Err
  {
    next := ReadFrom(bytes, h, i + 1, checked);
    var start := PhdrStart(bytes, h, i, checked);
    if start.None? {
      return Err, next;
    }
    ReadOne(bytes, h, i, start.value, checked);
    var phent := ReadPhdr(bytes, start.value);
    if checked && phent.offset + phent.filesz >= WORD {
      return Err, next;
    }
    if phent.kind != PHENT_TYPE_LOADABLE {
      PrependNothing(next);
      return Ok([]), next;
    }
    var seg := SegmentAt(bytes, phent);
    return if seg.Some? then Ok([seg.value]) else Err, next;
  }

  /** The loop over the program headers from the first given on. */
  method ReadHeaders(bytes: seq<Byte>, h: Ehdr, first: nat, checked: bool, ghost all: Result) returns (r: Result)
    requires first <= h.phnum && IsRest(bytes, h, first, checked, all)
    ensures r == all
  {
    var segments: seq<Segment> := [];
    var i := first;
    ghost var rest := all;
    PrependNothing(all);
    while i < h.phnum
      invariant first <= i <= h.phnum
      invariant IsRest(bytes, h, i, checked, rest) && Prepend(segments, rest) == all
    {
      var seg;
      ghost var next;
      seg, next := ReadHeader(bytes, h, i, checked, rest);
      if seg.Err? {
        return Err;
      }
      PrependTwice(segments, seg.segments, next, rest);
      segments, rest, i := segments + seg.segments, next, i + 1;
    }
    NoneLeft(bytes, h, i, checked, rest);
    return Ok(segments);
  }

  /** `segments`, in a build with or without overflow checks. */
  method ReadSegments(bytes: seq<Byte>, checked: bool) returns (r: Result)
    ensures r == Read(bytes, checked)
  {
    var h := ReadEhdr(bytes);
    if h.None? || h.value.phnum == 0 {
      return Err;
    }
    var first := 0;
    r := ReadHeaders(bytes, h.value, first, checked, ReadFrom(bytes, h.value, first, checked));
  }

  lemma NoneLeft(bytes: seq<Byte>, h: Ehdr, i: nat, checked: bool, rest: Result)
    requires i >= h.phnum && IsRest(bytes, h, i, checked, rest)
    ensures rest == Ok([])
  {
  }

  lemma PrependNothing(r: Result)
    ensures Prepend([], r) == r
  {
    if r.Ok? {
      assert [] + r.segments == r.segments;
    }
  }

  lemma ReadOne(bytes: seq<Byte>, h: Ehdr, i: nat, at: nat, checked: bool)
    requires i < h.phnum && PhdrStart(bytes, h, i, checked) == Some(at) && at + PHENTSIZE <= |bytes|
    ensures var p := ReadPhdr(bytes, at);
      ReadFrom(bytes, h, i, checked) ==
        if checked && p.offset + p.filesz >= WORD then Err
        else if p.kind != PHENT_TYPE_LOADABLE then ReadFrom(bytes, h, i + 1, checked)
        else
          match SegmentAt(bytes, p)
          case None => Err
          case Some(seg) => Prepend([seg], ReadFrom(bytes, h, i + 1, checked))
  {
  }

  lemma PrependTwice(s: seq<Segment>, t: seq<Segment>, r: Result, all: Result)
    requires all == Prepend(t, r)
    ensures Prepend(s + t, r) == Prepend(s, all)
  {
    if r.Ok? {
      assert s + (t + r.segments) == (s + t) + r.segments;
    }
  }

  // ---- the file under construction ----

  /** The segment that a loadable header names. */
  function Loaded(h: ProgramHeader): seq<nat> {
    if h.kind == PHENT_TYPE_LOADABLE then [h.segmentIdx] else []
  }

  /** Segments that the loadable headers name, in order. */
  function LoadOrder(headers: seq<ProgramHeader>): seq<nat> {
    if headers == [] then []
    else Loaded(headers[0]) + LoadOrder(headers[1..])
  }

  function UpTo(n: nat): seq<nat> {
    seq(n, i => i)
  }

  /** Every segment is loadable and the loadable headers list the segments in order. */
  ghost predicate InOrder(elf: Elf) {
    match elf
    case Elf(_, _, segments, headers) =>
      && IndicesOk(elf)
      && (forall i :: 0 <= i < |segments| ==> segments[i].loadable)
      && LoadOrder(headers) == UpTo(|segments|)
  }

  function Flags(read: bool, write: bool, execute: bool): nat {
    (if read then 4 else 0) + (if write then 2 else 0) + (if execute then 1 else 0)
  }

  class ElfFile {
    var entry: nat
    var machine: nat
    var segments: seq<Segment>
    var programHeaders: seq<ProgramHeader>

    /** An empty file. */
    constructor (entry: nat, machine: nat)
      ensures Value() == Elf(entry, machine, [], []) && InOrder(Value())
    {
      this.entry, this.machine, segments, programHeaders := entry, machine, [], [];
    }

    /** A file as read: one loadable header for each segment. */
    constructor FromSegments(entry: nat, machine: nat, read: seq<Segment>)
      requires forall i :: 0 <= i < |read| ==> read[i].loadable
      ensures Value().segments == read && InOrder(Value())
    {
      this.entry, this.machine, segments := entry, machine, read;
      var headers := seq(|read|, i requires 0 <= i < |read| => ProgramHeader(i, PHENT_TYPE_LOADABLE));
      OneToOneOrder(headers, |read|);
      programHeaders := headers;
    }

    function Value(): Elf
      reads this
    {
      Elf(entry, machine, segments, programHeaders)
    }

    /** Adds a segment and its header, and perhaps a second header of another type. */
    method AddSegment(read: bool, write: bool, execute: bool, vaddr: nat, data: Data, metaKind: Option<nat>)
      requires InOrder(Value()) && metaKind != Some(PHENT_TYPE_LOADABLE)
      modifies this
      ensures InOrder(Value())
      ensures segments == old(segments) + [Segment(data, vaddr, vaddr, true, Flags(read, write, execute))]
      ensures entry == old(entry) && machine == old(machine)
    {
      ghost var n := |segments|;
      segments := segments + [Segment(data, vaddr, vaddr, true, Flags(read, write, execute))];
      var header := ProgramHeader(|segments| - 1, PHENT_TYPE_LOADABLE);
      LoadOrderLast(programHeaders, header);
      programHeaders := programHeaders + [header];
      assert UpTo(n) + [n] == UpTo(n + 1);
      match metaKind
      case None =>
      case Some(kind) =>
        var second := ProgramHeader(|segments| - 1, kind);
        LoadOrderLast(programHeaders, second);
        programHeaders := programHeaders + [second];
    }

    /** `reserialise`: headers, then tables, then the data of the segments. */
    method Reserialise() returns (bytes: seq<Byte>)
      requires IndicesOk(Value())
      ensures bytes == Serialised(Value())
    {
      var elf := Value();
      var offsets, watermark := PlaceData(elf);
      var ehdr := PackEhdr(elf);
      var phdrs := WritePhdrs(elf, offsets);
      bytes := ehdr + phdrs;
      bytes := bytes + Zeros(SHENTSIZE);
      var shdrs := WriteShdrs(elf, offsets);
      bytes := bytes + shdrs;
      var strtabShdr := Shdr(3, 0, 0, watermark, 1);
      assert strtabShdr == StrtabShdr(elf);
      var strtab := PackShdr(strtabShdr);
      bytes := bytes + strtab;
      var data := WriteData(elf.segments);
      bytes := bytes + data;
      bytes := bytes + Zeros(1);
      SerialisedIs(elf, ehdr, phdrs, shdrs, strtab, data);
    }
  }

  lemma SerialisedIs(elf: Elf, e: seq<Byte>, t: seq<Byte>, s: seq<Byte>, r: seq<Byte>, d: seq<Byte>)
    requires IndicesOk(elf) && e == PackEhdr(elf) && t == PhdrTable(elf, |elf.headers|)
    requires s == ShdrTable(elf, |elf.segments|) && r == PackShdr(StrtabShdr(elf)) && d == AllData(elf.segments)
    ensures Serialised(elf) == e + t + Zeros(SHENTSIZE) + s + r + d + Zeros(1)
  {
    ConcatSeven(e, t, Zeros(SHENTSIZE), s, r, d, Zeros(1));
  }

  lemma ConcatThree(a: seq<Byte>, b: seq<Byte>, c: seq<Byte>)
    ensures Concat([a, b, c]) == a + b + c
  {
    ConcatLast([], a);
    ConcatLast([a], b);
    ConcatLast([a, b], c);
    assert [] + [a] == [a] && [a] + [b] == [a, b] && [a, b] + [c] == [a, b, c];
    assert [] + a == a;
  }

  lemma ConcatFive(a: seq<Byte>, b: seq<Byte>, c: seq<Byte>, d: seq<Byte>, e: seq<Byte>)
    ensures Concat([a, b, c, d, e]) == a + b + c + d + e
  {
    ConcatThree(a, b, c);
    ConcatLast([a, b, c], d);
    ConcatLast([a, b, c, d], e);
    assert [a, b, c] + [d] == [a, b, c, d] && [a, b, c, d] + [e] == [a, b, c, d, e];
  }

  lemma ConcatSeven(a: seq<Byte>, b: seq<Byte>, c: seq<Byte>, d: seq<Byte>, e: seq<Byte>, f: seq<Byte>, g: seq<Byte>)
    ensures Concat([a, b, c, d, e, f, g]) == a + b + c + d + e + f + g
  {
    ConcatFive(a, b, c, d, e);
    ConcatLast([a, b, c, d, e], f);
    ConcatLast([a, b, c, d, e, f], g);
    assert [a, b, c, d, e] + [f] == [a, b, c, d, e, f] && [a, b, c, d, e, f] + [g] == [a, b, c, d, e, f, g];
  }

  ghost predicate Offsets(elf: Elf, offsets: seq<nat>, n: nat) {
    && |offsets| == n <= |elf.segments|
    && forall k :: 0 <= k < n ==> offsets[k] == DataStart(elf) + FileSize(elf.segments[..k])
  }

  /** Works out where the data of each segment goes. */
  method PlaceData(elf: Elf) returns (offsets: seq<nat>, watermark: nat)
    ensures Offsets(elf, offsets, |elf.segments|) && watermark == DataStart(elf) + FileSize(elf.segments)
  {
    var segments := elf.segments;
    watermark := DataStart(elf);
    offsets := [];
    var i := 0;
    while i < |segments|
      invariant 0 <= i <= |segments| && Offsets(elf, offsets, i)
      invariant watermark == DataStart(elf) + FileSize(segments[..i])
    {
      offsets := offsets + [watermark];
      assert segments[..i + 1][..i] == segments[..i];
      watermark := watermark + |segments[i].FileBytes()|;
      i := i + 1;
    }
    assert segments[..i] == segments;
  }

  lemma OffsetOf(elf: Elf, offsets: seq<nat>, k: nat)
    requires IndicesOk(elf) && Offsets(elf, offsets, |elf.segments|) && k < |elf.headers|
    ensures offsets[elf.headers[k].segmentIdx] == PhdrFor(elf, k).offset
  {
  }

  lemma PhdrTableNext(elf: Elf, k: nat)
    requires IndicesOk(elf) && k < |elf.headers|
    ensures PhdrTable(elf, k + 1) == PhdrTable(elf, k) + PackPhdr(PhdrFor(elf, k))
  {
    var rows, next, row := PhdrRows(elf, k), PhdrRows(elf, k + 1), PackPhdr(PhdrFor(elf, k));
    RowsNext(rows, next, row);
  }

  lemma RowsNext(rows: seq<seq<Byte>>, next: seq<seq<Byte>>, row: seq<Byte>)
    requires |next| == |rows| + 1 && next[|rows|] == row
    requires forall i :: 0 <= i < |rows| ==> next[i] == rows[i]
    ensures Concat(next) == Concat(rows) + row
  {
    assert next == rows + [row];
    ConcatLast(rows, row);
  }

  lemma ShdrTableNext(elf: Elf, i: nat)
    requires i < |elf.segments|
    ensures ShdrTable(elf, i + 1) == ShdrTable(elf, i) + PackShdr(ShdrFor(elf, i))
  {
    var rows, next, row := ShdrRows(elf, i), ShdrRows(elf, i + 1), PackShdr(ShdrFor(elf, i));
    RowsNext(rows, next, row);
  }

  method MakePhdr(elf: Elf, offsets: seq<nat>, k: nat) returns (phdr: Phdr)
    requires IndicesOk(elf) && Offsets(elf, offsets, |elf.segments|) && k < |elf.headers|
    ensures phdr == PhdrFor(elf, k)
  {
    var idx := elf.headers[k].segmentIdx;
    var seg := elf.segments[idx];
    phdr := Phdr(elf.headers[k].kind, seg.attrs, 0, seg.virtAddr, seg.physAddr, |seg.FileBytes()|, seg.MemSize(), 0);
    phdr := phdr.(offset := offsets[idx]);
    OffsetOf(elf, offsets, k);
  }

  method WritePhdrs(elf: Elf, offsets: seq<nat>) returns (bytes: seq<Byte>)
    requires IndicesOk(elf) && Offsets(elf, offsets, |elf.segments|)
    ensures bytes == PhdrTable(elf, |elf.headers|)
  {
    bytes := [];
    var k := 0;
    while k < |elf.headers|
      invariant 0 <= k <= |elf.headers| && bytes == PhdrTable(elf, k)
    {
      var phdr := MakePhdr(elf, offsets, k);
      PhdrTableNext(elf, k);
      bytes := bytes + PackPhdr(phdr);
      k := k + 1;
    }
  }

  method WriteShdrs(elf: Elf, offsets: seq<nat>) returns (bytes: seq<Byte>)
    requires Offsets(elf, offsets, |elf.segments|)
    ensures bytes == ShdrTable(elf, |elf.segments|)
  {
    bytes := [];
    var i := 0;
    while i < |elf.segments|
      invariant 0 <= i <= |elf.segments| && bytes == ShdrTable(elf, i)
    {
      var seg := elf.segments[i];
      var shdr := Shdr(1, SectionFlags(seg), seg.physAddr, offsets[i], |seg.FileBytes()|);
      assert shdr == ShdrFor(elf, i);
      var row := PackShdr(shdr);
      ShdrTableNext(elf, i);
      bytes := bytes + row;
      i := i + 1;
    }
  }

  method WriteData(segments: seq<Segment>) returns (bytes: seq<Byte>)
    ensures bytes == AllData(segments)
  {
    bytes := [];
    var i := 0;
    while i < |segments|
      invariant 0 <= i <= |segments| && bytes == AllData(segments[..i])
    {
      if segments[i].data.RealData? {
        bytes := bytes + segments[i].data.bytes;
      }
      assert segments[..i + 1][..i] == segments[..i];
      i := i + 1;
    }
    assert segments[..i] == segments;
  }

  lemma TailOfAppended<T>(s: seq<T>, x: T)
    requires s != []
    ensures (s + [x])[0] == s[0] && (s + [x])[1..] == s[1..] + [x]
  {
  }

  lemma {:induction false} LoadOrderLast(headers: seq<ProgramHeader>, h: ProgramHeader)
    ensures LoadOrder(headers + [h]) == LoadOrder(headers) + Loaded(h)
    decreases |headers|
  {
    if headers == [] {
      assert [] + [h] == [h];
      assert [h][1..] == [];
    } else {
      var first, rest, last := Loaded(headers[0]), LoadOrder(headers[1..]), Loaded(h);
      LoadOrderLast(headers[1..], h);
      TailOfAppended(headers, h);
      assert LoadOrder(headers + [h]) == first + (rest + last);
      assert first + (rest + last) == (first + rest) + last;
    }
  }

  lemma {:induction false} OneToOneOrder(headers: seq<ProgramHeader>, n: nat)
    requires |headers| == n && forall i :: 0 <= i < n ==> headers[i] == ProgramHeader(i, PHENT_TYPE_LOADABLE)
    ensures LoadOrder(headers) == UpTo(n)
  {
    if n > 0 {
      OneToOneOrder(headers[..n - 1], n - 1);
      LoadOrderLast(headers[..n - 1], headers[n - 1]);
      assert headers == headers[..n - 1] + [headers[n - 1]];
      assert UpTo(n) == UpTo(n - 1) + [n - 1];
    }
  }

  // ---- reading what was written ----

  lemma {:induction false} HalfAt(hs: seq<nat>, k: nat)
    requires k < |hs|
    ensures |PackHalves(hs)| == 2 * |hs| && PackHalves(hs)[2 * k..2 * k + 2] == Le(hs[k], 2)
    decreases |hs|
  {
    LeLength(hs[0], 2);
    HalvesLength(hs[1..]);
    if k > 0 {
      HalfAt(hs[1..], k - 1);
      LastSlice(Le(hs[0], 2), PackHalves(hs[1..]), 2 * (k - 1), 2 * (k - 1) + 2);
    }
  }

  lemma {:induction false} HalvesLength(hs: seq<nat>)
    ensures |PackHalves(hs)| == 2 * |hs|
    decreases |hs|
  {
    if hs != [] {
      LeLength(hs[0], 2);
      HalvesLength(hs[1..]);
    }
  }

  /** The fields of the file header that the reader uses, in place. */
  lemma EhdrLayout(elf: Elf)
    ensures var e := PackEhdr(elf);
      && |e| == 64 && e[0..16] == IDENT
      && e[24..48] == PackWords(EhdrWords(elf)) && e[52..64] == PackHalves(EhdrHalves(elf))
  {
    var a, b := IDENT, Le(2, 2) + Le(elf.machine, 2) + Le(1, 4);
    var c, d, e := PackWords(EhdrWords(elf)), Le(0, 4), PackHalves(EhdrHalves(elf));
    LeLength(2, 2);
    LeLength(elf.machine, 2);
    LeLength(1, 4);
    LeLength(0, 4);
    WordsLength(EhdrWords(elf));
    HalvesLength(EhdrHalves(elf));
    ConcatFive(a, b, c, d, e);
    FiveParts(a, b, c, d, e);
  }

  lemma FiveParts(a: seq<Byte>, b: seq<Byte>, c: seq<Byte>, d: seq<Byte>, e: seq<Byte>)
    requires |a| == 16 && |b| == 8 && |c| == 24 && |d| == 4 && |e| == 12
    ensures var s := a + b + c + d + e; |s| == 64 && s[0..16] == a && s[24..48] == c && s[52..64] == e
  {
  }

  lemma EhdrNumbers(elf: Elf, bytes: seq<Byte>)
    requires |bytes| >= 64 && |elf.headers| < 0x1_0000
    requires bytes[24..48] == PackWords(EhdrWords(elf)) && bytes[52..64] == PackHalves(EhdrHalves(elf))
    ensures ReadLe(bytes, 32, 8) == 64 && ReadLe(bytes, 54, 2) == 56 && ReadLe(bytes, 56, 2) == |elf.headers|
  {
    EhdrWordsRead(elf, bytes);
    EhdrHalvesRead(elf, bytes);
  }

  lemma EhdrWordsRead(elf: Elf, bytes: seq<Byte>)
    requires |bytes| >= 64 && bytes[24..48] == PackWords(EhdrWords(elf))
    ensures ReadLe(bytes, 32, 8) == 64
  {
    SecondWord(bytes, 24, EhdrWords(elf));
  }

  lemma EhdrHalvesRead(elf: Elf, bytes: seq<Byte>)
    requires |bytes| >= 64 && |elf.headers| < 0x1_0000 && bytes[52..64] == PackHalves(EhdrHalves(elf))
    ensures ReadLe(bytes, 54, 2) == 56 && ReadLe(bytes, 56, 2) == |elf.headers|
  {
    MiddleHalves(bytes, 52, EhdrHalves(elf));
  }

  lemma SecondWord(bytes: seq<Byte>, at: nat, ws: seq<nat>)
    requires |ws| == 3 && ws[1] < WORD && at + 24 <= |bytes| && bytes[at..at + 24] == PackWords(ws)
    ensures ReadLe(bytes, at + 8, 8) == ws[1]
  {
    WordsLength(ws);
    ReadWordOf(bytes, at, ws, 1);
  }

  lemma MiddleHalves(bytes: seq<Byte>, at: nat, hs: seq<nat>)
    requires |hs| == 6 && hs[1] < 0x1_0000 && hs[2] < 0x1_0000
    requires at + 12 <= |bytes| && bytes[at..at + 12] == PackHalves(hs)
    ensures ReadLe(bytes, at + 2, 2) == hs[1] && ReadLe(bytes, at + 4, 2) == hs[2]
  {
    HalvesLength(hs);
    HalfRead(bytes, at, hs, 1);
    HalfRead(bytes, at, hs, 2);
  }

  /** The file header found at the start of a longer file. */
  lemma EhdrRead(elf: Elf, bytes: seq<Byte>)
    requires |bytes| >= 64 && bytes[0..64] == PackEhdr(elf) && |elf.headers| < 0x1_0000
    ensures ReadEhdr(bytes) == Some(Ehdr(64, 56, |elf.headers|))
  {
    EhdrLayout(elf);
    var e := PackEhdr(elf);
    SubSlice(bytes, 0, e, 0, 16);
    SubSlice(bytes, 0, e, 24, 48);
    SubSlice(bytes, 0, e, 52, 64);
    EhdrNumbers(elf, bytes);
    Identified(bytes);
  }

  lemma Identified(bytes: seq<Byte>)
    requires |bytes| >= 16 && bytes[0..16] == IDENT
    ensures bytes[..4] == IDENT[..4] && bytes[4] == 2 && bytes[5] == 1
  {
    assert forall k :: 0 <= k < 16 ==> bytes[k] == bytes[0..16][k];
  }

  lemma HalfRead(s: seq<Byte>, at: nat, hs: seq<nat>, k: nat)
    requires at + |PackHalves(hs)| <= |s| && s[at..at + |PackHalves(hs)|] == PackHalves(hs)
    requires k < |hs| && hs[k] < 0x1_0000
    ensures at + 2 * k + 2 <= |s| && ReadLe(s, at + 2 * k, 2) == hs[k]
  {
    HalfAt(hs, k);
    var i := 2 * k;
    SubSlice(s, at, PackHalves(hs), i, i + 2);
    Fits2(hs[k]);
    ReadBack(s, at + i, 2, hs[k]);
  }

  predicate PhdrFits(p: Phdr) {
    && p.kind < 0x1_0000_0000 && p.flags < 0x1_0000_0000
    && p.offset < WORD && p.vaddr < WORD && p.paddr < WORD && p.filesz < WORD && p.memsz < WORD && p.align < WORD
  }

  lemma PhdrLayout(p: Phdr)
    ensures var s := PackPhdr(p);
      |s| == 56 && s[0..4] == Le(p.kind, 4) && s[4..8] == Le(p.flags, 4) && s[8..56] == PackWords(PhdrWords(p))
  {
    LeLength(p.kind, 4);
    LeLength(p.flags, 4);
    WordsLength(PhdrWords(p));
  }

  /** A program header reads back as it was packed. */
  lemma PhdrRead(p: Phdr, bytes: seq<Byte>, at: nat)
    requires PhdrFits(p) && at + 56 <= |bytes| && bytes[at..at + 56] == PackPhdr(p)
    ensures ReadPhdr(bytes, at) == p
  {
    PhdrLayout(p);
    var s, ws := PackPhdr(p), PhdrWords(p);
    SubSlice(bytes, at, s, 0, 4);
    SubSlice(bytes, at, s, 4, 8);
    SubSlice(bytes, at, s, 8, 56);
    Fits4(p.kind);
    Fits4(p.flags);
    ReadBack(bytes, at, 4, p.kind);
    ReadBack(bytes, at + 4, 4, p.flags);
    WordsLength(ws);
    PhdrWordsRead(p, bytes, at + 8);
  }

  lemma PhdrWordsRead(p: Phdr, bytes: seq<Byte>, at: nat)
    requires PhdrFits(p) && at + 48 <= |bytes| && bytes[at..at + 48] == PackWords(PhdrWords(p))
    ensures ReadLe(bytes, at, 8) == p.offset && ReadLe(bytes, at + 8, 8) == p.vaddr
    ensures ReadLe(bytes, at + 16, 8) == p.paddr && ReadLe(bytes, at + 24, 8) == p.filesz
    ensures ReadLe(bytes, at + 32, 8) == p.memsz && ReadLe(bytes, at + 40, 8) == p.align
  {
    var ws := PhdrWords(p);
    WordsLength(ws);
    ReadWordOf(bytes, at, ws, 0);
    ReadWordOf(bytes, at, ws, 1);
    ReadWordOf(bytes, at, ws, 2);
    ReadWordOf(bytes, at, ws, 3);
    ReadWordOf(bytes, at, ws, 4);
    ReadWordOf(bytes, at, ws, 5);
  }

  /** All rows of a table are of one size. */
  predicate RowsOf(rows: seq<seq<Byte>>, size: nat) {
    forall i :: 0 <= i < |rows| ==> |rows[i]| == size
  }

  lemma {:induction false} ConcatLength(rows: seq<seq<Byte>>, size: nat)
    requires RowsOf(rows, size)
    ensures |Concat(rows)| == size * |rows|
    decreases |rows|
  {
    if rows != [] {
      ConcatLength(rows[..|rows| - 1], size);
      OneMore(size, |rows|);
    }
  }

  lemma OneMore(size: nat, n: nat)
    requires n > 0
    ensures size * (n - 1) + size == size * n
  {
  }

  /** Row k of a table of program headers. */
  function RowOf(table: seq<Byte>, k: nat): Option<seq<Byte>> {
    if 56 * k + 56 <= |table| then Some(table[56 * k..56 * k + 56]) else None
  }

  lemma {:induction false} ConcatRow(rows: seq<seq<Byte>>, k: nat)
    requires RowsOf(rows, 56) && k < |rows|
    ensures RowOf(Concat(rows), k) == Some(rows[k])
    decreases |rows|
  {
    var before, m := rows[..|rows| - 1], |rows| - 1;
    ConcatLength(before, 56);
    if k < m {
      ConcatRow(before, k);
      RowStays(Concat(before), rows[m], k);
    } else {
      LastRow(Concat(before), k, rows[m]);
    }
  }

  lemma RowStays(table: seq<Byte>, row: seq<Byte>, k: nat)
    requires RowOf(table, k).Some?
    ensures RowOf(table + row, k) == RowOf(table, k)
  {
    var i := 56 * k;
    assert (table + row)[i..i + 56] == table[i..i + 56];
  }

  lemma LastRow(table: seq<Byte>, n: nat, row: seq<Byte>)
    requires |table| == 56 * n && |row| == 56
    ensures RowOf(table + row, n) == Some(row)
  {
    LastSlice(table, row, 0, 56);
    assert row[0..56] == row;
  }

  lemma PhdrRowsSize(elf: Elf, n: nat)
    requires IndicesOk(elf) && n <= |elf.headers|
    ensures RowsOf(PhdrRows(elf, n), 56)
  {
    forall i | 0 <= i < n
      ensures |PhdrRows(elf, n)[i]| == 56
    {
      PhdrLayout(PhdrFor(elf, i));
    }
  }

  lemma PhdrTableLength(elf: Elf, n: nat)
    requires IndicesOk(elf) && n <= |elf.headers|
    ensures |PhdrTable(elf, n)| == 56 * n
  {
    PhdrRowsSize(elf, n);
    ConcatLength(PhdrRows(elf, n), 56);
  }

  lemma PhdrTableLayout(elf: Elf, n: nat, k: nat)
    requires IndicesOk(elf) && k < n <= |elf.headers|
    ensures RowOf(PhdrTable(elf, n), k) == Some(PackPhdr(PhdrFor(elf, k)))
  {
    PhdrRowsSize(elf, n);
    ConcatRow(PhdrRows(elf, n), k);
  }

  lemma ShdrLength(s: Shdr)
    ensures |PackShdr(s)| == 64
  {
    LeLength(0, 4);
    LeLength(s.kind, 4);
    WordsLength([s.flags, s.addr, s.offset, s.size]);
    WordsLength([0, 0]);
    ConcatFive(Le(0, 4), Le(s.kind, 4), PackWords([s.flags, s.addr, s.offset, s.size]), Le(0, 4) + Le(0, 4), PackWords([0, 0]));
  }

  lemma ShdrTableLength(elf: Elf, n: nat)
    requires n <= |elf.segments|
    ensures |ShdrTable(elf, n)| == 64 * n
  {
    forall i | 0 <= i < n
      ensures |ShdrRows(elf, n)[i]| == 64
    {
      ShdrLength(ShdrFor(elf, i));
    }
    ConcatLength(ShdrRows(elf, n), 64);
  }

  lemma {:induction false} DataLength(segs: seq<Segment>)
    ensures |AllData(segs)| == FileSize(segs)
    decreases |segs|
  {
    if segs != [] {
      DataLength(segs[..|segs| - 1]);
    }
  }

  lemma {:induction false} DataLayout(segs: seq<Segment>, i: nat)
    requires i < |segs|
    ensures var at, size := FileSize(segs[..i]), |segs[i].FileBytes()|;
      at + size <= |AllData(segs)| == FileSize(segs) && AllData(segs)[at..at + size] == segs[i].FileBytes()
    decreases |segs|
  {
    var init := segs[..|segs| - 1];
    var all, last := AllData(init), segs[|segs| - 1].FileBytes();
    DataLength(init);
    DataLength(segs);
    if i < |init| {
      DataLayout(init, i);
      assert init[..i] == segs[..i];
      var at, size := FileSize(segs[..i]), |segs[i].FileBytes()|;
      FirstSlice(all, last, at, at + size);
    } else {
      assert segs[..i] == init;
      LastSlice(all, last, 0, |last|);
      WholeSlice(last);
    }
  }

  lemma FirstSlice(a: seq<Byte>, b: seq<Byte>, x: nat, y: nat)
    requires x <= y <= |a|
    ensures (a + b)[x..y] == a[x..y]
  {
  }

  lemma WholeSlice(a: seq<Byte>)
    ensures a[0..|a|] == a
  {
  }

  ghost predicate PhdrsThere(elf: Elf, bytes: seq<Byte>)
    requires IndicesOk(elf)
  {
    64 + 56 * |elf.headers| <= |bytes| && bytes[64..64 + 56 * |elf.headers|] == PhdrTable(elf, |elf.headers|)
  }

  ghost predicate DataThere(segs: seq<Segment>, bytes: seq<Byte>, start: nat) {
    start + FileSize(segs) <= |bytes| && bytes[start..start + FileSize(segs)] == AllData(segs)
  }

  /** File header, program headers and data, with the ends of the headers and the start of
      the data. */
  datatype Layout = Layout(e: seq<Byte>, t: seq<Byte>, d: seq<Byte>, m: nat, start: nat)

  ghost predicate Placed(bytes: seq<Byte>, l: Layout) {
    match l
    case Layout(e, t, d, m, start) =>
      && 64 <= m <= start && start + |d| <= |bytes|
      && bytes[0..64] == e && bytes[64..m] == t && bytes[start..start + |d|] == d
  }

  /** The parts lie one behind the other. */
  lemma JoinLayout(e: seq<Byte>, t: seq<Byte>, s: seq<Byte>, r: seq<Byte>, d: seq<Byte>, m: nat, start: nat)
    requires |e| == 64 && 64 + |t| == m && m + SHENTSIZE + |s| + |r| == start
    ensures Placed(Concat(Parts(e, t, s, r, d)), Layout(e, t, d, m, start))
  {
    var z, o := Zeros(SHENTSIZE), Zeros(1);
    ConcatSeven(e, t, z, s, r, d, o);
    var tail := z + s + r + d + o;
    assert e + t + z + s + r + d + o == e + t + tail;
    MiddleSlice(e, t, tail, 0, |t|);
    MiddleSlice(e + t + z + s + r, d, o, 0, |d|);
  }

  lemma PartLengths(elf: Elf)
    requires IndicesOk(elf)
    ensures |PhdrTable(elf, |elf.headers|)| == 56 * |elf.headers|
    ensures 64 + 56 * |elf.headers| + SHENTSIZE + |ShdrTable(elf, |elf.segments|)| + SHENTSIZE == DataStart(elf)
    ensures |AllData(elf.segments)| == FileSize(elf.segments)
  {
    PhdrTableLength(elf, |elf.headers|);
    ShdrTableLength(elf, |elf.segments|);
    DataLength(elf.segments);
  }

  /** What parts in their places mean for the tables and the data. */
  lemma PlacedTables(elf: Elf, bytes: seq<Byte>, e: seq<Byte>, t: seq<Byte>, d: seq<Byte>)
    requires IndicesOk(elf) && t == PhdrTable(elf, |elf.headers|) && d == AllData(elf.segments)
    requires |t| == 56 * |elf.headers| && |d| == FileSize(elf.segments)
    requires Placed(bytes, Layout(e, t, d, 64 + 56 * |elf.headers|, DataStart(elf)))
    ensures PhdrsThere(elf, bytes) && DataThere(elf.segments, bytes, DataStart(elf))
  {
  }

  /** Each part lies where the headers say it does. */
  lemma SerialisedLayout(elf: Elf, e: seq<Byte>, t: seq<Byte>, s: seq<Byte>, r: seq<Byte>, d: seq<Byte>, start: nat)
    requires |e| == 64 && |r| == SHENTSIZE && |t| == 56 * |elf.headers|
    requires 64 + 56 * |elf.headers| + SHENTSIZE + |s| + SHENTSIZE == start
    ensures Placed(Concat(Parts(e, t, s, r, d)), Layout(e, t, d, 64 + 56 * |elf.headers|, start))
  {
    JoinLayout(e, t, s, r, d, 64 + 56 * |elf.headers|, start);
  }

  lemma HeaderInFile(elf: Elf, bytes: seq<Byte>, k: nat)
    requires IndicesOk(elf) && PhdrsThere(elf, bytes) && k < |elf.headers|
    ensures 64 + 56 * k + 56 <= |bytes|
    ensures bytes[64 + 56 * k..64 + 56 * k + 56] == PackPhdr(PhdrFor(elf, k))
  {
    PhdrTableLayout(elf, |elf.headers|, k);
    RowInFile(bytes, PhdrTable(elf, |elf.headers|), k, PhdrFor(elf, k));
  }

  lemma RowInFile(bytes: seq<Byte>, table: seq<Byte>, k: nat, p: Phdr)
    requires RowOf(table, k) == Some(PackPhdr(p)) && 64 + |table| <= |bytes| && bytes[64..64 + |table|] == table
    ensures 64 + 56 * k + 56 <= |bytes| && bytes[64 + 56 * k..64 + 56 * k + 56] == PackPhdr(p)
  {
    SubSlice(bytes, 64, table, 56 * k, 56 * k + 56);
  }

  lemma DataInFile(segs: seq<Segment>, bytes: seq<Byte>, start: nat, i: nat)
    requires DataThere(segs, bytes, start) && i < |segs|
    ensures var at, size := start + FileSize(segs[..i]), |segs[i].FileBytes()|;
      at + size <= |bytes| && bytes[at..at + size] == segs[i].FileBytes()
  {
    DataLayout(segs, i);
    var from, size, all := FileSize(segs[..i]), |segs[i].FileBytes()|, AllData(segs);
    assert start + |all| <= |bytes| && bytes[start..start + |all|] == all;
    var to := from + size;
    SubSlice(bytes, start, all, from, to);
    assert start + to == start + from + size;
  }

  /** What a written segment reads as: uninitialised memory becomes zeros. */
  function AsRead(seg: Segment): Segment {
    match seg.data
    case RealData(_) => seg
    case UninitialisedData(size) => seg.(data := RealData(Zeros(size)))
  }

  function AllAsRead(segs: seq<Segment>): seq<Segment> {
    seq(|segs|, i requires 0 <= i < |segs| => AsRead(segs[i]))
  }

  /** All numbers fit the fields of the format. */
  ghost predicate FieldsFit(elf: Elf) {
    match elf
    case Elf(_, _, segments, headers) =>
      && (forall i :: 0 <= i < |segments| ==>
           && segments[i].virtAddr < WORD && segments[i].physAddr < WORD
           && segments[i].MemSize() < WORD && segments[i].attrs < 0x1_0000_0000)
      && (forall k :: 0 <= k < |headers| ==> headers[k].kind < 0x1_0000_0000)
      && DataStart(elf) + FileSize(segments) < WORD
  }

  lemma PhdrForFits(elf: Elf, k: nat)
    requires InOrder(elf) && FieldsFit(elf) && k < |elf.headers|
    ensures PhdrFits(PhdrFor(elf, k)) && PhdrFor(elf, k).offset + PhdrFor(elf, k).filesz < WORD
  {
    var i := elf.headers[k].segmentIdx;
    DataLayout(elf.segments, i);
  }

  /** Reading header k finds the header, and through it the segment's data. */
  ghost predicate SegmentReads(elf: Elf, bytes: seq<Byte>, k: nat)
    requires IndicesOk(elf) && k < |elf.headers|
  {
    match elf
    case Elf(_, _, segments, headers) =>
      && 64 + 56 * k + 56 <= |bytes|
      && ReadPhdr(bytes, 64 + 56 * k) == PhdrFor(elf, k)
      && PhdrFor(elf, k).offset + PhdrFor(elf, k).filesz < WORD
      && SegmentAt(bytes, PhdrFor(elf, k)) == Some(AsRead(segments[headers[k].segmentIdx]))
  }

  lemma SegmentRead(elf: Elf, bytes: seq<Byte>, k: nat)
    requires InOrder(elf) && FieldsFit(elf) && k < |elf.headers|
    requires PhdrsThere(elf, bytes) && DataThere(elf.segments, bytes, DataStart(elf))
    ensures SegmentReads(elf, bytes, k)
  {
    PhdrForFits(elf, k);
    HeaderRead(elf, bytes, k);
    DataRead(elf, bytes, k);
  }

  lemma HeaderRead(elf: Elf, bytes: seq<Byte>, k: nat)
    requires IndicesOk(elf) && PhdrsThere(elf, bytes) && k < |elf.headers| && PhdrFits(PhdrFor(elf, k))
    ensures 64 + 56 * k + 56 <= |bytes| && ReadPhdr(bytes, 64 + 56 * k) == PhdrFor(elf, k)
  {
    HeaderInFile(elf, bytes, k);
    PhdrRead(PhdrFor(elf, k), bytes, 64 + 56 * k);
  }

  lemma DataRead(elf: Elf, bytes: seq<Byte>, k: nat)
    requires IndicesOk(elf) && k < |elf.headers| && DataThere(elf.segments, bytes, DataStart(elf))
    requires elf.segments[elf.headers[k].segmentIdx].loadable
    ensures SegmentAt(bytes, PhdrFor(elf, k)) == Some(AsRead(elf.segments[elf.headers[k].segmentIdx]))
  {
    var seg := elf.segments[elf.headers[k].segmentIdx];
    DataInFile(elf.segments, bytes, DataStart(elf), elf.headers[k].segmentIdx);
    match seg.data
    case RealData(data) =>
      assert data + Zeros(0) == data;
    case UninitialisedData(size) =>
      assert [] + Zeros(size) == Zeros(size);
  }

  /** The segments of the loadable headers from k up to m, as read. */
  function Rest(elf: Elf, k: nat, m: nat): seq<Segment>
    requires IndicesOk(elf) && k <= m <= |elf.headers|
    decreases m - k
  {
    if k == m then []
    else
      (if elf.headers[k].kind == PHENT_TYPE_LOADABLE then [AsRead(elf.segments[elf.headers[k].segmentIdx])] else [])
      + Rest(elf, k + 1, m)
  }

  /** Headers whose offset fits 16 bits. */
  const REACHABLE: nat := 1171

  function Reached(n: nat): nat {
    if n < REACHABLE then n else REACHABLE
  }

  lemma HeaderStart(bytes: seq<Byte>, h: Ehdr, k: nat, checked: bool)
    requires h.phoff == 64 && h.phentsize == 56 && k < REACHABLE && 64 + 56 * k + 56 <= |bytes|
    ensures PhdrStart(bytes, h, k, checked) == Some(64 + 56 * k)
  {
  }

  /** The first m headers give their segments, whatever the later ones give. */
  lemma {:induction false} ReadsRest(elf: Elf, bytes: seq<Byte>, k: nat, m: nat, checked: bool, tail: Result)
    requires IndicesOk(elf) && k <= m <= |elf.headers| && m <= REACHABLE
    requires forall j: nat :: j < |elf.headers| ==> SegmentReads(elf, bytes, j)
    requires IsRest(bytes, Ehdr(64, 56, |elf.headers|), m, checked, tail)
    ensures IsRest(bytes, Ehdr(64, 56, |elf.headers|), k, checked, Prepend(Rest(elf, k, m), tail))
    decreases m - k
  {
    if k < m {
      var h := Ehdr(64, 56, |elf.headers|);
      ReadsRest(elf, bytes, k + 1, m, checked, tail);
      assert SegmentReads(elf, bytes, k);
      HeaderStart(bytes, h, k, checked);
      ReadStep(elf, bytes, h, k, m, checked, tail);
    } else {
      PrependNothing(tail);
    }
  }

  lemma ReadStep(elf: Elf, bytes: seq<Byte>, h: Ehdr, k: nat, m: nat, checked: bool, tail: Result)
    requires IndicesOk(elf) && k < m <= |elf.headers| == h.phnum && SegmentReads(elf, bytes, k)
    requires PhdrStart(bytes, h, k, checked) == Some(64 + 56 * k)
    requires IsRest(bytes, h, k + 1, checked, Prepend(Rest(elf, k + 1, m), tail))
    ensures IsRest(bytes, h, k, checked, Prepend(Rest(elf, k, m), tail))
  {
    var rest := Rest(elf, k + 1, m);
    ReadOne(bytes, h, k, 64 + 56 * k, checked);
    if elf.headers[k].kind == PHENT_TYPE_LOADABLE {
      PrependTwice([AsRead(elf.segments[elf.headers[k].segmentIdx])], rest, tail, Prepend(rest, tail));
    } else {
      assert Rest(elf, k, m) == [] + rest == rest;
    }
  }

  /** The named segments, as read. */
  function Picked(elf: Elf, order: seq<nat>): seq<Segment> {
    if order == [] then []
    else
      [if order[0] < |elf.segments| then AsRead(elf.segments[order[0]]) else Segment(RealData([]), 0, 0, false, 0)]
      + Picked(elf, order[1..])
  }

  lemma {:induction false} RestOfOrder(elf: Elf, k: nat)
    requires IndicesOk(elf) && k <= |elf.headers|
    ensures Rest(elf, k, |elf.headers|) == Picked(elf, LoadOrder(elf.headers[k..]))
    decreases |elf.headers| - k
  {
    if k < |elf.headers| {
      var h, order, rest := elf.headers[k], LoadOrder(elf.headers[k + 1..]), Rest(elf, k + 1, |elf.headers|);
      RestOfOrder(elf, k + 1);
      assert elf.headers[k..][0] == h && elf.headers[k..][1..] == elf.headers[k + 1..];
      if h.kind == PHENT_TYPE_LOADABLE {
        assert LoadOrder(elf.headers[k..]) == [h.segmentIdx] + order;
        assert ([h.segmentIdx] + order)[1..] == order;
      } else {
        assert LoadOrder(elf.headers[k..]) == [] + order == order;
        assert [] + rest == rest;
      }
    }
  }

  lemma {:induction false} PickedInOrder(elf: Elf, i: nat)
    requires i <= |elf.segments|
    ensures Picked(elf, UpTo(|elf.segments|)[i..]) == AllAsRead(elf.segments)[i..]
    decreases |elf.segments| - i
  {
    if i < |elf.segments| {
      var order := UpTo(|elf.segments|)[i..];
      assert order[0] == i && order[1..] == UpTo(|elf.segments|)[i + 1..];
      PickedInOrder(elf, i + 1);
      assert AllAsRead(elf.segments)[i..] == [AsRead(elf.segments[i])] + AllAsRead(elf.segments)[i + 1..];
    }
  }

  lemma OrderIsAll(elf: Elf)
    requires InOrder(elf)
    ensures Rest(elf, 0, |elf.headers|) == AllAsRead(elf.segments)
  {
    RestOfOrder(elf, 0);
    PickedInOrder(elf, 0);
    assert elf.headers[0..] == elf.headers;
    assert UpTo(|elf.segments|)[0..] == UpTo(|elf.segments|);
    assert AllAsRead(elf.segments)[0..] == AllAsRead(elf.segments);
  }

  /** With overflow checks, a header whose offset overflows 16 bits stops the reader. */
  lemma {:induction false} TooManyHeaders(bytes: seq<Byte>, h: Ehdr, i: nat)
    requires h.phentsize == 56 && h.phnum > REACHABLE && i <= REACHABLE
    ensures ReadFrom(bytes, h, i, true) == Err
    decreases REACHABLE - i
  {
    if i < REACHABLE {
      TooManyHeaders(bytes, h, i + 1);
    }
  }

  // ---- what release builds read beyond the reachable headers ----

  /** The type field that is found where header i is looked for. */
  function WrappedKind(bytes: seq<Byte>, i: nat): nat {
    var at := 64 + (56 * i) % 0x1_0000;
    if at + 4 <= |bytes| then ReadLe(bytes, at, 4) else 0
  }

  /** Nothing that is found in place of the unreachable headers looks loadable. */
  predicate NoStrayHeader(bytes: seq<Byte>, n: nat) {
    forall i: nat :: REACHABLE <= i < n ==> WrappedKind(bytes, i) != PHENT_TYPE_LOADABLE
  }

  /** What is read in their place is nothing exactly when none of them looks loadable. */
  lemma {:induction false} StraysAreSeen(bytes: seq<Byte>, h: Ehdr, i: nat, r: Result)
    requires h.phoff == 64 && h.phentsize == 56 && REACHABLE <= i <= h.phnum && 64 + 56 * h.phnum <= |bytes|
    requires IsRest(bytes, h, i, false, r)
    ensures r == Ok([]) <==> forall j: nat :: i <= j < h.phnum ==> WrappedKind(bytes, j) != PHENT_TYPE_LOADABLE
    decreases h.phnum - i
  {
    if i < h.phnum {
      var next := ReadFrom(bytes, h, i + 1, false);
      StraysAreSeen(bytes, h, i + 1, next);
      StrayStep(bytes, h, i, r, next);
    }
  }

  lemma StrayStep(bytes: seq<Byte>, h: Ehdr, i: nat, r: Result, next: Result)
    requires h.phoff == 64 && h.phentsize == 56 && REACHABLE <= i < h.phnum && 64 + 56 * h.phnum <= |bytes|
    requires IsRest(bytes, h, i, false, r) && IsRest(bytes, h, i + 1, false, next)
    ensures r == Ok([]) <==> WrappedKind(bytes, i) != PHENT_TYPE_LOADABLE && next == Ok([])
  {
    WrappedStart(bytes, h, i);
    ReadOne(bytes, h, i, 64 + (56 * i) % 0x1_0000, false);
  }

  lemma WrappedStart(bytes: seq<Byte>, h: Ehdr, i: nat)
    requires h.phoff == 64 && h.phentsize == 56 && REACHABLE <= i < h.phnum && 64 + 56 * h.phnum <= |bytes|
    ensures PhdrStart(bytes, h, i, false) == Some(64 + (56 * i) % 0x1_0000)
    ensures 64 + (56 * i) % 0x1_0000 + 56 <= |bytes|
  {
  }

  lemma {:induction false} RestSplits(elf: Elf, k: nat, m: nat)
    requires IndicesOk(elf) && k <= m <= |elf.headers|
    ensures Rest(elf, k, |elf.headers|) == Rest(elf, k, m) + Rest(elf, m, |elf.headers|)
    decreases m - k
  {
    if k < m {
      RestSplits(elf, k + 1, m);
    }
  }

  lemma {:induction false} RestEmpty(elf: Elf, m: nat)
    requires IndicesOk(elf) && m <= |elf.headers|
    ensures Rest(elf, m, |elf.headers|) == [] <==>
      forall k :: m <= k < |elf.headers| ==> elf.headers[k].kind != PHENT_TYPE_LOADABLE
    decreases |elf.headers| - m
  {
    if m < |elf.headers| {
      RestEmpty(elf, m + 1);
    }
  }

  lemma HoldingReads(elf: Elf, bytes: seq<Byte>, checked: bool)
    requires InOrder(elf) && |elf.headers| < 0x1_0000 && 64 + 56 * |elf.headers| <= |bytes|
    requires ReadEhdr(bytes) == Some(Ehdr(64, 56, |elf.headers|))
    requires forall j: nat :: j < |elf.headers| ==> SegmentReads(elf, bytes, j)
    ensures ReadsAs(elf, bytes, checked)
  {
    var n, h := |elf.headers|, Ehdr(64, 56, |elf.headers|);
    var m := Reached(n);
    OrderIsAll(elf);
    if n > REACHABLE && checked {
      TooManyHeaders(bytes, h, 0);
    } else if n > 0 {
      var tail := ReadFrom(bytes, h, m, checked);
      ReadsRest(elf, bytes, 0, m, checked, tail);
      PrependTail(Rest(elf, 0, m), tail);
      if n > REACHABLE {
        StraysAreSeen(bytes, h, m, tail);
        RestSplits(elf, 0, m);
        RestEmpty(elf, m);
      }
    }
  }

  lemma PrependTail(s: seq<Segment>, r: Result)
    ensures Prepend(s, r) == Ok(s) <==> r == Ok([])
  {
    if r.Ok? {
      assert s + r.segments == s <==> r.segments == [] by {
        assert |s + r.segments| == |s| + |r.segments|;
      }
    }
  }

  lemma LayoutReads(elf: Elf, bytes: seq<Byte>, checked: bool)
    requires InOrder(elf) && FieldsFit(elf) && |elf.headers| < 0x1_0000
    requires ReadEhdr(bytes) == Some(Ehdr(64, 56, |elf.headers|))
    requires PhdrsThere(elf, bytes) && DataThere(elf.segments, bytes, DataStart(elf))
    ensures ReadsAs(elf, bytes, checked)
  {
    forall k: nat | k < |elf.headers|
      ensures SegmentReads(elf, bytes, k)
    {
      SegmentRead(elf, bytes, k);
    }
    HoldingReads(elf, bytes, checked);
  }

  lemma FileParts(elf: Elf, bytes: seq<Byte>)
    requires IndicesOk(elf) && |elf.headers| < 0x1_0000 && bytes == Serialised(elf)
    ensures ReadEhdr(bytes) == Some(Ehdr(64, 56, |elf.headers|))
    ensures PhdrsThere(elf, bytes) && DataThere(elf.segments, bytes, DataStart(elf))
  {
    var e, r := PackEhdr(elf), PackShdr(StrtabShdr(elf));
    var t, s, d := PhdrTable(elf, |elf.headers|), ShdrTable(elf, |elf.segments|), AllData(elf.segments);
    EhdrLayout(elf);
    ShdrLength(StrtabShdr(elf));
    PartLengths(elf);
    SerialisedLayout(elf, e, t, s, r, d, DataStart(elf));
    PlacedTables(elf, bytes, e, t, d);
    EhdrRead(elf, bytes);
  }

  /** What reading gives back, by the number of program headers. */
  ghost predicate ReadsAs(elf: Elf, bytes: seq<Byte>, checked: bool)
    requires IndicesOk(elf)
  {
    var n, all := |elf.headers|, AllAsRead(elf.segments);
    && (n == 0 ==> Read(bytes, checked) == Err)
    && (1 <= n <= REACHABLE ==> Read(bytes, checked) == Ok(all))
    && (n > REACHABLE && checked ==> Read(bytes, checked) == Err)
    && (n > REACHABLE && !checked ==>
         && (Read(bytes, checked) == Ok(Rest(elf, 0, Reached(n))) <==> NoStrayHeader(bytes, n))
         && (NoStrayHeader(bytes, n) ==>
              (Read(bytes, checked) == Ok(all) <==>
                forall k :: REACHABLE <= k < n ==> elf.headers[k].kind != PHENT_TYPE_LOADABLE)))
  }

  /** Writing a file and reading it gives back its segments: addresses, flags and data, with
      uninitialised memory as zeros, for 1 to 1171 program headers. With more of them, an
      overflow check stops the reader; without the check it gives back the segments of the
      first 1171 headers exactly when nothing found in place of the others looks loadable, and
      then these are all of them exactly when no later header is loadable. */
  lemma RoundTrip(elf: Elf, bytes: seq<Byte>, checked: bool)
    requires InOrder(elf) && FieldsFit(elf) && |elf.headers| < 0x1_0000 && bytes == Serialised(elf)
    ensures ReadsAs(elf, bytes, checked)
  {
    FileParts(elf, bytes);
    LayoutReads(elf, bytes, checked);
  }

  /** The header behind the reachable ones is read out of an earlier one's size. */
  lemma WrappedMemSize(elf: Elf, bytes: seq<Byte>, j: nat)
    requires IndicesOk(elf) && j + REACHABLE < |elf.headers| <= 2 * REACHABLE - 1
    requires 64 + 56 * |elf.headers| <= |bytes| && SegmentReads(elf, bytes, j)
    ensures WrappedKind(bytes, j + REACHABLE) == elf.segments[elf.headers[j].segmentIdx].MemSize() % 0x1_0000_0000
  {
    MemSizeAt(elf, bytes, j);
    WrappedWord(bytes, j);
  }

  lemma MemSizeAt(elf: Elf, bytes: seq<Byte>, j: nat)
    requires IndicesOk(elf) && j < |elf.headers| && SegmentReads(elf, bytes, j)
    ensures ReadLe(bytes, 64 + 56 * j + 40, 8) == elf.segments[elf.headers[j].segmentIdx].MemSize()
  {
  }

  lemma WrappedWord(bytes: seq<Byte>, j: nat)
    requires j + REACHABLE < 2 * REACHABLE - 1 && 64 + 56 * j + 48 <= |bytes|
    ensures WrappedKind(bytes, j + REACHABLE) == ReadLe(bytes, 64 + 56 * j + 40, 8) % 0x1_0000_0000
  {
    WrapsOnce(j + REACHABLE);
    LowHalf(bytes, 64 + 56 * j + 40);
  }

  lemma WrapsOnce(i: nat)
    requires REACHABLE <= i < 2 * REACHABLE - 1
    ensures (56 * i) % 0x1_0000 == 56 * (i - REACHABLE) + 40
  {
    UniqueMod(56 * i, 1, 0x1_0000, 56 * (i - REACHABLE) + 40);
  }

  lemma LowHalf(bytes: seq<Byte>, at: nat)
    requires at + 8 <= |bytes|
    ensures ReadLe(bytes, at, 4) == ReadLe(bytes, at, 8) % 0x1_0000_0000
  {
    var s := bytes[at..at + 8];
    assert s[..4] == bytes[at..at + 4];
    LowBytes(s, 4);
    assert Pow2(8 * 4) == 0x1_0000_0000 by {
      Pow2Is32();
    }
  }

  /** The size of header j's segment, cut to 32 bits, is the type of a loadable header. */
  predicate SizeLooksLoadable(elf: Elf, j: nat)
    requires IndicesOk(elf) && j < |elf.headers|
  {
    elf.segments[elf.headers[j].segmentIdx].MemSize() % 0x1_0000_0000 == PHENT_TYPE_LOADABLE
  }

  /** Up to 2341 headers, what looks loadable is a segment of 1 byte, modulo 2^32: the reader
      finds sizes where it looks for types. */
  lemma StraysAreSizes(elf: Elf, bytes: seq<Byte>)
    requires InOrder(elf) && FieldsFit(elf) && REACHABLE < |elf.headers| <= 2 * REACHABLE - 1 && bytes == Serialised(elf)
    ensures NoStrayHeader(bytes, |elf.headers|) <==>
      forall j :: 0 <= j < |elf.headers| - REACHABLE ==> !SizeLooksLoadable(elf, j)
  {
    forall j: nat | j < |elf.headers| - REACHABLE
      ensures WrappedKind(bytes, j + REACHABLE) == PHENT_TYPE_LOADABLE <==> SizeLooksLoadable(elf, j)
    {
      StrayIsSize(elf, bytes, j);
    }
    StraysByHeader(elf, bytes);
  }

  /** Numbering the strays by the header that they are read out of. */
  lemma StraysByHeader(elf: Elf, bytes: seq<Byte>)
    requires IndicesOk(elf) && REACHABLE < |elf.headers|
    requires forall j: nat :: j < |elf.headers| - REACHABLE ==>
      (WrappedKind(bytes, j + REACHABLE) == PHENT_TYPE_LOADABLE <==> SizeLooksLoadable(elf, j))
    ensures NoStrayHeader(bytes, |elf.headers|) <==>
      forall j :: 0 <= j < |elf.headers| - REACHABLE ==> !SizeLooksLoadable(elf, j)
  {
    forall i: nat | REACHABLE <= i < |elf.headers|
      ensures WrappedKind(bytes, i) == PHENT_TYPE_LOADABLE <==> SizeLooksLoadable(elf, i - REACHABLE)
    {
      assert i - REACHABLE + REACHABLE == i;
    }
  }

  lemma StrayIsSize(elf: Elf, bytes: seq<Byte>, j: nat)
    requires InOrder(elf) && FieldsFit(elf) && j + REACHABLE < |elf.headers| <= 2 * REACHABLE - 1
    requires bytes == Serialised(elf)
    ensures WrappedKind(bytes, j + REACHABLE) == PHENT_TYPE_LOADABLE <==> SizeLooksLoadable(elf, j)
  {
    FileParts(elf, bytes);
    SegmentRead(elf, bytes, j);
    WrappedMemSize(elf, bytes, j);
  }

  /** A file of n empty segments, each with its own loadable header. */
  ghost predicate EmptySegments(elf: Elf, n: nat) {
    match elf
    case Elf(_, _, segments, headers) =>
      && |segments| == |headers| == n
      && (forall i :: 0 <= i < n ==> segments[i] == Segment(RealData([]), 0, 0, true, 4))
      && (forall i :: 0 <= i < n ==> headers[i] == ProgramHeader(i, PHENT_TYPE_LOADABLE))
  }

  lemma EmptyFileFits(elf: Elf, n: nat)
    requires n < 0x1_0000 && EmptySegments(elf, n)
    ensures InOrder(elf) && FieldsFit(elf)
  {
    OneToOneOrder(elf.headers, n);
    EmptyData(elf.segments);
  }

  lemma EmptyFileHasNoStray(elf: Elf, bytes: seq<Byte>, n: nat)
    requires REACHABLE < n <= 2 * REACHABLE - 1 && EmptySegments(elf, n)
    requires InOrder(elf) && FieldsFit(elf) && bytes == Serialised(elf)
    ensures NoStrayHeader(bytes, n)
  {
    StraysAreSizes(elf, bytes);
    forall j: nat | j < n
      ensures !SizeLooksLoadable(elf, j)
    {
      EmptyIsNotLoadable(elf, n, j);
    }
  }

  lemma EmptyIsNotLoadable(elf: Elf, n: nat, j: nat)
    requires EmptySegments(elf, n) && IndicesOk(elf) && j < n
    ensures !SizeLooksLoadable(elf, j)
  {
    assert elf.headers[j].segmentIdx == j;
    assert elf.segments[j].MemSize() == 0;
  }

  lemma ReadsAtMostReachable(elf: Elf, bytes: seq<Byte>)
    requires InOrder(elf) && FieldsFit(elf) && REACHABLE < |elf.headers| < 0x1_0000 && bytes == Serialised(elf)
    requires NoStrayHeader(bytes, |elf.headers|)
    ensures Read(bytes, false).Ok? && |Read(bytes, false).segments| <= REACHABLE
  {
    RoundTrip(elf, bytes, false);
    RestLength(elf, 0, Reached(|elf.headers|));
  }

  /** Of more than 1171 empty segments a release build reads back only 1171. */
  lemma LateSegmentsAreLost(elf: Elf, bytes: seq<Byte>, n: nat)
    requires REACHABLE < n <= 2 * REACHABLE - 1 && EmptySegments(elf, n)
    requires IndicesOk(elf) && bytes == Serialised(elf)
    ensures InOrder(elf) && FieldsFit(elf)
    ensures Read(bytes, false).Ok? && |Read(bytes, false).segments| <= REACHABLE < |elf.segments|
  {
    EmptyFileFits(elf, n);
    EmptyFileHasNoStray(elf, bytes, n);
    ReadsAtMostReachable(elf, bytes);
  }

  lemma {:induction false} EmptyData(segs: seq<Segment>)
    requires forall i :: 0 <= i < |segs| ==> segs[i].FileBytes() == []
    ensures FileSize(segs) == 0
    decreases |segs|
  {
    if segs != [] {
      EmptyData(segs[..|segs| - 1]);
    }
  }

  lemma {:induction false} RestLength(elf: Elf, k: nat, m: nat)
    requires IndicesOk(elf) && k <= m <= |elf.headers|
    ensures |Rest(elf, k, m)| <= m - k
    decreases m - k
  {
    if k < m {
      RestLength(elf, k + 1, m);
    }
  }
}
