/** The packet rings between the Ethernet drivers and the pass domain:
    example/ethernet/pass.c and example/ethernet/eth.c. One line is the path of packets in
    one direction: driver, ring, pass domain, ring, driver. Every step makes at most one
    access to a ring, and steps of the three domains interleave freely. */
module PacketRings {

  type Word = nat

  /** Slots of a ring. */
  const BUFFER_MAX: nat := 1024
  /** 64-bit words behind the descriptor of a slot. */
  const SLOT_WORDS: nat := 248

  /** Words moved by `mycpy` for this many bytes: whole blocks of 64 bytes. */
  function WordsFor(length: nat): nat {
    8 * ((length + 63) / 64)
  }

  datatype Packet = Packet(length: nat, words: seq<Word>)

  datatype Slot = Slot(dataLength: nat, flags: nat, words: seq<Word>) {
    function Content(): Packet {
      Packet(dataLength, if WordsFor(dataLength) <= |words| then words[..WordsFor(dataLength)] else words)
    }
  }

  /** A ring with the history of what was published in it and how many of those packets
      were released again. */
  datatype Ring = Ring(slots: seq<Slot>, accepted: seq<Packet>, released: nat)

  // ---- one ring ----

  /** Number of the packet that slot i holds, or would hold next. */
  function KeyOf(released: nat, i: nat): nat
    requires i < 1024
  {
    released + (i - released) % 1024
  }

  /** Slot s holds packet k, or is free for it. */
  ghost predicate Holds(s: Slot, accepted: seq<Packet>, k: nat) {
    match s
    case Slot(_, flags, words) =>
      && |words| == SLOT_WORDS
      && (k < |accepted| ==> flags == 1 && s.Content() == accepted[k])
      && (k >= |accepted| ==> flags == 0)
  }

  ghost predicate SlotOk(r: Ring, i: nat)
    requires i < 1024 && |r.slots| == 1024
  {
    Holds(r.slots[i], r.accepted, KeyOf(r.released, i))
  }

  /** The slots with flag 1 are exactly the cyclic window from the consumer to the
      producer, and hold the packets accepted and not yet released, in order. */
  ghost predicate RingOk(r: Ring) {
    match r
    case Ring(slots, accepted, released) =>
      && |slots| == 1024 && released <= |accepted| <= released + 1024
      && forall i: nat :: i < 1024 ==> SlotOk(r, i)
  }

  lemma ProducerSlot(r: Ring)
    requires RingOk(r)
    ensures r.slots[|r.accepted| % 1024].flags == 1 <==> |r.accepted| == r.released + 1024
    ensures r.slots[|r.accepted| % 1024].flags == 0 <==> |r.accepted| < r.released + 1024
  {
    assert SlotOk(r, |r.accepted| % 1024);
  }

  lemma ConsumerSlot(r: Ring)
    requires RingOk(r)
    ensures r.slots[r.released % 1024].flags == 0 <==> r.released == |r.accepted|
    ensures r.released < |r.accepted| ==> r.slots[r.released % 1024].Content() == r.accepted[r.released]
  {
    assert SlotOk(r, r.released % 1024);
  }

  function SlotAt(r: Ring, i: nat): Slot {
    if i < |r.slots| then r.slots[i] else Slot(0, 0, [])
  }

  function WithSlot(r: Ring, i: nat, s: Slot): Ring {
    if i < |r.slots| then r.(slots := r.slots[i := s]) else r
  }

  /** Writing the length or data of the free slot at the producer's index. */
  lemma FreeWrite(r: Ring, s: Slot)
    requires RingOk(r) && |r.accepted| < r.released + 1024
    requires s.flags == 0 && |s.words| == SLOT_WORDS
    ensures RingOk(WithSlot(r, |r.accepted| % 1024, s))
  {
    var r2 := WithSlot(r, |r.accepted| % 1024, s);
    forall i: nat | i < 1024
      ensures SlotOk(r2, i)
    {
      assert SlotOk(r, i);
    }
  }

  function Publish(r: Ring, i: nat): Ring {
    var s := SlotAt(r, i).(flags := 1);
    WithSlot(r, i, s).(accepted := r.accepted + [s.Content()])
  }

  lemma PublishOk(r: Ring)
    requires RingOk(r) && |r.accepted| < r.released + 1024
    ensures RingOk(Publish(r, |r.accepted| % 1024))
  {
    var at := |r.accepted| % 1024;
    var r2 := Publish(r, at);
    var packet := r.slots[at].Content();
    forall i: nat | i < 1024
      ensures SlotOk(r2, i)
    {
      assert SlotOk(r, i);
      KeyAtProducer(r.released, |r.accepted|, i);
      SlotAccepted(r.slots[i], r.accepted, packet, KeyOf(r.released, i));
      assert r2.slots[i] == if i == at then r.slots[i].(flags := 1) else r.slots[i];
    }
  }

  /** Only the slot at the producer's index waits for the next packet. */
  lemma KeyAtProducer(released: nat, accepted: nat, i: nat)
    requires i < 1024 && released <= accepted < released + 1024
    ensures KeyOf(released, i) == accepted <==> i == accepted % 1024
  {
  }

  /** One more accepted packet is the content of the slot that waited for it, and changes
      no other slot. */
  lemma SlotAccepted(s: Slot, accepted: seq<Packet>, p: Packet, k: nat)
    requires Holds(s, accepted, k)
    ensures k == |accepted| && s.Content() == p ==> Holds(s.(flags := 1), accepted + [p], k)
    ensures k != |accepted| ==> Holds(s, accepted + [p], k)
  {
  }

  function Release(r: Ring, i: nat): Ring {
    WithSlot(r, i, SlotAt(r, i).(flags := 0)).(released := r.released + 1)
  }

  lemma ReleaseOk(r: Ring)
    requires RingOk(r) && r.released < |r.accepted|
    ensures RingOk(Release(r, r.released % 1024))
  {
    var at := r.released % 1024;
    var r2 := Release(r, at);
    forall i: nat | i < 1024
      ensures SlotOk(r2, i)
    {
      assert SlotOk(r, i);
      KeyAfterRelease(r.released, i);
      SlotReleased(r.slots[i], r.accepted, KeyOf(r.released, i), r.released + 1024);
      assert r2.slots[i] == if i == at then r.slots[i].(flags := 0) else r.slots[i];
    }
  }

  /** A slot with flag 0 waits for any packet not yet accepted. */
  lemma SlotReleased(s: Slot, accepted: seq<Packet>, k: nat, far: nat)
    requires Holds(s, accepted, k) && far >= |accepted|
    ensures Holds(s.(flags := 0), accepted, far)
  {
  }

  /** Releasing a packet moves only its own slot to the far end of the window. */
  lemma KeyAfterRelease(released: nat, i: nat)
    requires i < 1024
    ensures KeyOf(released + 1, i) == if i == released % 1024 then released + 1024 else KeyOf(released, i)
    ensures KeyOf(released, i) == released <==> i == released % 1024
  {
  }

  function Next(index: nat): nat {
    if index + 1 == BUFFER_MAX then 0 else index + 1
  }

  lemma NextIs(n: nat)
    ensures Next(n % 1024) == (n + 1) % 1024
  {
  }

  // ---- the three domains of a line ----

  function WithLength(r: Ring, i: nat, length: nat): Ring {
    WithSlot(r, i, SlotAt(r, i).(dataLength := length))
  }

  function WordAt(words: seq<Word>, i: nat): Word {
    if i < |words| then words[i] else 0
  }

  function WithWord(r: Ring, i: nat, j: nat, w: Word): Ring {
    var s := SlotAt(r, i);
    if j < |s.words| then WithSlot(r, i, s.(words := s.words[j := w])) else r
  }

  /** A received frame in the driver's own buffer; its last four bytes are the frame check
      sequence. */
  datatype Frame = Frame(length: nat, words: seq<Word>)

  /** Frames that fit a slot. */
  predicate FrameFits(f: Frame) {
    f.length >= 4 && WordsFor(f.length - 4) <= SLOT_WORDS && WordsFor(f.length - 4) <= |f.words|
  }

  function PacketOf(f: Frame): Packet {
    if FrameFits(f) then Packet(f.length - 4, f.words[..WordsFor(f.length - 4)]) else Packet(0, [])
  }

  /** `handle_rx` of the driver, from the moment it has a frame to pass on. */
  datatype RxPc = RxIdle | RxCheck | RxLength | RxStart | RxCopy(i: nat, n: nat) | RxFlag | RxIndex

  datatype Rx = Rx(pc: RxPc, index: nat, frame: Frame, offered: seq<Packet>, kept: seq<bool>)

  function RxStep(rx: Rx, r: Ring): (Rx, Ring) {
    match rx.pc
    case RxIdle => (rx, r)
    case RxCheck =>
      if SlotAt(r, rx.index).flags == 1 then (rx.(pc := RxIdle, kept := rx.kept + [false]), r)
      else (rx.(pc := RxLength), r)
    case RxLength =>
      (rx.(pc := RxStart), WithLength(r, rx.index, if rx.frame.length >= 4 then rx.frame.length - 4 else 0))
    case RxStart => (rx.(pc := RxCopy(0, WordsFor(SlotAt(r, rx.index).dataLength))), r)
    case RxCopy(i, n) =>
      if i < n then (rx.(pc := RxCopy(i + 1, n)), WithWord(r, rx.index, i, WordAt(rx.frame.words, i)))
      else (rx.(pc := RxFlag), r)
    case RxFlag => (rx.(pc := RxIndex, kept := rx.kept + [true]), Publish(r, rx.index))
    case RxIndex => (rx.(pc := RxIdle, index := Next(rx.index)), r)
  }

  /** One round of a loop of `notified` in the pass domain. */
  datatype PassPc =
    | Check | IncIn | CheckOut | ReadLength | WriteLength(length: nat) | CopyStart
    | ReadWord(i: nat, n: nat) | WriteWord(i: nat, n: nat, word: Word) | SetFlag | IncOut | Clear

  /** bd is the slot of the packet being passed. */
  datatype Pass = Pass(pc: PassPc, inIndex: nat, outIndex: nat, bd: nat, kept: seq<bool>)

  function PassStep(p: Pass, inRing: Ring, outRing: Ring): (Pass, Ring, Ring) {
    match p.pc
    case Check =>
      if SlotAt(inRing, p.inIndex).flags == 0 then (p, inRing, outRing)
      else (p.(pc := IncIn, bd := p.inIndex), inRing, outRing)
    case IncIn => (p.(pc := CheckOut, inIndex := Next(p.inIndex)), inRing, outRing)
    case CheckOut =>
      if SlotAt(outRing, p.outIndex).flags == 1 then (p.(pc := Clear, kept := p.kept + [false]), inRing, outRing)
      else (p.(pc := ReadLength), inRing, outRing)
    case ReadLength => (p.(pc := WriteLength(SlotAt(inRing, p.bd).dataLength)), inRing, outRing)
    case WriteLength(length) => (p.(pc := CopyStart), inRing, WithLength(outRing, p.outIndex, length))
    case CopyStart => (p.(pc := ReadWord(0, WordsFor(SlotAt(inRing, p.bd).dataLength))), inRing, outRing)
    case ReadWord(i, n) =>
      if i < n then (p.(pc := WriteWord(i, n, WordAt(SlotAt(inRing, p.bd).words, i))), inRing, outRing)
      else (p.(pc := SetFlag), inRing, outRing)
    case WriteWord(i, n, word) => (p.(pc := ReadWord(i + 1, n)), inRing, WithWord(outRing, p.outIndex, i, word))
    case SetFlag => (p.(pc := IncOut, kept := p.kept + [true]), inRing, Publish(outRing, p.outIndex))
    case IncOut => (p.(pc := Clear, outIndex := Next(p.outIndex)), inRing, outRing)
    case Clear => (p.(pc := Check), Release(inRing, p.bd), outRing)
  }

  /** The loop of `notified` in the sending driver. `send_frame` copies the packet, unless
      the next transmit descriptor is still in use: then it drops the packet. */
  datatype TxPc = TxCheck | TxStart | TxDescriptor | TxCopy(i: nat, n: nat) | TxClear | TxIndex

  datatype Tx = Tx(pc: TxPc, index: nat, length: nat, words: seq<Word>, sent: seq<Packet>, kept: seq<bool>)

  /** `free` says whether the device has released the next transmit descriptor. */
  function TxStep(tx: Tx, r: Ring, free: bool): (Tx, Ring) {
    match tx.pc
    case TxCheck => if SlotAt(r, tx.index).flags == 0 then (tx, r) else (tx.(pc := TxStart), r)
    case TxStart => (tx.(pc := TxDescriptor, length := SlotAt(r, tx.index).dataLength, words := []), r)
    case TxDescriptor =>
      if free then (tx.(pc := TxCopy(0, WordsFor(tx.length))), r) else (tx.(pc := TxClear, kept := tx.kept + [false]), r)
    case TxCopy(i, n) =>
      if i < n then (tx.(pc := TxCopy(i + 1, n), words := tx.words + [WordAt(SlotAt(r, tx.index).words, i)]), r)
      else (tx.(pc := TxClear, sent := tx.sent + [Packet(tx.length, tx.words)], kept := tx.kept + [true]), r)
    case TxClear => (tx.(pc := TxIndex), Release(r, tx.index))
    case TxIndex => (tx.(pc := TxCheck, index := Next(tx.index)), r)
  }

  datatype Line = Line(rx: Rx, inRing: Ring, pass: Pass, outRing: Ring, tx: Tx)

  datatype Event = Arrive(frame: Frame) | RxRuns | PassRuns | TxRuns(free: bool)

  function Do(s: Line, e: Event): Line {
    match e
    case Arrive(f) =>
      if s.rx.pc == RxIdle && FrameFits(f) then
        s.(rx := s.rx.(pc := RxCheck, frame := f, offered := s.rx.offered + [PacketOf(f)]))
      else s
    case RxRuns => var (rx, r) := RxStep(s.rx, s.inRing); s.(rx := rx, inRing := r)
    case PassRuns => var (p, a, b) := PassStep(s.pass, s.inRing, s.outRing); s.(pass := p, inRing := a, outRing := b)
    case TxRuns(free) => var (tx, r) := TxStep(s.tx, s.outRing, free); s.(tx := tx, outRing := r)
  }

  function EmptyRing(): Ring {
    Ring(seq(1024, _ => Slot(0, 0, seq(248, _ => 0))), [], 0)
  }

  function Start(): Line {
    Line(Rx(RxIdle, 0, Frame(0, []), [], []), EmptyRing(), Pass(Check, 0, 0, 0, []), EmptyRing(), Tx(TxCheck, 0, 0, [], [], []))
  }

  /** Any interleaving, from empty rings. */
  function Exec(events: seq<Event>): Line {
    if events == [] then Start() else Do(Exec(events[..|events| - 1]), events[|events| - 1])
  }

  // ---- the invariant ----

  /** The packets whose mark is true, in order. */
  function Kept(s: seq<Packet>, marks: seq<bool>): seq<Packet>
    requires |marks| <= |s|
  {
    if marks == [] then []
    else
      var n := |marks| - 1;
      Kept(s, marks[..n]) + (if marks[n] then [s[n]] else [])
  }

  lemma KeptNext(s: seq<Packet>, marks: seq<bool>, mark: bool)
    requires |marks| < |s|
    ensures Kept(s, marks + [mark]) == Kept(s, marks) + (if mark then [s[|marks|]] else [])
  {
    assert (marks + [mark])[..|marks|] == marks;
  }

  lemma {:induction false} KeptExtends(s: seq<Packet>, s2: seq<Packet>, marks: seq<bool>)
    requires |marks| <= |s| && s <= s2
    ensures Kept(s, marks) == Kept(s2, marks)
    decreases |marks|
  {
    if marks != [] {
      KeptExtends(s, s2, marks[..|marks| - 1]);
    }
  }

  predicate PacketFits(p: Packet) {
    |p.words| == WordsFor(p.length) <= SLOT_WORDS
  }

  predicate AllFit(s: seq<Packet>) {
    forall k :: 0 <= k < |s| ==> PacketFits(s[k])
  }

  /** The slot holds the length and the first i words of the packet. */
  predicate Filled(s: Slot, p: Packet, i: nat) {
    && PacketFits(p) && i <= |p.words| && |s.words| == SLOT_WORDS
    && s.dataLength == p.length && s.words[..i] == p.words[..i]
  }

  predicate RxBusy(pc: RxPc) {
    !pc.RxIdle? && !pc.RxIndex?
  }

  predicate RxProgress(rx: Rx, s: Slot) {
    match rx.pc
    case RxStart => Filled(s, PacketOf(rx.frame), 0)
    case RxCopy(i, n) => Filled(s, PacketOf(rx.frame), i) && n == WordsFor(s.dataLength) && i <= n
    case RxFlag => Filled(s, PacketOf(rx.frame), WordsFor(s.dataLength))
    case _ => true
  }

  ghost predicate RxOk(rx: Rx, r: Ring) {
    match rx
    case Rx(pc, index, frame, offered, kept) =>
      var n := |r.accepted|;
      && (if pc.RxIndex? then n > 0 && index == (n - 1) % 1024 else index == n % 1024)
      && (RxBusy(pc) ==> FrameFits(frame) && |offered| > 0 && offered[|offered| - 1] == PacketOf(frame))
      && |kept| == (if RxBusy(pc) then |offered| - 1 else |offered|)
      && r.accepted == Kept(offered, kept)
      && AllFit(r.accepted)
      && (RxBusy(pc) && !pc.RxCheck? ==> n < r.released + 1024)
      && RxProgress(rx, SlotAt(r, index))
  }

  predicate PassProgress(pc: PassPc, p: Packet, s: Slot) {
    match pc
    case WriteLength(length) => length == p.length
    case CopyStart => Filled(s, p, 0)
    case ReadWord(i, n) => Filled(s, p, i) && n == WordsFor(p.length) && i <= n
    case WriteWord(i, n, word) => Filled(s, p, i) && n == WordsFor(p.length) && i < n && word == WordAt(p.words, i)
    case SetFlag => Filled(s, p, WordsFor(p.length))
    case _ => true
  }

  predicate PassWrites(pc: PassPc) {
    pc.ReadLength? || pc.WriteLength? || pc.CopyStart? || pc.ReadWord? || pc.WriteWord? || pc.SetFlag?
  }

  predicate PassDecided(pc: PassPc) {
    pc.IncOut? || pc.Clear?
  }

  ghost predicate PassOk(p: Pass, inRing: Ring, outRing: Ring) {
    match p
    case Pass(pc, inIndex, outIndex, bd, kept) =>
      var k, n := inRing.released, |outRing.accepted|;
      && inIndex == (if pc.Check? || pc.IncIn? then k % 1024 else (k + 1) % 1024)
      && (!pc.Check? ==> bd == k % 1024 && k < |inRing.accepted|)
      && |kept| == (if PassDecided(pc) then k + 1 else k) <= |inRing.accepted|
      && outRing.accepted == Kept(inRing.accepted, kept)
      && AllFit(outRing.accepted)
      && (if pc.IncOut? then n > 0 && outIndex == (n - 1) % 1024 else outIndex == n % 1024)
      && (PassWrites(pc) ==> n < outRing.released + 1024)
      && (!pc.Check? ==> PassProgress(pc, inRing.accepted[k], SlotAt(outRing, outIndex)))
  }

  predicate TxHolds(pc: TxPc) {
    pc.TxStart? || pc.TxDescriptor? || pc.TxCopy? || pc.TxClear?
  }

  predicate TxProgress(pc: TxPc, p: Packet, length: nat, words: seq<Word>) {
    match pc
    case TxDescriptor => length == p.length && words == []
    case TxCopy(i, n) => length == p.length && n == |p.words| && i <= n && words == p.words[..i]
    case _ => true
  }

  ghost predicate TxOk(tx: Tx, r: Ring) {
    match tx
    case Tx(pc, index, length, words, sent, kept) =>
      var k := r.released;
      && (if pc.TxIndex? then k > 0 && index == (k - 1) % 1024 else index == k % 1024)
      && (TxHolds(pc) ==> k < |r.accepted|)
      && |kept| == (if pc.TxClear? then k + 1 else k) <= |r.accepted|
      && sent == Kept(r.accepted, kept)
      && (TxHolds(pc) ==> TxProgress(pc, r.accepted[k], length, words))
  }

  ghost predicate Inv(s: Line) {
    match s
    case Line(rx, inRing, pass, outRing, tx) =>
      && RingOk(inRing) && RingOk(outRing)
      && RxOk(rx, inRing) && PassOk(pass, inRing, outRing) && TxOk(tx, outRing)
  }

  // ---- each step keeps the invariant ----

  /** What a producer does to a ring, as its consumer sees it. */
  ghost predicate ByProducer(r: Ring, r2: Ring) {
    match r2
    case Ring(_, accepted, released) => r.accepted <= accepted && released == r.released
  }

  /** What a consumer does to a ring. */
  ghost predicate ByConsumer(r: Ring, r2: Ring) {
    r2 == r || (r.released < |r.accepted| && r2 == Release(r, r.released % 1024))
  }

  lemma FillWord(s: Slot, p: Packet, i: nat)
    requires Filled(s, p, i) && i < |p.words|
    ensures Filled(s.(words := s.words[i := p.words[i]]), p, i + 1)
  {
    var words := s.words[i := p.words[i]];
    assert words[..i + 1] == words[..i] + [p.words[i]];
    assert p.words[..i + 1] == p.words[..i] + [p.words[i]];
  }

  lemma FilledContent(s: Slot, p: Packet)
    requires Filled(s, p, |p.words|)
    ensures s.Content() == p && s.(flags := 1).Content() == p
  {
    assert p.words[..|p.words|] == p.words;
  }

  ghost predicate RxStepped(rx: Rx, r: Ring, next: (Rx, Ring)) {
    match next
    case (rx2, r2) => RingOk(r2) && RxOk(rx2, r2) && ByProducer(r, r2)
  }

  lemma RxChecks(rx: Rx, r: Ring)
    requires RingOk(r) && RxOk(rx, r) && rx.pc.RxCheck?
    ensures RxStepped(rx, r, RxStep(rx, r))
  {
    ProducerSlot(r);
    KeptNext(rx.offered, rx.kept, false);
  }

  lemma RxWrites(rx: Rx, r: Ring)
    requires RingOk(r) && RxOk(rx, r) && (rx.pc.RxLength? || rx.pc.RxStart? || rx.pc.RxCopy?)
    ensures RxStepped(rx, r, RxStep(rx, r))
  {
    ProducerSlot(r);
    var i := |r.accepted| % 1024;
    assert SlotOk(r, i);
    var s := SlotAt(r, i);
    var p := PacketOf(rx.frame);
    match rx.pc
    case RxLength =>
      FreeWrite(r, s.(dataLength := rx.frame.length - 4));
    case RxCopy(j, n) =>
      if j < n {
        FreeWrite(r, s.(words := s.words[j := rx.frame.words[j]]));
        FillWord(s, p, j);
      }
    case _ =>
  }

  lemma RxPublishes(rx: Rx, r: Ring)
    requires RingOk(r) && RxOk(rx, r) && rx.pc.RxFlag?
    ensures RxStepped(rx, r, RxStep(rx, r))
  {
    PublishOk(r);
    var p := PacketOf(rx.frame);
    FilledContent(SlotAt(r, rx.index), p);
    KeptNext(rx.offered, rx.kept, true);
  }

  lemma RxKeeps(rx: Rx, r: Ring)
    requires RingOk(r) && RxOk(rx, r)
    ensures RxStepped(rx, r, RxStep(rx, r))
  {
    match rx.pc
    case RxIdle =>
    case RxCheck => RxChecks(rx, r);
    case RxFlag => RxPublishes(rx, r);
    case RxIndex => NextIs(|r.accepted| - 1);
    case _ => RxWrites(rx, r);
  }

  lemma RxUnaffected(rx: Rx, r: Ring, r2: Ring)
    requires RingOk(r) && RxOk(rx, r) && ByConsumer(r, r2)
    ensures RxOk(rx, r2)
  {
    if r2 != r && RxBusy(rx.pc) && !rx.pc.RxCheck? {
      assert rx.index != r.released % 1024;
    }
  }

  lemma RxArrives(rx: Rx, r: Ring, f: Frame)
    requires RxOk(rx, r) && rx.pc == RxIdle && FrameFits(f)
    ensures RxOk(rx.(pc := RxCheck, frame := f, offered := rx.offered + [PacketOf(f)]), r)
  {
    KeptExtends(rx.offered, rx.offered + [PacketOf(f)], rx.kept);
  }

  // ---- the pass domain ----

  ghost predicate PassStepped(inRing: Ring, outRing: Ring, next: (Pass, Ring, Ring)) {
    match next
    case (p2, in2, out2) =>
      && RingOk(in2) && RingOk(out2) && PassOk(p2, in2, out2)
      && ByConsumer(inRing, in2) && ByProducer(outRing, out2)
  }

  lemma PassChecks(p: Pass, inRing: Ring, outRing: Ring)
    requires RingOk(inRing) && RingOk(outRing) && PassOk(p, inRing, outRing)
    requires p.pc.Check? || p.pc.IncIn?
    ensures PassStepped(inRing, outRing, PassStep(p, inRing, outRing))
  {
    ConsumerSlot(inRing);
    NextIs(inRing.released);
  }

  lemma PassDecides(p: Pass, inRing: Ring, outRing: Ring)
    requires RingOk(inRing) && RingOk(outRing) && PassOk(p, inRing, outRing) && p.pc.CheckOut?
    ensures PassStepped(inRing, outRing, PassStep(p, inRing, outRing))
  {
    ProducerSlot(outRing);
    KeptNext(inRing.accepted, p.kept, false);
  }

  /** While the pass domain reads a slot, it finds the packet that was accepted there. */
  lemma PassReads(p: Pass, inRing: Ring, outRing: Ring)
    requires RingOk(inRing) && PassOk(p, inRing, outRing) && !p.pc.Check?
    ensures SlotAt(inRing, p.bd).flags == 1 && SlotAt(inRing, p.bd).Content() == inRing.accepted[inRing.released]
    ensures |SlotAt(inRing, p.bd).words| == SLOT_WORDS
  {
    assert SlotOk(inRing, inRing.released % 1024);
  }

  lemma PassWritesSlot(p: Pass, inRing: Ring, outRing: Ring)
    requires RingOk(inRing) && RingOk(outRing) && PassOk(p, inRing, outRing) && AllFit(inRing.accepted)
    requires p.pc.ReadLength? || p.pc.WriteLength? || p.pc.CopyStart? || p.pc.ReadWord? || p.pc.WriteWord?
    ensures PassStepped(inRing, outRing, PassStep(p, inRing, outRing))
  {
    ProducerSlot(outRing);
    PassReads(p, inRing, outRing);
    var i := |outRing.accepted| % 1024;
    assert SlotOk(outRing, i);
    var s, from := SlotAt(outRing, i), SlotAt(inRing, p.bd);
    var pkt := inRing.accepted[inRing.released];
    assert PacketFits(pkt);
    match p.pc
    case WriteLength(length) =>
      FreeWrite(outRing, s.(dataLength := length));
    case ReadWord(j, n) =>
      assert j < n ==> from.words[j] == from.Content().words[j];
    case WriteWord(j, n, word) =>
      FreeWrite(outRing, s.(words := s.words[j := word]));
      FillWord(s, pkt, j);
    case _ =>
  }

  lemma PassPublishes(p: Pass, inRing: Ring, outRing: Ring)
    requires RingOk(inRing) && RingOk(outRing) && PassOk(p, inRing, outRing) && p.pc.SetFlag?
    ensures PassStepped(inRing, outRing, PassStep(p, inRing, outRing))
  {
    PublishOk(outRing);
    FilledContent(SlotAt(outRing, p.outIndex), inRing.accepted[inRing.released]);
    KeptNext(inRing.accepted, p.kept, true);
  }

  lemma PassKeeps(p: Pass, inRing: Ring, outRing: Ring)
    requires RingOk(inRing) && RingOk(outRing) && PassOk(p, inRing, outRing) && AllFit(inRing.accepted)
    ensures PassStepped(inRing, outRing, PassStep(p, inRing, outRing))
  {
    match p.pc
    case Check => PassChecks(p, inRing, outRing);
    case IncIn => PassChecks(p, inRing, outRing);
    case CheckOut => PassDecides(p, inRing, outRing);
    case SetFlag => PassPublishes(p, inRing, outRing);
    case IncOut => NextIs(|outRing.accepted| - 1);
    case Clear => ReleaseOk(inRing);
    case _ => PassWritesSlot(p, inRing, outRing);
  }

  lemma PassUnaffectedIn(p: Pass, inRing: Ring, outRing: Ring, in2: Ring)
    requires PassOk(p, inRing, outRing) && ByProducer(inRing, in2)
    ensures PassOk(p, in2, outRing)
  {
    KeptExtends(inRing.accepted, in2.accepted, p.kept);
  }

  lemma PassUnaffectedOut(p: Pass, inRing: Ring, outRing: Ring, out2: Ring)
    requires RingOk(outRing) && PassOk(p, inRing, outRing) && ByConsumer(outRing, out2)
    ensures PassOk(p, inRing, out2)
  {
    if out2 != outRing && PassWrites(p.pc) {
      assert p.outIndex != outRing.released % 1024;
    }
  }

  // ---- the sending driver ----

  ghost predicate TxStepped(r: Ring, next: (Tx, Ring)) {
    match next
    case (tx2, r2) => RingOk(r2) && TxOk(tx2, r2) && ByConsumer(r, r2)
  }

  lemma TxReads(tx: Tx, r: Ring, free: bool)
    requires RingOk(r) && TxOk(tx, r) && AllFit(r.accepted) && (tx.pc.TxStart? || tx.pc.TxCopy?)
    ensures TxStepped(r, TxStep(tx, r, free))
  {
    var k := r.released;
    ConsumerSlot(r);
    assert SlotOk(r, k % 1024);
    var s, pkt := SlotAt(r, tx.index), r.accepted[k];
    assert PacketFits(pkt);
    match tx.pc
    case TxCopy(i, n) =>
      if i < n {
        assert s.words[i] == s.Content().words[i];
        assert pkt.words[..i + 1] == pkt.words[..i] + [pkt.words[i]];
      } else {
        assert pkt.words[..i] == pkt.words;
        KeptNext(r.accepted, tx.kept, true);
      }
    case _ =>
  }

  lemma TxDecides(tx: Tx, r: Ring, free: bool)
    requires RingOk(r) && TxOk(tx, r) && AllFit(r.accepted) && tx.pc.TxDescriptor?
    ensures TxStepped(r, TxStep(tx, r, free))
  {
    assert PacketFits(r.accepted[r.released]);
    KeptNext(r.accepted, tx.kept, false);
  }

  lemma TxKeeps(tx: Tx, r: Ring, free: bool)
    requires RingOk(r) && TxOk(tx, r) && AllFit(r.accepted)
    ensures TxStepped(r, TxStep(tx, r, free))
  {
    match tx.pc
    case TxCheck => ConsumerSlot(r);
    case TxDescriptor => TxDecides(tx, r, free);
    case TxClear => ReleaseOk(r);
    case TxIndex => NextIs(r.released - 1);
    case _ => TxReads(tx, r, free);
  }

  lemma TxUnaffected(tx: Tx, r: Ring, r2: Ring)
    requires TxOk(tx, r) && ByProducer(r, r2)
    ensures TxOk(tx, r2)
  {
    KeptExtends(r.accepted, r2.accepted, tx.kept);
  }

  // ---- every run ----

  lemma DoKeeps(s: Line, e: Event)
    requires Inv(s)
    ensures Inv(Do(s, e))
  {
    match e
    case Arrive(f) =>
      if s.rx.pc == RxIdle && FrameFits(f) {
        RxArrives(s.rx, s.inRing, f);
      }
    case RxRuns =>
      RxKeeps(s.rx, s.inRing);
      PassUnaffectedIn(s.pass, s.inRing, s.outRing, RxStep(s.rx, s.inRing).1);
    case PassRuns =>
      PassKeeps(s.pass, s.inRing, s.outRing);
      RxUnaffected(s.rx, s.inRing, PassStep(s.pass, s.inRing, s.outRing).1);
      TxUnaffected(s.tx, s.outRing, PassStep(s.pass, s.inRing, s.outRing).2);
    case TxRuns(free) =>
      TxKeeps(s.tx, s.outRing, free);
      PassUnaffectedOut(s.pass, s.inRing, s.outRing, TxStep(s.tx, s.outRing, free).1);
  }

  lemma EmptyRingOk()
    ensures RingOk(EmptyRing())
  {
    var r := EmptyRing();
    forall i: nat | i < 1024
      ensures SlotOk(r, i)
    {
    }
  }

  lemma {:induction false} ExecKeeps(events: seq<Event>)
    ensures Inv(Exec(events))
    decreases |events|
  {
    if events == [] {
      EmptyRingOk();
    } else {
      ExecKeeps(events[..|events| - 1]);
      DoKeeps(Exec(events[..|events| - 1]), events[|events| - 1]);
    }
  }

  // ---- what every interleaving guarantees ----

  /** What the window of flagged slots holds, oldest first. */
  function Contents(r: Ring): seq<Packet>
    requires |r.slots| == 1024 && r.released <= |r.accepted|
  {
    seq(|r.accepted| - r.released, k requires 0 <= k < |r.accepted| - r.released => r.slots[(r.released + k) % 1024].Content())
  }

  /** A ring refines a bounded queue: what was accepted is what was taken out followed by
      what the flagged slots hold. */
  lemma RingIsFifo(r: Ring)
    requires RingOk(r)
    ensures r.accepted == r.accepted[..r.released] + Contents(r) && |Contents(r)| <= 1024
  {
    forall k | 0 <= k < |Contents(r)|
      ensures Contents(r)[k] == r.accepted[r.released + k]
    {
      KeyOfOffset(r.released, k);
      assert SlotOk(r, (r.released + k) % 1024);
    }
  }

  lemma KeyOfOffset(released: nat, k: nat)
    requires k < 1024
    ensures KeyOf(released, (released + k) % 1024) == released + k
  {
  }

  /** Slot i is the k-th of the window that starts at the consumer's slot. */
  predicate AtOffset(r: Ring, i: nat, k: nat) {
    r.released + k < |r.accepted| && (r.released + k) % 1024 == i
  }

  /** The flagged slots are exactly the cyclic window. */
  lemma FlagsAreTheWindow(r: Ring, i: nat)
    requires RingOk(r) && i < 1024
    ensures r.slots[i].flags == 1 <==> exists k: nat :: AtOffset(r, i, k)
  {
    assert SlotOk(r, i);
    var k := KeyOf(r.released, i) - r.released;
    assert (r.released + k) % 1024 == i;
    assert r.slots[i].flags == 1 ==> AtOffset(r, i, k);
    if m: nat :| AtOffset(r, i, m) {
      assert m == k;
    }
  }

  /** In every reachable state both rings are queues, the second ring got a part of what
      went through the first, in order, and what was handed to the device is a part of what
      the second ring accepted, in order and uncorrupted. */
  lemma DeliveredInOrder(events: seq<Event>)
    ensures var s := Exec(events);
      && RingOk(s.inRing) && RingOk(s.outRing)
      && |s.rx.kept| <= |s.rx.offered| && s.inRing.accepted == Kept(s.rx.offered, s.rx.kept)
      && |s.pass.kept| <= |s.inRing.accepted| && s.outRing.accepted == Kept(s.inRing.accepted, s.pass.kept)
      && |s.tx.kept| <= |s.outRing.accepted| && s.tx.sent == Kept(s.outRing.accepted, s.tx.kept)
  {
    ExecKeeps(events);
  }

  /** A packet is dropped exactly when the ring it should enter holds 1024 packets, or at the
      end when no transmit descriptor is free. */
  lemma DropOnlyWhenFull(events: seq<Event>)
    ensures var s := Exec(events);
      && (s.rx.pc.RxCheck? ==>
           (Do(s, RxRuns).rx.kept == s.rx.kept + [false] <==> |s.inRing.accepted| == s.inRing.released + 1024))
      && (s.pass.pc.CheckOut? ==>
           (Do(s, PassRuns).pass.kept == s.pass.kept + [false] <==> |s.outRing.accepted| == s.outRing.released + 1024))
      && (s.tx.pc.TxDescriptor? ==>
           forall free :: Do(s, TxRuns(free)).tx.kept == s.tx.kept + [false] <==> !free)
  {
    ExecKeeps(events);
    var s := Exec(events);
    ProducerSlot(s.inRing);
    ProducerSlot(s.outRing);
    assert |s.rx.kept + [false]| != |s.rx.kept| && |s.pass.kept + [false]| != |s.pass.kept|;
    assert |s.tx.kept + [false]| != |s.tx.kept|;
  }

  /** The slot that a producer writes is never one that holds a packet. */
  lemma ProducerSlotIsFree(r: Ring, i: nat)
    requires RingOk(r) && i < 1024 && r.slots[i].flags == 1 && |r.accepted| < r.released + 1024
    ensures i != |r.accepted| % 1024
  {
    ProducerSlot(r);
  }

  /** Nothing changes a slot while its reader is at work. */
  lemma ReadersUndisturbed(events: seq<Event>, e: Event)
    ensures var s := Exec(events);
      && (!s.pass.pc.Check? && !e.PassRuns? ==> SlotAt(Do(s, e).inRing, s.pass.bd) == SlotAt(s.inRing, s.pass.bd))
      && (TxHolds(s.tx.pc) && !e.TxRuns? ==> SlotAt(Do(s, e).outRing, s.tx.index) == SlotAt(s.outRing, s.tx.index))
  {
    ExecKeeps(events);
    var s := Exec(events);
    if !s.pass.pc.Check? {
      PassReads(s.pass, s.inRing, s.outRing);
      if RxBusy(s.rx.pc) && !s.rx.pc.RxCheck? {
        ProducerSlotIsFree(s.inRing, s.pass.bd);
      }
    }
    if TxHolds(s.tx.pc) {
      ConsumerSlot(s.outRing);
      ProducerSlot(s.outRing);
    }
  }

  // ---- subsequences ----

  function TrueAt(marks: seq<bool>): seq<nat> {
    if marks == [] then []
    else TrueAt(marks[..|marks| - 1]) + (if marks[|marks| - 1] then [|marks| - 1] else [])
  }

  ghost predicate Marked(marks: seq<bool>, at: seq<nat>) {
    && (forall j :: 0 <= j < |at| ==> at[j] < |marks| && marks[at[j]])
    && (forall i, j :: 0 <= i < j < |at| ==> at[i] < at[j])
    && (forall k: nat :: k < |marks| && marks[k] ==> k in at)
  }

  lemma TrueAtNext(marks: seq<bool>, n: nat, before: seq<nat>, at: seq<nat>)
    requires |marks| == n + 1 && Marked(marks[..n], before)
    requires at == before + (if marks[n] then [n] else [])
    ensures Marked(marks, at)
  {
    forall k: nat | k < |marks| && marks[k]
      ensures k in at
    {
      if k < n {
        assert marks[..n][k];
      }
    }
  }

  /** Exactly the marked positions, in ascending order. */
  lemma {:induction false} TrueAtAre(marks: seq<bool>)
    ensures Marked(marks, TrueAt(marks))
    decreases |marks|
  {
    if marks != [] {
      var n := |marks| - 1;
      TrueAtAre(marks[..n]);
      TrueAtNext(marks, n, TrueAt(marks[..n]), TrueAt(marks));
    }
  }

  /** The kept packets are a subsequence: the ones at the marked positions, in order. */
  lemma {:induction false} KeptIsSubsequence(s: seq<Packet>, marks: seq<bool>)
    requires |marks| <= |s|
    ensures |Kept(s, marks)| == |TrueAt(marks)|
    ensures forall j :: 0 <= j < |TrueAt(marks)| ==> TrueAt(marks)[j] < |s| && Kept(s, marks)[j] == s[TrueAt(marks)[j]]
    decreases |marks|
  {
    if marks != [] {
      KeptIsSubsequence(s, marks[..|marks| - 1]);
    }
  }

  // ---- both directions ----

  /** The outward line and the inward line share domains but no memory. */
  datatype Network = Network(outward: Line, inward: Line)

  datatype NetEvent = NetEvent(isOutward: bool, event: Event)

  function NetExec(events: seq<NetEvent>): Network {
    if events == [] then Network(Start(), Start())
    else
      var s, e := NetExec(events[..|events| - 1]), events[|events| - 1];
      if e.isOutward then s.(outward := Do(s.outward, e.event)) else s.(inward := Do(s.inward, e.event))
  }

  /** The events of one line. */
  function Of(events: seq<NetEvent>, isOutward: bool): seq<Event> {
    if events == [] then []
    else
      var e := events[|events| - 1];
      Of(events[..|events| - 1], isOutward) + (if e.isOutward == isOutward then [e.event] else [])
  }

  /** However the two directions interleave, each line is in a state of a run of its own. */
  lemma {:induction false} LinesAreIndependent(events: seq<NetEvent>)
    ensures NetExec(events) == Network(Exec(Of(events, true)), Exec(Of(events, false)))
    decreases |events|
  {
    if events != [] {
      var e, before := events[|events| - 1], events[..|events| - 1];
      LinesAreIndependent(before);
      var own := Of(before, e.isOutward);
      assert (own + [e.event])[..|own|] == own;
      assert Of(events, e.isOutward) == own + [e.event];
      assert Of(events, !e.isOutward) == Of(before, !e.isOutward);
    }
  }
}
