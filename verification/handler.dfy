/** The event loop of a protection domain: libmicrokit/src/main.c and the calls of
    libmicrokit/include/microkit.h that it works with, for builds without CONFIG_VTX. */
module HandlerLoop {
  import opened Words
  import opened MemoryRegions
  import opened Events

  const MONITOR_EP: nat := 5
  const BASE_OUTPUT_NOTIFICATION_CAP: nat := 10
  const BASE_ENDPOINT_CAP: nat := 74
  const BASE_IRQ_CAP: nat := 138
  /** Label of the message that acknowledges an interrupt. */
  const IRQ_ACK_IRQ: nat := 1

  type Message = nat

  /** Calls that a user entry point can make. */
  datatype Api =
    | Notify(ch: nat)
    | IrqAck(ch: nat)
    | PpCall(ch: nat, msg: Message)
    | DeferredNotify(ch: nat)
    | DeferredIrqAck(ch: nat)

  /** What a user entry point does: the calls it makes, the reply it gives and, for
      `fault`, whether the reply is to be sent. */
  datatype Reaction = Reaction(calls: seq<Api>, reply: Message, resume: bool)

  /** One step that can be seen from outside the domain, or an entry point being called or
      returning; an answer is the reply the entry point asks for, if any. */
  datatype Action =
    | Signal(cptr: nat)
    | Ack(cptr: nat)
    | Call(cptr: nat, msg: Message)
    | Rejected(ch: nat)
    | Deferred(cptr: nat, tag: nat)
    | Send(cptr: nat, tag: nat)
    | Recv
    | NBSendRecv(cptr: nat, tag: nat)
    | ReplyRecv(reply: Message)
    | EnterNotified(ch: nat)
    | EnterProtected(ch: nat, msg: Message)
    | EnterFault(child: nat, msg: Message)
    | Return(answer: Option<Message>)

  type Log = seq<Action>

  /** The user's code: how an entry point reacts, given everything that happened before. */
  type User = Log -> Reaction

  /** The words that the tool patches into the domain. */
  datatype Masks = Masks(irqs: nat, notifications: nat, pps: nat)

  datatype State = State(haveSignal: bool, signalCap: nat, signalMsg: nat, haveReply: bool, replyTag: Message, log: Log)

  // ---- the specification of every step ----

  function Logged(st: State, a: Action): State {
    st.(log := st.log + [a])
  }

  function SetSignal(st: State, cptr: nat, tag: nat): State {
    Logged(st.(haveSignal := true, signalCap := cptr, signalMsg := tag), Deferred(cptr, tag))
  }

  function DoCall(masks: Masks, st: State, call: Api): State {
    match call
    case Notify(ch) =>
      if GuardPasses(masks.notifications, ch) then Logged(st, Signal(BASE_OUTPUT_NOTIFICATION_CAP + ch))
      else Logged(st, Rejected(ch))
    case IrqAck(ch) =>
      if GuardPasses(masks.irqs, ch) then Logged(st, Ack(BASE_IRQ_CAP + ch)) else Logged(st, Rejected(ch))
    case PpCall(ch, msg) =>
      if GuardPasses(masks.pps, ch) then Logged(st, Call(BASE_ENDPOINT_CAP + ch, msg)) else Logged(st, Rejected(ch))
    case DeferredNotify(ch) =>
      if GuardPasses(masks.notifications, ch) then SetSignal(st, BASE_OUTPUT_NOTIFICATION_CAP + ch, 0)
      else Logged(st, Rejected(ch))
    case DeferredIrqAck(ch) =>
      if GuardPasses(masks.irqs, ch) then SetSignal(st, BASE_IRQ_CAP + ch, IRQ_ACK_IRQ) else Logged(st, Rejected(ch))
  }

  function DoCalls(masks: Masks, st: State, calls: seq<Api>): State
    decreases |calls|
  {
    if calls == [] then st else DoCalls(masks, DoCall(masks, st, calls[0]), calls[1..])
  }

  function Flush(st: State): State {
    if st.haveSignal then Logged(st.(haveSignal := false), Send(st.signalCap, st.signalMsg)) else st
  }

  /** The system call that waits for the next message. */
  function Receive(st: State): State {
    if st.haveReply then Logged(Flush(st).(haveReply := false), ReplyRecv(st.replyTag))
    else if st.haveSignal then Logged(st.(haveSignal := false), NBSendRecv(st.signalCap, st.signalMsg))
    else Logged(st, Recv)
  }

  function OneNotified(masks: Masks, user: User, st: State, ch: nat): State {
    var st1 := Logged(st, EnterNotified(ch));
    Logged(DoCalls(masks, st1, user(st1.log).calls), Return(None))
  }

  function AllNotified(masks: Masks, user: User, st: State, ids: seq<nat>): State
    decreases |ids|
  {
    if ids == [] then st else AllNotified(masks, user, OneNotified(masks, user, st, ids[0]), ids[1..])
  }

  function Handle(masks: Masks, user: User, st: State, badge: nat, msg: Message): State {
    match Decode(badge)
    case Fault(child) =>
      var st1 := Logged(st, EnterFault(child, msg));
      var r := user(st1.log);
      var st2 := DoCalls(masks, st1, r.calls).(replyTag := r.reply, haveReply := r.resume);
      Logged(st2, Return(if r.resume then Some(r.reply) else None))
    case Protected(ch) =>
      var st1 := Logged(st, EnterProtected(ch, msg));
      var r := user(st1.log);
      Logged(DoCalls(masks, st1, r.calls).(replyTag := r.reply, haveReply := true), Return(Some(r.reply)))
    case Notified(ids) => AllNotified(masks, user, st, ids)
  }

  function StartAcks(masks: Masks, st: State, ids: seq<nat>): State
    decreases |ids|
  {
    if ids == [] then st else StartAcks(masks, DoCall(masks, st, IrqAck(ids[0])), ids[1..])
  }

  datatype Input = Input(badge: nat, msg: Message)

  /** The loop fed with these messages; afterwards it waits for the next one. */
  function Loop(masks: Masks, user: User, st: State, inputs: seq<Input>): State
    decreases |inputs|
  {
    if inputs == [] then Receive(st)
    else Loop(masks, user, Handle(masks, user, Receive(st), inputs[0].badge, inputs[0].msg), inputs[1..])
  }

  /** Everything from `init` on. */
  function Run(masks: Masks, user: User, passive: bool, inputs: seq<Input>): State {
    var st0 := State(false, 0, 0, false, 0, []);
    var st1 := DoCalls(masks, st0, user([]).calls);
    var st2 := if passive then SetSignal(st1, MONITOR_EP, 0) else st1;
    Loop(masks, user, StartAcks(masks, st2, BitsFrom(masks.irqs, 0)), inputs)
  }

  // ---- the program ----

  class ProtectionDomain {
    const masks: Masks
    const user: User
    const passive: bool
    var haveSignal: bool
    var signalCap: nat
    var signalMsg: nat
    var haveReply: bool
    var replyTag: Message
    var log: Log

    constructor (masks: Masks, user: User, passive: bool)
      ensures this.masks == masks && this.user == user && this.passive == passive
      ensures St() == State(false, 0, 0, false, 0, [])
    {
      this.masks, this.user, this.passive := masks, user, passive;
      haveSignal, signalCap, signalMsg, haveReply, replyTag, log := false, 0, 0, false, 0, [];
    }

    function St(): State
      reads this
    {
      State(haveSignal, signalCap, signalMsg, haveReply, replyTag, log)
    }

    method Emit(a: Action)
      modifies this`log
      ensures log == old(log) + [a]
    {
      log := log + [a];
    }

    method IrqAckNow(ch: nat)
      modifies this`log
      ensures St() == DoCall(masks, old(St()), IrqAck(ch))
    {
      if GuardPasses(masks.irqs, ch) {
        Emit(Ack(BASE_IRQ_CAP + ch));
      } else {
        Emit(Rejected(ch));
      }
    }

    method DeferNotify(ch: nat)
      modifies this
      ensures St() == DoCall(masks, old(St()), DeferredNotify(ch))
    {
      if !GuardPasses(masks.notifications, ch) {
        Emit(Rejected(ch));
        return;
      }
      haveSignal, signalMsg, signalCap := true, 0, BASE_OUTPUT_NOTIFICATION_CAP + ch;
      Emit(Deferred(signalCap, signalMsg));
    }

    method DeferIrqAck(ch: nat)
      modifies this
      ensures St() == DoCall(masks, old(St()), DeferredIrqAck(ch))
    {
      if !GuardPasses(masks.irqs, ch) {
        Emit(Rejected(ch));
        return;
      }
      haveSignal, signalMsg, signalCap := true, IRQ_ACK_IRQ, BASE_IRQ_CAP + ch;
      Emit(Deferred(signalCap, signalMsg));
    }

    /** The body of a user entry point. */
    method RunCalls(calls: seq<Api>)
      modifies this
      ensures St() == DoCalls(masks, old(St()), calls)
    {
      var i := 0;
      while i < |calls|
        invariant 0 <= i <= |calls|
        invariant DoCalls(masks, St(), calls[i..]) == DoCalls(masks, old(St()), calls)
      {
        match calls[i] {
          case Notify(ch) =>
            Emit(if GuardPasses(masks.notifications, ch) then Signal(BASE_OUTPUT_NOTIFICATION_CAP + ch) else Rejected(ch));
          case IrqAck(ch) => IrqAckNow(ch);
          case PpCall(ch, msg) =>
            Emit(if GuardPasses(masks.pps, ch) then Call(BASE_ENDPOINT_CAP + ch, msg) else Rejected(ch));
          case DeferredNotify(ch) => DeferNotify(ch);
          case DeferredIrqAck(ch) => DeferIrqAck(ch);
        }
        assert calls[i..][1..] == calls[i + 1..];
        i := i + 1;
      }
    }

    method DeferredFlush()
      modifies this
      ensures St() == Flush(old(St()))
    {
      if haveSignal {
        Emit(Send(signalCap, signalMsg));
        haveSignal := false;
      }
    }

    /** Waits for a message in one of three ways. */
    method WaitForMessage()
      modifies this
      ensures St() == Receive(old(St()))
    {
      if haveReply {
        DeferredFlush();
        Emit(ReplyRecv(replyTag));
      } else if haveSignal {
        Emit(NBSendRecv(signalCap, signalMsg));
        haveSignal := false;
      } else {
        Emit(Recv);
      }
      haveReply := false;
    }

    /** The shift loop over the bits of a notification word. */
    method CallNotified(word: nat)
      modifies this
      ensures St() == AllNotified(masks, user, old(St()), BitsFrom(word, 0))
    {
      var badge, idx, more := word, 0, true;
      while more
        invariant more || badge == 0
        invariant AllNotified(masks, user, St(), BitsFrom(badge, idx))
          == AllNotified(masks, user, old(St()), BitsFrom(word, 0))
        decreases badge, more
      {
        NextBit(badge, idx);
        if badge % 2 == 1 {
          Emit(EnterNotified(idx));
          var r := user(log);
          RunCalls(r.calls);
          Emit(Return(None));
        }
        badge, idx := badge / 2, idx + 1;
        more := badge != 0;
      }
    }

    /** Dispatches one received message. */
    method Dispatch(badge: nat, msg: Message)
      requires !haveReply
      modifies this
      ensures St() == Handle(masks, user, old(St()), badge, msg)
    {
      var isEndpoint := badge / 0x8000_0000_0000_0000;
      var isFault := Bit(badge, 62);
      if isFault {
        Emit(EnterFault(badge % 256, msg));
        var r := user(log);
        RunCalls(r.calls);
        replyTag := r.reply;
        haveReply := r.resume;
        Emit(Return(if r.resume then Some(r.reply) else None));
      } else if isEndpoint != 0 {
        haveReply := true;
        Emit(EnterProtected(badge % 64, msg));
        var r := user(log);
        ghost var st := St();
        RunCalls(r.calls);
        HaveReplyKept(masks, st.(haveReply := false), r.calls);
        replyTag := r.reply;
        Emit(Return(Some(r.reply)));
      } else {
        CallNotified(badge);
      }
    }

    method AckAtStart()
      modifies this
      ensures St() == StartAcks(masks, old(St()), BitsFrom(masks.irqs, 0))
    {
      var irqsToAck, idx, more := masks.irqs, 0, true;
      while more
        invariant more || irqsToAck == 0
        invariant StartAcks(masks, St(), BitsFrom(irqsToAck, idx)) == StartAcks(masks, old(St()), BitsFrom(masks.irqs, 0))
        decreases irqsToAck, more
      {
        NextBit(irqsToAck, idx);
        if irqsToAck % 2 == 1 {
          IrqAckNow(idx);
        }
        irqsToAck, idx := irqsToAck / 2, idx + 1;
        more := irqsToAck != 0;
      }
    }

    /** The loop fed with the given messages. */
    method HandlerLoop(inputs: seq<Input>)
      requires !haveReply
      modifies this
      ensures St() == Loop(masks, user, StartAcks(masks, old(St()), BitsFrom(masks.irqs, 0)), inputs)
    {
      AckAtStart();
      var i := 0;
      while i < |inputs|
        invariant 0 <= i <= |inputs|
        invariant Loop(masks, user, St(), inputs[i..])
          == Loop(masks, user, StartAcks(masks, old(St()), BitsFrom(masks.irqs, 0)), inputs)
      {
        WaitForMessage();
        Dispatch(inputs[i].badge, inputs[i].msg);
        assert inputs[i..][0] == inputs[i] && inputs[i..][1..] == inputs[i + 1..];
        i := i + 1;
      }
      WaitForMessage();
    }

    /** `main`: runs `init`, arranges the hand-off of a passive domain, enters the loop. */
    method Boot(inputs: seq<Input>)
      requires St() == State(false, 0, 0, false, 0, [])
      modifies this
      ensures St() == Run(masks, user, passive, inputs)
    {
      var r := user([]);
      ghost var st := St();
      RunCalls(r.calls);
      HaveReplyKept(masks, st, r.calls);
      if passive {
        haveSignal, signalMsg, signalCap := true, 0, MONITOR_EP;
        Emit(Deferred(MONITOR_EP, 0));
      }
      HandlerLoop(inputs);
    }
  }

  lemma NextBit(word: nat, base: nat)
    ensures word % 2 == 1 ==>
      (BitsFrom(word, base) != [] && BitsFrom(word, base)[0] == base && BitsFrom(word, base)[1..] == BitsFrom(word / 2, base + 1))
    ensures word % 2 == 0 ==> BitsFrom(word, base) == BitsFrom(word / 2, base + 1)
  {
    assert word % 2 == 1 ==> BitsFrom(word, base) == [base] + BitsFrom(word / 2, base + 1);
    assert word % 2 == 0 ==> BitsFrom(word, base) == [] + BitsFrom(word / 2, base + 1);
  }

  /** API calls leave the pending reply alone and never wait for a message. */
  lemma {:induction false} HaveReplyKept(masks: Masks, st: State, calls: seq<Api>)
    ensures var st2 := DoCalls(masks, st, calls); st2.haveReply == st.haveReply && st2.replyTag == st.replyTag
    ensures DoCalls(masks, st.(haveReply := true), calls) == DoCalls(masks, st, calls).(haveReply := true)
    decreases |calls|
  {
    if calls != [] {
      HaveReplyKept(masks, DoCall(masks, st, calls[0]), calls[1..]);
      assert DoCall(masks, st.(haveReply := true), calls[0]) == DoCall(masks, st, calls[0]).(haveReply := true);
    }
  }

  // ---- what holds at every point of a run ----

  /** Which entry point is running. */
  datatype Phase = Idle | InNotified | InProtected | InFault

  /** The reply that is owed, the signal that is deferred, and where the domain is. */
  datatype Due = Due(owed: Option<Message>, pending: Option<(nat, nat)>, phase: Phase)

  predicate IsReceive(a: Action) {
    a.Recv? || a.NBSendRecv? || a.ReplyRecv?
  }

  /** The action allowed in this situation, and the situation it leads to: a domain receives
      only with nothing owed and nothing deferred that the receive does not settle itself. */
  function Step(d: Due, a: Action): Option<Due> {
    match a
    case Deferred(cptr, tag) => Some(d.(pending := Some((cptr, tag))))
    case Send(cptr, tag) => if d.pending == Some((cptr, tag)) then Some(d.(pending := None)) else None
    case Recv => if d == Due(None, None, Idle) then Some(d) else None
    case NBSendRecv(cptr, tag) => if d == Due(None, Some((cptr, tag)), Idle) then Some(Due(None, None, Idle)) else None
    case ReplyRecv(reply) => if d == Due(Some(reply), None, Idle) then Some(Due(None, None, Idle)) else None
    case EnterNotified(_) => if d.owed.None? && d.phase.Idle? then Some(d.(phase := InNotified)) else None
    case EnterProtected(_, _) => if d.owed.None? && d.phase.Idle? then Some(d.(phase := InProtected)) else None
    case EnterFault(_, _) => if d.owed.None? && d.phase.Idle? then Some(d.(phase := InFault)) else None
    case Return(None) => if d.owed.None? && (d.phase.InNotified? || d.phase.InFault?) then Some(d.(phase := Idle)) else None
    case Return(Some(reply)) =>
      if d.owed.None? && (d.phase.InProtected? || d.phase.InFault?) then Some(d.(owed := Some(reply), phase := Idle)) else None
    case _ => Some(d)
  }

  /** The situation after a log, if every action of it was allowed. */
  function Track(log: Log): Option<Due> {
    if log == [] then Some(Due(None, None, Idle))
    else
      match Track(log[..|log| - 1])
      case None => None
      case Some(d) => Step(d, log[|log| - 1])
  }

  function DueOf(st: State, phase: Phase): Due {
    Due(if st.haveReply then Some(st.replyTag) else None,
        if st.haveSignal then Some((st.signalCap, st.signalMsg)) else None, phase)
  }

  ghost predicate Linked(st: State, phase: Phase) {
    Track(st.log) == Some(DueOf(st, phase))
  }

  lemma TrackLast(log: Log, a: Action)
    ensures Track(log + [a]) == (match Track(log) case None => None case Some(d) => Step(d, a))
  {
    assert (log + [a])[..|log|] == log;
  }

  /** The one action of an API call. */
  function ActionOf(masks: Masks, call: Api): Action {
    match call
    case Notify(ch) =>
      if GuardPasses(masks.notifications, ch) then Signal(BASE_OUTPUT_NOTIFICATION_CAP + ch) else Rejected(ch)
    case IrqAck(ch) => if GuardPasses(masks.irqs, ch) then Ack(BASE_IRQ_CAP + ch) else Rejected(ch)
    case PpCall(ch, msg) => if GuardPasses(masks.pps, ch) then Call(BASE_ENDPOINT_CAP + ch, msg) else Rejected(ch)
    case DeferredNotify(ch) =>
      if GuardPasses(masks.notifications, ch) then Deferred(BASE_OUTPUT_NOTIFICATION_CAP + ch, 0) else Rejected(ch)
    case DeferredIrqAck(ch) =>
      if GuardPasses(masks.irqs, ch) then Deferred(BASE_IRQ_CAP + ch, IRQ_ACK_IRQ) else Rejected(ch)
  }

  lemma CallLinked(masks: Masks, st: State, call: Api, phase: Phase)
    requires Linked(st, phase)
    ensures Linked(DoCall(masks, st, call), phase)
  {
    CallIsLogged(masks, st, call);
    TrackLast(st.log, ActionOf(masks, call));
  }

  /** A library call is one action. */
  lemma CallIsLogged(masks: Masks, st: State, call: Api)
    ensures DoCall(masks, st, call).log == st.log + [ActionOf(masks, call)]
  {
  }

  lemma {:induction false} CallsLinked(masks: Masks, st: State, calls: seq<Api>, phase: Phase)
    requires Linked(st, phase)
    ensures Linked(DoCalls(masks, st, calls), phase)
    decreases |calls|
  {
    if calls != [] {
      CallLinked(masks, st, calls[0], phase);
      CallsLinked(masks, DoCall(masks, st, calls[0]), calls[1..], phase);
    }
  }

  lemma ReceiveLinked(st: State)
    requires Linked(st, Idle)
    ensures Linked(Receive(st), Idle) && !Receive(st).haveReply
  {
    TrackLast(st.log, Send(st.signalCap, st.signalMsg));
    TrackLast(Flush(st).log, ReplyRecv(st.replyTag));
    TrackLast(st.log, NBSendRecv(st.signalCap, st.signalMsg));
    TrackLast(st.log, Recv);
  }

  lemma OneNotifiedLinked(masks: Masks, user: User, st: State, ch: nat)
    requires Linked(st, Idle) && !st.haveReply
    ensures Linked(OneNotified(masks, user, st, ch), Idle) && !OneNotified(masks, user, st, ch).haveReply
  {
    var st1 := Logged(st, EnterNotified(ch));
    TrackLast(st.log, EnterNotified(ch));
    CallsLinked(masks, st1, user(st1.log).calls, InNotified);
    HaveReplyKept(masks, st1, user(st1.log).calls);
    TrackLast(DoCalls(masks, st1, user(st1.log).calls).log, Return(None));
  }

  lemma {:induction false} AllNotifiedLinked(masks: Masks, user: User, st: State, ids: seq<nat>)
    requires Linked(st, Idle) && !st.haveReply
    ensures Linked(AllNotified(masks, user, st, ids), Idle)
    decreases |ids|
  {
    if ids != [] {
      OneNotifiedLinked(masks, user, st, ids[0]);
      AllNotifiedLinked(masks, user, OneNotified(masks, user, st, ids[0]), ids[1..]);
    }
  }

  lemma HandleLinked(masks: Masks, user: User, st: State, badge: nat, msg: Message)
    requires Linked(st, Idle) && !st.haveReply
    ensures Linked(Handle(masks, user, st, badge, msg), Idle)
  {
    match Decode(badge)
    case Fault(child) =>
      BodyLinked(masks, user, st, EnterFault(child, msg), InFault);
    case Protected(ch) =>
      BodyLinked(masks, user, st, EnterProtected(ch, msg), InProtected);
    case Notified(ids) =>
      AllNotifiedLinked(masks, user, st, ids);
  }

  /** An entry point that answers: entered with nothing owed, it leaves its answer owed. */
  lemma BodyLinked(masks: Masks, user: User, st: State, entry: Action, phase: Phase)
    requires Linked(st, Idle) && !st.haveReply
    requires (entry.EnterFault? && phase == InFault) || (entry.EnterProtected? && phase == InProtected)
    ensures var st1 := Logged(st, entry);
      var r := user(st1.log);
      var st2 := DoCalls(masks, st1, r.calls);
      && Linked(Logged(st2.(replyTag := r.reply, haveReply := true), Return(Some(r.reply))), Idle)
      && (phase == InFault ==> Linked(Logged(st2.(replyTag := r.reply, haveReply := false), Return(None)), Idle))
  {
    var st1 := Logged(st, entry);
    ActionLinked(st, entry, st1, Idle, phase);
    var r := user(st1.log);
    CallsLinked(masks, st1, r.calls, phase);
    HaveReplyKept(masks, st1, r.calls);
    ReturnLinked(DoCalls(masks, st1, r.calls), phase, r.reply);
  }

  /** One more allowed action. */
  lemma ActionLinked(st: State, a: Action, st2: State, phase: Phase, phase2: Phase)
    requires Linked(st, phase) && st2.log == st.log + [a]
    requires Step(DueOf(st, phase), a) == Some(DueOf(st2, phase2))
    ensures Linked(st2, phase2)
  {
    TrackLast(st.log, a);
  }

  lemma ReturnLinked(st: State, phase: Phase, reply: Message)
    requires Linked(st, phase) && !st.haveReply && (phase == InFault || phase == InProtected)
    ensures Linked(Logged(st.(replyTag := reply, haveReply := true), Return(Some(reply))), Idle)
    ensures phase == InFault ==> Linked(Logged(st.(replyTag := reply, haveReply := false), Return(None)), Idle)
  {
    ActionLinked(st, Return(Some(reply)), Logged(st.(replyTag := reply, haveReply := true), Return(Some(reply))), phase, Idle);
    if phase == InFault {
      ActionLinked(st, Return(None), Logged(st.(replyTag := reply, haveReply := false), Return(None)), phase, Idle);
    }
  }

  lemma {:induction false} LoopLinked(masks: Masks, user: User, st: State, inputs: seq<Input>)
    requires Linked(st, Idle)
    ensures Linked(Loop(masks, user, st, inputs), Idle)
    decreases |inputs|
  {
    ReceiveLinked(st);
    if inputs != [] {
      HandleLinked(masks, user, Receive(st), inputs[0].badge, inputs[0].msg);
      LoopLinked(masks, user, Handle(masks, user, Receive(st), inputs[0].badge, inputs[0].msg), inputs[1..]);
    }
  }

  lemma {:induction false} StartAcksLinked(masks: Masks, st: State, ids: seq<nat>)
    requires Linked(st, Idle)
    ensures Linked(StartAcks(masks, st, ids), Idle)
    decreases |ids|
  {
    if ids != [] {
      CallLinked(masks, st, IrqAck(ids[0]), Idle);
      StartAcksLinked(masks, DoCall(masks, st, IrqAck(ids[0])), ids[1..]);
    }
  }

  /** Whatever the user's code does and whatever arrives, every action of a run is allowed. */
  lemma RunIsAllowed(masks: Masks, user: User, passive: bool, inputs: seq<Input>)
    ensures Track(Run(masks, user, passive, inputs).log).Some?
  {
    var st0 := State(false, 0, 0, false, 0, []);
    var st1 := DoCalls(masks, st0, user([]).calls);
    CallsLinked(masks, st0, user([]).calls, Idle);
    var st2 := if passive then SetSignal(st1, MONITOR_EP, 0) else st1;
    TrackLast(st1.log, Deferred(MONITOR_EP, 0));
    StartAcksLinked(masks, st2, BitsFrom(masks.irqs, 0));
    LoopLinked(masks, user, StartAcks(masks, st2, BitsFrom(masks.irqs, 0)), inputs);
  }

  // ---- what that means for replies and signals ----

  lemma {:induction false} TrackPrefix(log: Log, n: nat)
    requires Track(log).Some? && n <= |log|
    ensures Track(log[..n]).Some?
    decreases |log|
  {
    if n == |log| {
      assert log[..n] == log;
    } else {
      TrackPrefix(log[..|log| - 1], n);
      assert log[..|log| - 1][..n] == log[..n];
    }
  }

  /** The situation before action n of an allowed log, and the step it takes. */
  lemma TrackAt(log: Log, n: nat) returns (d: Due)
    requires Track(log).Some? && n < |log|
    ensures Track(log[..n]) == Some(d) && Track(log[..n + 1]) == Step(d, log[n]) && Step(d, log[n]).Some?
  {
    TrackPrefix(log, n);
    TrackPrefix(log, n + 1);
    d := Track(log[..n]).value;
    assert log[..n + 1][..n] == log[..n];
  }

  /** The action sends the deferred signal. */
  predicate SendsSignal(a: Action, cptr: nat, tag: nat) {
    a == Send(cptr, tag) || a == NBSendRecv(cptr, tag)
  }

  predicate IsSend(a: Action) {
    a.Send? || a.NBSendRecv?
  }

  /** Only action k between i and n, exclusive, sends a signal, and it sends this one. */
  ghost predicate OnlySend(log: Log, i: nat, n: nat, k: nat, cptr: nat, tag: nat) {
    && i < k < n <= |log| && SendsSignal(log[k], cptr, tag)
    && forall m :: i < m < n && IsSend(log[m]) ==> m == k
  }

  ghost predicate SentOnce(log: Log, i: nat, n: nat, cptr: nat, tag: nat) {
    exists k: nat :: OnlySend(log, i, n, k, cptr, tag)
  }

  ghost predicate NoneBetween(log: Log, i: nat, n: nat) {
    n <= |log| && forall m :: i < m < n ==> !IsReceive(log[m]) && !log[m].Deferred?
  }

  ghost predicate SentOrPending(log: Log, i: nat, n: nat, cptr: nat, tag: nat) {
    n <= |log| &&
    match Track(log[..n])
    case None => false
    case Some(d) =>
      || (d.pending == Some((cptr, tag)) && forall m :: i < m < n ==> !IsSend(log[m]))
      || (d.pending == None && SentOnce(log, i, n, cptr, tag))
  }

  lemma {:induction false} PendingUntilSent(log: Log, i: nat, n: nat, cptr: nat, tag: nat)
    requires Track(log).Some? && i < n <= |log| && log[i] == Deferred(cptr, tag) && NoneBetween(log, i, n)
    ensures SentOrPending(log, i, n, cptr, tag)
    decreases n
  {
    var d := TrackAt(log, n - 1);
    if n - 1 > i {
      PendingUntilSent(log, i, n - 1, cptr, tag);
      if d.pending.None? {
        var k: nat :| OnlySend(log, i, n - 1, k, cptr, tag);
        assert OnlySend(log, i, n, k, cptr, tag);
      } else if IsSend(log[n - 1]) {
        assert OnlySend(log, i, n, n - 1, cptr, tag);
      }
    }
  }

  /** A deferred signal that no later one replaces is sent exactly once, no later than the
      next receive. */
  lemma DeferredSentOnce(log: Log, i: nat, j: nat, cptr: nat, tag: nat)
    requires Track(log).Some? && i < j < |log|
    requires log[i] == Deferred(cptr, tag) && IsReceive(log[j]) && NoneBetween(log, i, j)
    ensures SentOnce(log, i, j + 1, cptr, tag)
  {
    PendingUntilSent(log, i, j, cptr, tag);
    var d := TrackAt(log, j);
    if d.pending.None? {
      var k: nat :| OnlySend(log, i, j, k, cptr, tag);
      assert OnlySend(log, i, j + 1, k, cptr, tag);
    } else {
      assert OnlySend(log, i, j + 1, j, cptr, tag);
    }
  }

  /** Action i is the latest deferral before k, and nothing was sent since. */
  ghost predicate CauseOf(log: Log, i: nat, k: nat, cptr: nat, tag: nat) {
    && i < k <= |log| && log[i] == Deferred(cptr, tag)
    && forall m :: i < m < k ==> !log[m].Deferred? && !IsSend(log[m])
  }

  lemma {:induction false} PendingHasCause(log: Log, k: nat, cptr: nat, tag: nat)
    requires Track(log).Some? && k <= |log|
    requires match Track(log[..k]) case Some(d) => d.pending == Some((cptr, tag)) case None => false
    ensures exists i: nat :: CauseOf(log, i, k, cptr, tag)
    decreases k
  {
    assert k > 0;
    var d := TrackAt(log, k - 1);
    if log[k - 1].Deferred? {
      assert CauseOf(log, k - 1, k, cptr, tag);
    } else {
      PendingHasCause(log, k - 1, cptr, tag);
      var i: nat :| CauseOf(log, i, k - 1, cptr, tag);
      assert CauseOf(log, i, k, cptr, tag);
    }
  }

  /** Every signal that is sent was the latest one deferred, and had not been sent yet. */
  lemma SendHasCause(log: Log, k: nat, cptr: nat, tag: nat)
    requires Track(log).Some? && k < |log| && SendsSignal(log[k], cptr, tag)
    ensures exists i: nat :: CauseOf(log, i, k, cptr, tag)
  {
    var d := TrackAt(log, k);
    PendingHasCause(log, k, cptr, tag);
  }

  ghost predicate NoReceive(log: Log, i: nat, n: nat) {
    n <= |log| && forall m :: i < m < n ==> !IsReceive(log[m])
  }

  lemma {:induction false} OwedUntilReceive(log: Log, i: nat, n: nat, reply: Message)
    requires Track(log).Some? && i < n <= |log| && log[i] == Return(Some(reply)) && NoReceive(log, i, n)
    ensures match Track(log[..n]) case Some(d) => d.owed == Some(reply) && d.phase == Idle case None => false
    ensures forall m :: i < m < n ==> !log[m].Return? && !log[m].EnterProtected? && !log[m].EnterFault? && !log[m].EnterNotified?
    decreases n
  {
    var d := TrackAt(log, n - 1);
    if n - 1 > i {
      OwedUntilReceive(log, i, n - 1, reply);
    }
  }

  /** An answer is sent by the very next receive, and nothing else runs before it. */
  lemma AnswerIsSent(log: Log, i: nat, j: nat, reply: Message)
    requires Track(log).Some? && i < j < |log| && log[i] == Return(Some(reply))
    requires IsReceive(log[j]) && NoReceive(log, i, j)
    ensures log[j] == ReplyRecv(reply)
  {
    OwedUntilReceive(log, i, j, reply);
    var d := TrackAt(log, j);
  }

  ghost predicate AnswerBetween(log: Log, e: nat, n: nat, i: nat) {
    e < i < n <= |log| && log[i].Return? && log[i].answer.Some?
  }

  lemma {:induction false} ProtectedOpen(log: Log, e: nat, n: nat)
    requires Track(log).Some? && e < n <= |log| && log[e].EnterProtected? && NoReceive(log, e, n)
    ensures match Track(log[..n])
      case None => false
      case Some(d) => d.phase == InProtected || exists i: nat :: AnswerBetween(log, e, n, i)
    decreases n
  {
    var d := TrackAt(log, n - 1);
    if n - 1 > e {
      ProtectedOpen(log, e, n - 1);
      if d.phase == InProtected {
        if log[n - 1].Return? {
          assert AnswerBetween(log, e, n, n - 1);
        }
      } else {
        var i: nat :| AnswerBetween(log, e, n - 1, i);
        assert AnswerBetween(log, e, n, i);
      }
    }
  }

  /** A protected call is answered by the next receive, with the reply of its entry point. */
  lemma ProtectedIsAnswered(log: Log, e: nat, j: nat)
    requires Track(log).Some? && e < j < |log| && log[e].EnterProtected?
    requires IsReceive(log[j]) && NoReceive(log, e, j)
    ensures exists i: nat :: AnswerBetween(log, e, j, i) && log[j] == ReplyRecv(log[i].answer.value)
  {
    ProtectedOpen(log, e, j);
    var d := TrackAt(log, j);
    var i: nat :| AnswerBetween(log, e, j, i);
    AnswerIsSent(log, i, j, log[i].answer.value);
  }

  ghost predicate AnswerOf(log: Log, i: nat, j: nat, reply: Message) {
    i < j <= |log| && log[i] == Return(Some(reply)) && NoReceive(log, i, j)
  }

  lemma {:induction false} OwedHasCause(log: Log, j: nat, reply: Message)
    requires Track(log).Some? && j <= |log|
    requires match Track(log[..j]) case Some(d) => d.owed == Some(reply) case None => false
    ensures exists i: nat :: AnswerOf(log, i, j, reply)
    decreases j
  {
    assert j > 0;
    var d := TrackAt(log, j - 1);
    if d.owed.None? {
      assert AnswerOf(log, j - 1, j, reply);
    } else {
      OwedHasCause(log, j - 1, reply);
      var i: nat :| AnswerOf(log, i, j - 1, reply);
      assert AnswerOf(log, i, j, reply);
    }
  }

  /** A reply is sent only for an answer given since the previous receive. */
  lemma ReplyHasCause(log: Log, j: nat, reply: Message)
    requires Track(log).Some? && j < |log| && log[j] == ReplyRecv(reply)
    ensures exists i: nat :: AnswerOf(log, i, j, reply)
  {
    var d := TrackAt(log, j);
    OwedHasCause(log, j, reply);
  }

  // ---- which entry points run ----

  predicate IsEntry(a: Action) {
    a.EnterNotified? || a.EnterProtected? || a.EnterFault?
  }

  function Entries(log: Log): Log {
    if log == [] then []
    else Entries(log[..|log| - 1]) + (if IsEntry(log[|log| - 1]) then [log[|log| - 1]] else [])
  }

  lemma EntriesLast(log: Log, a: Action)
    ensures Entries(log + [a]) == Entries(log) + (if IsEntry(a) then [a] else [])
  {
    assert (log + [a])[..|log|] == log;
  }

  lemma OneCallEntersNothing(masks: Masks, st: State, call: Api)
    ensures Entries(DoCall(masks, st, call).log) == Entries(st.log)
  {
    CallIsLogged(masks, st, call);
    EntriesLast(st.log, ActionOf(masks, call));
  }

  lemma {:induction false} CallsEnterNothing(masks: Masks, st: State, calls: seq<Api>)
    ensures Entries(DoCalls(masks, st, calls).log) == Entries(st.log)
    decreases |calls|
  {
    if calls != [] {
      OneCallEntersNothing(masks, st, calls[0]);
      CallsEnterNothing(masks, DoCall(masks, st, calls[0]), calls[1..]);
    }
  }

  function NotifiedEntries(ids: seq<nat>): Log {
    seq(|ids|, i requires 0 <= i < |ids| => EnterNotified(ids[i]))
  }

  /** The entry points that a received badge calls for. */
  function EntriesFor(badge: nat, msg: Message): Log {
    match Decode(badge)
    case Fault(child) => [EnterFault(child, msg)]
    case Protected(ch) => [EnterProtected(ch, msg)]
    case Notified(ids) => NotifiedEntries(ids)
  }

  lemma OneNotifiedEntries(masks: Masks, user: User, st: State, ch: nat)
    ensures Entries(OneNotified(masks, user, st, ch).log) == Entries(st.log) + [EnterNotified(ch)]
  {
    var st1 := Logged(st, EnterNotified(ch));
    EntriesLast(st.log, EnterNotified(ch));
    CallsEnterNothing(masks, st1, user(st1.log).calls);
    EntriesLast(DoCalls(masks, st1, user(st1.log).calls).log, Return(None));
  }

  lemma {:induction false} AllNotifiedEntries(masks: Masks, user: User, st: State, ids: seq<nat>)
    ensures Entries(AllNotified(masks, user, st, ids).log) == Entries(st.log) + NotifiedEntries(ids)
    decreases |ids|
  {
    if ids != [] {
      OneNotifiedEntries(masks, user, st, ids[0]);
      AllNotifiedEntries(masks, user, OneNotified(masks, user, st, ids[0]), ids[1..]);
      FirstEntry(ids);
    }
  }

  lemma FirstEntry(ids: seq<nat>)
    requires ids != []
    ensures NotifiedEntries(ids) == [EnterNotified(ids[0])] + NotifiedEntries(ids[1..])
  {
  }

  /** One message runs exactly the entry points its badge stands for, in order. */
  lemma HandleEntries(masks: Masks, user: User, st: State, badge: nat, msg: Message)
    ensures Entries(Handle(masks, user, st, badge, msg).log) == Entries(st.log) + EntriesFor(badge, msg)
  {
    match Decode(badge)
    case Fault(child) =>
      EntriesOfOne(masks, user, st, EnterFault(child, msg));
    case Protected(ch) =>
      EntriesOfOne(masks, user, st, EnterProtected(ch, msg));
    case Notified(ids) =>
      AllNotifiedEntries(masks, user, st, ids);
  }

  lemma EntriesOfOne(masks: Masks, user: User, st: State, entry: Action)
    requires IsEntry(entry)
    ensures forall answer ::
      Entries(DoCalls(masks, Logged(st, entry), user(st.log + [entry]).calls).log + [Return(answer)])
        == Entries(st.log) + [entry]
  {
    var st1 := Logged(st, entry);
    var st2 := DoCalls(masks, st1, user(st1.log).calls);
    EntriesLast(st.log, entry);
    CallsEnterNothing(masks, st1, user(st1.log).calls);
    forall answer
      ensures Entries(st2.log + [Return(answer)]) == Entries(st.log) + [entry]
    {
      EntriesLast(st2.log, Return(answer));
    }
  }

  function AllEntries(inputs: seq<Input>): Log {
    if inputs == [] then [] else EntriesFor(inputs[0].badge, inputs[0].msg) + AllEntries(inputs[1..])
  }

  lemma ReceiveEntersNothing(st: State)
    ensures Entries(Receive(st).log) == Entries(st.log)
  {
    if st.haveReply {
      EntriesLast(st.log, Send(st.signalCap, st.signalMsg));
      EntriesLast(Flush(st).log, ReplyRecv(st.replyTag));
    } else if st.haveSignal {
      EntriesLast(st.log, NBSendRecv(st.signalCap, st.signalMsg));
    } else {
      EntriesLast(st.log, Recv);
    }
  }

  /** The loop runs exactly the entry points of its messages, in the order of arrival. */
  lemma {:induction false} LoopEntries(masks: Masks, user: User, st: State, inputs: seq<Input>)
    ensures Entries(Loop(masks, user, st, inputs).log) == Entries(st.log) + AllEntries(inputs)
    decreases |inputs|
  {
    ReceiveEntersNothing(st);
    if inputs == [] {
      assert Entries(st.log) + [] == Entries(st.log);
    } else {
      var first, rest := EntriesFor(inputs[0].badge, inputs[0].msg), AllEntries(inputs[1..]);
      var st2 := Handle(masks, user, Receive(st), inputs[0].badge, inputs[0].msg);
      HandleEntries(masks, user, Receive(st), inputs[0].badge, inputs[0].msg);
      LoopEntries(masks, user, st2, inputs[1..]);
      Regroup(Entries(st.log), first, rest);
    }
  }

  lemma Regroup(a: Log, b: Log, c: Log)
    ensures (a + b) + c == a + (b + c)
  {
  }

  // ---- start-up ----

  function Acks(ids: seq<nat>): Log {
    seq(|ids|, i requires 0 <= i < |ids| => if ids[i] <= 61 then Ack(BASE_IRQ_CAP + ids[i]) else Rejected(ids[i]))
  }

  lemma {:induction false} StartAcksLog(masks: Masks, st: State, ids: seq<nat>)
    requires forall i :: 0 <= i < |ids| ==> Bit(masks.irqs, ids[i])
    ensures StartAcks(masks, st, ids) == st.(log := st.log + Acks(ids))
    decreases |ids|
  {
    if ids != [] {
      StartAcksLog(masks, DoCall(masks, st, IrqAck(ids[0])), ids[1..]);
      assert Acks(ids) == Acks([ids[0]]) + Acks(ids[1..]);
    }
  }

  /** Start-up acknowledges exactly the interrupts of the mask, in ascending order. */
  lemma StartAcksAreTheMask(masks: Masks, st: State)
    requires forall i: nat :: 62 <= i ==> !Bit(masks.irqs, i)
    ensures var ids := BitsFrom(masks.irqs, 0);
      && StartAcks(masks, st, ids).log == st.log + seq(|ids|, i requires 0 <= i < |ids| => Ack(BASE_IRQ_CAP + ids[i]))
      && Ascending(ids) && forall i: nat :: i in ids <==> Bit(masks.irqs, i)
  {
    var ids := BitsFrom(masks.irqs, 0);
    forall i: nat
      ensures i in ids <==> Bit(masks.irqs, i)
    {
      BitsFromAreBits(masks.irqs, 0, i);
    }
    BitsFromAscend(masks.irqs, 0);
    forall i | 0 <= i < |ids|
      ensures Bit(masks.irqs, ids[i]) && ids[i] <= 61
    {
      assert ids[i] in ids;
    }
    StartAcksLog(masks, st, ids);
    assert Acks(ids) == seq(|ids|, i requires 0 <= i < |ids| => Ack(BASE_IRQ_CAP + ids[i]));
  }

  /** A passive domain hands itself over to the monitor, whatever `init` had deferred: the
      hand-off replaces that signal and is what the first receive sends. */
  lemma {:induction false} PassiveHandOff(masks: Masks, user: User, inputs: seq<Input>)
    ensures var st1 := DoCalls(masks, State(false, 0, 0, false, 0, []), user([]).calls);
      var st2 := StartAcks(masks, SetSignal(st1, MONITOR_EP, 0), BitsFrom(masks.irqs, 0));
      && Run(masks, user, true, inputs) == Loop(masks, user, st2, inputs)
      && Receive(st2).log == st2.log + [NBSendRecv(MONITOR_EP, 0)]
  {
    var st0 := State(false, 0, 0, false, 0, []);
    var st1 := DoCalls(masks, st0, user([]).calls);
    HaveReplyKept(masks, st0, user([]).calls);
    AcksKeepSignal(masks, SetSignal(st1, MONITOR_EP, 0), BitsFrom(masks.irqs, 0));
  }

  lemma {:induction false} AcksKeepSignal(masks: Masks, st: State, ids: seq<nat>)
    ensures StartAcks(masks, st, ids).(log := []) == st.(log := [])
    decreases |ids|
  {
    if ids != [] {
      AcksKeepSignal(masks, DoCall(masks, st, IrqAck(ids[0])), ids[1..]);
    }
  }
}
