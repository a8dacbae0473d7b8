/** From the capabilities that the tool installs to the entry points that a domain runs:
    tool/microkit/src/capdl/builder.rs and libmicrokit/src/main.c together. */
module EndToEnd {
  import opened Words
  import opened MemoryRegions
  import opened Channels
  import opened CapSpaces
  import opened Events
  import opened HandlerLoop

  /** What reaches a domain: signals of a set of sources, a call over a channel, or the fault of
      a child. */
  datatype Arrival = Signalled(pending: seq<Source>) | Called(k: nat, b: bool) | Faulted(child: nat)

  /** The badge is that of the capabilities through which the arrival came. */
  ghost predicate Arrives(sys: System, spaces: Spaces, p: nat, a: Arrival, badge: nat)
    requires p < |sys.pds|
  {
    match a
    case Signalled(pending) => AllSignal(sys, p, pending) && badge == OrBadges(sys, spaces, p, pending)
    case Called(k, b) =>
      && k < |sys.channels| && sys.channels[k].At(b).pp && sys.channels[k].At(!b).pd == p
      && Reached(spaces, sys.channels[k].At(b).pd, CapSpaces.BASE_OUTPUT_ENDPOINT_CAP + sys.channels[k].At(b).id)
         == Some(EpCap(p, badge))
    case Faulted(child) =>
      && child < |sys.pds| && sys.pds[child].parent == Some(p)
      && Reached(spaces, child, CapSpaces.FAULT_EP_CAP) == Some(EpCap(p, badge))
  }

  /** The entry points that the arrival stands for. */
  ghost predicate Enters(sys: System, p: nat, a: Arrival, msg: Message, entries: Log)
    requires p < |sys.pds|
  {
    match a
    case Signalled(pending) => exists ids: seq<nat> :: NotifiedFor(sys, p, pending, ids, entries)
    case Called(k, b) => k < |sys.channels| && entries == [EnterProtected(sys.channels[k].At(!b).id, msg)]
    case Faulted(child) => child < |sys.pds| && entries == [EnterFault(sys.pds[child].childId % 256, msg)]
  }

  ghost predicate NotifiedFor(sys: System, p: nat, pending: seq<Source>, ids: seq<nat>, entries: Log)
    requires p < |sys.pds|
  {
    NotifiesAll(Notified(ids), sys, p, pending) && entries == NotifiedEntries(ids)
  }

  lemma ArrivalEnters(sys: System, spaces: Spaces, p: nat, a: Arrival, badge: nat, msg: Message)
    requires Accepted(sys) && NoDoubleNotify(sys) && Built(sys, spaces) && p < |sys.pds|
    requires Arrives(sys, spaces, p, a, badge)
    ensures Enters(sys, p, a, msg, EntriesFor(badge, msg))
  {
    match a
    case Signalled(pending) => SignalsEnter(sys, spaces, p, pending, badge, msg);
    case Called(k, b) => CallEnters(sys, spaces, p, k, b, badge, msg);
    case Faulted(child) => FaultEnters(sys, spaces, p, child, badge, msg);
  }

  lemma SignalsEnter(sys: System, spaces: Spaces, p: nat, pending: seq<Source>, badge: nat, msg: Message)
    requires Accepted(sys) && NoDoubleNotify(sys) && Built(sys, spaces) && p < |sys.pds|
    requires Arrives(sys, spaces, p, Signalled(pending), badge)
    ensures Enters(sys, p, Signalled(pending), msg, EntriesFor(badge, msg))
  {
    SignalsDelivered(sys, spaces, p, pending);
    DecodedEntries(sys, p, pending, Decode(badge), badge, msg);
  }

  lemma DecodedEntries(sys: System, p: nat, pending: seq<Source>, e: Event, badge: nat, msg: Message)
    requires p < |sys.pds| && e == Decode(badge) && NotifiesAll(e, sys, p, pending)
    ensures Enters(sys, p, Signalled(pending), msg, EntriesFor(badge, msg))
  {
    match e
    case Notified(ids) => assert NotifiedFor(sys, p, pending, ids, EntriesFor(badge, msg));
  }

  lemma CallEnters(sys: System, spaces: Spaces, p: nat, k: nat, b: bool, badge: nat, msg: Message)
    requires Accepted(sys) && NoDoubleNotify(sys) && Built(sys, spaces) && p < |sys.pds|
    requires Arrives(sys, spaces, p, Called(k, b), badge)
    ensures Enters(sys, p, Called(k, b), msg, EntriesFor(badge, msg))
  {
    var caller, callee := sys.channels[k].At(b), sys.channels[k].At(!b);
    CallEndToEnd(sys, spaces, k, b);
    CallDecodes(Reached(spaces, caller.pd, CapSpaces.BASE_OUTPUT_ENDPOINT_CAP + caller.id), callee, p, badge, msg);
  }

  lemma CallDecodes(cap: Option<Cap>, callee: End, p: nat, badge: nat, msg: Message)
    requires CallArrives(cap, callee) && cap == Some(EpCap(p, badge))
    ensures EntriesFor(badge, msg) == [EnterProtected(callee.id, msg)]
  {
  }

  lemma FaultEnters(sys: System, spaces: Spaces, p: nat, child: nat, badge: nat, msg: Message)
    requires Accepted(sys) && Built(sys, spaces) && p < |sys.pds|
    requires Arrives(sys, spaces, p, Faulted(child), badge)
    ensures Enters(sys, p, Faulted(child), msg, EntriesFor(badge, msg))
  {
    FaultCapReached(sys, spaces, child);
    FaultDelivered(sys, child);
  }

  /** The entry points of a run are those of its arrivals, one after the other. */
  ghost predicate EntersAll(sys: System, p: nat, arrivals: seq<Arrival>, inputs: seq<Input>, entries: Log)
    requires p < |sys.pds|
    decreases |arrivals|
  {
    if arrivals == [] then entries == []
    else
      && inputs != []
      && exists n: nat :: EntersFirst(sys, p, arrivals, inputs, entries, n)
  }

  ghost predicate EntersFirst(sys: System, p: nat, arrivals: seq<Arrival>, inputs: seq<Input>, entries: Log, n: nat)
    requires p < |sys.pds| && arrivals != [] && inputs != []
    decreases |arrivals|, 0
  {
    && n <= |entries| && Enters(sys, p, arrivals[0], inputs[0].msg, entries[..n])
    && EntersAll(sys, p, arrivals[1..], inputs[1..], entries[n..])
  }

  lemma {:induction false} ArrivalsEnter(sys: System, spaces: Spaces, p: nat, arrivals: seq<Arrival>, inputs: seq<Input>)
    requires Accepted(sys) && NoDoubleNotify(sys) && Built(sys, spaces) && p < |sys.pds| && |arrivals| == |inputs|
    requires forall i :: 0 <= i < |inputs| ==> Arrives(sys, spaces, p, arrivals[i], inputs[i].badge)
    ensures EntersAll(sys, p, arrivals, inputs, AllEntries(inputs))
    decreases |inputs|
  {
    if inputs != [] {
      var first, rest := EntriesFor(inputs[0].badge, inputs[0].msg), AllEntries(inputs[1..]);
      ArrivalEnters(sys, spaces, p, arrivals[0], inputs[0].badge, inputs[0].msg);
      ArrivalsEnter(sys, spaces, p, arrivals[1..], inputs[1..]);
      assert AllEntries(inputs)[..|first|] == first && AllEntries(inputs)[|first|..] == rest;
      assert EntersFirst(sys, p, arrivals, inputs, AllEntries(inputs), |first|);
    }
  }

  /** In an accepted and built system, whatever the user code does: the loop of a domain enters,
      in the order of arrival, `notified` for the ids of the sources that signalled it,
      `protected` for each call and `fault` for each fault of a child, and nothing else. */
  lemma RunEntersArrivals(
    sys: System, spaces: Spaces, p: nat, arrivals: seq<Arrival>, inputs: seq<Input>, masks: Masks, user: User, st: State)
    requires Accepted(sys) && NoDoubleNotify(sys) && Built(sys, spaces) && p < |sys.pds| && |arrivals| == |inputs|
    requires forall i :: 0 <= i < |inputs| ==> Arrives(sys, spaces, p, arrivals[i], inputs[i].badge)
    ensures var entries := Entries(Loop(masks, user, st, inputs).log);
      && |Entries(st.log)| <= |entries| && entries[..|Entries(st.log)|] == Entries(st.log)
      && EntersAll(sys, p, arrivals, inputs, entries[|Entries(st.log)|..])
  {
    LoopEntries(masks, user, st, inputs);
    ArrivalsEnter(sys, spaces, p, arrivals, inputs);
    assert (Entries(st.log) + AllEntries(inputs))[|Entries(st.log)|..] == AllEntries(inputs);
  }
}
