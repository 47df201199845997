/**
 Forwarding server events through a bounded channel to a concurrent consumer. Required events
 wait for room; all others are dropped when the channel is full, and a lag marker tells the
 consumer how many events are missing at its position.

 Between any two channel operations of a forwarder the consumer may receive events or close
 the channel.
 */
module EventForwarding {
  import opened Wrappers
  import opened Selection

  datatype Kind =
    | TurnCompleted | ItemCompleted | AgentMessageDelta | PlanDelta
    | ReasoningSummaryTextDelta | ReasoningTextDelta | OtherKind

  datatype Event =
    | Lagged(skipped: nat)
    | Notification(kind: Kind, payload: string)
    | ServerRequest(id: string, tokenRefresh: bool)
    | Disconnected(message: string)

  predicate NotificationRequiresDelivery(kind: Kind) { !kind.OtherKind? }

  predicate RequiresDelivery(e: Event) {
    match e
    case Notification(kind, _) => NotificationRequiresDelivery(kind)
    case Disconnected(_) => true
    case _ => false
  }

  /** The events that must not be lost: the end of a turn, completed items, streamed text, and the disconnect. */
  predicate Lossless(e: Event) {
    || e.Disconnected?
    || (e.Notification? && e.kind in {TurnCompleted, ItemCompleted, AgentMessageDelta, PlanDelta,
                                      ReasoningSummaryTextDelta, ReasoningTextDelta})
  }

  /** A channel entry: an event passed on, or a lag marker made by the forwarder. */
  datatype Sent = Real(event: Event) | Marker(skipped: nat)

  const USIZE_MAX: nat := 0xFFFF_FFFF_FFFF_FFFF

  function SaturatingIncrement(n: nat): nat {
    if n < USIZE_MAX then n + 1 else USIZE_MAX
  }

  // ---------------------------------------------------------------- accounting for every event

  /** The input position an output has reached: its events, plus what its markers stand for. */
  function Pos(output: seq<Sent>): nat {
    if output == [] then 0
    else Pos(output[..|output| - 1]) + (match output[|output| - 1] case Real(_) => 1 case Marker(n) => n)
  }

  predicate Droppable(inputs: seq<Event>) {
    forall i | 0 <= i < |inputs| :: !RequiresDelivery(inputs[i])
  }

  /**
   `output` and the pending count `skipped` explain `inputs`: each event sits at its own
   position, and markers and the pending count stand exactly for the droppable events between.
   */
  predicate Accounts(output: seq<Sent>, skipped: nat, inputs: seq<Event>)
    decreases |output|
  {
    if output == [] then skipped == |inputs| && Droppable(inputs)
    else if skipped > |inputs| then false
    else
      var before := inputs[..|inputs| - skipped];
      Droppable(inputs[|before|..]) &&
      match output[|output| - 1]
      case Real(e) =>
        before != [] && before[|before| - 1] == e && Accounts(output[..|output| - 1], 0, before[..|before| - 1])
      case Marker(n) => Accounts(output[..|output| - 1], n, before)
  }

  /** The events that markers and the pending count stand for, in order. */
  function Lost(output: seq<Sent>, skipped: nat, inputs: seq<Event>): seq<Event>
    requires Accounts(output, skipped, inputs)
    decreases |output|
  {
    if output == [] then inputs
    else
      var before := inputs[..|inputs| - skipped];
      (match output[|output| - 1]
       case Real(_) => Lost(output[..|output| - 1], 0, before[..|before| - 1])
       case Marker(n) => Lost(output[..|output| - 1], n, before))
      + inputs[|before|..]
  }

  function Delivered(output: seq<Sent>): seq<Event> {
    if output == [] then []
    else Delivered(output[..|output| - 1])
         + (match output[|output| - 1] case Real(e) => [e] case Marker(_) => [])
  }

  function Required(events: seq<Event>): seq<Event> {
    if events == [] then []
    else Required(events[..|events| - 1])
         + (if RequiresDelivery(events[|events| - 1]) then [events[|events| - 1]] else [])
  }

  function Requests(events: seq<Event>): seq<string> {
    if events == [] then []
    else Requests(events[..|events| - 1])
         + (match events[|events| - 1] case ServerRequest(id, _) => [id] case _ => [])
  }

  /** The lag markers and the pending count locate every gap. */
  lemma {:induction false} AccountsPos(output: seq<Sent>, skipped: nat, inputs: seq<Event>)
    requires Accounts(output, skipped, inputs)
    ensures Pos(output) + skipped == |inputs|
    decreases |output|
  {
    if output != [] {
      var before := inputs[..|inputs| - skipped];
      match output[|output| - 1]
      case Real(_) => AccountsPos(output[..|output| - 1], 0, before[..|before| - 1]);
      case Marker(n) => AccountsPos(output[..|output| - 1], n, before);
    }
  }

  lemma {:induction false} AccountsAt(output: seq<Sent>, skipped: nat, inputs: seq<Event>, i: nat)
    requires Accounts(output, skipped, inputs) && i < |output|
    ensures Pos(output[..i + 1]) <= |inputs|
    ensures output[i].Real? ==> Pos(output[..i]) < |inputs| && output[i].event == inputs[Pos(output[..i])]
    ensures forall j | Pos(output[..i]) <= j < Pos(output[..i + 1]) ::
              output[i].Marker? ==> !RequiresDelivery(inputs[j])
    decreases |output|
  {
    AccountsPos(output, skipped, inputs);
    var init, before := output[..|output| - 1], inputs[..|inputs| - skipped];
    assert output[..|output|] == output;
    if i < |output| - 1 {
      assert init[..i] == output[..i] && init[..i + 1] == output[..i + 1];
      match output[|output| - 1]
      case Real(_) => AccountsAt(init, 0, before[..|before| - 1], i);
      case Marker(n) => AccountsAt(init, n, before, i);
    } else {
      match output[|output| - 1]
      case Real(_) => AccountsPos(init, 0, before[..|before| - 1]);
      case Marker(n) =>
        AccountsPos(init, n, before);
        MarkerDroppable(init, n, before);
    }
  }

  lemma MarkerDroppable(output: seq<Sent>, skipped: nat, inputs: seq<Event>)
    requires Accounts(output, skipped, inputs)
    ensures forall j | Pos(output) <= j < |inputs| :: !RequiresDelivery(inputs[j])
  {
    AccountsPos(output, skipped, inputs);
    if output != [] {
      forall j | Pos(output) <= j < |inputs| ensures !RequiresDelivery(inputs[j]) {
        assert inputs[|inputs| - skipped..][j - Pos(output)] == inputs[j];
      }
    }
  }

  lemma {:induction false} RequiredConcat(a: seq<Event>, b: seq<Event>)
    ensures Required(a + b) == Required(a) + Required(b)
    ensures Requests(a + b) == Requests(a) + Requests(b)
    decreases |b|
  {
    if b == [] {
      assert a + b == a;
    } else {
      assert (a + b)[..|a + b| - 1] == a + b[..|b| - 1];
      RequiredConcat(a, b[..|b| - 1]);
    }
  }

  lemma {:induction false} RequiredOfDroppable(a: seq<Event>)
    requires Droppable(a)
    ensures Required(a) == []
  {
    if a != [] { RequiredOfDroppable(a[..|a| - 1]); }
  }

  /** Take the last entry off: the event `e` it delivered, if any, and the `gap` after it. */
  lemma LastEntry(output: seq<Sent>, skipped: nat, inputs: seq<Event>)
    returns (init: seq<Sent>, m: nat, earlier: seq<Event>, e: seq<Event>, gap: seq<Event>)
    requires Accounts(output, skipped, inputs) && output != []
    ensures |init| < |output| && Accounts(init, m, earlier) && inputs == earlier + e + gap && Droppable(gap)
    ensures Delivered(output) == Delivered(init) + e
    ensures Lost(output, skipped, inputs) == Lost(init, m, earlier) + gap
  {
    var before := inputs[..|inputs| - skipped];
    init, gap := output[..|output| - 1], inputs[|before|..];
    match output[|output| - 1]
    case Real(event) => m, earlier, e := 0, before[..|before| - 1], [event];
    case Marker(n) => m, earlier, e := n, before, [];
  }

  /** Required events come out complete and in order. */
  lemma {:induction false} RequiredDelivered(output: seq<Sent>, skipped: nat, inputs: seq<Event>)
    requires Accounts(output, skipped, inputs)
    ensures Required(Delivered(output)) == Required(inputs)
    decreases |output|
  {
    if output == [] {
      RequiredOfDroppable(inputs);
    } else {
      var init, m, earlier, e, gap := LastEntry(output, skipped, inputs);
      RequiredDelivered(init, m, earlier);
      RequiredConcat(Delivered(init), e);
      RequiredConcat(earlier + e, gap);
      RequiredConcat(earlier, e);
      RequiredOfDroppable(gap);
    }
  }

  lemma LosslessMeans(e: Event)
    ensures RequiresDelivery(e) <==> Lossless(e)
  {
  }

  lemma {:induction false} RequiredSelects(events: seq<Event>) returns (at: seq<nat>)
    ensures Selects(events, at, Required(events))
    ensures forall i: nat | i < |events| :: i in at <==> Lossless(events[i])
  {
    if events == [] {
      at := [];
    } else {
      var init, last := events[..|events| - 1], events[|events| - 1];
      at := RequiredSelects(init);
      assert events == init + [last];
      LosslessMeans(last);
      SelectsNext(init, at, Required(init), last);
      if RequiresDelivery(last) { at := at + [|init|]; }
    }
  }

  /** The lossless events among what was delivered are those of the inputs: all of them, in order. */
  lemma LosslessDelivered(output: seq<Sent>, skipped: nat, inputs: seq<Event>)
    returns (events: seq<Event>, sent: seq<nat>, given: seq<nat>)
    requires Accounts(output, skipped, inputs)
    ensures Selects(Delivered(output), sent, events) && Selects(inputs, given, events)
    ensures forall i: nat | i < |Delivered(output)| :: i in sent <==> Lossless(Delivered(output)[i])
    ensures forall i: nat | i < |inputs| :: i in given <==> Lossless(inputs[i])
  {
    RequiredDelivered(output, skipped, inputs);
    events := Required(inputs);
    sent := RequiredSelects(Delivered(output));
    given := RequiredSelects(inputs);
  }

  /** Every input is either delivered or lost, and no event is both. */
  lemma {:induction false} DeliveredOrLost(output: seq<Sent>, skipped: nat, inputs: seq<Event>)
    requires Accounts(output, skipped, inputs)
    ensures multiset(Delivered(output)) + multiset(Lost(output, skipped, inputs)) == multiset(inputs)
    decreases |output|
  {
    if output == [] {
      assert multiset(Delivered(output)) == multiset{};
    } else {
      var init, m, earlier, e, gap := LastEntry(output, skipped, inputs);
      DeliveredOrLost(init, m, earlier);
    }
  }

  lemma SendEvent(output: seq<Sent>, inputs: seq<Event>, e: Event)
    requires Accounts(output, 0, inputs)
    ensures Accounts(output + [Real(e)], 0, inputs + [e])
    ensures Lost(output + [Real(e)], 0, inputs + [e]) == Lost(output, 0, inputs)
  {
    var o, i := output + [Real(e)], inputs + [e];
    assert o[..|o| - 1] == output && i[..|i|] == i && i[..|i| - 1] == inputs;
  }

  lemma SendMarker(output: seq<Sent>, skipped: nat, inputs: seq<Event>)
    requires Accounts(output, skipped, inputs)
    ensures Accounts(output + [Marker(skipped)], 0, inputs)
    ensures Lost(output + [Marker(skipped)], 0, inputs) == Lost(output, skipped, inputs)
  {
    var o := output + [Marker(skipped)];
    assert o[..|o| - 1] == output && inputs[..|inputs|] == inputs;
  }

  lemma SlicesNext(a: seq<Event>, e: Event, m: nat)
    requires m <= |a|
    ensures (a + [e])[..m] == a[..m] && (a + [e])[m..] == a[m..] + [e]
  {
  }

  lemma DroppableNext(a: seq<Event>, e: Event)
    requires Droppable(a) && !RequiresDelivery(e)
    ensures Droppable(a + [e])
  {
  }

  lemma DropEvent(output: seq<Sent>, skipped: nat, inputs: seq<Event>, e: Event)
    requires Accounts(output, skipped, inputs) && !RequiresDelivery(e)
    ensures Accounts(output, skipped + 1, inputs + [e])
    ensures Lost(output, skipped + 1, inputs + [e]) == Lost(output, skipped, inputs) + [e]
  {
    if output == [] {
      DroppableNext(inputs, e);
    } else {
      DropAfter(output, skipped, inputs, inputs + [e], |inputs| - skipped, e);
    }
  }

  lemma DropAfter(output: seq<Sent>, skipped: nat, inputs: seq<Event>, inputs': seq<Event>, m: int, e: Event)
    requires output != [] && Accounts(output, skipped, inputs) && !RequiresDelivery(e)
    requires inputs' == inputs + [e] && m == |inputs| - skipped
    ensures Accounts(output, skipped + 1, inputs')
    ensures Lost(output, skipped + 1, inputs') == Lost(output, skipped, inputs) + [e]
  {
    SlicesNext(inputs, e, m);
    DroppableNext(inputs[m..], e);
    assert inputs'[..|inputs'| - (skipped + 1)] == inputs[..m];
  }

  /**
   The forwarder's books: the output and the pending count explain the inputs, and the refused
   server requests are exactly the lost ones. They are kept up to saturation of the count.
   */
  ghost predicate Ledger(output: seq<Sent>, skipped: nat, inputs: seq<Event>, refused: seq<string>) {
    |inputs| <= USIZE_MAX ==>
      Accounts(output, skipped, inputs) && refused == Requests(Lost(output, skipped, inputs))
  }

  lemma LedgerSend(output: seq<Sent>, inputs: seq<Event>, refused: seq<string>, e: Event)
    requires Ledger(output, 0, inputs, refused)
    ensures Ledger(output + [Real(e)], 0, inputs + [e], refused)
  {
    if |inputs| < USIZE_MAX { SendEvent(output, inputs, e); }
  }

  lemma LedgerMark(output: seq<Sent>, skipped: nat, inputs: seq<Event>, refused: seq<string>)
    requires Ledger(output, skipped, inputs, refused)
    ensures Ledger(output + [Marker(skipped)], 0, inputs, refused)
  {
    if |inputs| <= USIZE_MAX { SendMarker(output, skipped, inputs); }
  }

  /** The request a dropped event may be: it has to be refused. */
  function RequestOf(e: Event): seq<string> {
    match e case ServerRequest(id, _) => [id] case _ => []
  }

  lemma LedgerDrop(output: seq<Sent>, skipped: nat, inputs: seq<Event>, refused: seq<string>, e: Event)
    requires Ledger(output, skipped, inputs, refused) && !RequiresDelivery(e)
    ensures Ledger(output, SaturatingIncrement(skipped), inputs + [e], refused + RequestOf(e))
  {
    if |inputs| < USIZE_MAX {
      AccountsPos(output, skipped, inputs);
      DropEvent(output, skipped, inputs, e);
      RequiredConcat(Lost(output, skipped, inputs), [e]);
      assert [e][..0] == [] && Requests([e]) == RequestOf(e);
    }
  }

  // ---------------------------------------------------------------- the channel and its consumer

  datatype TrySendResult = Accepted | Full | Closed

  /** A bounded channel, together with everything its consumer has received. */
  class EventQueue {
    const capacity: nat
    var queue: seq<Sent>
    var received: seq<Sent>
    var open: bool
    /** How many sends were ready to wait for room. */
    ghost var waits: nat

    ghost predicate Valid()
      reads this
    {
      capacity > 0 && |queue| <= capacity
    }

    /** Everything put into the channel so far, in order. */
    function Output(): seq<Sent>
      reads this
    {
      received + queue
    }

    constructor (requested: nat)
      ensures Valid() && open && Output() == [] && capacity == if requested > 0 then requested else 1
    {
      capacity := if requested > 0 then requested else 1;
      queue, received, open, waits := [], [], true, 0;
    }

    /** Whatever a concurrent consumer may do: receive some events, and perhaps close the channel. */
    method Consumer()
      requires Valid()
      modifies this
      ensures Valid() && Output() == old(Output()) && (open ==> old(open)) && waits == old(waits)
    {
      if open {
        var taken: nat :| taken <= |queue|;
        received, queue := received + queue[..taken], queue[taken..];
        if * { open := false; }
      }
    }

    method TrySend(entry: Sent) returns (r: TrySendResult)
      requires Valid()
      modifies this
      ensures Valid() && (open ==> old(open)) && waits == old(waits)
      ensures r == Accepted ==> Output() == old(Output()) + [entry]
      ensures r != Accepted ==> Output() == old(Output())
      ensures (r == Closed ==> !open) && (r == Full ==> open && |queue| == capacity)
    {
      Consumer();
      if !open { return Closed; }
      if |queue| == capacity { return Full; }
      queue := queue + [entry];
      r := Accepted;
    }

    /** Wait until the consumer makes room or closes the channel. */
    method Send(entry: Sent) returns (ok: bool)
      requires Valid()
      modifies this
      ensures Valid() && (open ==> old(open)) && waits == old(waits) + 1
      ensures ok ==> Output() == old(Output()) + [entry]
      ensures !ok ==> Output() == old(Output()) && !open
    {
      Consumer();
      waits := waits + 1;
      if open && |queue| == capacity {
        // the wait ends only when an event is taken or the channel is closed
        if * {
          received, queue := received + [queue[0]], queue[1..];
        } else {
          open := false;
        }
      }
      ok := open;
      if ok { queue := queue + [entry]; }
    }
  }

  /** The event went in last, and nothing is pending. Otherwise it was lost, which takes a full channel. */
  predicate Placed(output: seq<Sent>, skipped: nat, event: Event) {
    skipped == 0 && output != [] && output[|output| - 1] == Real(event)
  }

  // ---------------------------------------------------------------- marker and event

  /** Put the pending marker in before the event: waiting for room if the event requires delivery. */
  method Flush(tx: EventQueue, skipped: nat, event: Event, ghost inputs: seq<Event>, ghost refused: seq<string>)
    returns (r: TrySendResult)
    requires tx.Valid() && Ledger(tx.Output(), skipped, inputs, refused)
    modifies tx
    ensures tx.Valid() && (tx.open ==> old(tx.open))
    ensures tx.Output() == if r.Accepted? then old(tx.Output()) + [Marker(skipped)] else old(tx.Output())
    ensures Ledger(tx.Output(), if r.Accepted? then 0 else skipped, inputs, refused)
    ensures r.Full? ==> tx.open && |tx.queue| == tx.capacity && !RequiresDelivery(event)
    ensures r.Closed? ==> !tx.open
    ensures !RequiresDelivery(event) ==> tx.waits == old(tx.waits)
  {
    LedgerMark(tx.Output(), skipped, inputs, refused);
    if RequiresDelivery(event) {
      var sent := tx.Send(Marker(skipped));
      r := if sent then Accepted else Closed;
    } else {
      r := tx.TrySend(Marker(skipped));
    }
  }

  /** Put the event in, with nothing pending: waiting for room if it requires delivery. */
  method Offer(tx: EventQueue, event: Event, ghost inputs: seq<Event>, ghost refused: seq<string>)
    returns (r: TrySendResult)
    requires tx.Valid() && Ledger(tx.Output(), 0, inputs, refused)
    modifies tx
    ensures tx.Valid() && (tx.open ==> old(tx.open))
    ensures tx.Output() == if r.Accepted? then old(tx.Output()) + [Real(event)] else old(tx.Output())
    ensures Ledger(tx.Output(), 0, if r.Accepted? then inputs + [event] else inputs, refused)
    ensures r.Full? ==> tx.open && |tx.queue| == tx.capacity && !RequiresDelivery(event)
    ensures r.Closed? ==> !tx.open
    ensures !RequiresDelivery(event) ==> tx.waits == old(tx.waits)
  {
    LedgerSend(tx.Output(), inputs, refused, event);
    if RequiresDelivery(event) {
      var sent := tx.Send(Real(event));
      r := if sent then Accepted else Closed;
    } else {
      r := tx.TrySend(Real(event));
    }
  }

  // ---------------------------------------------------------------- the in-process forwarder

  datatype ForwardResult = Continue | DisableStream

  /** Forward one event; `rejected` lists the server request refused because it was dropped. */
  method ForwardInProcessEvent(tx: EventQueue, skippedEvents: nat, event: Event,
                               ghost inputs: seq<Event>, ghost refused: seq<string>)
    returns (skipped: nat, result: ForwardResult, rejected: seq<string>)
    requires tx.Valid() && Ledger(tx.Output(), skippedEvents, inputs, refused)
    modifies tx
    ensures tx.Valid() && (tx.open ==> old(tx.open))
    ensures result.Continue? ==> Ledger(tx.Output(), skipped, inputs + [event], refused + rejected)
    ensures result.DisableStream? ==> !tx.open && rejected == [] && Ledger(tx.Output(), skipped, inputs, refused)
    ensures result.Continue? ==> Placed(tx.Output(), skipped, event) || (skipped > 0 && |tx.queue| == tx.capacity)
    ensures result.Continue? && Lossless(event) ==> Placed(tx.Output(), skipped, event)
    ensures !Lossless(event) ==> tx.waits == old(tx.waits)
    ensures skippedEvents <= USIZE_MAX ==> skipped <= USIZE_MAX
  {
    LosslessMeans(event);
    skipped, rejected := skippedEvents, [];
    if skipped > 0 {
      var flushed := Flush(tx, skipped, event, inputs, refused);
      if flushed.Full? {
        LedgerDrop(tx.Output(), skipped, inputs, refused, event);
        return SaturatingIncrement(skipped), Continue, RequestOf(event);
      } else if flushed.Closed? {
        return skipped, DisableStream, [];
      }
      skipped := 0;
    }
    var offered := Offer(tx, event, inputs, refused);
    if offered.Full? {
      LedgerDrop(tx.Output(), skipped, inputs, refused, event);
      return SaturatingIncrement(skipped), Continue, RequestOf(event);
    }
    assert refused + [] == refused;
    result := if offered.Accepted? then Continue else DisableStream;
  }

  // ---------------------------------------------------------------- the remote forwarder

  /** One delivery adds at most the pending marker and then the event, at the end. */
  predicate Appended(before: seq<Sent>, after: seq<Sent>, skipped: nat, event: Event) {
    || after == before
    || after == before + [Marker(skipped)]
    || after == before + [Real(event)]
    || after == before + [Marker(skipped), Real(event)]
  }

  /**
   Deliver one event. `rejections` says whether writing a rejection to the server succeeds; a
   failed write is reported like a closed channel, after the event has been counted as lost.
   */
  method DeliverEvent(tx: EventQueue, skippedEvents: nat, event: Event, rejections: bool,
                      ghost inputs: seq<Event>, ghost refused: seq<string>)
    returns (skipped: nat, ok: bool, rejected: seq<string>)
    requires tx.Valid() && Ledger(tx.Output(), skippedEvents, inputs, refused)
    modifies tx
    ensures tx.Valid() && (tx.open ==> old(tx.open))
    ensures Appended(old(tx.Output()), tx.Output(), skippedEvents, event)
    ensures ok ==> Ledger(tx.Output(), skipped, inputs + [event], refused + rejected)
    ensures ok ==> Placed(tx.Output(), skipped, event) || (skipped > 0 && |tx.queue| == tx.capacity)
    ensures ok && Lossless(event) ==> Placed(tx.Output(), skipped, event)
    ensures !Lossless(event) ==> tx.waits == old(tx.waits)
    ensures skippedEvents <= USIZE_MAX ==> skipped <= USIZE_MAX
    ensures !ok ==> rejected == []
    ensures !ok && tx.open ==> !rejections && event.ServerRequest?
    ensures !ok && tx.open ==> Ledger(tx.Output(), skipped, inputs + [event], refused + RequestOf(event))
    ensures !ok ==> || Ledger(tx.Output(), skipped, inputs, refused)
                    || Ledger(tx.Output(), skipped, inputs + [event], refused + RequestOf(event))
  {
    LosslessMeans(event);
    skipped, rejected := skippedEvents, [];
    ghost var before := tx.Output();
    if skipped > 0 {
      var flushed := Flush(tx, skipped, event, inputs, refused);
      if flushed.Full? {
        LedgerDrop(tx.Output(), skipped, inputs, refused, event);
        ok, rejected := RejectIfServerRequestDropped(event, rejections);
        return SaturatingIncrement(skipped), ok, rejected;
      } else if flushed.Closed? {
        return skipped, false, [];
      }
      skipped := 0;
    }
    MarkerThenEvent(before, skippedEvents, event);
    var offered := Offer(tx, event, inputs, refused);
    if offered.Full? {
      LedgerDrop(tx.Output(), skipped, inputs, refused, event);
      ok, rejected := RejectIfServerRequestDropped(event, rejections);
      return SaturatingIncrement(skipped), ok, rejected;
    }
    assert refused + [] == refused;
    ok := offered.Accepted?;
  }

  lemma MarkerThenEvent(before: seq<Sent>, skipped: nat, event: Event)
    ensures before + [Marker(skipped)] + [Real(event)] == before + [Marker(skipped), Real(event)]
  {
  }

  method RejectIfServerRequestDropped(event: Event, writes: bool) returns (ok: bool, rejected: seq<string>)
    ensures ok <==> (event.ServerRequest? ==> writes)
    ensures rejected == if ok then RequestOf(event) else []
  {
    if !event.ServerRequest? { return true, []; }
    ok := writes;
    rejected := if ok then [event.id] else [];
  }

  // ---------------------------------------------------------------- the in-process worker

  /** The events the worker passes to the forwarder: all but token refresh requests. */
  function Forwarded(events: seq<Event>): seq<Event> {
    if events == [] then []
    else
      var e := events[|events| - 1];
      Forwarded(events[..|events| - 1]) + (if e.ServerRequest? && e.tokenRefresh then [] else [e])
  }

  /** The token refresh requests, which the worker refuses itself. */
  function RefreshRequests(events: seq<Event>): seq<string> {
    if events == [] then []
    else
      var e := events[|events| - 1];
      RefreshRequests(events[..|events| - 1]) + (if e.ServerRequest? && e.tokenRefresh then [e.id] else [])
  }

  /**
   The event branch of the worker loop, from start. While the stream stays enabled, what is in
   the channel explains every event, and every server request is in it or refused.
   */
  method RunInProcessWorker(tx: EventQueue, events: seq<Event>)
    returns (taken: nat, skipped: nat, overloaded: seq<string>, unsupported: seq<string>)
    requires tx.Valid() && tx.Output() == []
    modifies tx
    ensures tx.Valid() && taken <= |events|
    ensures Ledger(tx.Output(), skipped, Forwarded(events[..taken]), overloaded)
    ensures unsupported == RefreshRequests(events[..taken])
    ensures tx.open ==> taken == |events|
  {
    taken, skipped, overloaded, unsupported := 0, 0, [], [];
    assert events[..0] == [];
    var enabled := true;
    while taken < |events| && enabled
      invariant taken <= |events| && tx.Valid()
      invariant Ledger(tx.Output(), skipped, Forwarded(events[..taken]), overloaded)
      invariant unsupported == RefreshRequests(events[..taken])
      invariant tx.open ==> enabled
      decreases |events| - taken, enabled
    {
      skipped, enabled, overloaded, unsupported := TakeEvent(tx, events, taken, skipped, overloaded, unsupported);
      if enabled { taken := taken + 1; }
    }
  }

  /** One event of the loop; it is not taken when the consumer turns out to be gone. */
  method TakeEvent(tx: EventQueue, events: seq<Event>, k: nat, skippedEvents: nat,
                   rejected: seq<string>, refused: seq<string>)
    returns (skipped: nat, enabled: bool, overloaded: seq<string>, unsupported: seq<string>)
    requires k < |events| && tx.Valid() && Ledger(tx.Output(), skippedEvents, Forwarded(events[..k]), rejected)
    requires refused == RefreshRequests(events[..k])
    modifies tx
    ensures tx.Valid() && (tx.open ==> enabled)
    ensures var n := if enabled then k + 1 else k;
            && Ledger(tx.Output(), skipped, Forwarded(events[..n]), overloaded)
            && unsupported == RefreshRequests(events[..n])
  {
    var event := events[k];
    OneMoreEvent(events, k);
    skipped, enabled, overloaded, unsupported := skippedEvents, true, rejected, refused;
    if event.ServerRequest? && event.tokenRefresh {
      unsupported := unsupported + [event.id];
    } else {
      var result, rejection;
      skipped, result, rejection := ForwardInProcessEvent(tx, skipped, event, Forwarded(events[..k]), overloaded);
      enabled := result.Continue?;
      if enabled { overloaded := overloaded + rejection; }
    }
  }

  lemma OneMoreEvent(events: seq<Event>, k: nat)
    requires k < |events|
    ensures var e, refresh := events[k], events[k].ServerRequest? && events[k].tokenRefresh;
            && Forwarded(events[..k + 1]) == (if refresh then Forwarded(events[..k]) else Forwarded(events[..k]) + [e])
            && RefreshRequests(events[..k + 1])
               == (if refresh then RefreshRequests(events[..k]) + [e.id] else RefreshRequests(events[..k]))
  {
    assert events[..k + 1][..k] == events[..k];
    assert Forwarded(events[..k]) + [] == Forwarded(events[..k]);
    assert RefreshRequests(events[..k]) + [] == RefreshRequests(events[..k]);
  }

  /**
   What the books say, for any channel content: no gap is unmarked, required events are complete
   and in order, and each server request was passed on or refused, never both and never neither.
   */
  lemma LedgerMeaning(output: seq<Sent>, skipped: nat, inputs: seq<Event>, refused: seq<string>)
    requires Ledger(output, skipped, inputs, refused) && |inputs| <= USIZE_MAX
    ensures Pos(output) + skipped == |inputs|
    ensures forall i | 0 <= i < |output| && output[i].Real? ::
              Pos(output[..i]) < |inputs| && output[i].event == inputs[Pos(output[..i])]
    ensures Required(Delivered(output)) == Required(inputs)
    ensures multiset(Requests(Delivered(output))) + multiset(refused) == multiset(Requests(inputs))
  {
    AccountsPos(output, skipped, inputs);
    forall i | 0 <= i < |output| && output[i].Real?
      ensures Pos(output[..i]) < |inputs| && output[i].event == inputs[Pos(output[..i])]
    {
      AccountsAt(output, skipped, inputs, i);
    }
    RequiredDelivered(output, skipped, inputs);
    RequestsDeliveredOrLost(output, skipped, inputs);
  }

  lemma {:induction false} RequestsDeliveredOrLost(output: seq<Sent>, skipped: nat, inputs: seq<Event>)
    requires Accounts(output, skipped, inputs)
    ensures multiset(Requests(Delivered(output))) + multiset(Requests(Lost(output, skipped, inputs)))
         == multiset(Requests(inputs))
    decreases |output|
  {
    if output == [] {
      assert multiset(Requests(Delivered(output))) == multiset{};
    } else {
      var init, m, earlier, e, gap := LastEntry(output, skipped, inputs);
      RequestsDeliveredOrLost(init, m, earlier);
      RequestsSplit(Delivered(init), Lost(init, m, earlier), earlier, e, gap);
    }
  }

  lemma CountSplit(a: seq<string>, b: seq<string>, c: seq<string>, e: seq<string>, gap: seq<string>)
    requires multiset(a) + multiset(b) == multiset(c)
    ensures multiset(a + e) + multiset(b + gap) == multiset(c + e + gap)
  {
    assert multiset(a + e) == multiset(a) + multiset(e) && multiset(b + gap) == multiset(b) + multiset(gap);
    assert multiset(c + e + gap) == multiset(c) + multiset(e) + multiset(gap);
  }

  /** Delivering `e` and losing `gap` keeps the account of the requests. */
  lemma RequestsSplit(delivered: seq<Event>, lost: seq<Event>, inputs: seq<Event>, e: seq<Event>, gap: seq<Event>)
    requires multiset(Requests(delivered)) + multiset(Requests(lost)) == multiset(Requests(inputs))
    ensures multiset(Requests(delivered + e)) + multiset(Requests(lost + gap)) == multiset(Requests(inputs + e + gap))
  {
    RequiredConcat(delivered, e);
    RequiredConcat(lost, gap);
    RequiredConcat(inputs + e, gap);
    RequiredConcat(inputs, e);
    CountSplit(Requests(delivered), Requests(lost), Requests(inputs), Requests(e), Requests(gap));
  }
}
