/** The worker of the remote app server client: a request router beside the event forwarder. */
module RemoteWorker {
  import opened Wrappers
  import opened EventForwarding

  /** How a write to the server ends. */
  datatype Write = Ok | Err(error: string)

  /** What a caller is told through its reply channel. */
  datatype Reply =
    | Written
    | WriteFailed(error: string)
    | Duplicate
    | Result(result: string)
    | Failure(error: string)
    | CloseResult(closed: bool)
    | BrokenPipe

  /** A command, with the outcome of the write it causes. Its reply channel is its position in the input. */
  datatype Command =
    | Request(id: string, write: Write)
    | Notify(write: Write)
    | ResolveServerRequest(id: string, write: Write)
    | RejectServerRequest(id: string, write: Write)
    | Shutdown(closed: bool)

  /** What arrives from the server; `write` is the outcome of rejecting the call, should that be needed. */
  datatype Message =
    | ResponseMessage(id: string, result: string)
    | ErrorMessage(id: string, error: string)
    | NotificationMessage(kind: Option<Kind>, payload: string)
    | RequestMessage(id: string, known: bool, write: Write)
    | InvalidJson(error: string)
    | CloseFrame(reason: string)
    | OtherFrame
    | TransportError(error: string)
    | EndOfStream

  datatype Input = CommandsClosed | Cmd(command: Command) | Msg(message: Message)

  datatype Answer = Answer(waiter: nat, reply: Reply)

  // ---------------------------------------------------------------- what each caller should be told

  /** The reply an input carries for the request `id`. */
  function Settles(input: Input, id: string): Option<Reply> {
    match input
    case Msg(ResponseMessage(i, result)) => if i == id then Some(Result(result)) else None
    case Msg(ErrorMessage(i, error)) => if i == id then Some(Failure(error)) else None
    case _ => None
  }

  /** The command whose caller waits for a reply to `id` after `n` inputs. */
  function Holder(inputs: seq<Input>, n: nat, id: string): Option<nat>
    requires n <= |inputs|
  {
    if n == 0 then None
    else
      var holder := Holder(inputs, n - 1, id);
      if holder.None? && inputs[n - 1] == Cmd(Request(id, Ok)) then Some(n - 1)
      else if Settles(inputs[n - 1], id).Some? then None
      else holder
  }

  /** The first reply to `id` among the inputs from `from` up to `n`. */
  function FirstReply(inputs: seq<Input>, from: nat, n: nat, id: string): Option<Reply>
    requires n <= |inputs|
  {
    if n <= from then None
    else
      var earlier := FirstReply(inputs, from, n - 1, id);
      if earlier.Some? then earlier else Settles(inputs[n - 1], id)
  }

  /** What the caller of command `w` has been told after `n` inputs, if anything. */
  function Outcome(inputs: seq<Input>, n: nat, w: nat): Option<Reply>
    requires w < n <= |inputs| && inputs[w].Cmd?
  {
    match inputs[w].command
    case Request(id, write) =>
      if Holder(inputs, w, id).Some? then Some(Duplicate)
      else if write.Err? then Some(WriteFailed(write.error))
      else FirstReply(inputs, w + 1, n, id)
    case Shutdown(closed) => Some(CloseResult(closed))
    case other => Some(ReplyOf(other.write))
  }

  function ReplyOf(write: Write): Reply {
    match write case Ok => Written case Err(error) => WriteFailed(error)
  }

  /** A caller is without an answer exactly while it holds its request id. */
  lemma {:induction false} PendingIsHolder(inputs: seq<Input>, n: nat, w: nat)
    requires w < n <= |inputs| && inputs[w].Cmd?
    ensures Outcome(inputs, n, w).None?
       <==> inputs[w].command.Request? && Holder(inputs, n, inputs[w].command.id) == Some(w)
    decreases n
  {
    if w < n - 1 {
      PendingIsHolder(inputs, n - 1, w);
    } else if inputs[w].command.Request? {
      HolderEarlier(inputs, w, inputs[w].command.id);
    }
  }

  lemma {:induction false} HolderEarlier(inputs: seq<Input>, n: nat, id: string)
    requires n <= |inputs|
    ensures Holder(inputs, n, id).Some? ==>
              Holder(inputs, n, id).value < n && inputs[Holder(inputs, n, id).value] == Cmd(Request(id, Ok))
  {
    if n > 0 { HolderEarlier(inputs, n - 1, id); }
  }

  /** A message of the server about the request `id`. */
  predicate ReplyTo(input: Input, id: string) {
    && input.Msg? && (input.message.ResponseMessage? || input.message.ErrorMessage?)
    && input.message.id == id
  }

  /** The input at `k` is the first message about `id` after the one at `w`. */
  predicate RepliedFirst(inputs: seq<Input>, w: nat, n: nat, k: nat, id: string)
    requires n <= |inputs|
  {
    w < k < n && ReplyTo(inputs[k], id) && forall j | w < j < k :: !ReplyTo(inputs[j], id)
  }

  lemma SettlesMeans(input: Input, id: string)
    ensures Settles(input, id).Some? <==> ReplyTo(input, id)
    ensures forall r :: Settles(input, id) == Some(Result(r)) <==> input == Msg(ResponseMessage(id, r))
    ensures forall e :: Settles(input, id) == Some(Failure(e)) <==> input == Msg(ErrorMessage(id, e))
  {
  }

  lemma {:induction false} FirstReplyMeans(inputs: seq<Input>, w: nat, n: nat, id: string) returns (k: nat)
    requires w < n <= |inputs|
    ensures FirstReply(inputs, w + 1, n, id).None? ==> forall j | w < j < n :: !ReplyTo(inputs[j], id)
    ensures FirstReply(inputs, w + 1, n, id).Some? ==>
              RepliedFirst(inputs, w, n, k, id) && FirstReply(inputs, w + 1, n, id) == Settles(inputs[k], id)
  {
    k := n - 1;
    if n > w + 1 {
      k := FirstReplyMeans(inputs, w, n - 1, id);
      SettlesMeans(inputs[n - 1], id);
      if FirstReply(inputs, w + 1, n - 1, id).None? { k := n - 1; }
    }
  }

  /**
   A caller whose request went out is told the result of the first response to its id, or the error
   of the first error message, whichever is first; and nothing while there is neither.
   */
  lemma ReplyReaches(inputs: seq<Input>, n: nat, w: nat, id: string) returns (k: nat)
    requires w < n <= |inputs| && inputs[w] == Cmd(Request(id, Ok)) && Holder(inputs, w, id).None?
    ensures Outcome(inputs, n, w).None? ==> forall j | w < j < n :: !ReplyTo(inputs[j], id)
    ensures Outcome(inputs, n, w).Some? ==>
              && RepliedFirst(inputs, w, n, k, id)
              && (forall r :: inputs[k] == Msg(ResponseMessage(id, r)) ==> Outcome(inputs, n, w) == Some(Result(r)))
              && (forall e :: inputs[k] == Msg(ErrorMessage(id, e)) ==> Outcome(inputs, n, w) == Some(Failure(e)))
  {
    k := FirstReplyMeans(inputs, w, n, id);
    if Outcome(inputs, n, w).Some? { SettlesMeans(inputs[k], id); }
  }

  /** What the caller of any other command is told, at once. */
  lemma AnsweredAtOnce(inputs: seq<Input>, n: nat, w: nat)
    requires w < n <= |inputs| && inputs[w].Cmd?
    ensures forall id, e :: inputs[w] == Cmd(Request(id, Err(e))) && Holder(inputs, w, id).None? ==>
              Outcome(inputs, n, w) == Some(WriteFailed(e))
    ensures forall id, write :: inputs[w] == Cmd(Request(id, write)) && Holder(inputs, w, id).Some? ==>
              Outcome(inputs, n, w) == Some(Duplicate)
    ensures forall closed :: inputs[w] == Cmd(Shutdown(closed)) ==> Outcome(inputs, n, w) == Some(CloseResult(closed))
    ensures !inputs[w].command.Request? && !inputs[w].command.Shutdown? ==>
              Outcome(inputs, n, w)
              == Some(if inputs[w].command.write.Ok? then Written else WriteFailed(inputs[w].command.write.error))
  {
  }

  /** The holder of an id is the last command that took it while it was free, if no message has come since. */
  lemma {:induction false} HolderMeans(inputs: seq<Input>, n: nat, id: string, w: nat)
    requires n <= |inputs|
    ensures Holder(inputs, n, id) == Some(w) <==>
            && w < n && inputs[w] == Cmd(Request(id, Ok)) && Holder(inputs, w, id).None?
            && forall j | w < j < n :: !ReplyTo(inputs[j], id)
    decreases n
  {
    if n > 0 {
      HolderMeans(inputs, n - 1, id, w);
      SettlesMeans(inputs[n - 1], id);
      if Holder(inputs, n - 1, id).Some? { HolderMeans(inputs, n - 1, id, Holder(inputs, n - 1, id).value); }
    }
  }

  /** An answer once given stays, and a reply from the server answers only the caller holding its id. */
  lemma {:induction false} OutcomeStep(inputs: seq<Input>, n: nat, w: nat)
    requires w < n < |inputs| && inputs[w].Cmd?
    ensures Outcome(inputs, n + 1, w) ==
            if inputs[w].command.Request? && Holder(inputs, n, inputs[w].command.id) == Some(w)
            then Settles(inputs[n], inputs[w].command.id)
            else Outcome(inputs, n, w)
  {
    PendingIsHolder(inputs, n, w);
  }

  /** A duplicate id is refused, and no other caller notices: the one waiting keeps its place. */
  lemma DuplicateRefused(inputs: seq<Input>, n: nat, w: nat)
    requires w < n < |inputs| && inputs[n].Cmd? && inputs[n].command.Request? && inputs[w].Cmd?
    requires Holder(inputs, n, inputs[n].command.id).Some?
    ensures Outcome(inputs, n + 1, n) == Some(Duplicate)
    ensures Outcome(inputs, n + 1, w) == Outcome(inputs, n, w)
    ensures forall id :: Holder(inputs, n + 1, id) == Holder(inputs, n, id)
  {
  }

  // ---------------------------------------------------------------- the answers given

  /** The replies sent to the caller of command `w`, in order. */
  function RepliesTo(answers: seq<Answer>, w: nat): seq<Reply> {
    if answers == [] then []
    else
      var last := answers[|answers| - 1];
      RepliesTo(answers[..|answers| - 1], w) + (if last.waiter == w then [last.reply] else [])
  }

  lemma RepliesToNext(answers: seq<Answer>, a: Answer, w: nat)
    ensures RepliesTo(answers + [a], w) == RepliesTo(answers, w) + (if a.waiter == w then [a.reply] else [])
  {
  }

  /** The replies due to the caller of command `w` after `n` inputs. */
  function Due(inputs: seq<Input>, n: nat, w: nat): seq<Reply>
    requires n <= |inputs|
  {
    if w < n && inputs[w].Cmd? then
      match Outcome(inputs, n, w) case Some(r) => [r] case None => []
    else []
  }

  /** Every caller has had the replies due to it, and `pending` holds exactly the callers still waiting. */
  ghost predicate Routed(answers: seq<Answer>, pending: map<string, nat>, inputs: seq<Input>, n: nat)
    requires n <= |inputs|
  {
    && (forall id :: Holder(inputs, n, id) == if id in pending then Some(pending[id]) else None)
    && forall w: nat :: RepliesTo(answers, w) == Due(inputs, n, w)
  }

  lemma RoutedOther(answers: seq<Answer>, pending: map<string, nat>, inputs: seq<Input>, n: nat)
    requires n < |inputs| && Routed(answers, pending, inputs, n)
    requires !inputs[n].Cmd? && forall id :: Settles(inputs[n], id).None?
    ensures Routed(answers, pending, inputs, n + 1)
  {
  }

  lemma RoutedAnswer(answers: seq<Answer>, pending: map<string, nat>, inputs: seq<Input>, n: nat, r: Reply)
    requires n < |inputs| && Routed(answers, pending, inputs, n)
    requires inputs[n].Cmd? && Outcome(inputs, n + 1, n) == Some(r)
    ensures Routed(answers + [Answer(n, r)], pending, inputs, n + 1)
  {
    forall w: nat ensures RepliesTo(answers + [Answer(n, r)], w) == Due(inputs, n + 1, w) {
      RepliesToNext(answers, Answer(n, r), w);
      if w < n && inputs[w].Cmd? {
        OutcomeStep(inputs, n, w);
        PendingIsHolder(inputs, n, w);
      }
    }
    if inputs[n].command.Request? {
      PendingIsHolder(inputs, n + 1, n);
    }
  }

  lemma RoutedInsert(answers: seq<Answer>, pending: map<string, nat>, inputs: seq<Input>, n: nat, id: string)
    requires n < |inputs| && Routed(answers, pending, inputs, n)
    requires inputs[n] == Cmd(Request(id, Ok)) && id !in pending
    ensures Routed(answers, pending[id := n], inputs, n + 1)
  {
  }

  lemma RoutedReply(answers: seq<Answer>, pending: map<string, nat>, inputs: seq<Input>, n: nat, id: string, r: Reply)
    requires n < |inputs| && Routed(answers, pending, inputs, n)
    requires Settles(inputs[n], id) == Some(r)
    ensures id in pending ==> Routed(answers + [Answer(pending[id], r)], pending - {id}, inputs, n + 1)
    ensures id !in pending ==> Routed(answers, pending, inputs, n + 1)
  {
    HolderEarlier(inputs, n, id);
    assert Holder(inputs, n, id) == if id in pending then Some(pending[id]) else None;
    var next := if id in pending then answers + [Answer(pending[id], r)] else answers;
    forall w: nat ensures RepliesTo(next, w) == Due(inputs, n + 1, w) {
      if id in pending { RepliesToNext(answers, Answer(pending[id], r), w); }
      DueNext(inputs, n, id, r, w);
    }
  }

  /** A reply to `id` is due to the caller that holds the id, and changes nothing for the others. */
  lemma DueNext(inputs: seq<Input>, n: nat, id: string, r: Reply, w: nat)
    requires n < |inputs| && Settles(inputs[n], id) == Some(r)
    ensures Due(inputs, n + 1, w) == Due(inputs, n, w) + (if Holder(inputs, n, id) == Some(w) then [r] else [])
  {
    HolderEarlier(inputs, n, id);
    if w < n && inputs[w].Cmd? {
      OutcomeStep(inputs, n, w);
      PendingIsHolder(inputs, n, w);
    }
  }

  /** Every command read has exactly one answer: its outcome, or a broken pipe if it has none. */
  ghost predicate AllAnswered(answers: seq<Answer>, inputs: seq<Input>, n: nat)
    requires n <= |inputs|
  {
    forall w: nat :: RepliesTo(answers, w) ==
      if w < n && inputs[w].Cmd? then
        match Outcome(inputs, n, w) case Some(r) => [r] case None => [BrokenPipe]
      else []
  }

  /** The end of the worker: everyone still waiting is told that the pipe is broken. */
  method FailPending(start: seq<Answer>, waiting: map<string, nat>, ghost inputs: seq<Input>, ghost n: nat)
    returns (answers: seq<Answer>)
    requires n <= |inputs| && Routed(start, waiting, inputs, n)
    ensures AllAnswered(answers, inputs, n)
  {
    var pending := waiting;
    answers := start;
    ToldStart(start, waiting, inputs, n);
    while pending.Keys != {}
      invariant forall id | id in pending :: id in waiting && pending[id] == waiting[id]
      invariant ToldAll(answers, waiting, pending, inputs, n)
      decreases |pending|
    {
      var id :| id in pending;
      ToldNext(answers, waiting, pending, inputs, n, id);
      answers := answers + [Answer(pending[id], BrokenPipe)];
      pending := pending - {id};
    }
    ToldEnd(answers, waiting, pending, inputs, n);
  }

  /** The replies due to command `w` once the callers that are no longer in `pending` were told. */
  ghost function Told(pending: map<string, nat>, inputs: seq<Input>, n: nat, w: nat): seq<Reply>
    requires n <= |inputs|
  {
    if w < n && inputs[w].Cmd? && inputs[w].command.Request? && Outcome(inputs, n, w).None? then
      if inputs[w].command.id in pending then [] else [BrokenPipe]
    else Due(inputs, n, w)
  }

  /** `waiting` holds the callers still waiting, and those no longer in `pending` have been told. */
  ghost predicate ToldAll(answers: seq<Answer>, waiting: map<string, nat>, pending: map<string, nat>,
                          inputs: seq<Input>, n: nat)
    requires n <= |inputs|
  {
    && (forall id :: Holder(inputs, n, id) == if id in waiting then Some(waiting[id]) else None)
    && forall w: nat :: RepliesTo(answers, w) == Told(pending, inputs, n, w)
  }

  lemma ToldStart(answers: seq<Answer>, waiting: map<string, nat>, inputs: seq<Input>, n: nat)
    requires n <= |inputs| && Routed(answers, waiting, inputs, n)
    ensures ToldAll(answers, waiting, waiting, inputs, n)
  {
    forall w: nat ensures RepliesTo(answers, w) == Told(waiting, inputs, n, w) {
      if w < n && inputs[w].Cmd? { PendingIsHolder(inputs, n, w); }
    }
  }

  lemma ToldNext(answers: seq<Answer>, waiting: map<string, nat>, pending: map<string, nat>,
                 inputs: seq<Input>, n: nat, id: string)
    requires n <= |inputs| && ToldAll(answers, waiting, pending, inputs, n)
    requires id in pending && id in waiting && pending[id] == waiting[id]
    ensures ToldAll(answers + [Answer(pending[id], BrokenPipe)], waiting, pending - {id}, inputs, n)
  {
    assert Holder(inputs, n, id) == Some(pending[id]);
    forall w: nat
      ensures RepliesTo(answers + [Answer(pending[id], BrokenPipe)], w) == Told(pending - {id}, inputs, n, w)
    {
      RepliesToNext(answers, Answer(pending[id], BrokenPipe), w);
      ToldOne(pending, inputs, n, id, w);
    }
  }

  lemma ToldOne(pending: map<string, nat>, inputs: seq<Input>, n: nat, id: string, w: nat)
    requires n <= |inputs| && id in pending && Holder(inputs, n, id) == Some(pending[id])
    ensures Told(pending - {id}, inputs, n, w)
         == Told(pending, inputs, n, w) + (if pending[id] == w then [BrokenPipe] else [])
  {
    HolderEarlier(inputs, n, id);
    if w < n && inputs[w].Cmd? { PendingIsHolder(inputs, n, w); }
  }

  lemma ToldEnd(answers: seq<Answer>, waiting: map<string, nat>, pending: map<string, nat>, inputs: seq<Input>, n: nat)
    requires n <= |inputs| && ToldAll(answers, waiting, pending, inputs, n) && pending.Keys == {}
    ensures AllAnswered(answers, inputs, n)
  {
    forall w: nat | w < n && inputs[w].Cmd?
      ensures Outcome(inputs, n, w).None? ==> RepliesTo(answers, w) == [BrokenPipe]
    {
      PendingIsHolder(inputs, n, w);
    }
  }

  // ---------------------------------------------------------------- the events passed to the consumer

  function DisconnectedEvent(url: string, what: string): Event {
    Disconnected("remote app server at `" + url + "` " + what)
  }

  /** The event the input at `k` makes the worker deliver, if any. */
  function EventAt(url: string, inputs: seq<Input>, k: nat): Option<Event>
    requires k < |inputs|
  {
    match inputs[k]
    case Cmd(Request(id, Err(error))) =>
      if Holder(inputs, k, id).Some? then None else Some(DisconnectedEvent(url, "write failed: " + error))
    case Cmd(_) => None
    case CommandsClosed => None
    case Msg(message) =>
      match message
      case NotificationMessage(Some(kind), payload) => Some(Notification(kind, payload))
      case RequestMessage(id, known, write) =>
        if known then Some(ServerRequest(id, false))
        else if write.Err? then Some(DisconnectedEvent(url, "write failed: " + write.error))
        else None
      case InvalidJson(error) => Some(DisconnectedEvent(url, "sent invalid JSON-RPC: " + error))
      case CloseFrame(reason) =>
        Some(DisconnectedEvent(url, "disconnected: " + if reason == "" then "connection closed" else reason))
      case TransportError(error) => Some(DisconnectedEvent(url, "transport failed: " + error))
      case EndOfStream => Some(DisconnectedEvent(url, "closed the connection"))
      case _ => None
  }

  /** The events that say why the connection is gone, in full. */
  lemma DisconnectReads(url: string, inputs: seq<Input>, k: nat)
    requires k < |inputs|
    ensures var start := "remote app server at `" + url + "` ";
            && (inputs[k] == Msg(EndOfStream) ==>
                  EventAt(url, inputs, k) == Some(Disconnected(start + "closed the connection")))
            && (inputs[k] == Msg(CloseFrame("")) ==>
                  EventAt(url, inputs, k) == Some(Disconnected(start + "disconnected: connection closed")))
            && (forall reason :: inputs[k] == Msg(CloseFrame(reason)) && reason != "" ==>
                  EventAt(url, inputs, k) == Some(Disconnected(start + ("disconnected: " + reason))))
            && (forall e :: inputs[k] == Msg(InvalidJson(e)) ==>
                  EventAt(url, inputs, k) == Some(Disconnected(start + ("sent invalid JSON-RPC: " + e))))
            && (forall e :: inputs[k] == Msg(TransportError(e)) ==>
                  EventAt(url, inputs, k) == Some(Disconnected(start + ("transport failed: " + e))))
            && (forall id, e :: inputs[k] == Msg(RequestMessage(id, false, Err(e))) ==>
                  EventAt(url, inputs, k) == Some(Disconnected(start + ("write failed: " + e))))
            && (forall id, e :: inputs[k] == Cmd(Request(id, Err(e))) && Holder(inputs, k, id).None? ==>
                  EventAt(url, inputs, k) == Some(Disconnected(start + ("write failed: " + e))))
  {
    assert "disconnected: " + "connection closed" == "disconnected: connection closed";
  }

  function EventsUpTo(url: string, inputs: seq<Input>, n: nat): seq<Event>
    requires n <= |inputs|
  {
    if n == 0 then []
    else
      EventsUpTo(url, inputs, n - 1)
      + (match EventAt(url, inputs, n - 1) case Some(e) => [e] case None => [])
  }

  /** Whether the input at `k` ends the worker, however the event channel fares. */
  predicate Stops(url: string, inputs: seq<Input>, k: nat)
    requires k < |inputs|
  {
    || inputs[k].CommandsClosed?
    || (inputs[k].Cmd? && inputs[k].command.Shutdown?)
    || (EventAt(url, inputs, k).Some? && EventAt(url, inputs, k).value.Disconnected?)
  }

  /** The calls the client does not know, whose rejection was written. */
  function UnknownCalls(inputs: seq<Input>, n: nat): seq<string>
    requires n <= |inputs|
  {
    if n == 0 then []
    else
      UnknownCalls(inputs, n - 1)
      + (match inputs[n - 1]
         case Msg(RequestMessage(id, false, Ok)) => [id]
         case _ => [])
  }

  predicate NoDisconnected(output: seq<Sent>) {
    forall i | 0 <= i < |output| :: output[i].Real? ==> !output[i].event.Disconnected?
  }

  /** At most one event says the connection is gone, and nothing follows it. */
  predicate DisconnectedLast(output: seq<Sent>) {
    output == [] || NoDisconnected(output[..|output| - 1])
  }

  lemma AppendedKeeps(before: seq<Sent>, after: seq<Sent>, skipped: nat, event: Event)
    requires NoDisconnected(before) && Appended(before, after, skipped, event)
    ensures DisconnectedLast(after) && (!event.Disconnected? ==> NoDisconnected(after))
  {
  }

  // ---------------------------------------------------------------- the worker

  /**
   One input of the worker loop, up to the delivery it may end with: route replies, answer
   commands, refuse unknown calls. `rejectable` says whether a rejection could be written.
   */
  method HandleInput(url: string, inputs: seq<Input>, n: nat, given: seq<Answer>, waiting: map<string, nat>,
                     refused: seq<string>)
    returns (answers: seq<Answer>, pending: map<string, nat>, unsupported: seq<string>,
             deliver: Option<Event>, rejectable: bool, ended: bool)
    requires n < |inputs| && Routed(given, waiting, inputs, n) && refused == UnknownCalls(inputs, n)
    ensures Routed(answers, pending, inputs, n + 1) && unsupported == UnknownCalls(inputs, n + 1)
    ensures deliver == EventAt(url, inputs, n) && ended == Stops(url, inputs, n)
    ensures RejectionWritten(inputs[n]) ==> rejectable
  {
    answers, pending, unsupported := given, waiting, refused;
    deliver, rejectable, ended := None, true, false;
    if !inputs[n].Cmd? && (forall id :: Settles(inputs[n], id).None?) {
      RoutedOther(answers, pending, inputs, n);
    }
    match inputs[n] {
      case CommandsClosed =>
        ended := true;
      case Cmd(Request(id, write)) =>
        if id in pending {
          RoutedAnswer(answers, pending, inputs, n, Duplicate);
          answers := answers + [Answer(n, Duplicate)];
        } else {
          pending := pending[id := n];
          match write
          case Ok =>
            RoutedInsert(answers, waiting, inputs, n, id);
          case Err(error) =>
            pending := pending - {id};
            assert pending == waiting;
            RoutedAnswer(answers, pending, inputs, n, WriteFailed(error));
            answers := answers + [Answer(n, WriteFailed(error))];
            deliver, ended := Some(DisconnectedEvent(url, "write failed: " + error)), true;
        }
      case Cmd(Shutdown(closed)) =>
        RoutedAnswer(answers, pending, inputs, n, CloseResult(closed));
        answers := answers + [Answer(n, CloseResult(closed))];
        ended := true;
      case Cmd(other) =>
        RoutedAnswer(answers, pending, inputs, n, ReplyOf(other.write));
        answers := answers + [Answer(n, ReplyOf(other.write))];
      case Msg(ResponseMessage(id, result)) =>
        RoutedReply(answers, pending, inputs, n, id, Result(result));
        if id in pending {
          answers, pending := answers + [Answer(pending[id], Result(result))], pending - {id};
        }
      case Msg(ErrorMessage(id, error)) =>
        RoutedReply(answers, pending, inputs, n, id, Failure(error));
        if id in pending {
          answers, pending := answers + [Answer(pending[id], Failure(error))], pending - {id};
        }
      case Msg(NotificationMessage(Some(kind), payload)) =>
        deliver := Some(Notification(kind, payload));
      case Msg(RequestMessage(id, true, write)) =>
        deliver, rejectable := Some(ServerRequest(id, false)), write.Ok?;
      case Msg(RequestMessage(id, false, Ok)) =>
        unsupported := unsupported + [id];
      case Msg(RequestMessage(id, false, Err(error))) =>
        deliver, ended := Some(DisconnectedEvent(url, "write failed: " + error)), true;
      case Msg(InvalidJson(error)) =>
        deliver, ended := Some(DisconnectedEvent(url, "sent invalid JSON-RPC: " + error)), true;
      case Msg(CloseFrame(reason)) =>
        deliver, ended := Some(DisconnectedEvent(url,
          "disconnected: " + if reason == "" then "connection closed" else reason)), true;
      case Msg(TransportError(error)) =>
        deliver, ended := Some(DisconnectedEvent(url, "transport failed: " + error)), true;
      case Msg(EndOfStream) =>
        deliver, ended := Some(DisconnectedEvent(url, "closed the connection")), true;
      case Msg(_) =>
    }
  }

  /** Whether rejections of the calls in the first `n` inputs can all be written. */
  predicate AllRejectable(inputs: seq<Input>, n: nat)
    requires n <= |inputs|
  {
    forall k | 0 <= k < n :: RejectionWritten(inputs[k])
  }

  /**
   The books of the event side after `n` inputs. `passed` are the events the channel content
   explains: all that the inputs call for, save perhaps the last when the consumer has closed.
   */
  ghost predicate Forwarding(url: string, inputs: seq<Input>, n: nat, ended: bool, open: bool, output: seq<Sent>,
                             skipped: nat, passed: seq<Event>, refused: seq<string>, rejected: seq<string>)
    requires n <= |inputs|
  {
    && Ledger(output, skipped, passed, refused)
    && (if ended then DisconnectedLast(output) else NoDisconnected(output))
    && (passed == EventsUpTo(url, inputs, n)
        || (!open && ended && n > 0 && passed == EventsUpTo(url, inputs, n - 1)))
    && (!ended || (open && AllRejectable(inputs, n)) ==> rejected == refused)
    && (ended && open && AllRejectable(inputs, n) ==> n > 0 && Stops(url, inputs, n - 1))
  }

  /** No input is taken after one that ends the worker. */
  predicate StopsAtOnce(url: string, inputs: seq<Input>, n: nat, ended: bool)
    requires n <= |inputs|
  {
    forall k | 0 <= k < n :: Stops(url, inputs, k) ==> ended && k == n - 1
  }

  /** Deliver the event that an input calls for; the worker ends when that fails or says so. */
  method DeliverNext(tx: EventQueue, url: string, inputs: seq<Input>, n: nat, event: Event, rejectable: bool,
                     skippedEvents: nat, before: seq<string>,
                     ghost passedBefore: seq<Event>, ghost refusedBefore: seq<string>)
    returns (skipped: nat, ended: bool, rejected: seq<string>, ghost passed: seq<Event>, ghost refused: seq<string>)
    requires n < |inputs| && EventAt(url, inputs, n) == Some(event) && (RejectionWritten(inputs[n]) ==> rejectable)
    requires tx.Valid()
    requires Forwarding(url, inputs, n, false, tx.open, tx.Output(), skippedEvents, passedBefore, refusedBefore, before)
    modifies tx
    ensures tx.Valid() && (Stops(url, inputs, n) ==> ended)
    ensures Forwarding(url, inputs, n + 1, ended, tx.open, tx.Output(), skipped, passed, refused, rejected)
  {
    var ok, refusal;
    passed, refused := passedBefore, refusedBefore;
    ghost var output := tx.Output();
    skipped, ok, refusal := DeliverEvent(tx, skippedEvents, event, rejectable, passed, refused);
    AppendedKeeps(output, tx.Output(), skippedEvents, event);
    if ok {
      passed, refused := passed + [event], refused + refusal;
    } else if tx.open || !Ledger(tx.Output(), skipped, passed, refused) {
      passed, refused := passed + [event], refused + RequestOf(event);
    }
    rejected := before + refusal;
    ended := !ok || event.Disconnected?;
  }

  /**
   The worker loop over the inputs in the order it takes them. `rejected` lists the server
   requests refused because the event queue was full, `unsupported` the unknown calls refused.
   */
  method RunRemoteWorker(tx: EventQueue, url: string, inputs: seq<Input>)
    returns (taken: nat, ended: bool, answers: seq<Answer>, skipped: nat, rejected: seq<string>,
             unsupported: seq<string>, ghost passed: seq<Event>, ghost refused: seq<string>)
    requires tx.Valid() && tx.Output() == []
    modifies tx
    ensures tx.Valid() && taken <= |inputs| && (ended || taken == |inputs|)
    ensures StopsAtOnce(url, inputs, taken, ended)
    ensures ended ==> AllAnswered(answers, inputs, taken)
    ensures !ended ==> exists pending :: Routed(answers, pending, inputs, taken)
    ensures unsupported == UnknownCalls(inputs, taken)
    ensures Forwarding(url, inputs, taken, ended, tx.open, tx.Output(), skipped, passed, refused, rejected)
  {
    var pending: map<string, nat> := map[];
    taken, ended, answers, skipped, rejected, unsupported := 0, false, [], 0, [], [];
    passed, refused := [], [];
    while taken < |inputs| && !ended
      invariant taken <= |inputs| && tx.Valid()
      invariant Routed(answers, pending, inputs, taken) && unsupported == UnknownCalls(inputs, taken)
      invariant StopsAtOnce(url, inputs, taken, ended)
      invariant Forwarding(url, inputs, taken, ended, tx.open, tx.Output(), skipped, passed, refused, rejected)
      decreases |inputs| - taken
    {
      var deliver, rejectable;
      answers, pending, unsupported, deliver, rejectable, ended :=
        HandleInput(url, inputs, taken, answers, pending, unsupported);
      match deliver {
        case None =>
          assert EventsUpTo(url, inputs, taken + 1) == EventsUpTo(url, inputs, taken);
        case Some(event) =>
          skipped, ended, rejected, passed, refused :=
            DeliverNext(tx, url, inputs, taken, event, rejectable, skipped, rejected, passed, refused);
      }
      taken := taken + 1;
    }
    if ended { answers := FailPending(answers, pending, inputs, taken); }
  }

  /**
   While the consumer is open and rejections can be written, every server request read is in the
   channel or refused, never both, and the events that require delivery are there complete and in order.
   */
  lemma NothingUnaccounted(url: string, inputs: seq<Input>, n: nat, ended: bool, output: seq<Sent>,
                           skipped: nat, passed: seq<Event>, refused: seq<string>, rejected: seq<string>)
    requires n <= |inputs| && AllRejectable(inputs, n) && |passed| <= USIZE_MAX
    requires Forwarding(url, inputs, n, ended, true, output, skipped, passed, refused, rejected)
    ensures Pos(output) + skipped == |EventsUpTo(url, inputs, n)|
    ensures Required(Delivered(output)) == Required(EventsUpTo(url, inputs, n))
    ensures multiset(Requests(Delivered(output))) + multiset(rejected) == multiset(Requests(EventsUpTo(url, inputs, n)))
  {
    LedgerMeaning(output, skipped, passed, refused);
  }

  /** A rejection of the call in this input, if one were needed, can be written. */
  predicate RejectionWritten(input: Input) {
    input.Msg? && input.message.RequestMessage? ==> input.message.write.Ok?
  }
}
