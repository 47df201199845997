/** What a thread remembers between core events: started items, the turn's last error, waiting requests. */
module TurnBookkeeping {
  import opened Wrappers

  type RequestId = string

  /** The steps that touch the bookkeeping: core events, replies to approvals, and client requests. */
  datatype Input =
    | PatchApprovalRequest(item: string, v2: bool)
    | PatchApplyBegin(item: string)
    | PatchApplyEnd(item: string)
    | PatchApprovalAnswered(item: string, completes: bool)
    | ExecCommandBegin(item: string)
    | ExecCommandEnd(item: string)
    | ExecApprovalAnswered(item: string, subcommand: bool, completes: bool)
    | ExecOutputDelta(item: string)
    | Error(message: string, rollbackFailed: bool, affectsTurn: bool)
    | TurnComplete
    | TurnAborted
    | Interrupt(request: RequestId, v2: bool)
    | RollbackStart(request: RequestId)
    | RollbackSubmitted(request: RequestId)
    | RollbackSubmitFailed(request: RequestId)
    | ThreadRolledBack(readable: bool)

  datatype Status = Completed | Failed | Interrupted

  datatype Output =
    | FileChangeStarted(item: string)
    | FileChangeCompleted(item: string)
    | FileChangeDelta(item: string)
    | CommandStarted(item: string)
    | CommandCompleted(item: string)
    | CommandDelta(item: string)
    | ApprovalRequested(item: string, v2: bool)
    | ErrorNotified(message: string)
    | TurnCompleted(status: Status, error: Option<string>)
    | InterruptResponse(request: RequestId, v2: bool)
    | RollbackResponse(request: RequestId)
    | RollbackError(request: RequestId)

  // ---------------------------------------------------------------- what the past says

  predicate EndsTurn(input: Input) { input.TurnComplete? || input.TurnAborted? }

  /** The error a turn that ended now would be reported with. */
  function LastError(past: seq<Input>): Option<string> {
    if past == [] then None
    else
      match past[|past| - 1]
      case TurnComplete => None
      case TurnAborted => None
      case Error(message, false, true) => Some(message)
      case _ => LastError(past[..|past| - 1])
  }

  predicate StartsFileChange(input: Input, item: string) {
    input == PatchApplyBegin(item) || input == PatchApprovalRequest(item, true)
  }

  predicate RemovesFileChange(input: Input, item: string) {
    EndsTurn(input) || input == PatchApplyEnd(item) || input == PatchApprovalAnswered(item, true)
  }

  predicate FileChangeOpen(past: seq<Input>, item: string) {
    past != [] &&
    var last := past[|past| - 1];
    StartsFileChange(last, item) || (!RemovesFileChange(last, item) && FileChangeOpen(past[..|past| - 1], item))
  }

  predicate CommandOpen(past: seq<Input>, item: string) {
    past != [] &&
    var last := past[|past| - 1];
    last == ExecCommandBegin(item)
    || (!EndsTurn(last) && last != ExecCommandEnd(item) && CommandOpen(past[..|past| - 1], item))
  }

  /** The interrupt requests that no abort has answered yet, oldest first. */
  function Interrupts(past: seq<Input>): seq<(RequestId, bool)> {
    if past == [] then []
    else
      match past[|past| - 1]
      case TurnAborted => []
      case Interrupt(request, v2) => Interrupts(past[..|past| - 1]) + [(request, v2)]
      case _ => Interrupts(past[..|past| - 1])
  }

  /** The rollback request in progress. */
  function Rollback(past: seq<Input>): Option<RequestId> {
    if past == [] then None
    else
      var before := Rollback(past[..|past| - 1]);
      match past[|past| - 1]
      case RollbackStart(request) => if before.Some? then before else Some(request)
      case RollbackSubmitFailed(_) => None
      case ThreadRolledBack(_) => None
      case Error(_, true, _) => None
      case _ => before
  }

  function InterruptResponses(pending: seq<(RequestId, bool)>): seq<Output> {
    if pending == [] then []
    else
      var last := pending[|pending| - 1];
      InterruptResponses(pending[..|pending| - 1]) + [InterruptResponse(last.0, last.1)]
  }

  /** What one step sends out, given everything that happened before it. */
  function Emitted(past: seq<Input>, input: Input): seq<Output> {
    match input
    case PatchApprovalRequest(item, v2) =>
      (if v2 && !FileChangeOpen(past, item) then [FileChangeStarted(item)] else []) + [ApprovalRequested(item, v2)]
    case PatchApplyBegin(item) => if FileChangeOpen(past, item) then [] else [FileChangeStarted(item)]
    case PatchApplyEnd(item) => [FileChangeCompleted(item)]
    case PatchApprovalAnswered(item, completes) => if completes then [FileChangeCompleted(item)] else []
    case ExecCommandBegin(item) => [CommandStarted(item)]
    case ExecCommandEnd(item) => [CommandCompleted(item)]
    case ExecApprovalAnswered(item, subcommand, completes) =>
      if completes && !(subcommand && CommandOpen(past, item)) then [CommandCompleted(item)] else []
    case ExecOutputDelta(item) => [if FileChangeOpen(past, item) then FileChangeDelta(item) else CommandDelta(item)]
    case Error(message, rollbackFailed, affectsTurn) =>
      if rollbackFailed then match Rollback(past) { case Some(request) => [RollbackError(request)] case None => [] }
      else if affectsTurn then [ErrorNotified(message)]
      else []
    case TurnComplete =>
      [TurnCompleted(if LastError(past).Some? then Failed else Completed, LastError(past))]
    case TurnAborted => InterruptResponses(Interrupts(past)) + [TurnCompleted(Interrupted, None)]
    case Interrupt(_, _) => []
    case RollbackStart(request) => if Rollback(past).Some? then [RollbackError(request)] else []
    case RollbackSubmitted(_) => []
    case RollbackSubmitFailed(request) => [RollbackError(request)]
    case ThreadRolledBack(readable) =>
      match Rollback(past)
      case Some(request) => [if readable then RollbackResponse(request) else RollbackError(request)]
      case None => []
  }

  predicate AboutFileChange(input: Input) {
    || input.PatchApprovalRequest? || input.PatchApplyBegin? || input.PatchApplyEnd?
    || input.PatchApprovalAnswered? || input.ExecOutputDelta?
  }

  predicate AboutCommand(input: Input) {
    input.ExecCommandBegin? || input.ExecCommandEnd? || input.ExecApprovalAnswered?
  }

  /** What one more input does to what the past says. */
  lemma PastGrows(past: seq<Input>, input: Input)
    ensures LastError(past + [input]) ==
            if EndsTurn(input) then None
            else if input.Error? && !input.rollbackFailed && input.affectsTurn then Some(input.message)
            else LastError(past)
    ensures forall item :: FileChangeOpen(past + [input], item) ==
              (StartsFileChange(input, item) || (!RemovesFileChange(input, item) && FileChangeOpen(past, item)))
    ensures forall item :: CommandOpen(past + [input], item) ==
              (input == ExecCommandBegin(item)
               || (!EndsTurn(input) && input != ExecCommandEnd(item) && CommandOpen(past, item)))
    ensures Interrupts(past + [input]) ==
            if input.TurnAborted? then []
            else if input.Interrupt? then Interrupts(past) + [(input.request, input.v2)] else Interrupts(past)
    ensures Rollback(past + [input]) ==
            if input.RollbackStart? then (if Rollback(past).Some? then Rollback(past) else Some(input.request))
            else if EndsRollback(input) then None
            else Rollback(past)
  {
  }

  predicate EndsRollback(input: Input) {
    input.RollbackSubmitFailed? || input.ThreadRolledBack? || (input.Error? && input.rollbackFailed)
  }

  // ---------------------------------------------------------------- the thread state

  class ThreadState {
    var fileChangeStarted: set<string>
    var commandExecutionStarted: set<string>
    var lastError: Option<string>
    var pendingInterrupts: seq<(RequestId, bool)>
    var pendingRollbacks: Option<RequestId>
    ghost var past: seq<Input>

    /** The state is a summary of the past. */
    ghost predicate Valid()
      reads this
    {
      && (forall item :: item in fileChangeStarted <==> FileChangeOpen(past, item))
      && (forall item :: item in commandExecutionStarted <==> CommandOpen(past, item))
      && lastError == LastError(past)
      && pendingInterrupts == Interrupts(past)
      && pendingRollbacks == Rollback(past)
    }

    constructor ()
      ensures Valid() && past == []
    {
      fileChangeStarted, commandExecutionStarted := {}, {};
      lastError, pendingInterrupts, pendingRollbacks, past := None, [], None, [];
    }

    /** Take the turn summary, leaving a fresh one. */
    method TakeTurnSummary() returns (error: Option<string>)
      modifies this`fileChangeStarted, this`commandExecutionStarted, this`lastError
      ensures error == old(lastError)
      ensures fileChangeStarted == {} && commandExecutionStarted == {} && lastError == None
    {
      error := lastError;
      fileChangeStarted, commandExecutionStarted, lastError := {}, {}, None;
    }

    /** Note the start of a file change; true the first time. */
    method InsertFileChange(item: string) returns (first: bool)
      modifies this`fileChangeStarted
      ensures first == (item !in old(fileChangeStarted)) && fileChangeStarted == old(fileChangeStarted) + {item}
    {
      first := item !in fileChangeStarted;
      fileChangeStarted := fileChangeStarted + {item};
    }

    /** The events about file changes and the output they produce. */
    method HandleFileChange(input: Input) returns (outputs: seq<Output>)
      requires Valid() && AboutFileChange(input)
      modifies this
      ensures Valid() && past == old(past) + [input] && outputs == Emitted(old(past), input)
    {
      outputs := [];
      match input {
        case PatchApprovalRequest(item, v2) =>
          if v2 {
            var first := InsertFileChange(item);
            if first { outputs := [FileChangeStarted(item)]; }
          }
          outputs := outputs + [ApprovalRequested(item, v2)];
        case PatchApplyBegin(item) =>
          var first := InsertFileChange(item);
          if first { outputs := [FileChangeStarted(item)]; }
        case PatchApplyEnd(item) =>
          CompleteFileChange(item);
          outputs := [FileChangeCompleted(item)];
        case PatchApprovalAnswered(item, completes) =>
          if completes {
            CompleteFileChange(item);
            outputs := [FileChangeCompleted(item)];
          }
        case ExecOutputDelta(item) =>
          outputs := [if item in fileChangeStarted then FileChangeDelta(item) else CommandDelta(item)];
      }
      PastGrows(past, input);
      past := past + [input];
    }

    method CompleteFileChange(item: string)
      modifies this`fileChangeStarted
      ensures fileChangeStarted == old(fileChangeStarted) - {item}
    {
      fileChangeStarted := fileChangeStarted - {item};
    }

    /** The events about commands. */
    method HandleCommand(input: Input) returns (outputs: seq<Output>)
      requires Valid() && AboutCommand(input)
      modifies this
      ensures Valid() && past == old(past) + [input] && outputs == Emitted(old(past), input)
    {
      outputs := [];
      match input {
        case ExecCommandBegin(item) =>
          commandExecutionStarted := commandExecutionStarted + {item};
          outputs := [CommandStarted(item)];
        case ExecCommandEnd(item) =>
          commandExecutionStarted := commandExecutionStarted - {item};
          outputs := [CommandCompleted(item)];
        case ExecApprovalAnswered(item, subcommand, completes) =>
          var suppress := subcommand && item in commandExecutionStarted;
          if completes && !suppress { outputs := [CommandCompleted(item)]; }
      }
      PastGrows(past, input);
      past := past + [input];
    }

    /** The end of a turn. */
    method HandleTurnEnd(input: Input) returns (outputs: seq<Output>)
      requires Valid() && EndsTurn(input)
      modifies this
      ensures Valid() && past == old(past) + [input] && outputs == Emitted(old(past), input)
    {
      PastGrows(past, input);
      past := past + [input];
      if input.TurnComplete? {
        var error := TakeTurnSummary();
        outputs := [TurnCompleted(if error.Some? then Failed else Completed, error)];
      } else {
        var pending := pendingInterrupts;
        pendingInterrupts := [];
        outputs := [];
        for i := 0 to |pending|
          invariant outputs == InterruptResponses(pending[..i])
        {
          assert pending[..i + 1][..i] == pending[..i];
          outputs := outputs + [InterruptResponse(pending[i].0, pending[i].1)];
        }
        assert pending[..|pending|] == pending;
        var _ := TakeTurnSummary();
        outputs := outputs + [TurnCompleted(Interrupted, None)];
      }
    }

    /** Errors, and the requests that wait for an event. */
    method HandleRequest(input: Input) returns (outputs: seq<Output>)
      requires Valid() && !AboutFileChange(input) && !AboutCommand(input) && !EndsTurn(input)
      modifies this
      ensures Valid() && past == old(past) + [input] && outputs == Emitted(old(past), input)
    {
      outputs := [];
      match input {
        case Error(message, rollbackFailed, affectsTurn) =>
          if rollbackFailed {
            if pendingRollbacks.Some? { outputs := [RollbackError(pendingRollbacks.value)]; }
            pendingRollbacks := None;
          } else if affectsTurn {
            lastError := Some(message);
            outputs := [ErrorNotified(message)];
          }
        case Interrupt(request, v2) =>
          pendingInterrupts := pendingInterrupts + [(request, v2)];
        case RollbackStart(request) =>
          if pendingRollbacks.Some? {
            outputs := [RollbackError(request)];
          } else {
            pendingRollbacks := Some(request);
          }
        case RollbackSubmitted(_) =>
        case RollbackSubmitFailed(request) =>
          pendingRollbacks := None;
          outputs := [RollbackError(request)];
        case ThreadRolledBack(readable) =>
          if pendingRollbacks.Some? {
            var request := pendingRollbacks.value;
            outputs := [if readable then RollbackResponse(request) else RollbackError(request)];
          }
          pendingRollbacks := None;
      }
      PastGrows(past, input);
      past := past + [input];
    }

    method Handle(input: Input) returns (outputs: seq<Output>)
      requires Valid()
      modifies this
      ensures Valid() && past == old(past) + [input] && outputs == Emitted(old(past), input)
    {
      if AboutFileChange(input) {
        outputs := HandleFileChange(input);
      } else if AboutCommand(input) {
        outputs := HandleCommand(input);
      } else if EndsTurn(input) {
        outputs := HandleTurnEnd(input);
      } else {
        outputs := HandleRequest(input);
      }
    }
  }

  // ---------------------------------------------------------------- over whole runs

  predicate TurnError(input: Input) { input.Error? && !input.rollbackFailed && input.affectsTurn }

  /** `e` is the last error of the turn in progress. */
  predicate LastErrorAt(past: seq<Input>, j: nat, e: string) {
    && j < |past| && past[j] == Error(e, false, true)
    && forall k | j < k < |past| :: !EndsTurn(past[k]) && !TurnError(past[k])
  }

  lemma {:induction false} LastErrorMeaning(past: seq<Input>, e: string)
    ensures LastError(past) == Some(e) <==> exists j :: LastErrorAt(past, j, e)
  {
    if past != [] {
      var init, last := past[..|past| - 1], past[|past| - 1];
      LastErrorMeaning(init, e);
      if TurnError(last) {
        assert LastErrorAt(past, |init|, last.message);
      } else if !EndsTurn(last) {
        forall j: nat ensures LastErrorAt(past, j, e) == LastErrorAt(init, j, e) {}
      }
    }
  }

  /** The turn reports among some outputs. */
  function TurnReports(outputs: seq<Output>): seq<Output> {
    if outputs == [] then []
    else TurnReports(outputs[..|outputs| - 1])
         + (if outputs[|outputs| - 1].TurnCompleted? then [outputs[|outputs| - 1]] else [])
  }

  lemma {:induction false} NoTurnReports(pending: seq<(RequestId, bool)>)
    ensures TurnReports(InterruptResponses(pending)) == []
  {
    if pending != [] { NoTurnReports(pending[..|pending| - 1]); }
  }

  /**
   Each turn end reports exactly one turn. It failed with `e` just when it was not aborted and `e`
   is the last turn error since the previous turn end.
   */
  lemma OneReportPerTurn(past: seq<Input>, input: Input)
    ensures !EndsTurn(input) ==> TurnReports(Emitted(past, input)) == []
    ensures EndsTurn(input) ==>
      var reports := TurnReports(Emitted(past, input));
      && |reports| == 1
      && (forall e :: reports[0] == TurnCompleted(Failed, Some(e))
                      <==> input.TurnComplete? && exists j :: LastErrorAt(past, j, e))
      && (input.TurnAborted? ==> reports[0] == TurnCompleted(Interrupted, None))
      && (reports[0].error.Some? <==> reports[0].status.Failed?)
  {
    var outputs := Emitted(past, input);
    if EndsTurn(input) {
      forall e ensures LastError(past) == Some(e) <==> exists j :: LastErrorAt(past, j, e) {
        LastErrorMeaning(past, e);
      }
      if input.TurnAborted? { NoTurnReports(Interrupts(past)); }
      assert outputs[..|outputs| - 1] == if input.TurnAborted? then InterruptResponses(Interrupts(past)) else [];
    } else if outputs != [] {
      assert TurnReports(outputs[..|outputs| - 1]) == [];
    }
  }

  lemma {:induction false} StaysOpen(inputs: seq<Input>, i: nat, j: nat, item: string)
    requires i < j <= |inputs| && StartsFileChange(inputs[i], item)
    requires forall k | i < k < j :: !RemovesFileChange(inputs[k], item)
    ensures FileChangeOpen(inputs[..j], item)
    decreases j
  {
    assert inputs[..j][..j - 1] == inputs[..j - 1];
    if i < j - 1 { StaysOpen(inputs, i, j - 1, item); }
  }

  /** Between two starts of one file change the item was removed: completed, or its turn ended. */
  lemma StartsAreSeparated(inputs: seq<Input>, i: nat, j: nat, item: string)
    requires i < j < |inputs|
    requires FileChangeStarted(item) in Emitted(inputs[..i], inputs[i])
    requires FileChangeStarted(item) in Emitted(inputs[..j], inputs[j])
    ensures exists k :: i < k < j && RemovesFileChange(inputs[k], item)
  {
    StartedBy(inputs[..i], inputs[i], item);
    StartedBy(inputs[..j], inputs[j], item);
    if forall k | i < k < j :: !RemovesFileChange(inputs[k], item) {
      StaysOpen(inputs, i, j, item);
    }
  }

  lemma StartedBy(past: seq<Input>, input: Input, item: string)
    ensures FileChangeStarted(item) in Emitted(past, input)
       <==> StartsFileChange(input, item) && !FileChangeOpen(past, item)
  {
    if input.TurnAborted? { InterruptResponsesOnly(Interrupts(past)); }
  }

  lemma {:induction false} InterruptResponsesOnly(pending: seq<(RequestId, bool)>)
    ensures forall o | o in InterruptResponses(pending) :: o.InterruptResponse?
  {
    if pending != [] { InterruptResponsesOnly(pending[..|pending| - 1]); }
  }

  /** Everything sent out over a run. */
  function OutputsOf(inputs: seq<Input>): seq<Output> {
    if inputs == [] then []
    else OutputsOf(inputs[..|inputs| - 1]) + Emitted(inputs[..|inputs| - 1], inputs[|inputs| - 1])
  }

  function InterruptRequests(inputs: seq<Input>): seq<(RequestId, bool)> {
    if inputs == [] then []
    else InterruptRequests(inputs[..|inputs| - 1])
         + (match inputs[|inputs| - 1] case Interrupt(request, v2) => [(request, v2)] case _ => [])
  }

  function InterruptReplies(outputs: seq<Output>): seq<(RequestId, bool)> {
    if outputs == [] then []
    else InterruptReplies(outputs[..|outputs| - 1])
         + (match outputs[|outputs| - 1] case InterruptResponse(request, v2) => [(request, v2)] case _ => [])
  }

  lemma {:induction false} InterruptRepliesConcat(a: seq<Output>, b: seq<Output>)
    ensures InterruptReplies(a + b) == InterruptReplies(a) + InterruptReplies(b)
    ensures RollbackReplies(a + b) == RollbackReplies(a) + RollbackReplies(b)
    decreases |b|
  {
    if b == [] {
      assert a + b == a;
    } else {
      assert (a + b)[..|a + b| - 1] == a + b[..|b| - 1];
      InterruptRepliesConcat(a, b[..|b| - 1]);
    }
  }

  lemma {:induction false} InterruptRepliesAll(pending: seq<(RequestId, bool)>)
    ensures InterruptReplies(InterruptResponses(pending)) == pending
    ensures RollbackReplies(InterruptResponses(pending)) == []
  {
    if pending != [] {
      var init, last := pending[..|pending| - 1], pending[|pending| - 1];
      InterruptRepliesAll(init);
      OneMoreReply(InterruptResponses(init), init, last);
      assert pending == init + [last];
    }
  }

  lemma OneMoreReply(outputs: seq<Output>, replies: seq<(RequestId, bool)>, last: (RequestId, bool))
    requires InterruptReplies(outputs) == replies && RollbackReplies(outputs) == []
    ensures InterruptReplies(outputs + [InterruptResponse(last.0, last.1)]) == replies + [last]
    ensures RollbackReplies(outputs + [InterruptResponse(last.0, last.1)]) == []
  {
  }

  lemma RepliesOne(o: Output)
    ensures InterruptReplies([o]) == match o { case InterruptResponse(request, v2) => [(request, v2)] case _ => [] }
    ensures RollbackReplies([o]) ==
            match o {
              case RollbackResponse(request) => [request]
              case RollbackError(request) => [request]
              case _ => []
            }
  {
  }

  lemma {:induction false} NoReplies(outputs: seq<Output>)
    ensures (forall o | o in outputs :: !o.InterruptResponse?) ==> InterruptReplies(outputs) == []
    ensures (forall o | o in outputs :: !o.RollbackResponse? && !o.RollbackError?) ==> RollbackReplies(outputs) == []
  {
    if outputs != [] { NoReplies(outputs[..|outputs| - 1]); }
  }

  lemma RepliesAtAbort(past: seq<Input>)
    ensures InterruptReplies(Emitted(past, TurnAborted)) == Interrupts(past)
    ensures RollbackReplies(Emitted(past, TurnAborted)) == []
  {
    InterruptRepliesAll(Interrupts(past));
    InterruptRepliesConcat(InterruptResponses(Interrupts(past)), [TurnCompleted(Interrupted, None)]);
    RepliesOne(TurnCompleted(Interrupted, None));
  }

  /** Apart from aborts, a step answers no interrupt, and either one rollback request or none. */
  lemma EmittedShape(past: seq<Input>, input: Input)
    requires !input.TurnAborted?
    ensures forall o | o in Emitted(past, input) :: !o.InterruptResponse?
    ensures var answers := RollbackAnswers(past, input);
            if answers == [] then forall o | o in Emitted(past, input) :: !o.RollbackResponse? && !o.RollbackError?
            else |answers| == 1 && (Emitted(past, input) == [RollbackResponse(answers[0])]
                                    || Emitted(past, input) == [RollbackError(answers[0])])
  {
  }

  /** The interrupt requests and the rollback requests that one step answers. */
  lemma RepliesNow(past: seq<Input>, input: Input)
    ensures InterruptReplies(Emitted(past, input)) == if input.TurnAborted? then Interrupts(past) else []
    ensures RollbackReplies(Emitted(past, input)) == RollbackAnswers(past, input)
  {
    if input.TurnAborted? {
      RepliesAtAbort(past);
    } else {
      EmittedShape(past, input);
      NoReplies(Emitted(past, input));
      var answers := RollbackAnswers(past, input);
      if answers != [] {
        RepliesOne(RollbackResponse(answers[0]));
        RepliesOne(RollbackError(answers[0]));
      }
    }
  }

  function RollbackAnswers(past: seq<Input>, input: Input): seq<RequestId> {
    if input.RollbackSubmitFailed? || (input.RollbackStart? && Rollback(past).Some?) then [input.request]
    else if EndsRollback(input) then match Rollback(past) { case Some(request) => [request] case None => [] }
    else []
  }

  /** Every interrupt is answered once, in order and in its own version, or is still waiting for an abort. */
  lemma {:induction false} InterruptsConserved(inputs: seq<Input>)
    ensures InterruptReplies(OutputsOf(inputs)) + Interrupts(inputs) == InterruptRequests(inputs)
  {
    if inputs != [] {
      var init, last := inputs[..|inputs| - 1], inputs[|inputs| - 1];
      InterruptsConserved(init);
      assert inputs == init + [last];
      InterruptsNext(init, last, inputs);
    }
  }

  lemma InterruptsNext(past: seq<Input>, input: Input, inputs: seq<Input>)
    requires inputs == past + [input]
    requires InterruptReplies(OutputsOf(past)) + Interrupts(past) == InterruptRequests(past)
    ensures InterruptReplies(OutputsOf(inputs)) + Interrupts(inputs) == InterruptRequests(inputs)
  {
    InterruptTotals(past, input, inputs);
    InterruptStep(past, input, InterruptReplies(OutputsOf(past)), InterruptRequests(past));
  }

  lemma InterruptTotals(past: seq<Input>, input: Input, inputs: seq<Input>)
    requires inputs == past + [input]
    ensures InterruptReplies(OutputsOf(inputs))
         == InterruptReplies(OutputsOf(past)) + (if input.TurnAborted? then Interrupts(past) else [])
    ensures InterruptRequests(inputs)
         == InterruptRequests(past) + (match input case Interrupt(request, v2) => [(request, v2)] case _ => [])
  {
    assert inputs[..|past|] == past;
    InterruptRepliesConcat(OutputsOf(past), Emitted(past, input));
    RepliesNow(past, input);
  }

  lemma InterruptStep(past: seq<Input>, input: Input,
                      answered: seq<(RequestId, bool)>, requests: seq<(RequestId, bool)>)
    requires answered + Interrupts(past) == requests
    ensures answered + (if input.TurnAborted? then Interrupts(past) else []) + Interrupts(past + [input])
         == requests + (match input case Interrupt(request, v2) => [(request, v2)] case _ => [])
  {
    PastGrows(past, input);
    if input.Interrupt? { Regroup(answered, Interrupts(past), [(input.request, input.v2)]); }
  }

  lemma Regroup<T>(a: seq<T>, b: seq<T>, c: seq<T>)
    ensures a + [] + (b + c) == (a + b) + c
  {
  }

  function RollbackRequests(inputs: seq<Input>): multiset<RequestId> {
    if inputs == [] then multiset{}
    else RollbackRequests(inputs[..|inputs| - 1])
         + (match inputs[|inputs| - 1] case RollbackStart(request) => multiset{request} case _ => multiset{})
  }

  function RollbackReplies(outputs: seq<Output>): seq<RequestId> {
    if outputs == [] then []
    else RollbackReplies(outputs[..|outputs| - 1])
         + (match outputs[|outputs| - 1]
            case RollbackResponse(request) => [request]
            case RollbackError(request) => [request]
            case _ => [])
  }

  /** Every rollback request has been answered exactly once, or is the one in progress. */
  predicate RollbacksBalanced(inputs: seq<Input>) {
    multiset(RollbackReplies(OutputsOf(inputs))) + InProgress(inputs) == RollbackRequests(inputs)
  }

  /** A rollback whose submission fails is still the one in progress. */
  predicate Orderly(inputs: seq<Input>) {
    inputs != [] && inputs[|inputs| - 1].RollbackSubmitFailed? ==>
      Rollback(inputs[..|inputs| - 1]) == Some(inputs[|inputs| - 1].request)
  }

  /** The rollback request in progress, as a multiset of at most one. */
  function InProgress(inputs: seq<Input>): multiset<RequestId> {
    match Rollback(inputs) case Some(request) => multiset{request} case None => multiset{}
  }

  lemma StepReplies(past: seq<Input>, input: Input, inputs: seq<Input>)
    requires inputs == past + [input]
    ensures RollbackReplies(OutputsOf(inputs)) == RollbackReplies(OutputsOf(past)) + RollbackAnswers(past, input)
  {
    assert inputs[..|past|] == past;
    InterruptRepliesConcat(OutputsOf(past), Emitted(past, input));
    RepliesNow(past, input);
  }

  lemma RollbackTotals(past: seq<Input>, input: Input, inputs: seq<Input>)
    requires inputs == past + [input]
    ensures multiset(RollbackReplies(OutputsOf(inputs)))
         == multiset(RollbackReplies(OutputsOf(past))) + multiset(RollbackAnswers(past, input))
    ensures RollbackRequests(inputs)
         == RollbackRequests(past) + (if input.RollbackStart? then multiset{input.request} else multiset{})
  {
    assert inputs[..|past|] == past;
    StepReplies(past, input, inputs);
    MultisetConcat(RollbackReplies(OutputsOf(past)), RollbackAnswers(past, input));
  }

  lemma MultisetConcat<T>(a: seq<T>, b: seq<T>)
    ensures multiset(a + b) == multiset(a) + multiset(b)
  {
  }

  lemma BalanceStep(past: seq<Input>, input: Input, inputs: seq<Input>)
    requires RollbacksBalanced(past) && inputs == past + [input]
    ensures RollbacksBalanced(inputs) <==> Orderly(inputs)
  {
    RollbackTotals(past, input, inputs);
    PastGrows(past, input);
    assert inputs[..|past|] == past;
    BalanceCases(past, input, inputs, multiset(RollbackReplies(OutputsOf(past))), RollbackRequests(past));
  }

  lemma BalanceCases(past: seq<Input>, input: Input, inputs: seq<Input>,
                     replies: multiset<RequestId>, requests: multiset<RequestId>)
    requires replies + InProgress(past) == requests
    requires inputs == past + [input]
    ensures replies + multiset(RollbackAnswers(past, input)) + InProgress(inputs)
         == requests + (if input.RollbackStart? then multiset{input.request} else multiset{})
       <==> (input.RollbackSubmitFailed? ==> Rollback(past) == Some(input.request))
  {
    PastGrows(past, input);
    if input.RollbackSubmitFailed? && Rollback(past).Some? && Rollback(past).value != input.request {
      var lost := Rollback(past).value;
      assert requests[lost] == replies[lost] + 1;
      assert (replies + multiset(RollbackAnswers(past, input)) + InProgress(inputs))[lost] == replies[lost];
    } else if input.RollbackSubmitFailed? && Rollback(past).None? {
      var r := input.request;
      assert (replies + multiset(RollbackAnswers(past, input)) + InProgress(inputs))[r] == requests[r] + 1;
    }
  }

  predicate AlwaysBalanced(inputs: seq<Input>, n: nat)
    requires n <= |inputs|
  {
    RollbacksBalanced(inputs[..n]) && (n > 0 ==> AlwaysBalanced(inputs, n - 1))
  }

  predicate AlwaysOrderly(inputs: seq<Input>, n: nat)
    requires n <= |inputs|
  {
    Orderly(inputs[..n]) && (n > 0 ==> AlwaysOrderly(inputs, n - 1))
  }

  /**
   At every point of a run the rollback requests balance if and only if no submission failure
   comes after its request was already answered, or replaced, by an event.
   */
  lemma {:induction false} RollbacksBalance(inputs: seq<Input>, n: nat)
    requires n <= |inputs|
    ensures AlwaysBalanced(inputs, n) <==> AlwaysOrderly(inputs, n)
  {
    if n == 0 {
      assert inputs[..0] == [];
      EmptyBalance();
    } else {
      RollbacksBalance(inputs, n - 1);
      if AlwaysBalanced(inputs, n - 1) { BalanceAt(inputs, n); }
    }
  }

  lemma EmptyBalance()
    ensures RollbacksBalanced([]) && Orderly([])
  {
  }

  lemma BalanceAt(inputs: seq<Input>, n: nat)
    requires 0 < n <= |inputs| && RollbacksBalanced(inputs[..n - 1])
    ensures RollbacksBalanced(inputs[..n]) <==> Orderly(inputs[..n])
  {
    PrefixNext(inputs, n);
    BalanceStep(inputs[..n - 1], inputs[n - 1], inputs[..n]);
  }

  lemma PrefixNext<T>(s: seq<T>, n: nat)
    requires 0 < n <= |s|
    ensures s[..n] == s[..n - 1] + [s[n - 1]]
  {
  }

  // ---------------------------------------------------------------- what the core sends

  /** The requests whose operation has been neither accepted nor refused by the core yet. */
  function Submitting(past: seq<Input>): multiset<RequestId> {
    if past == [] then multiset{}
    else
      var init, last := past[..|past| - 1], past[|past| - 1];
      match last
      case RollbackStart(request) => Submitting(init) + (if Rollback(init).Some? then multiset{} else multiset{request})
      case RollbackSubmitted(request) => Submitting(init) - multiset{request}
      case RollbackSubmitFailed(request) => Submitting(init) - multiset{request}
      case _ => Submitting(init)
  }

  /** How many accepted operations the core has not reported on. */
  function Outstanding(past: seq<Input>): int {
    if past == [] then 0
    else
      var init, last := past[..|past| - 1], past[|past| - 1];
      Outstanding(init) + (if last.RollbackSubmitted? then 1 else if ReportsRollback(last) then -1 else 0)
  }

  predicate ReportsRollback(input: Input) {
    input.ThreadRolledBack? || (input.Error? && input.rollbackFailed)
  }

  /**
   What can come next: only a request being submitted is accepted or refused, and the core
   reports once on each operation it accepted.
   */
  predicate CanFollow(past: seq<Input>, input: Input) {
    && (input.RollbackSubmitted? || input.RollbackSubmitFailed? ==> input.request in Submitting(past))
    && (ReportsRollback(input) ==> Outstanding(past) > 0)
  }

  predicate CoreRun(inputs: seq<Input>, n: nat)
    requires n <= |inputs|
  {
    n > 0 ==> CoreRun(inputs, n - 1) && CanFollow(inputs[..n - 1], inputs[n - 1])
  }

  /** The request in progress is the one being submitted, or the one whose operation is outstanding. */
  predicate OneOperation(past: seq<Input>) {
    match Rollback(past)
    case None => Submitting(past) == multiset{} && Outstanding(past) == 0
    case Some(request) =>
      || (Submitting(past) == multiset{request} && Outstanding(past) == 0)
      || (Submitting(past) == multiset{} && Outstanding(past) == 1)
  }

  lemma OneOperationNext(past: seq<Input>, input: Input, inputs: seq<Input>)
    requires OneOperation(past) && CanFollow(past, input) && inputs == past + [input]
    ensures OneOperation(inputs) && Orderly(inputs)
  {
    assert inputs[..|past|] == past;
    PastGrows(past, input);
  }

  lemma {:induction false} CoreRunOrderly(inputs: seq<Input>, n: nat)
    requires n <= |inputs| && CoreRun(inputs, n)
    ensures OneOperation(inputs[..n]) && AlwaysOrderly(inputs, n)
  {
    if n > 0 {
      CoreRunOrderly(inputs, n - 1);
      PrefixNext(inputs, n);
      OneOperationNext(inputs[..n - 1], inputs[n - 1], inputs[..n]);
    }
  }

  /**
   Whatever the core and the clients do, at every point each rollback request has been answered
   exactly once, or is the one in progress; and none is in progress once the core has dealt with
   every operation.
   */
  lemma RollbacksAnswered(inputs: seq<Input>)
    requires CoreRun(inputs, |inputs|)
    ensures AlwaysBalanced(inputs, |inputs|)
    ensures Submitting(inputs) == multiset{} && Outstanding(inputs) == 0 ==>
              multiset(RollbackReplies(OutputsOf(inputs))) == RollbackRequests(inputs)
  {
    CoreRunOrderly(inputs, |inputs|);
    RollbacksBalance(inputs, |inputs|);
    assert inputs[..|inputs|] == inputs;
  }

  // ---------------------------------------------------------------- the handler without that core

  /** The rollback books after some inputs: requests made, replies sent, and the request in progress. */
  ghost predicate Books(inputs: seq<Input>, requests: multiset<RequestId>, replies: seq<RequestId>,
                        open: Option<RequestId>)
  {
    RollbackRequests(inputs) == requests && RollbackReplies(OutputsOf(inputs)) == replies && Rollback(inputs) == open
  }

  lemma BooksStart(past: seq<Input>, r: RequestId, inputs: seq<Input>,
                   requests: multiset<RequestId>, replies: seq<RequestId>)
    requires Books(past, requests, replies, None) && inputs == past + [RollbackStart(r)]
    ensures Books(inputs, requests + multiset{r}, replies, Some(r))
  {
    StepReplies(past, RollbackStart(r), inputs);
    RollbackTotals(past, RollbackStart(r), inputs);
    PastGrows(past, RollbackStart(r));
    assert replies + [] == replies;
  }

  lemma BooksAnswer(past: seq<Input>, input: Input, r: RequestId, inputs: seq<Input>,
                    requests: multiset<RequestId>, replies: seq<RequestId>, open: Option<RequestId>)
    requires Books(past, requests, replies, open) && inputs == past + [input]
    requires input == RollbackSubmitFailed(r) || (input == ThreadRolledBack(true) && open == Some(r))
    ensures Books(inputs, requests, replies + [r], None)
  {
    StepReplies(past, input, inputs);
    RollbackTotals(past, input, inputs);
    PastGrows(past, input);
    assert requests + multiset{} == requests;
  }

  /** A request that an event answers. */
  lemma BooksOfAnswered(s0: seq<Input>, s1: seq<Input>, s2: seq<Input>)
    requires s0 == [] && s1 == s0 + [RollbackStart("a")] && s2 == s1 + [ThreadRolledBack(true)]
    ensures Books(s2, multiset{"a"}, ["a"], None)
  {
    BooksStart(s0, "a", s1, multiset{}, []);
    BooksAnswer(s1, ThreadRolledBack(true), "a", s2, multiset{"a"}, [], Some("a"));
  }

  /** A newer request, and the late report about the first. */
  lemma BooksOfLate(s2: seq<Input>, s3: seq<Input>, s4: seq<Input>)
    requires Books(s2, multiset{"a"}, ["a"], None)
    requires s3 == s2 + [RollbackStart("b")] && s4 == s3 + [RollbackSubmitFailed("a")]
    ensures Books(s4, multiset{"a", "b"}, ["a", "a"], None)
  {
    BooksStart(s2, "b", s3, multiset{"a"}, ["a"]);
    BooksAnswer(s3, RollbackSubmitFailed("a"), "a", s4, multiset{"a", "b"}, ["a"], Some("b"));
  }

  lemma Unbalanced(inputs: seq<Input>)
    requires Books(inputs, multiset{"a", "b"}, ["a", "a"], None)
    ensures !RollbacksBalanced(inputs)
  {
    assert multiset(["a", "a"])["b"] == 0 && multiset{"a", "b"}["b"] == 1;
  }

  /**
   The handler alone does not see to that. In this run an event answers `a`; a late report that
   submitting `a` failed answers it again and drops `b`, which is never answered. The core never
   behaves so: it had accepted no operation that the event could belong to.
   */
  lemma UnguardedRollback(s1: seq<Input>, s2: seq<Input>, s3: seq<Input>, run: seq<Input>)
    requires s1 == [] + [RollbackStart("a")] && s2 == s1 + [ThreadRolledBack(true)]
    requires s3 == s2 + [RollbackStart("b")] && run == s3 + [RollbackSubmitFailed("a")]
    ensures Books(run, multiset{"a", "b"}, ["a", "a"], None) && !RollbacksBalanced(run) && !CoreRun(run, |run|)
  {
    BooksOfAnswered([], s1, s2);
    BooksOfLate(s2, s3, run);
    Unbalanced(run);
    EventTooEarly(s1, "a", s2, RollbackStart("b"), s3, RollbackSubmitFailed("a"), run);
  }

  /** An event about a rollback that the core has not accepted is impossible, whatever follows. */
  lemma EventTooEarly(s1: seq<Input>, r: RequestId, s2: seq<Input>, x: Input, s3: seq<Input>, y: Input, run: seq<Input>)
    requires s1 == [] + [RollbackStart(r)] && s2 == s1 + [ThreadRolledBack(true)] && s3 == s2 + [x] && run == s3 + [y]
    ensures !CoreRun(run, |run|)
  {
    NothingAccepted(s1, r);
    ImpossibleAt(s1, ThreadRolledBack(true), run, |run|);
  }

  lemma NothingAccepted(past: seq<Input>, r: RequestId)
    requires past == [] + [RollbackStart(r)]
    ensures Outstanding(past) == 0
  {
    assert past[..0] == [] && past[|past| - 1] == RollbackStart(r);
  }

  lemma {:induction false} ImpossibleAt(past: seq<Input>, input: Input, run: seq<Input>, n: nat)
    requires !CanFollow(past, input) && |past| < n <= |run| && run[..|past|] == past && run[|past|] == input
    ensures !CoreRun(run, n)
  {
    if n > |past| + 1 { ImpossibleAt(past, input, run, n - 1); }
  }
}
