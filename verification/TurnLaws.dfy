/** What a thread sends at each step, in terms of the inputs so far alone. */
module TurnLaws {
  import opened Wrappers
  import opened TurnBookkeeping

  // ---------------------------------------------------------------- what is open

  predicate Begins(input: Input, item: string) {
    input == PatchApplyBegin(item) || input == PatchApprovalRequest(item, true)
  }

  predicate Removes(input: Input, item: string) {
    || input == TurnComplete || input == TurnAborted
    || input == PatchApplyEnd(item) || input == PatchApprovalAnswered(item, true)
  }

  /** The file change began and has been neither completed nor swept away by the end of its turn. */
  ghost predicate OpenFileChange(past: seq<Input>, item: string) {
    exists j: nat :: j < |past| && Begins(past[j], item) && forall k | j < k < |past| :: !Removes(past[k], item)
  }

  predicate EndsCommand(input: Input, item: string) {
    input == TurnComplete || input == TurnAborted || input == ExecCommandEnd(item)
  }

  ghost predicate OpenCommand(past: seq<Input>, item: string) {
    exists j: nat :: j < |past| && past[j] == ExecCommandBegin(item)
                     && forall k | j < k < |past| :: !EndsCommand(past[k], item)
  }

  /** The interrupt request came after the last abort. */
  ghost predicate WaitingInterrupt(past: seq<Input>, request: RequestId, v2: bool) {
    exists j: nat :: j < |past| && past[j] == Interrupt(request, v2)
                     && forall k | j < k < |past| :: past[k] != TurnAborted
  }

  predicate ClosesRollback(input: Input) {
    input.RollbackSubmitFailed? || input.ThreadRolledBack? || (input.Error? && input.rollbackFailed)
  }

  /** The request started at `j` while no other was in progress, and nothing has closed it since. */
  ghost predicate RunsFrom(past: seq<Input>, j: nat, request: RequestId)
    decreases |past|, 0
  {
    && j < |past| && past[j] == RollbackStart(request)
    && (forall q :: !RunningRollback(past[..j], q))
    && forall k | j < k < |past| :: !ClosesRollback(past[k])
  }

  ghost predicate RunningRollback(past: seq<Input>, request: RequestId)
    decreases |past|, 1
  {
    exists j: nat :: RunsFrom(past, j, request)
  }

  lemma {:induction false} FileChangeOpenMeans(past: seq<Input>, item: string)
    ensures FileChangeOpen(past, item) <==> OpenFileChange(past, item)
  {
    if past != [] {
      var init, last := past[..|past| - 1], past[|past| - 1];
      FileChangeOpenMeans(init, item);
      if Begins(last, item) {
        assert past[|init|] == last;
      } else if !Removes(last, item) && OpenFileChange(init, item) {
        var j: nat :| j < |init| && Begins(init[j], item) && forall k | j < k < |init| :: !Removes(init[k], item);
        assert Begins(past[j], item);
      }
      if OpenFileChange(past, item) && !Begins(last, item) {
        var j: nat :| j < |past| && Begins(past[j], item) && forall k | j < k < |past| :: !Removes(past[k], item);
        assert Begins(init[j], item);
      }
    }
  }

  lemma {:induction false} CommandOpenMeans(past: seq<Input>, item: string)
    ensures CommandOpen(past, item) <==> OpenCommand(past, item)
  {
    if past != [] {
      var init, last := past[..|past| - 1], past[|past| - 1];
      CommandOpenMeans(init, item);
      if last == ExecCommandBegin(item) {
        assert past[|init|] == last;
      } else if !EndsCommand(last, item) && OpenCommand(init, item) {
        var j: nat :| j < |init| && init[j] == ExecCommandBegin(item)
                      && forall k | j < k < |init| :: !EndsCommand(init[k], item);
        assert past[j] == ExecCommandBegin(item);
      }
      if OpenCommand(past, item) && last != ExecCommandBegin(item) {
        var j: nat :| j < |past| && past[j] == ExecCommandBegin(item)
                      && forall k | j < k < |past| :: !EndsCommand(past[k], item);
        assert init[j] == ExecCommandBegin(item);
      }
    }
  }

  lemma {:induction false} InterruptsMean(past: seq<Input>, request: RequestId, v2: bool)
    ensures (request, v2) in Interrupts(past) <==> WaitingInterrupt(past, request, v2)
  {
    if past != [] {
      var init, last := past[..|past| - 1], past[|past| - 1];
      InterruptsMean(init, request, v2);
      if last == Interrupt(request, v2) {
        assert past[|init|] == last;
      } else if last != TurnAborted && WaitingInterrupt(init, request, v2) {
        var j: nat :| j < |init| && init[j] == Interrupt(request, v2)
                      && forall k | j < k < |init| :: init[k] != TurnAborted;
        assert past[j] == Interrupt(request, v2);
      }
      if WaitingInterrupt(past, request, v2) && last != Interrupt(request, v2) {
        var j: nat :| j < |past| && past[j] == Interrupt(request, v2)
                      && forall k | j < k < |past| :: past[k] != TurnAborted;
        assert init[j] == Interrupt(request, v2);
      }
    }
  }

  lemma {:induction false} RollbackMeans(past: seq<Input>, request: RequestId)
    ensures Rollback(past) == Some(request) <==> RunningRollback(past, request)
    decreases |past|
  {
    if past != [] {
      var init, last := past[..|past| - 1], past[|past| - 1];
      forall q ensures Rollback(init) == Some(q) <==> RunningRollback(init, q) { RollbackMeans(init, q); }
      if Rollback(init).Some? { assert RunningRollback(init, Rollback(init).value); }
      if last == RollbackStart(request) && Rollback(init).None? {
        assert past[..|init|] == init;
        assert RunsFrom(past, |init|, request);
      } else if !ClosesRollback(last) && RunningRollback(init, request) {
        RunsOn(init, last, past, request);
      }
      if RunningRollback(past, request) { RanBefore(init, last, past, request); }
    }
  }

  lemma RunsOn(init: seq<Input>, last: Input, past: seq<Input>, request: RequestId)
    requires past == init + [last] && RunningRollback(init, request) && !ClosesRollback(last)
    ensures RunningRollback(past, request)
  {
    var j: nat :| RunsFrom(init, j, request);
    assert past[..j] == init[..j];
    assert RunsFrom(past, j, request);
  }

  lemma RanBefore(init: seq<Input>, last: Input, past: seq<Input>, request: RequestId)
    requires past == init + [last] && RunningRollback(past, request)
    ensures || (last == RollbackStart(request) && forall q :: !RunningRollback(init, q))
            || (!ClosesRollback(last) && RunningRollback(init, request))
  {
    var j: nat :| RunsFrom(past, j, request);
    if j < |init| {
      assert past[..j] == init[..j] && !ClosesRollback(past[|init|]);
      forall k | j < k < |init| ensures !ClosesRollback(init[k]) { assert init[k] == past[k]; }
      assert RunsFrom(init, j, request);
    } else {
      assert past[..j] == init;
    }
  }

  // ---------------------------------------------------------------- what is sent

  /** The step calls for the output. */
  ghost predicate Calls(past: seq<Input>, input: Input, o: Output) {
    match o
    case FileChangeStarted(item) => Begins(input, item) && !OpenFileChange(past, item)
    case FileChangeCompleted(item) => input == PatchApplyEnd(item) || input == PatchApprovalAnswered(item, true)
    case FileChangeDelta(item) => input == ExecOutputDelta(item) && OpenFileChange(past, item)
    case CommandStarted(item) => input == ExecCommandBegin(item)
    case CommandCompleted(item) =>
      || input == ExecCommandEnd(item)
      || input == ExecApprovalAnswered(item, false, true)
      || (input == ExecApprovalAnswered(item, true, true) && !OpenCommand(past, item))
    case CommandDelta(item) => input == ExecOutputDelta(item) && !OpenFileChange(past, item)
    case ApprovalRequested(item, v2) => input == PatchApprovalRequest(item, v2)
    case ErrorNotified(message) => input == Error(message, false, true)
    case TurnCompleted(status, error) =>
      || (input == TurnAborted && status == Interrupted && error == None)
      || (input == TurnComplete && status == Failed && error.Some? && exists j :: LastErrorAt(past, j, error.value))
      || (input == TurnComplete && status == Completed && error == None && forall j, e :: !LastErrorAt(past, j, e))
    case InterruptResponse(request, v2) => input == TurnAborted && WaitingInterrupt(past, request, v2)
    case RollbackResponse(request) => input == ThreadRolledBack(true) && RunningRollback(past, request)
    case RollbackError(request) =>
      || input == RollbackSubmitFailed(request)
      || (input == RollbackStart(request) && exists q :: RunningRollback(past, q))
      || (input == ThreadRolledBack(false) && RunningRollback(past, request))
      || (input.Error? && input.rollbackFailed && RunningRollback(past, request))
  }

  lemma RollbackRuns(past: seq<Input>)
    ensures forall q :: Rollback(past) == Some(q) <==> RunningRollback(past, q)
    ensures Rollback(past).Some? <==> exists q :: RunningRollback(past, q)
  {
    forall q ensures Rollback(past) == Some(q) <==> RunningRollback(past, q) { RollbackMeans(past, q); }
    if Rollback(past).Some? { assert RunningRollback(past, Rollback(past).value); }
  }

  lemma RollbackCalls(past: seq<Input>, input: Input, request: RequestId)
    ensures RollbackResponse(request) in Emitted(past, input) <==> Calls(past, input, RollbackResponse(request))
    ensures RollbackError(request) in Emitted(past, input) <==> Calls(past, input, RollbackError(request))
  {
    RollbackRuns(past);
    InterruptResponsesOnly(Interrupts(past));
  }

  lemma NoLastError(past: seq<Input>)
    ensures LastError(past).None? <==> forall j: nat, e :: !LastErrorAt(past, j, e)
  {
    if LastError(past).Some? {
      LastErrorMeaning(past, LastError(past).value);
      var j :| LastErrorAt(past, j, LastError(past).value);
    } else {
      forall j: nat, e ensures !LastErrorAt(past, j, e) { LastErrorMeaning(past, e); }
    }
  }

  lemma TurnCalls(past: seq<Input>, input: Input, status: Status, error: Option<string>)
    ensures TurnCompleted(status, error) in Emitted(past, input) <==> Calls(past, input, TurnCompleted(status, error))
  {
    if error.Some? { LastErrorMeaning(past, error.value); }
    NoLastError(past);
    if input.TurnAborted? { InterruptResponsesOnly(Interrupts(past)); }
  }

  lemma {:induction false} ResponsesAre(pending: seq<(RequestId, bool)>, request: RequestId, v2: bool)
    ensures InterruptResponse(request, v2) in InterruptResponses(pending) <==> (request, v2) in pending
  {
    if pending != [] {
      var init, last := pending[..|pending| - 1], pending[|pending| - 1];
      assert pending == init + [last];
      ResponsesAre(init, request, v2);
    }
  }

  /** Each step sends exactly what it calls for. */
  lemma OutputsMean(past: seq<Input>, input: Input, o: Output)
    ensures o in Emitted(past, input) <==> Calls(past, input, o)
  {
    match o
    case TurnCompleted(status, error) => TurnCalls(past, input, status, error);
    case RollbackResponse(request) => RollbackCalls(past, input, request);
    case RollbackError(request) => RollbackCalls(past, input, request);
    case InterruptResponse(request, v2) =>
      InterruptsMean(past, request, v2);
      ResponsesAre(Interrupts(past), request, v2);
    case ErrorNotified(_) => PlainCalls(past, input, o);
    case ApprovalRequested(_, _) => PlainCalls(past, input, o);
    case CommandStarted(_) => PlainCalls(past, input, o);
    case FileChangeCompleted(_) => PlainCalls(past, input, o);
    case CommandCompleted(item) => CommandCalls(past, input, item);
    case _ => FileChangeCalls(past, input, o.item);
  }

  lemma PlainCalls(past: seq<Input>, input: Input, o: Output)
    requires o.ErrorNotified? || o.ApprovalRequested? || o.CommandStarted? || o.FileChangeCompleted?
    ensures o in Emitted(past, input) <==> Calls(past, input, o)
  {
    InterruptResponsesOnly(Interrupts(past));
  }

  lemma CommandCalls(past: seq<Input>, input: Input, item: string)
    ensures CommandCompleted(item) in Emitted(past, input) <==> Calls(past, input, CommandCompleted(item))
  {
    InterruptResponsesOnly(Interrupts(past));
    CommandOpenMeans(past, item);
  }

  lemma FileChangeCalls(past: seq<Input>, input: Input, item: string)
    ensures FileChangeStarted(item) in Emitted(past, input) <==> Calls(past, input, FileChangeStarted(item))
    ensures FileChangeDelta(item) in Emitted(past, input) <==> Calls(past, input, FileChangeDelta(item))
    ensures CommandDelta(item) in Emitted(past, input) <==> Calls(past, input, CommandDelta(item))
  {
    InterruptResponsesOnly(Interrupts(past));
    FileChangeOpenMeans(past, item);
  }
}
