/** File watches: batching raw changes, and the handshake that ends a watch. */
module FsWatch {
  import opened Wrappers

  // ---------------------------------------------------------------- debouncing

  /** What the receiver meets: raw events, and the moments its timer fires. The channel then closes. */
  datatype Signal = Arrive(paths: set<string>) | Timer

  function UnionOf(batches: seq<set<string>>): set<string> {
    if batches == [] then {} else UnionOf(batches[..|batches| - 1]) + batches[|batches| - 1]
  }

  /** All paths that arrive among the first `n` signals. */
  function Arrived(signals: seq<Signal>, n: nat): set<string>
    requires n <= |signals|
  {
    if n == 0 then {}
    else Arrived(signals, n - 1) + (match signals[n - 1] case Arrive(paths) => paths case Timer => {})
  }

  /** What has arrived since the timer last fired. */
  function Pending(signals: seq<Signal>, n: nat): set<string>
    requires n <= |signals|
  {
    if n == 0 then {}
    else match signals[n - 1] case Arrive(paths) => Pending(signals, n - 1) + paths case Timer => {}
  }

  /** The batches sent by then: each time the timer fires with something pending. */
  function Batches(signals: seq<Signal>, n: nat): seq<set<string>>
    requires n <= |signals|
  {
    if n == 0 then []
    else if signals[n - 1].Timer? && Pending(signals, n - 1) != {} then
      Batches(signals, n - 1) + [Pending(signals, n - 1)]
    else Batches(signals, n - 1)
  }

  /** The path arrived at `i`, and the timer has not fired since. */
  predicate ArrivedSince(signals: seq<Signal>, n: nat, i: nat, path: string)
    requires n <= |signals|
  {
    i < n && signals[i].Arrive? && path in signals[i].paths && forall j | i < j < n :: signals[j].Arrive?
  }

  /** Such paths are the pending ones. */
  lemma {:induction false} PendingMeans(signals: seq<Signal>, n: nat, path: string)
    requires n <= |signals|
    ensures path in Pending(signals, n) <==> exists i :: ArrivedSince(signals, n, i, path)
  {
    if n > 0 {
      PendingMeans(signals, n - 1, path);
      var last := signals[n - 1];
      forall i: nat | ArrivedSince(signals, n, i, path)
        ensures last.Arrive? && (path in last.paths || ArrivedSince(signals, n - 1, i, path))
      {
        assert i < n - 1 ==> signals[n - 1].Arrive?;
      }
      if last.Arrive? && path in last.paths {
        assert ArrivedSince(signals, n, n - 1, path);
      } else if last.Arrive? && path in Pending(signals, n - 1) {
        var i: nat :| ArrivedSince(signals, n - 1, i, path);
        assert ArrivedSince(signals, n, i, path);
      }
    }
  }

  /** Nothing is made up: the batches and what is pending are all that arrived. */
  lemma {:induction false} BatchesConserve(signals: seq<Signal>, n: nat)
    requires n <= |signals|
    ensures UnionOf(Batches(signals, n)) + Pending(signals, n) == Arrived(signals, n)
    ensures {} !in Batches(signals, n)
  {
    if n > 0 {
      BatchesConserve(signals, n - 1);
      var batches := Batches(signals, n - 1);
      assert (batches + [Pending(signals, n - 1)])[..|batches|] == batches;
    }
  }

  /** Some path arrived since the timer last fired before `k`. */
  ghost predicate SomethingNew(signals: seq<Signal>, k: nat)
    requires k <= |signals|
  {
    exists i: nat, path :: ArrivedSince(signals, k, i, path)
  }

  /**
   Each batch belongs to one firing of the timer, in order: to those that find something new. It
   holds exactly the paths that arrived since the firing before.
   */
  lemma {:induction false} BatchesMean(signals: seq<Signal>, n: nat) returns (at: seq<nat>)
    requires n <= |signals|
    ensures |at| == |Batches(signals, n)| && forall i, j | 0 <= i < j < |at| :: at[i] < at[j]
    ensures forall k: nat :: k in at <==> k < n && signals[k].Timer? && SomethingNew(signals, k)
    ensures forall i, path | 0 <= i < |at| && at[i] <= |signals| ::
              path in Batches(signals, n)[i] <==> exists j :: ArrivedSince(signals, at[i], j, path)
  {
    if n == 0 {
      at := [];
    } else {
      at := BatchesMean(signals, n - 1);
      PendingIsNew(signals, n - 1);
      assert forall i | 0 <= i < |at| :: at[i] in at;
      if signals[n - 1].Timer? && Pending(signals, n - 1) != {} { at := at + [n - 1]; }
    }
  }

  lemma PendingIsNew(signals: seq<Signal>, n: nat)
    requires n <= |signals|
    ensures Pending(signals, n) != {} <==> SomethingNew(signals, n)
    ensures forall path :: path in Pending(signals, n) <==> exists j :: ArrivedSince(signals, n, j, path)
  {
    forall path ensures path in Pending(signals, n) <==> exists j :: ArrivedSince(signals, n, j, path) {
      PendingMeans(signals, n, path);
    }
    if path :| path in Pending(signals, n) {
      var i: nat :| ArrivedSince(signals, n, i, path);
      assert SomethingNew(signals, n);
    }
    if SomethingNew(signals, n) {
      var i: nat, path :| ArrivedSince(signals, n, i, path);
      assert path in Pending(signals, n);
    }
  }

  /** A path arrived after the timer last fired. */
  predicate ArrivedLate(signals: seq<Signal>, i: nat) {
    i < |signals| && signals[i].Arrive? && signals[i].paths != {} && forall j | i < j < |signals| :: signals[j].Arrive?
  }

  /** Exactly then the close of the channel loses changes. */
  lemma LostExactlyLate(signals: seq<Signal>)
    ensures Pending(signals, |signals|) != {} <==> exists i :: ArrivedLate(signals, i)
  {
    if path :| path in Pending(signals, |signals|) {
      PendingMeans(signals, |signals|, path);
      var i: nat :| ArrivedSince(signals, |signals|, i, path);
      assert ArrivedLate(signals, i);
    }
    if exists i :: ArrivedLate(signals, i) {
      var i: nat :| ArrivedLate(signals, i);
      var path :| path in signals[i].paths;
      assert ArrivedSince(signals, |signals|, i, path);
      PendingMeans(signals, |signals|, path);
    }
  }

  /** A run that loses a change: one batch is sent, and a path that arrives after it is not. */
  lemma LossyRun()
    ensures var signals := [Arrive({"a"}), Timer, Arrive({"b"})];
            Batches(signals, 3) == [{"a"}] && Pending(signals, 3) == {"b"}
  {
    var signals := [Arrive({"a"}), Timer, Arrive({"b"})];
    assert Pending(signals, 1) == {"a"} && Batches(signals, 1) == [];
    assert Batches(signals, 2) == [{"a"}];
  }

  class DebouncedReceiver {
    const signals: seq<Signal>
    var read: nat
    var changedPaths: set<string>

    ghost predicate Valid()
      reads this
    {
      read <= |signals| && changedPaths == Pending(signals, read)
    }

    constructor (all: seq<Signal>)
      ensures Valid() && signals == all && read == 0
    {
      signals, read, changedPaths := all, 0, {};
    }

    /** The next batch; when the channel closes there is none, and what is pending stays behind. */
    method Recv() returns (batch: Option<set<string>>)
      requires Valid()
      modifies this
      ensures Valid() && old(read) <= read
      ensures batch.Some? ==> old(read) < read
                              && Batches(signals, read) == Batches(signals, old(read)) + [batch.value]
      ensures batch.None? ==> read == |signals| && Batches(signals, read) == Batches(signals, old(read))
    {
      // with nothing pending, only events count
      while changedPaths == {}
        invariant Valid() && old(read) <= read && Batches(signals, read) == Batches(signals, old(read))
        decreases |signals| - read
      {
        if read == |signals| { return None; }
        if signals[read].Arrive? { changedPaths := changedPaths + signals[read].paths; }
        read := read + 1;
      }
      // then the timer and the channel race
      while read < |signals| && signals[read].Arrive?
        invariant Valid() && old(read) <= read && Batches(signals, read) == Batches(signals, old(read))
        invariant changedPaths != {}
      {
        changedPaths := changedPaths + signals[read].paths;
        read := read + 1;
      }
      if read == |signals| { return None; }
      batch := Some(changedPaths);
      changedPaths, read := {}, read + 1;
    }
  }

  /** A whole run: the batches received, and what is lost when the channel closes. */
  method Drain(signals: seq<Signal>) returns (batches: seq<set<string>>, lost: set<string>)
    ensures batches == Batches(signals, |signals|) && lost == Pending(signals, |signals|)
  {
    var receiver := new DebouncedReceiver(signals);
    batches := [];
    while true
      invariant fresh(receiver) && receiver.Valid() && receiver.signals == signals
      invariant batches == Batches(signals, receiver.read)
      decreases |signals| - receiver.read
    {
      var batch := receiver.Recv();
      match batch {
        case None => return batches, receiver.changedPaths;
        case Some(paths) => batches := batches + [paths];
      }
    }
  }

  // ---------------------------------------------------------------- the unwatch handshake

  /** The one-shot channel into a watch task: it may carry the done channel of an unwatch call. */
  datatype Slot = Empty | Done(call: nat) | SenderGone

  /** Where a watch task is: before or after looking at the slot, holding a batch, or finished. */
  datatype Phase = AtSelect | Polled | Holding | Ended

  datatype Task = Task(connection: nat, phase: Phase, slot: Slot)

  /** An unwatch call: it has taken the entry, waits for the watch task, or has returned. */
  datatype Call = Removed(watch: nat) | Waiting(watch: nat) | Returned(removed: Option<nat>)

  /** `entries` holds the connection and id of each watch; `alive` the calls whose done channel still exists. */
  datatype State = State(entries: set<(nat, nat)>, tasks: map<nat, Task>, calls: map<nat, Call>, alive: set<nat>)

  datatype Step =
    | Watch(connection: nat, watch: nat)
    | Remove(call: nat, connection: nat, watch: nat)
    | SendDone(call: nat)
    | Return(call: nat)
    | CloseConnection(connection: nat)
    | Poll(watch: nat)
    | NoEvent(watch: nat)
    | Batch(watch: nat)
    | ReceiverClosed(watch: nat)
    | FsChanged(watch: nat)
    | NothingToSend(watch: nat)

  const INITIAL := State({}, map[], map[], {})

  function SetPhase(s: State, w: nat, phase: Phase): State
    requires w in s.tasks
  {
    s.(tasks := s.tasks[w := s.tasks[w].(phase := phase)])
  }

  /** The watch task is over: a done channel left in its slot goes with it. */
  function EndTask(s: State, w: nat): State
    requires w in s.tasks
  {
    SetPhase(s, w, Ended).(alive := if s.tasks[w].slot.Done? then s.alive - {s.tasks[w].slot.call} else s.alive)
  }

  predicate InPhase(s: State, w: nat, phase: Phase) {
    w in s.tasks && s.tasks[w].phase == phase
  }

  /** One step of a watch task, an unwatch call or the manager; none when the step cannot be taken. */
  function Next(s: State, step: Step): Option<State> {
    match step
    case Watch(connection, w) =>
      if w in s.tasks then None
      else Some(s.(entries := s.entries + {(connection, w)}, tasks := s.tasks[w := Task(connection, AtSelect, Empty)]))
    case Remove(c, connection, w) =>
      if c in s.calls then None
      else if (connection, w) !in s.entries then Some(s.(calls := s.calls[c := Returned(None)]))
      else Some(s.(entries := s.entries - {(connection, w)}, calls := s.calls[c := Removed(w)]))
    case SendDone(c) =>
      if c !in s.calls || !s.calls[c].Removed? || s.calls[c].watch !in s.tasks then None
      else
        var w := s.calls[c].watch;
        var waiting := s.(calls := s.calls[c := Waiting(w)]);
        if s.tasks[w].phase.Ended? then Some(waiting)
        else Some(waiting.(tasks := s.tasks[w := s.tasks[w].(slot := Done(c))], alive := s.alive + {c}))
    case Return(c) =>
      if c !in s.calls || !s.calls[c].Waiting? || c in s.alive then None
      else Some(s.(calls := s.calls[c := Returned(Some(s.calls[c].watch))]))
    case CloseConnection(connection) =>
      var kept := set e | e in s.entries && e.0 != connection;
      var tasks := map w | w in s.tasks ::
        if (connection, w) in s.entries then s.tasks[w].(slot := SenderGone) else s.tasks[w];
      Some(s.(entries := kept, tasks := tasks))
    case Poll(w) =>
      if !InPhase(s, w, AtSelect) then None
      else if s.tasks[w].slot.Empty? then Some(SetPhase(s, w, Polled)) else Some(EndTask(s, w))
    case NoEvent(w) => if InPhase(s, w, Polled) then Some(SetPhase(s, w, AtSelect)) else None
    case Batch(w) => if InPhase(s, w, Polled) then Some(SetPhase(s, w, Holding)) else None
    case ReceiverClosed(w) => if InPhase(s, w, Polled) then Some(EndTask(s, w)) else None
    case FsChanged(w) => if InPhase(s, w, Holding) then Some(SetPhase(s, w, AtSelect)) else None
    case NothingToSend(w) => if InPhase(s, w, Holding) then Some(SetPhase(s, w, AtSelect)) else None
  }

  /** A watch ends in just two ways: a poll finds its slot taken, or it looks for an event and the channel is closed. */
  lemma EndsExactly(s: State, step: Step, t: State, w: nat)
    requires Next(s, step) == Some(t) && w in s.tasks && !s.tasks[w].phase.Ended?
    ensures w in t.tasks && t.tasks[w].connection == s.tasks[w].connection
    ensures t.tasks[w].phase.Ended? <==>
            step == ReceiverClosed(w) || (step == Poll(w) && s.tasks[w].slot != Empty)
  {
  }

  /** The state a run reaches from `s`, if all its steps can be taken. */
  function Exec(s: State, steps: seq<Step>): Option<State>
    decreases |steps|
  {
    if steps == [] then Some(s)
    else match Next(s, steps[0]) case None => None case Some(t) => Exec(t, steps[1..])
  }

  /** The call that has taken the entry of `w` and not returned. */
  predicate Ending(s: State, c: nat, w: nat) {
    c in s.calls && (s.calls[c] == Removed(w) || s.calls[c] == Waiting(w))
  }

  predicate EntryOk(s: State, e: (nat, nat)) {
    e.1 in s.tasks && s.tasks[e.1].connection == e.0 && s.tasks[e.1].slot.Empty?
  }

  predicate CallOk(s: State, c: nat)
    requires c in s.calls
  {
    match s.calls[c]
    case Removed(w) =>
      w in s.tasks && s.tasks[w].slot.Empty? && (s.tasks[w].connection, w) !in s.entries && c !in s.alive
    case Waiting(w) =>
      && w in s.tasks && (s.tasks[w].connection, w) !in s.entries
      && (if s.tasks[w].phase.Ended? then c !in s.alive else c in s.alive && s.tasks[w].slot == Done(c))
    case Returned(removed) =>
      c !in s.alive && (removed.Some? ==> removed.value in s.tasks && s.tasks[removed.value].phase.Ended?)
  }

  predicate SlotOk(s: State, w: nat)
    requires w in s.tasks
  {
    s.tasks[w].slot.Done? ==> Ending(s, s.tasks[w].slot.call, w) || s.tasks[w].phase.Ended?
  }

  /** What holds between any two steps; in particular, a watch ends by at most one unwatch call. */
  ghost predicate Inv(s: State) {
    && (forall e | e in s.entries :: EntryOk(s, e))
    && (forall c | c in s.calls :: CallOk(s, c))
    && (forall w | w in s.tasks :: SlotOk(s, w))
    && (forall c | c in s.alive :: c in s.calls)
    && forall c, d, w | Ending(s, c, w) && Ending(s, d, w) :: c == d
  }

  lemma InvPhase(s: State, w: nat, phase: Phase)
    requires Inv(s) && w in s.tasks && !s.tasks[w].phase.Ended? && !phase.Ended?
    ensures Inv(SetPhase(s, w, phase))
  {
    var t := SetPhase(s, w, phase);
    forall c, v ensures Ending(t, c, v) == Ending(s, c, v) {}
    forall c | c in s.calls ensures CallOk(t, c) { assert CallOk(s, c); }
  }

  lemma InvEndTask(s: State, w: nat)
    requires Inv(s) && w in s.tasks && !s.tasks[w].phase.Ended?
    ensures Inv(EndTask(s, w))
  {
    var t := EndTask(s, w);
    forall c, v ensures Ending(t, c, v) == Ending(s, c, v) {}
    forall c | c in s.calls ensures CallOk(t, c) { EndKeepsCall(s, w, c); }
  }

  lemma EndKeepsCall(s: State, w: nat, c: nat)
    requires Inv(s) && w in s.tasks && !s.tasks[w].phase.Ended? && c in s.calls
    ensures CallOk(EndTask(s, w), c)
  {
    assert CallOk(s, c) && SlotOk(s, w);
  }

  lemma InvTask(s: State, step: Step, t: State)
    requires Inv(s) && Next(s, step) == Some(t)
    requires || step.Poll? || step.NoEvent? || step.Batch?
             || step.ReceiverClosed? || step.FsChanged? || step.NothingToSend?
    ensures Inv(t)
  {
    var w := step.watch;
    if t == EndTask(s, w) { InvEndTask(s, w); } else { InvPhase(s, w, t.tasks[w].phase); }
  }

  lemma InvRemove(s: State, step: Step, t: State)
    requires Inv(s) && step.Remove? && Next(s, step) == Some(t)
    ensures Inv(t)
  {
    forall d, v | d != step.call ensures Ending(t, d, v) == Ending(s, d, v) {}
    if (step.connection, step.watch) in s.entries {
      assert EntryOk(s, (step.connection, step.watch));
      forall d ensures !Ending(s, d, step.watch) {
        if d in s.calls { assert CallOk(s, d); }
      }
    }
    forall d | d in s.calls ensures CallOk(t, d) { assert CallOk(s, d); }
  }

  lemma InvSendDone(s: State, step: Step, t: State)
    requires Inv(s) && step.SendDone? && Next(s, step) == Some(t)
    ensures Inv(t)
  {
    var c, w := step.call, s.calls[step.call].watch;
    assert CallOk(s, c) && Ending(s, c, w);
    forall d, v ensures Ending(t, d, v) == Ending(s, d, v) {}
    forall d | d in s.calls && d != c ensures CallOk(t, d) {
      assert CallOk(s, d) && !Ending(s, d, w);
    }
    forall e | e in s.entries ensures EntryOk(t, e) { assert EntryOk(s, e); }
  }

  lemma InvReturn(s: State, step: Step, t: State)
    requires Inv(s) && step.Return? && Next(s, step) == Some(t)
    ensures Inv(t)
  {
    forall d, v | d != step.call ensures Ending(t, d, v) == Ending(s, d, v) {}
    assert CallOk(s, step.call);
    forall d | d in s.calls && d != step.call ensures CallOk(t, d) { assert CallOk(s, d); }
  }

  lemma InvManager(s: State, step: Step, t: State)
    requires Inv(s) && Next(s, step) == Some(t)
    requires step.Watch? || step.CloseConnection?
    ensures Inv(t)
  {
    forall c, v ensures Ending(t, c, v) == Ending(s, c, v) {}
  }

  lemma InvStep(s: State, step: Step, t: State)
    requires Inv(s) && Next(s, step) == Some(t)
    ensures Inv(t)
  {
    match step
    case Watch(_, _) => InvManager(s, step, t);
    case CloseConnection(_) => InvManager(s, step, t);
    case Remove(_, _, _) => InvRemove(s, step, t);
    case SendDone(_) => InvSendDone(s, step, t);
    case Return(_) => InvReturn(s, step, t);
    case _ => InvTask(s, step, t);
  }

  lemma {:induction false} InvExec(s: State, steps: seq<Step>, t: State)
    requires Inv(s) && Exec(s, steps) == Some(t)
    ensures Inv(t)
    decreases |steps|
  {
    if steps != [] {
      var next := Next(s, steps[0]).value;
      InvStep(s, steps[0], next);
      InvExec(next, steps[1..], t);
    }
  }

  /** The watch has been told to end, or has ended. */
  predicate Stopping(s: State, w: nat) {
    w in s.tasks && (!s.tasks[w].slot.Empty? || s.tasks[w].phase.Ended?)
  }

  /** The notifications a stopping watch may still send. */
  function Remaining(s: State, w: nat): nat
    requires Stopping(s, w)
  {
    match s.tasks[w].phase
    case Polled => 1
    case Holding => 1
    case _ => 0
  }

  /** The notifications of watch `w` in a run. */
  function Changes(steps: seq<Step>, w: nat): nat {
    if steps == [] then 0 else (if steps[0] == FsChanged(w) then 1 else 0) + Changes(steps[1..], w)
  }

  lemma StoppingStep(s: State, step: Step, t: State, w: nat)
    requires Stopping(s, w) && Next(s, step) == Some(t)
    ensures Stopping(t, w) && (if step == FsChanged(w) then 1 else 0) + Remaining(t, w) <= Remaining(s, w)
  {
  }

  lemma {:induction false} StoppingRun(s: State, steps: seq<Step>, w: nat)
    requires Stopping(s, w) && Exec(s, steps).Some?
    ensures Changes(steps, w) <= Remaining(s, w)
    decreases |steps|
  {
    if steps != [] {
      var next := Next(s, steps[0]).value;
      StoppingStep(s, steps[0], next, w);
      StoppingRun(next, steps[1..], w);
    }
  }

  /** Once the unwatch call that took a watch entry has returned, that watch notifies no more, in any run. */
  lemma NoChangeAfterUnwatch(earlier: seq<Step>, s: State, c: nat, w: nat, later: seq<Step>)
    requires Exec(INITIAL, earlier) == Some(s) && c in s.calls && s.calls[c] == Returned(Some(w))
    requires Exec(s, later).Some?
    ensures Changes(later, w) == 0
  {
    InvExec(INITIAL, earlier, s);
    assert CallOk(s, c);
    StoppingRun(s, later, w);
  }

  /** What a watch task does next, at most, until it looks at its slot again. */
  function UntilPoll(s: State, w: nat): seq<Step>
    requires w in s.tasks
  {
    match s.tasks[w].phase
    case AtSelect => [Poll(w)]
    case Polled => [NoEvent(w), Poll(w)]
    case Holding => [NothingToSend(w), Poll(w)]
    case Ended => []
  }

  lemma {:induction false} ExecConcat(s: State, a: seq<Step>, b: seq<Step>)
    requires Exec(s, a).Some?
    ensures Exec(s, a + b) == Exec(Exec(s, a).value, b)
    decreases |a|
  {
    if a == [] {
      assert a + b == b;
    } else {
      assert (a + b)[0] == a[0] && (a + b)[1..] == a[1..] + b;
      ExecConcat(Next(s, a[0]).value, a[1..], b);
    }
  }

  lemma ExecOne(s: State, step: Step)
    ensures Exec(s, [step]) == Next(s, step)
  {
    assert [step][1..] == [];
  }

  /** The handshake cannot get stuck: once its task looks at the slot, a waiting unwatch call can return. */
  lemma UnwatchCanReturn(earlier: seq<Step>, s: State, c: nat, w: nat)
    requires Exec(INITIAL, earlier) == Some(s) && c in s.calls && s.calls[c] == Waiting(w)
    ensures w in s.tasks && Exec(s, UntilPoll(s, w) + [Return(c)]).Some?
    ensures Finished(Exec(s, UntilPoll(s, w) + [Return(c)]).value, c, w)
  {
    InvExec(INITIAL, earlier, s);
    assert CallOk(s, c);
    TaskEnds(s, c, w);
    var t := Exec(s, UntilPoll(s, w)).value;
    ExecOne(t, Return(c));
    ExecConcat(s, UntilPoll(s, w), [Return(c)]);
  }

  /** The call has returned the watch it removed, and the watch is over. */
  predicate Finished(s: State, c: nat, w: nat) {
    c in s.calls && s.calls[c] == Returned(Some(w)) && w in s.tasks && s.tasks[w].phase == Ended
  }

  /**
   A new unwatch call for a watch of its connection can always run to its end, and then the watch
   is gone and over. For any other watch it returns at once, and nothing else has changed.
   */
  lemma UnwatchCompletes(earlier: seq<Step>, s: State, c: nat, connection: nat, w: nat) returns (steps: seq<Step>)
    requires Exec(INITIAL, earlier) == Some(s) && c !in s.calls
    ensures (connection, w) !in s.entries ==>
              Next(s, Remove(c, connection, w)) == Some(s.(calls := s.calls[c := Returned(None)]))
    ensures (connection, w) in s.entries ==>
              var r := Exec(s, [Remove(c, connection, w), SendDone(c)] + steps);
              r.Some? && Finished(r.value, c, w) && (connection, w) !in r.value.entries
  {
    steps := [];
    if (connection, w) in s.entries {
      InvExec(INITIAL, earlier, s);
      var start := [Remove(c, connection, w), SendDone(c)];
      var waiting := UnwatchStarts(s, c, connection, w);
      ExecConcat(INITIAL, earlier, start);
      UnwatchCanReturn(earlier + start, waiting, c, w);
      steps := UntilPoll(waiting, w) + [Return(c)];
      ExecConcat(s, start, steps);
      EntriesStay(waiting, steps, (connection, w));
    }
  }

  lemma UnwatchStarts(s: State, c: nat, connection: nat, w: nat) returns (t: State)
    requires Inv(s) && c !in s.calls && (connection, w) in s.entries
    ensures Exec(s, [Remove(c, connection, w), SendDone(c)]) == Some(t)
    ensures c in t.calls && t.calls[c] == Waiting(w) && (connection, w) !in t.entries && w in t.tasks
  {
    assert EntryOk(s, (connection, w));
    var removed := Next(s, Remove(c, connection, w)).value;
    t := Next(removed, SendDone(c)).value;
    ExecOne(s, Remove(c, connection, w));
    ExecOne(removed, SendDone(c));
    ExecConcat(s, [Remove(c, connection, w)], [SendDone(c)]);
    assert [Remove(c, connection, w)] + [SendDone(c)] == [Remove(c, connection, w), SendDone(c)];
  }

  /** An entry that is gone comes back only by a new watch. */
  lemma {:induction false} EntriesStay(s: State, steps: seq<Step>, e: (nat, nat))
    requires Exec(s, steps).Some? && e !in s.entries && forall step | step in steps :: !step.Watch?
    ensures e !in Exec(s, steps).value.entries
    decreases |steps|
  {
    if steps != [] {
      assert steps[0] in steps && forall step | step in steps[1..] :: step in steps;
      EntriesStay(Next(s, steps[0]).value, steps[1..], e);
    }
  }

  lemma TaskEnds(s: State, c: nat, w: nat)
    requires Inv(s) && c in s.calls && s.calls[c] == Waiting(w) && w in s.tasks
    ensures var r := Exec(s, UntilPoll(s, w));
            && r.Some? && c in r.value.calls && r.value.calls[c] == Waiting(w) && c !in r.value.alive
            && w in r.value.tasks && r.value.tasks[w].phase == Ended
  {
    assert CallOk(s, c);
    match s.tasks[w].phase
    case AtSelect =>
      ExecOne(s, Poll(w));
    case Polled =>
      ExecOne(s, NoEvent(w));
      ExecOne(Next(s, NoEvent(w)).value, Poll(w));
      ExecConcat(s, [NoEvent(w)], [Poll(w)]);
    case Holding =>
      ExecOne(s, NothingToSend(w));
      ExecOne(Next(s, NothingToSend(w)).value, Poll(w));
      ExecConcat(s, [NothingToSend(w)], [Poll(w)]);
    case Ended =>
  }

  /** Closing a connection does not wait for its watches, but each sends at most one more notification. */
  lemma AtMostOneChangeAfterClose(earlier: seq<Step>, s: State, connection: nat, w: nat, later: seq<Step>)
    requires Exec(INITIAL, earlier) == Some(s) && (connection, w) in s.entries
    requires Exec(s, [CloseConnection(connection)] + later).Some?
    ensures Changes(later, w) <= 1
  {
    InvExec(INITIAL, earlier, s);
    assert EntryOk(s, (connection, w));
    assert ([CloseConnection(connection)] + later)[1..] == later;
    StoppingRun(Next(s, CloseConnection(connection)).value, later, w);
  }

  /** A change of `w` can follow the close of its connection. */
  ghost predicate ChangeCanFollowClose(s: State, connection: nat, w: nat) {
    exists later :: Exec(s, [CloseConnection(connection)] + later).Some? && Changes(later, w) > 0
  }

  /** It can exactly when the watch has already looked at its slot for this round, or holds a batch. */
  lemma ChangeFollowsCloseExactly(earlier: seq<Step>, s: State, connection: nat, w: nat)
    requires Exec(INITIAL, earlier) == Some(s) && (connection, w) in s.entries
    ensures w in s.tasks
    ensures ChangeCanFollowClose(s, connection, w) <==> s.tasks[w].phase.Polled? || s.tasks[w].phase.Holding?
  {
    InvExec(INITIAL, earlier, s);
    assert EntryOk(s, (connection, w));
    var closed := Next(s, CloseConnection(connection)).value;
    forall later | Exec(s, [CloseConnection(connection)] + later).Some?
      ensures Changes(later, w) <= Remaining(closed, w)
    {
      ChangesAfterClose(s, connection, later, w);
    }
    var later := if s.tasks[w].phase.Polled? then [Batch(w), FsChanged(w)] else [FsChanged(w)];
    if s.tasks[w].phase.Polled? || s.tasks[w].phase.Holding? {
      LaterRuns(closed, w);
      assert ([CloseConnection(connection)] + later)[1..] == later;
    }
  }

  lemma ChangesAfterClose(s: State, connection: nat, later: seq<Step>, w: nat)
    requires (connection, w) in s.entries && EntryOk(s, (connection, w))
    requires Exec(s, [CloseConnection(connection)] + later).Some?
    ensures var closed := Next(s, CloseConnection(connection)).value;
            Stopping(closed, w) && Changes(later, w) <= Remaining(closed, w)
  {
    assert ([CloseConnection(connection)] + later)[1..] == later;
    StoppingRun(Next(s, CloseConnection(connection)).value, later, w);
  }

  lemma LaterRuns(s: State, w: nat)
    ensures InPhase(s, w, Holding) ==> Exec(s, [FsChanged(w)]).Some? && Changes([FsChanged(w)], w) == 1
    ensures InPhase(s, w, Polled) ==>
              var later := [Batch(w), FsChanged(w)];
              Exec(s, later).Some? && Changes(later, w) == 1
  {
    ExecOne(s, FsChanged(w));
    assert [FsChanged(w)][1..] == [];
    if InPhase(s, w, Polled) {
      var later := [Batch(w), FsChanged(w)];
      assert later[1..] == [FsChanged(w)];
      ExecOne(Next(s, Batch(w)).value, FsChanged(w));
      assert Exec(s, later) == Exec(Next(s, Batch(w)).value, [FsChanged(w)]);
      assert Changes(later, w) == Changes([FsChanged(w)], w);
    }
  }

  /** And such a run exists. */
  lemma ChangeAfterClose()
    ensures Exec(INITIAL, [Watch(1, 7), Poll(7), Batch(7), CloseConnection(1), FsChanged(7)]).Some?
  {
  }
}
