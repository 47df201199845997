/** The table of running commands: who may start, control and end which process. */
module CommandSessions {
  import opened Wrappers

  datatype ProcessId = Generated(number: int) | Client(id: string)

  datatype Key = Key(connection: nat, process: ProcessId)

  /** A table entry; an active one holds the control channel of its task. */
  datatype Session = Active(channel: nat) | UnsupportedWindowsSandbox

  datatype Control =
    | Write(delta: seq<bv8>, closeStdin: bool)
    | Resize(rows: nat, cols: nat)
    | Terminate

  /** A task from the moment it has its key until it gives the key back. */
  datatype Task = Task(key: Key, windows: bool)

  type Sessions = map<Key, Session>

  type Tasks = map<nat, Task>

  datatype Error =
    | ProcessIdRequired
    | WindowsStreaming
    | WindowsOutputCap
    | DuplicateProcessId
    | EmptyCommand
    | NoActiveProcess
    | WindowsControl
    | NoLongerRunning

  datatype Result<T> = Ok(value: T) | Err(error: Error)

  datatype StartParams = StartParams(connection: nat, processId: Option<string>, windows: bool, tty: bool,
                                     streamStdin: bool, streamOutput: bool, outputBytesCap: Option<nat>,
                                     command: seq<string>)
  {
    predicate Streams() { tty || streamStdin || streamOutput }
  }

  /** The entry at `k` was made for task `t`. */
  predicate Owns(sessions: Sessions, tasks: Tasks, t: nat, k: Key) {
    && k in sessions && t in tasks && tasks[t].key == k
    && match sessions[k]
       case Active(channel) => channel == t && !tasks[t].windows
       case UnsupportedWindowsSandbox => tasks[t].windows && k.process.Client?
  }

  /** Tasks that never had an entry: sandboxed commands that no client named. */
  predicate Unlisted(task: Task) { task.windows && task.key.process.Generated? }

  /** The table once task `t` has been started. */
  function WithEntry(sessions: Sessions, task: Task, t: nat): Sessions {
    if Unlisted(task) then sessions
    else sessions[task.key := if task.windows then UnsupportedWindowsSandbox else Active(t)]
  }

  /** At most one task per key. */
  predicate OnePerKey(tasks: Tasks) {
    forall t, u | t in tasks && u in tasks && t != u :: tasks[t].key != tasks[u].key
  }

  /** The task has its entry, or its connection has closed, or it never had one. */
  predicate Listed(sessions: Sessions, tasks: Tasks, closed: set<nat>, t: nat)
    requires t in tasks
  {
    Owns(sessions, tasks, t, tasks[t].key) || tasks[t].key.connection in closed || Unlisted(tasks[t])
  }

  /** What holds of the table, the tasks and the connections closed so far, between any two steps. */
  ghost predicate Inv(sessions: Sessions, tasks: Tasks, closed: set<nat>, nextId: int, nextTask: nat) {
    && OnePerKey(tasks)
    && (forall k | k in sessions :: k.connection !in closed && exists t :: Owns(sessions, tasks, t, k))
    && (forall t | t in tasks :: Listed(sessions, tasks, closed, t))
    && (forall t | t in tasks ::
          t < nextTask && (tasks[t].key.process.Generated? ==> tasks[t].key.process.number < nextId))
  }

  /** A key free in the table belongs to no task, unless its connection has closed. */
  lemma FreeKey(sessions: Sessions, tasks: Tasks, closed: set<nat>, nextId: int, nextTask: nat, k: Key)
    requires Inv(sessions, tasks, closed, nextId, nextTask)
    requires k !in sessions && k.connection !in closed && (k.process.Generated? ==> k.process.number >= nextId)
    ensures forall t | t in tasks :: tasks[t].key != k
  {
  }

  lemma InvStart(sessions: Sessions, tasks: Tasks, closed: set<nat>, nextId: int, nextTask: nat,
                 task: Task, newSessions: Sessions, newId: int)
    requires Inv(sessions, tasks, closed, nextId, nextTask)
    requires task.key !in sessions && task.key.connection !in closed && nextId <= newId
    requires task.key.process.Generated? ==> nextId <= task.key.process.number < newId
    requires newSessions == WithEntry(sessions, task, nextTask)
    ensures Inv(newSessions, tasks[nextTask := task], closed, newId, nextTask + 1)
  {
    FreeKey(sessions, tasks, closed, nextId, nextTask, task.key);
    KeysOwned(sessions, tasks, nextTask, task, newSessions, tasks[nextTask := task]);
    TasksListed(sessions, tasks, closed, nextTask, task, newSessions, tasks[nextTask := task]);
    KeysApart(tasks, nextTask, task);
  }

  lemma KeysApart(tasks: Tasks, started: nat, task: Task)
    requires OnePerKey(tasks) && forall t | t in tasks :: tasks[t].key != task.key
    ensures OnePerKey(tasks[started := task])
  {
  }

  lemma TasksListed(sessions: Sessions, tasks: Tasks, closed: set<nat>, started: nat, task: Task,
                    newSessions: Sessions, newTasks: Tasks)
    requires newTasks == tasks[started := task] && started !in tasks
    requires forall t | t in tasks :: tasks[t].key != task.key
    requires forall k | k in sessions && k != task.key :: k in newSessions && newSessions[k] == sessions[k]
    requires !Unlisted(task) ==> Owns(newSessions, newTasks, started, task.key)
    requires forall t | t in tasks :: Listed(sessions, tasks, closed, t)
    ensures forall t | t in newTasks :: Listed(newSessions, newTasks, closed, t)
  {
    forall t | t in tasks ensures Listed(newSessions, newTasks, closed, t) {
      OwnsStill(sessions, tasks, t, started, task, newSessions);
    }
  }

  lemma KeysOwned(sessions: Sessions, tasks: Tasks, started: nat, task: Task, newSessions: Sessions,
                  newTasks: Tasks)
    requires started !in tasks && task.key !in sessions && newTasks == tasks[started := task]
    requires forall k | k in sessions :: exists t :: Owns(sessions, tasks, t, k)
    requires newSessions == WithEntry(sessions, task, started)
    ensures !Unlisted(task) ==> Owns(newSessions, newTasks, started, task.key)
    ensures forall k | k in newSessions :: exists t :: Owns(newSessions, newTasks, t, k)
  {
    if !Unlisted(task) { assert Owns(newSessions, newTasks, started, task.key); }
    forall k | k in sessions ensures exists t :: Owns(newSessions, newTasks, t, k) {
      var t :| Owns(sessions, tasks, t, k);
      assert Owns(newSessions, newTasks, t, k);
    }
  }

  lemma OwnsStill(sessions: Sessions, tasks: Tasks, t: nat, started: nat, task: Task,
                  newSessions: Sessions)
    requires t in tasks && t != started && tasks[t].key != task.key
    requires forall k | k in sessions && k != task.key :: k in newSessions && newSessions[k] == sessions[k]
    ensures Owns(sessions, tasks, t, tasks[t].key) ==> Owns(newSessions, tasks[started := task], t, tasks[t].key)
  {
  }

  /** A task that ends removes its own entry or none: every entry left is still owned. */
  lemma InvEnd(sessions: Sessions, tasks: Tasks, closed: set<nat>, nextId: int, nextTask: nat, t: nat)
    requires Inv(sessions, tasks, closed, nextId, nextTask) && t in tasks
    ensures tasks[t].key in sessions ==> Owns(sessions, tasks, t, tasks[t].key)
    ensures Inv(sessions - {tasks[t].key}, tasks - {t}, closed, nextId, nextTask)
  {
    var key, newSessions, newTasks := tasks[t].key, sessions - {tasks[t].key}, tasks - {t};
    forall k | k in newSessions ensures exists u :: Owns(newSessions, newTasks, u, k) {
      var u :| Owns(sessions, tasks, u, k);
      assert Owns(newSessions, newTasks, u, k);
    }
    forall u | u in newTasks
      ensures Owns(sessions, tasks, u, tasks[u].key) ==> Owns(newSessions, newTasks, u, tasks[u].key)
    {
    }
  }

  lemma InvClose(sessions: Sessions, tasks: Tasks, closed: set<nat>, nextId: int, nextTask: nat,
                 connection: nat, left: Sessions)
    requires Inv(sessions, tasks, closed, nextId, nextTask)
    requires left == map k | k in sessions && k.connection != connection :: sessions[k]
    ensures Inv(left, tasks, closed + {connection}, nextId, nextTask)
  {
    forall k | k in left ensures exists t :: Owns(left, tasks, t, k) {
      var t :| Owns(sessions, tasks, t, k);
      assert Owns(left, tasks, t, k);
    }
    forall t | t in tasks && tasks[t].key.connection != connection && Owns(sessions, tasks, t, tasks[t].key)
      ensures Owns(left, tasks, t, tasks[t].key)
    {
    }
  }

  /** The channels of the active entries of a connection. */
  function ActiveChannels(sessions: Sessions, connection: nat): (r: set<nat>) {
    set k | k in sessions && k.connection == connection && sessions[k].Active? :: sessions[k].channel
  }

  /** These are the channels of the tasks of that connection which still have an entry, and of no other. */
  lemma ActiveChannelsOwned(sessions: Sessions, tasks: Tasks, closed: set<nat>, nextId: int,
                            nextTask: nat, connection: nat)
    requires Inv(sessions, tasks, closed, nextId, nextTask) && connection !in closed
    ensures ActiveChannels(sessions, connection)
         == set t | t in tasks && tasks[t].key.connection == connection && !tasks[t].windows
  {
  }

  /** No control channel is in two entries. */
  predicate OneEntryPerChannel(sessions: Sessions) {
    forall j, k | j in sessions && k in sessions && sessions[j].Active? :: sessions[j] == sessions[k] ==> j == k
  }

  lemma InvChannels(sessions: Sessions, tasks: Tasks, closed: set<nat>, nextId: int, nextTask: nat)
    requires Inv(sessions, tasks, closed, nextId, nextTask)
    ensures OneEntryPerChannel(sessions)
  {
  }

  /** The removed entries hold each of these channels once, and no other. */
  ghost predicate HoldsEach(controls: seq<Session>, channels: set<nat>) {
    forall t: nat :: multiset(controls)[Active(t)] == if t in channels then 1 else 0
  }

  /** Each of these channels gets one terminate message, and nothing else is sent. */
  ghost predicate TerminatesEach(messages: seq<(nat, Control)>, channels: set<nat>) {
    forall m :: multiset(messages)[m] == if m.1 == Terminate && m.0 in channels then 1 else 0
  }

  function KeysOf(sessions: Sessions, connection: nat): set<Key> {
    set k | k in sessions && k.connection == connection
  }

  /** Part of the entries of a connection is out of the table; their channels are `taken`. */
  ghost predicate Taking(before: Sessions, sessions: Sessions, connection: nat,
                         controls: seq<Session>, taken: set<nat>) {
    && OneEntryPerChannel(sessions) && HoldsEach(controls, taken)
    && (forall k | k in sessions :: k in before && sessions[k] == before[k])
    && (forall k | k in before && k.connection != connection :: k in sessions)
    && taken !! ActiveChannels(sessions, connection)
    && taken + ActiveChannels(sessions, connection) == ActiveChannels(before, connection)
  }

  lemma TakeStep(before: Sessions, sessions: Sessions, connection: nat, k: Key,
                 controls: seq<Session>, taken: set<nat>)
    requires Taking(before, sessions, connection, controls, taken) && k in KeysOf(sessions, connection)
    ensures Taking(before, sessions - {k}, connection, controls + [sessions[k]],
                   taken + if sessions[k].Active? then {sessions[k].channel} else {})
    ensures KeysOf(sessions - {k}, connection) == KeysOf(sessions, connection) - {k}
  {
  }

  lemma TakeLast(before: Sessions, sessions: Sessions, connection: nat,
                 controls: seq<Session>, taken: set<nat>)
    requires Taking(before, sessions, connection, controls, taken) && KeysOf(sessions, connection) == {}
    ensures sessions == map k | k in before && k.connection != connection :: before[k]
    ensures HoldsEach(controls, ActiveChannels(before, connection))
  {
    forall k | k in sessions ensures k.connection != connection {
      assert k !in KeysOf(sessions, connection);
    }
    assert ActiveChannels(sessions, connection) == {};
    assert taken == ActiveChannels(before, connection);
  }

  /** The terminate messages for the active ones among the removed entries. */
  function TerminateAll(controls: seq<Session>): seq<(nat, Control)> {
    if controls == [] then []
    else
      var last := controls[|controls| - 1];
      TerminateAll(controls[..|controls| - 1]) + (if last.Active? then [(last.channel, Terminate)] else [])
  }

  lemma {:induction false} TerminateCount(controls: seq<Session>, m: (nat, Control))
    ensures multiset(TerminateAll(controls))[m] == if m.1 == Terminate then multiset(controls)[Active(m.0)] else 0
  {
    if controls != [] {
      var init, last := controls[..|controls| - 1], controls[|controls| - 1];
      TerminateCount(init, m);
      assert controls == init + [last];
    }
  }

  lemma TerminateAllEach(controls: seq<Session>, channels: set<nat>)
    requires HoldsEach(controls, channels)
    ensures TerminatesEach(TerminateAll(controls), channels)
  {
    forall m ensures multiset(TerminateAll(controls))[m] == if m.1 == Terminate && m.0 in channels then 1 else 0 {
      TerminateCount(controls, m);
    }
  }

  class CommandExecManager {
    /** The only output cap that sandboxed commands may ask for. */
    const defaultOutputBytesCap: nat
    var sessions: Sessions
    var nextGeneratedProcessId: int
    /** The tasks the runtime has been given and that have not ended; a task is also its control channel. */
    var tasks: Tasks
    var nextTask: nat
    /** Every control message put into a channel, oldest first. */
    var sent: seq<(nat, Control)>
    ghost var closed: set<nat>

    ghost predicate Valid()
      reads this
    {
      Inv(sessions, tasks, closed, nextGeneratedProcessId, nextTask)
    }

    constructor (cap: nat)
      ensures defaultOutputBytesCap == cap
      ensures Valid() && sessions == map[] && tasks == map[] && sent == [] && closed == {}
    {
      defaultOutputBytesCap := cap;
      sessions, nextGeneratedProcessId, tasks, nextTask, sent, closed := map[], 0, map[], 0, [], {};
    }

    /** Take a key for a new command, up to the point where its process is spawned. */
    method Start(p: StartParams) returns (r: Result<nat>)
      requires Valid() && p.connection !in closed
      modifies this
      ensures Valid() && sent == old(sent) && closed == old(closed)
      ensures r.Err? ==> sessions == old(sessions) && tasks == old(tasks)
      ensures r.Err? <==>
        || (p.processId.None? && p.Streams())
        || (if p.windows then p.Streams() || p.outputBytesCap != Some(defaultOutputBytesCap) else p.command == [])
        || (p.processId.Some? && Key(p.connection, Client(p.processId.value)) in old(sessions))
      ensures r == Err(ProcessIdRequired) <==> p.processId.None? && p.Streams()
      ensures r == Err(WindowsStreaming) <==> p.processId.Some? && p.windows && p.Streams()
      ensures r == Err(WindowsOutputCap) <==>
                p.windows && !p.Streams() && p.outputBytesCap != Some(defaultOutputBytesCap)
      ensures r == Err(EmptyCommand) <==> !(p.processId.None? && p.Streams()) && !p.windows && p.command == []
      ensures r == Err(DuplicateProcessId) <==>
        && p.processId.Some? && Key(p.connection, Client(p.processId.value)) in old(sessions)
        && (if p.windows then !p.Streams() && p.outputBytesCap == Some(defaultOutputBytesCap) else p.command != [])
      ensures r.Ok? ==>
        && r.value !in old(tasks) && r.value in tasks && tasks == old(tasks)[r.value := tasks[r.value]]
        && (forall t | t in old(tasks) :: old(tasks)[t].key != tasks[r.value].key)
        && tasks[r.value].key.connection == p.connection && tasks[r.value].windows == p.windows
        && (p.processId.Some? ==> tasks[r.value].key.process == Client(p.processId.value))
        && (p.processId.None? ==> tasks[r.value].key.process.Generated?)
        && (if Unlisted(tasks[r.value]) then sessions == old(sessions)
            else Owns(sessions, tasks, r.value, tasks[r.value].key)
                 && sessions == old(sessions)[tasks[r.value].key := sessions[tasks[r.value].key]])
    {
      if p.processId.None? && (p.tty || p.streamStdin || p.streamOutput) { return Err(ProcessIdRequired); }
      ghost var firstId := nextGeneratedProcessId;
      var process;
      if p.processId.Some? {
        process := Client(p.processId.value);
      } else {
        process := Generated(nextGeneratedProcessId);
        nextGeneratedProcessId := nextGeneratedProcessId + 1;
      }
      var key := Key(p.connection, process);
      assert key.process.Generated? ==> key !in sessions;
      if p.windows {
        if p.tty || p.streamStdin || p.streamOutput { return Err(WindowsStreaming); }
        if p.outputBytesCap != Some(defaultOutputBytesCap) { return Err(WindowsOutputCap); }
        if process.Client? {
          if key in sessions { return Err(DuplicateProcessId); }
          sessions := sessions[key := UnsupportedWindowsSandbox];
        }
      } else {
        if p.command == [] { return Err(EmptyCommand); }
        if key in sessions { return Err(DuplicateProcessId); }
        sessions := sessions[key := Active(nextTask)];
      }
      FreeKey(old(sessions), tasks, closed, firstId, nextTask, key);
      InvStart(old(sessions), tasks, closed, firstId, nextTask, Task(key, p.windows), sessions, nextGeneratedProcessId);
      tasks, nextTask, r := tasks[nextTask := Task(key, p.windows)], nextTask + 1, Ok(nextTask);
    }

    /** A command ends, or its process cannot be spawned: its key is removed from the table. */
    method End(t: nat)
      requires Valid() && t in tasks
      modifies this`sessions, this`tasks
      ensures Valid() && tasks == old(tasks) - {t}
      ensures forall k | k in old(sessions) :: k in sessions <==> !Owns(old(sessions), old(tasks), t, k)
      ensures forall k | k in sessions :: k in old(sessions) && sessions[k] == old(sessions)[k]
    {
      InvEnd(sessions, tasks, closed, nextGeneratedProcessId, nextTask, t);
      sessions, tasks := sessions - {tasks[t].key}, tasks - {t};
    }

    /** write, resize and terminate; `received` says whether the process task still takes control messages. */
    method SendControl(connection: nat, processId: string, control: Control, received: bool) returns (r: Result<nat>)
      requires Valid()
      modifies this`sent
      ensures Valid()
      ensures r.Ok? <==> received
                         && exists t :: t in tasks && tasks[t] == Task(Key(connection, Client(processId)), false)
                                        && connection !in closed
      ensures r.Ok? ==> r.value in tasks && tasks[r.value] == Task(Key(connection, Client(processId)), false)
                        && sent == old(sent) + [(r.value, control)]
      ensures r.Err? ==> sent == old(sent)
      ensures r == Err(NoActiveProcess) <==> Key(connection, Client(processId)) !in sessions
      ensures r == Err(WindowsControl) <==>
                var k := Key(connection, Client(processId)); k in sessions && sessions[k].UnsupportedWindowsSandbox?
      ensures r == Err(NoLongerRunning) <==>
                var k := Key(connection, Client(processId)); k in sessions && sessions[k].Active? && !received
    {
      var key := Key(connection, Client(processId));
      if key !in sessions { return Err(NoActiveProcess); }
      ghost var owner :| Owns(sessions, tasks, owner, key);
      match sessions[key]
      case UnsupportedWindowsSandbox => return Err(WindowsControl);
      case Active(channel) =>
        if !received { return Err(NoLongerRunning); }
        sent := sent + [(channel, control)];
        r := Ok(channel);
    }

    /** Take the entries of the connection out of the table, then ask each active process to end. */
    method ConnectionClosed(connection: nat)
      requires Valid()
      modifies this`sessions, this`sent, this`closed
      ensures Valid() && closed == old(closed) + {connection}
      ensures sessions == map k | k in old(sessions) && k.connection != connection :: old(sessions)[k]
      ensures old(sent) <= sent && TerminatesEach(sent[|old(sent)|..], ActiveChannels(old(sessions), connection))
    {
      InvClose(sessions, tasks, closed, nextGeneratedProcessId, nextTask, connection,
               map k | k in sessions && k.connection != connection :: sessions[k]);
      InvChannels(sessions, tasks, closed, nextGeneratedProcessId, nextTask);
      var controls := TakeEntries(connection);
      SendTerminate(controls);
      TerminateAllEach(controls, ActiveChannels(old(sessions), connection));
      assert sent[|old(sent)|..] == TerminateAll(controls);
      closed := closed + {connection};
    }

    method TakeEntries(connection: nat) returns (controls: seq<Session>)
      requires OneEntryPerChannel(sessions)
      modifies this`sessions
      ensures sessions == map k | k in old(sessions) && k.connection != connection :: old(sessions)[k]
      ensures HoldsEach(controls, ActiveChannels(old(sessions), connection))
    {
      ghost var taken: set<nat> := {};
      var ids := KeysOf(sessions, connection);
      controls := [];
      while ids != {}
        invariant ids == KeysOf(sessions, connection)
        invariant Taking(old(sessions), sessions, connection, controls, taken)
        decreases |ids|
      {
        var k :| k in ids;
        TakeStep(old(sessions), sessions, connection, k, controls, taken);
        taken := taken + if sessions[k].Active? then {sessions[k].channel} else {};
        controls := controls + [sessions[k]];
        sessions := sessions - {k};
        ids := ids - {k};
      }
      TakeLast(old(sessions), sessions, connection, controls, taken);
    }

    /** Ask the process behind each active entry to end. */
    method SendTerminate(controls: seq<Session>)
      modifies this`sent
      ensures sent == old(sent) + TerminateAll(controls)
    {
      var i := 0;
      while i < |controls|
        invariant i <= |controls| && sent == old(sent) + TerminateAll(controls[..i])
      {
        assert controls[..i + 1][..i] == controls[..i];
        if controls[i].Active? {
          sent := sent + [(controls[i].channel, Terminate)];
        }
        i := i + 1;
      }
      assert controls[..|controls|] == controls;
    }
  }

  datatype Step =
    | Starting(params: StartParams)
    | Ending(task: nat)
    | Controlling(connection: nat, processId: string, control: Control, received: bool)
    | Closing(connection: nat)

  /**
   Any run of the manager: starts, ends, controls and closed connections in any order, where a
   closed connection starts nothing more and only a live task ends.
   */
  method Drive(cap: nat, steps: seq<Step>) returns (manager: CommandExecManager)
    ensures fresh(manager) && manager.Valid() && OnePerKey(manager.tasks)
    ensures forall k | k in manager.sessions :: exists t :: Owns(manager.sessions, manager.tasks, t, k)
    ensures manager.closed == set s | s in steps && s.Closing? :: s.connection
  {
    manager := new CommandExecManager(cap);
    for i := 0 to |steps|
      invariant fresh(manager) && manager.Valid()
      invariant manager.closed == set s | s in steps[..i] && s.Closing? :: s.connection
    {
      match steps[i] {
        case Starting(p) =>
          if forall j | 0 <= j < i :: steps[j] != Closing(p.connection) {
            var _ := manager.Start(p);
          }
        case Ending(t) =>
          if t in manager.tasks { manager.End(t); }
        case Controlling(connection, processId, control, received) =>
          var _ := manager.SendControl(connection, processId, control, received);
        case Closing(connection) =>
          manager.ConnectionClosed(connection);
      }
      assert steps[..i + 1] == steps[..i] + [steps[i]];
    }
    assert steps[..|steps|] == steps;
  }
}
