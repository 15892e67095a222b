/**
 The iPad app's control connection on the main actor. Code between two awaits
 runs as one segment; at an await any other segment may run. A generation
 counter fences the tasks a newer connection has superseded.
 */
module ControlConnection {
  import opened Wrappers

  /** Where a control task is suspended. */
  datatype Point = Scheduled | Sending | Receiving | Refreshing | Sleeping | Finished

  datatype ControlTask = ControlTask(generation: nat, cancelled: bool, point: Point, activeSocket: Option<nat>)

  /** `sockets` maps every socket ever made to whether it has been cancelled. */
  datatype Model = Model(
    controlGeneration: nat, controlTask: Option<nat>, controlSocket: Option<nat>,
    tasks: map<nat, ControlTask>, sockets: map<nat, bool>, hasSession: bool, hasPairing: bool)

  const INITIAL := Model(0, None, None, map[], map[], false, false)

  /** How the loop's attempt to open a socket goes: no client, an error, or a new socket. */
  datatype Opening = NoClient | OpenFails | Opens(socket: nat)

  /** What resumes a suspended task. */
  datatype Resumption = Completes | Hello | ConfigurationChanged | OtherMessage | Throws

  // ---------------------------------------------------------------- segments

  function CancelSocket(m: Model, socket: Option<nat>): Model {
    if socket.Some? then m.(sockets := m.sockets[socket.value := true]) else m
  }

  function StartControlConnection(m: Model, task: nat): Model {
    if m.controlTask.Some? || !m.hasSession || !m.hasPairing then m
    else
      var generation := m.controlGeneration + 1;
      m.(controlGeneration := generation, controlTask := Some(task),
         tasks := m.tasks[task := ControlTask(generation, false, Scheduled, None)])
  }

  predicate TaskKnown(m: Model) {
    m.controlTask.Some? ==> m.controlTask.value in m.tasks
  }

  function StopControlConnection(m: Model): Model
    requires TaskKnown(m)
  {
    var cancelled :=
      if m.controlTask.Some?
      then m.tasks[m.controlTask.value := m.tasks[m.controlTask.value].(cancelled := true)] else m.tasks;
    CancelSocket(m, m.controlSocket).(
      controlGeneration := m.controlGeneration + 1, controlTask := None, controlSocket := None, tasks := cancelled)
  }

  /** The deferred block of runControlConnection: the task's own socket always, the fields only while it is current. */
  function Leave(m: Model, t: nat): Model
    requires t in m.tasks
  {
    var task := m.tasks[t];
    var left := CancelSocket(m, task.activeSocket).(tasks := m.tasks[t := task.(point := Finished, activeSocket := None)]);
    if m.controlGeneration == task.generation then left.(controlSocket := None, controlTask := None) else left
  }

  /** The catch block before it tests for cancellation. */
  function Dropped(m: Model, t: nat): Model
    requires t in m.tasks
  {
    var task := m.tasks[t];
    var dropped := CancelSocket(m, task.activeSocket).(tasks := m.tasks[t := task.(point := Sleeping, activeSocket := None)]);
    if m.controlGeneration == task.generation then dropped.(controlSocket := None) else dropped
  }

  function Catch(m: Model, t: nat): Model
    requires t in m.tasks
  {
    if m.tasks[t].cancelled then Leave(Dropped(m, t), t) else Dropped(m, t)
  }

  /** The head of the outer loop, up to the first await. */
  function LoopHead(m: Model, t: nat, opening: Opening): Model
    requires t in m.tasks
  {
    var task := m.tasks[t];
    if task.cancelled || m.controlGeneration != task.generation || !m.hasPairing then Leave(m, t)
    else
      match opening
      case NoClient => Leave(m, t)
      case OpenFails => Catch(m, t)
      case Opens(socket) =>
        m.(tasks := m.tasks[t := task.(point := Sending, activeSocket := Some(socket))],
           sockets := m.sockets[socket := false], controlSocket := Some(socket))
  }

  /** The head of the inner loop; it ends only by cancellation, and then the outer loop ends too. */
  function ReceiveNext(m: Model, t: nat): Model
    requires t in m.tasks
  {
    if m.tasks[t].cancelled then Leave(m, t)
    else m.(tasks := m.tasks[t := m.tasks[t].(point := Receiving)])
  }

  function Resume(m: Model, t: nat, how: Resumption, opening: Opening): Model
    requires t in m.tasks
  {
    match m.tasks[t].point
    case Scheduled => LoopHead(m, t, opening)
    case Sleeping => if how == Throws then Leave(m, t) else LoopHead(m, t, opening)
    case Refreshing => ReceiveNext(m, t)
    case Sending => if how == Throws then Catch(m, t) else ReceiveNext(m, t)
    case Receiving => (
      match how
      case Throws => Catch(m, t)
      case Hello => m.(tasks := m.tasks[t := m.tasks[t].(point := Sending)])
      case ConfigurationChanged => m.(tasks := m.tasks[t := m.tasks[t].(point := Refreshing)])
      case _ => ReceiveNext(m, t))
    case Finished => m
  }

  // ---------------------------------------------------------------- steps

  /** beginPairing is Stop, a new session, Start without an await between; forgetPairing is Stop, then no pairing. */
  datatype Step =
    | Start(task: nat)
    | Stop
    | SetSession(present: bool)
    | SetPairing(present: bool)
    | Resumes(t: nat, how: Resumption, opening: Opening)

  predicate Enabled(m: Model, step: Step) {
    match step
    case Start(task) => task !in m.tasks
    case Stop => TaskKnown(m)
    case SetSession(_) => true
    case SetPairing(_) => true
    case Resumes(t, _, opening) =>
      t in m.tasks && m.tasks[t].point != Finished && (opening.Opens? ==> opening.socket !in m.sockets)
  }

  function After(m: Model, step: Step): Model
    requires Enabled(m, step)
  {
    match step
    case Start(task) => StartControlConnection(m, task)
    case Stop => StopControlConnection(m)
    case SetSession(present) => m.(hasSession := present)
    case SetPairing(present) => m.(hasPairing := present)
    case Resumes(t, how, opening) => Resume(m, t, how, opening)
  }

  // ---------------------------------------------------------------- invariant

  /** A live task is the control task, of the current generation; a task at rest holds no socket. */
  predicate TaskOk(m: Model, t: nat)
    requires t in m.tasks
  {
    var task := m.tasks[t];
    && task.generation <= m.controlGeneration
    && (task.point != Finished && (!task.cancelled || task.generation == m.controlGeneration) ==>
          m.controlTask == Some(t))
    && (task.point == Scheduled || task.point == Sleeping || task.point == Finished ==> task.activeSocket.None?)
    && (task.activeSocket.Some? ==> task.activeSocket.value in m.sockets)
  }

  /** The control task is live and current; the control socket is its socket. */
  predicate FieldsOk(m: Model) {
    && (m.controlTask.Some? ==>
          m.controlTask.value in m.tasks
          && var task := m.tasks[m.controlTask.value];
             task.generation == m.controlGeneration && !task.cancelled && task.point != Finished)
    && (m.controlSocket.Some? ==>
          m.controlTask.Some? && m.controlTask.value in m.tasks
          && m.tasks[m.controlTask.value].activeSocket == m.controlSocket)
  }

  /** The control socket is open, and no other socket is. */
  predicate SocketOk(m: Model, socket: nat) {
    socket in m.sockets && !m.sockets[socket] <==> m.controlSocket == Some(socket)
  }

  ghost predicate Inv(m: Model) {
    && FieldsOk(m)
    && (forall t :: t in m.tasks ==> TaskOk(m, t))
    && (forall socket :: SocketOk(m, socket))
    && (forall t, u :: t in m.tasks && u in m.tasks && t != u && m.tasks[t].activeSocket.Some? ==>
          m.tasks[t].activeSocket != m.tasks[u].activeSocket)
  }

  lemma LeaveKeepsInv(m: Model, t: nat)
    requires Inv(m) && t in m.tasks && m.tasks[t].point != Finished
    ensures Inv(Leave(m, t))
  {
    var after := Leave(m, t);
    assert TaskOk(m, t);
    forall u | u in after.tasks ensures TaskOk(after, u) {
      assert TaskOk(m, u);
    }
    forall socket ensures SocketOk(after, socket) {
      assert SocketOk(m, socket);
    }
  }

  lemma DroppedKeepsInv(m: Model, t: nat)
    requires Inv(m) && t in m.tasks && m.tasks[t].point != Finished
    ensures Inv(Dropped(m, t))
  {
    var after := Dropped(m, t);
    assert TaskOk(m, t);
    forall u | u in after.tasks ensures TaskOk(after, u) {
      assert TaskOk(m, u);
    }
    forall socket ensures SocketOk(after, socket) {
      assert SocketOk(m, socket);
    }
  }

  lemma CatchKeepsInv(m: Model, t: nat)
    requires Inv(m) && t in m.tasks && m.tasks[t].point != Finished
    ensures Inv(Catch(m, t))
  {
    DroppedKeepsInv(m, t);
    if m.tasks[t].cancelled {
      LeaveKeepsInv(Dropped(m, t), t);
    }
  }

  lemma OpenKeepsInv(m: Model, t: nat, socket: nat)
    requires Inv(m) && t in m.tasks && socket !in m.sockets
    requires m.tasks[t].point == Scheduled || m.tasks[t].point == Sleeping
    ensures Inv(LoopHead(m, t, Opens(socket)))
  {
    var after := LoopHead(m, t, Opens(socket));
    assert TaskOk(m, t);
    if m.tasks[t].cancelled || m.controlGeneration != m.tasks[t].generation || !m.hasPairing {
      LeaveKeepsInv(m, t);
    } else {
      forall u | u in after.tasks ensures TaskOk(after, u) {
        assert TaskOk(m, u);
      }
      forall s ensures SocketOk(after, s) {
        assert SocketOk(m, s);
      }
    }
  }

  lemma LoopHeadKeepsInv(m: Model, t: nat, opening: Opening)
    requires Inv(m) && t in m.tasks && (m.tasks[t].point == Scheduled || m.tasks[t].point == Sleeping)
    requires opening.Opens? ==> opening.socket !in m.sockets
    ensures Inv(LoopHead(m, t, opening))
  {
    LeaveKeepsInv(m, t);
    CatchKeepsInv(m, t);
    if opening.Opens? {
      OpenKeepsInv(m, t, opening.socket);
    }
  }

  /** Moving an unfinished task between awaits inside the inner loop. */
  lemma MoveKeepsInv(m: Model, t: nat, point: Point)
    requires Inv(m) && t in m.tasks && m.tasks[t].point != Finished
    requires point == Sending || point == Receiving || point == Refreshing
    ensures Inv(m.(tasks := m.tasks[t := m.tasks[t].(point := point)]))
  {
    var after := m.(tasks := m.tasks[t := m.tasks[t].(point := point)]);
    forall u | u in after.tasks ensures TaskOk(after, u) {
      assert TaskOk(m, u);
    }
    forall s ensures SocketOk(after, s) {
      assert SocketOk(m, s);
    }
  }

  lemma ResumeKeepsInv(m: Model, t: nat, how: Resumption, opening: Opening)
    requires Inv(m) && Enabled(m, Resumes(t, how, opening))
    ensures Inv(Resume(m, t, how, opening))
  {
    LeaveKeepsInv(m, t);
    CatchKeepsInv(m, t);
    MoveKeepsInv(m, t, Sending);
    MoveKeepsInv(m, t, Receiving);
    MoveKeepsInv(m, t, Refreshing);
    if m.tasks[t].point == Scheduled || m.tasks[t].point == Sleeping {
      LoopHeadKeepsInv(m, t, opening);
    }
  }

  lemma StopKeepsInv(m: Model)
    requires Inv(m)
    ensures Inv(StopControlConnection(m))
  {
    var after := StopControlConnection(m);
    forall u | u in after.tasks ensures TaskOk(after, u) {
      assert TaskOk(m, u);
    }
    forall s ensures SocketOk(after, s) {
      assert SocketOk(m, s);
    }
  }

  lemma StartKeepsInv(m: Model, task: nat)
    requires Inv(m) && task !in m.tasks
    ensures Inv(StartControlConnection(m, task))
  {
    var after := StartControlConnection(m, task);
    forall u | u in after.tasks ensures TaskOk(after, u) {
      if u in m.tasks {
        assert TaskOk(m, u);
      }
    }
    forall s ensures SocketOk(after, s) {
      assert SocketOk(m, s);
    }
  }

  lemma StepKeepsInv(m: Model, step: Step)
    requires Inv(m) && Enabled(m, step)
    ensures Inv(After(m, step))
  {
    match step
    case Start(task) => StartKeepsInv(m, task);
    case Stop => StopKeepsInv(m);
    case SetSession(present) =>
      assert forall s :: SocketOk(m, s) ==> SocketOk(After(m, step), s);
      assert forall t :: t in m.tasks && TaskOk(m, t) ==> TaskOk(After(m, step), t);
    case SetPairing(present) =>
      assert forall s :: SocketOk(m, s) ==> SocketOk(After(m, step), s);
      assert forall t :: t in m.tasks && TaskOk(m, t) ==> TaskOk(After(m, step), t);
    case Resumes(t, how, opening) => ResumeKeepsInv(m, t, how, opening);
  }

  // ---------------------------------------------------------------- whole runs

  predicate Runs(m: Model, steps: seq<Step>)
    decreases |steps|
  {
    steps != [] ==> Enabled(m, steps[0]) && Runs(After(m, steps[0]), steps[1..])
  }

  function AfterAll(m: Model, steps: seq<Step>): Model
    requires Runs(m, steps)
    decreases |steps|
  {
    if steps == [] then m else AfterAll(After(m, steps[0]), steps[1..])
  }

  lemma {:induction false} RunKeepsInv(m: Model, steps: seq<Step>)
    requires Inv(m) && Runs(m, steps)
    ensures Inv(AfterAll(m, steps))
    decreases |steps|
  {
    if steps != [] {
      StepKeepsInv(m, steps[0]);
      RunKeepsInv(After(m, steps[0]), steps[1..]);
    }
  }

  predicate Live(task: ControlTask) {
    !task.cancelled && task.point != Finished
  }

  /**
   Across all suspensions: the control task and control socket belong to the
   current generation, and the control task is the only live task there is.
   */
  lemma FieldsAreCurrent(steps: seq<Step>)
    requires Runs(INITIAL, steps)
    ensures var m := AfterAll(INITIAL, steps);
      && (forall t :: t in m.tasks && Live(m.tasks[t]) <==> m.controlTask == Some(t))
      && (m.controlTask.Some? ==> m.tasks[m.controlTask.value].generation == m.controlGeneration)
      && (m.controlSocket.Some? ==>
            m.controlTask.Some? && m.tasks[m.controlTask.value].activeSocket == m.controlSocket)
  {
    assert Inv(INITIAL);
    RunKeepsInv(INITIAL, steps);
    var m := AfterAll(INITIAL, steps);
    forall t ensures t in m.tasks && Live(m.tasks[t]) <==> m.controlTask == Some(t) {
      if t in m.tasks {
        assert TaskOk(m, t);
      }
    }
  }

  /** No socket is left behind: the open sockets are exactly the control socket, whatever tasks still run or wait. */
  lemma NoSocketLeaks(steps: seq<Step>, socket: nat)
    requires Runs(INITIAL, steps)
    ensures var m := AfterAll(INITIAL, steps);
      socket in m.sockets && !m.sockets[socket] <==> m.controlSocket == Some(socket)
  {
    assert Inv(INITIAL);
    RunKeepsInv(INITIAL, steps);
    assert SocketOk(AfterAll(INITIAL, steps), socket);
  }

  predicate OpenSocket(m: Model, socket: Option<nat>) {
    socket.Some? && socket.value in m.sockets && !m.sockets[socket.value]
  }

  predicate Superseded(m: Model, t: nat) {
    t in m.tasks && m.tasks[t].generation != m.controlGeneration
  }

  /** Everything a newer connection owns is the same; no socket was opened, and those of others are as they were. */
  predicate OnlyOwn(m: Model, after: Model, t: nat)
    requires t in m.tasks
  {
    && after.controlTask == m.controlTask && after.controlSocket == m.controlSocket
    && after.controlGeneration == m.controlGeneration
    && after.tasks.Keys == m.tasks.Keys && (forall u :: u in m.tasks && u != t ==> after.tasks[u] == m.tasks[u])
    && (forall socket :: socket in m.sockets && m.tasks[t].activeSocket != Some(socket) ==>
          socket in after.sockets && after.sockets[socket] == m.sockets[socket])
    && (forall socket :: socket in after.sockets && socket !in m.sockets ==> m.tasks[t].activeSocket == Some(socket))
  }

  lemma SupersededLeaves(m: Model, t: nat)
    requires Superseded(m, t)
    ensures OnlyOwn(m, Leave(m, t), t) && Leave(m, t).tasks[t].point == Finished
  {
  }

  lemma SupersededCatches(m: Model, t: nat)
    requires Superseded(m, t) && m.tasks[t].cancelled
    ensures OnlyOwn(m, Catch(m, t), t) && Catch(m, t).tasks[t].point == Finished
  {
    SupersededLeaves(Dropped(m, t), t);
  }

  /**
   Whatever a superseded task does next, its catch and defer touch none of the
   newer connection's fields, tasks and sockets; its own socket is already
   cancelled, and unless the socket still had a message to give, it ends.
   */
  lemma SupersededIsHarmless(steps: seq<Step>, t: nat, how: Resumption, opening: Opening)
    requires Runs(INITIAL, steps) && Enabled(AfterAll(INITIAL, steps), Resumes(t, how, opening))
    requires Superseded(AfterAll(INITIAL, steps), t)
    ensures var m := AfterAll(INITIAL, steps); var after := After(m, Resumes(t, how, opening));
      && OnlyOwn(m, after, t)
      && !OpenSocket(m, m.tasks[t].activeSocket)
      && (after.tasks[t].point == Finished || how == Hello || how == ConfigurationChanged)
  {
    assert Inv(INITIAL);
    RunKeepsInv(INITIAL, steps);
    SupersededIsCancelled(AfterAll(INITIAL, steps), t);
    SupersededStep(AfterAll(INITIAL, steps), t, how, opening);
  }

  /** A superseded task has been cancelled, and so has its socket. */
  lemma SupersededIsCancelled(m: Model, t: nat)
    requires Inv(m) && Superseded(m, t) && m.tasks[t].point != Finished
    ensures m.tasks[t].cancelled && !OpenSocket(m, m.tasks[t].activeSocket)
  {
    assert TaskOk(m, t) && m.controlTask != Some(t);
    if m.tasks[t].activeSocket.Some? {
      assert SocketOk(m, m.tasks[t].activeSocket.value);
    }
  }

  /** A superseded task that would go on, starts its loop over or reads again leaves instead. */
  lemma SupersededEnds(m: Model, t: nat, opening: Opening)
    requires Superseded(m, t) && m.tasks[t].cancelled
    ensures LoopHead(m, t, opening) == Leave(m, t) && ReceiveNext(m, t) == Leave(m, t)
  {
  }

  lemma SupersededMoves(m: Model, t: nat, point: Point)
    requires Superseded(m, t)
    ensures OnlyOwn(m, m.(tasks := m.tasks[t := m.tasks[t].(point := point)]), t)
  {
  }

  lemma SupersededStep(m: Model, t: nat, how: Resumption, opening: Opening)
    requires Superseded(m, t) && m.tasks[t].cancelled && Enabled(m, Resumes(t, how, opening))
    ensures var after := After(m, Resumes(t, how, opening));
      OnlyOwn(m, after, t) && (after.tasks[t].point == Finished || how == Hello || how == ConfigurationChanged)
  {
    SupersededLeaves(m, t);
    SupersededCatches(m, t);
    SupersededEnds(m, t, opening);
    SupersededMoves(m, t, Sending);
    SupersededMoves(m, t, Refreshing);
    var after := After(m, Resumes(t, how, opening));
    assert after == Leave(m, t) || after == Catch(m, t) || how == Hello || how == ConfigurationChanged;
  }

  // ---------------------------------------------------------------- what a current task does

  /** The control task: live, and suspended at a point. */
  predicate CurrentAt(m: Model, t: nat, point: Point) {
    t in m.tasks && Live(m.tasks[t]) && m.controlTask == Some(t) && m.tasks[t].point == point
  }

  /** The task holds an open socket, the control socket. */
  predicate Connected(m: Model, t: nat, socket: nat) {
    && t in m.tasks && m.tasks[t].activeSocket == Some(socket) && m.controlSocket == Some(socket)
    && socket in m.sockets && !m.sockets[socket]
  }

  /** Only the task's own suspension differs. */
  predicate Moved(m: Model, after: Model, t: nat, point: Point) {
    t in m.tasks && after == m.(tasks := m.tasks[t := m.tasks[t].(point := point)])
  }

  /**
   The control task, new or waiting after a failure, opens a socket when it is
   resumed, makes it the control socket, and sends presence on it; without pairing
   or a client it ends, and when opening fails it waits again.
   */
  lemma CurrentConnects(m: Model, t: nat, how: Resumption, opening: Opening)
    requires Inv(m) && Enabled(m, Resumes(t, how, opening))
    requires CurrentAt(m, t, Scheduled) || (CurrentAt(m, t, Sleeping) && how != Throws)
    ensures var after := After(m, Resumes(t, how, opening));
      && (m.hasPairing && opening.Opens? ==> CurrentAt(after, t, Sending) && Connected(after, t, opening.socket))
      && (m.hasPairing && opening.OpenFails? ==> CurrentAt(after, t, Sleeping) && after.controlSocket.None?)
      && (!m.hasPairing || opening.NoClient? ==>
            after.tasks[t].point == Finished && after.controlTask.None? && after.controlSocket.None?)
  {
    assert TaskOk(m, t);
  }

  /** Only a cancelled sleep throws; the task then ends. */
  lemma SleepThrows(m: Model, t: nat, opening: Opening)
    requires Inv(m) && CurrentAt(m, t, Sleeping)
    ensures Resume(m, t, Throws, opening) == Leave(m, t) && Leave(m, t).tasks[t].point == Finished
  {
  }

  /** A send or receive that fails closes the socket and leaves the control task waiting to try again. */
  lemma CurrentDrops(m: Model, t: nat, opening: Opening)
    requires Inv(m) && Enabled(m, Resumes(t, Throws, opening)) && (CurrentAt(m, t, Sending) || CurrentAt(m, t, Receiving))
    ensures var after := After(m, Resumes(t, Throws, opening));
      && CurrentAt(after, t, Sleeping) && after.tasks[t].activeSocket.None? && after.controlSocket.None?
      && (forall socket :: m.tasks[t].activeSocket == Some(socket) ==> socket in after.sockets && after.sockets[socket])
      && after.hasPairing == m.hasPairing && after.sockets.Keys == m.sockets.Keys
  {
    assert TaskOk(m, t);
  }

  /** While the socket lasts: hello is answered, a changed configuration refreshed, anything else read past. */
  lemma CurrentReads(m: Model, t: nat, how: Resumption, opening: Opening)
    requires Inv(m) && Enabled(m, Resumes(t, how, opening))
    requires (CurrentAt(m, t, Receiving) && how != Throws) || CurrentAt(m, t, Refreshing) || (CurrentAt(m, t, Sending) && how != Throws)
    ensures Moved(m, After(m, Resumes(t, how, opening)), t,
      if m.tasks[t].point == Receiving && how == Hello then Sending
      else if m.tasks[t].point == Receiving && how == ConfigurationChanged then Refreshing
      else Receiving)
  {
  }

  /** A dropped connection comes back: fail, wait, open, and the same task is connected on a new socket. */
  lemma DroppedReconnects(m: Model, t: nat, socket: nat)
    requires Inv(m) && m.hasPairing && socket !in m.sockets && (CurrentAt(m, t, Sending) || CurrentAt(m, t, Receiving))
    ensures var steps := [Resumes(t, Throws, NoClient), Resumes(t, Completes, Opens(socket))];
      && Runs(m, steps)
      && CurrentAt(AfterAll(m, steps), t, Sending) && Connected(AfterAll(m, steps), t, socket)
      && AfterAll(m, steps).controlGeneration == m.controlGeneration
  {
    var fails, opens := Resumes(t, Throws, NoClient), Resumes(t, Completes, Opens(socket));
    StepKeepsInv(m, fails);
    CurrentDrops(m, t, NoClient);
    var waiting := After(m, fails);
    CurrentConnects(waiting, t, Completes, Opens(socket));
    First(waiting, opens, []);
    First(m, fails, [opens]);
  }

  /** From nothing: a session, a pairing, a start, and the first segment of the task reach a connected state. */
  lemma FirstConnects(task: nat, socket: nat)
    ensures var steps := [SetSession(true), SetPairing(true), Start(task), Resumes(task, Completes, Opens(socket))];
      && Runs(INITIAL, steps)
      && CurrentAt(AfterAll(INITIAL, steps), task, Sending) && Connected(AfterAll(INITIAL, steps), task, socket)
  {
    var opens := Resumes(task, Completes, Opens(socket));
    var signedIn := After(INITIAL, SetSession(true));
    var paired := After(signedIn, SetPairing(true));
    var scheduled := After(paired, Start(task));
    First(scheduled, opens, []);
    First(paired, Start(task), [opens]);
    First(signedIn, SetPairing(true), [Start(task), opens]);
    First(INITIAL, SetSession(true), [SetPairing(true), Start(task), opens]);
  }

  lemma First(m: Model, step: Step, rest: seq<Step>)
    requires Enabled(m, step) && Runs(After(m, step), rest)
    ensures Runs(m, [step] + rest) && AfterAll(m, [step] + rest) == AfterAll(After(m, step), rest)
  {
    assert ([step] + rest)[1..] == rest;
  }

  /** Starting takes effect exactly when there is no control task and both session and pairing; it schedules a task of a new generation. */
  lemma StartsIff(m: Model, task: nat)
    requires Inv(m) && task !in m.tasks
    ensures var after := After(m, Start(task));
      if m.controlTask.None? && m.hasSession && m.hasPairing
      then CurrentAt(after, task, Scheduled) && after.controlGeneration == m.controlGeneration + 1 && after.sockets == m.sockets
           && forall u :: u in m.tasks ==> after.tasks[u] == m.tasks[u]
      else after == m
  {
  }

  /** Stopping cancels the control task and its socket and forgets both; the task's next segment is its last but for queued messages. */
  lemma Stops(m: Model)
    requires Inv(m)
    ensures Enabled(m, Stop)
    ensures var after := After(m, Stop);
      && after.controlTask.None? && after.controlSocket.None? && after.controlGeneration == m.controlGeneration + 1
      && (forall t :: t in after.tasks ==> !Live(after.tasks[t]))
      && (forall socket :: socket in after.sockets ==> after.sockets[socket])
  {
    StopKeepsInv(m);
    var after := StopControlConnection(m);
    forall t | t in after.tasks ensures !Live(after.tasks[t]) {
      assert TaskOk(after, t);
    }
    forall socket | socket in after.sockets ensures after.sockets[socket] {
      assert SocketOk(after, socket);
    }
  }

  /** Pairing again replaces the connection: after Stop and Start only the new task is live, and the old socket is cancelled. */
  lemma StopThenStart(m: Model, task: nat)
    requires Inv(m) && task !in m.tasks && m.hasSession && m.hasPairing
    ensures var after := StartControlConnection(StopControlConnection(m), task);
      && Inv(after) && after.controlTask == Some(task) && after.controlSocket.None?
      && (forall t :: t in after.tasks && Live(after.tasks[t]) <==> t == task)
      && (m.controlSocket.Some? ==> after.sockets[m.controlSocket.value])
  {
    StopKeepsInv(m);
    StartKeepsInv(StopControlConnection(m), task);
    var after := StartControlConnection(StopControlConnection(m), task);
    forall t | t in after.tasks && Live(after.tasks[t]) ensures t == task {
      assert TaskOk(after, t);
    }
  }

  // ---------------------------------------------------------------- the object

  /** ModelData's control fields, with the tasks and sockets it has created; each method is one segment. */
  class ModelData {
    var controlGeneration: nat
    var controlTask: Option<nat>
    var controlSocket: Option<nat>
    var tasks: map<nat, ControlTask>
    var sockets: map<nat, bool>
    var hasSession: bool
    var hasPairing: bool

    function Value(): Model
      reads this
    {
      Model(controlGeneration, controlTask, controlSocket, tasks, sockets, hasSession, hasPairing)
    }

    constructor ()
      ensures Value() == INITIAL
    {
      controlGeneration, controlTask, controlSocket := 0, None, None;
      tasks, sockets, hasSession, hasPairing := map[], map[], false, false;
    }

    method Start(task: nat)
      modifies this
      ensures Value() == StartControlConnection(old(Value()), task)
    {
      if controlTask.Some? || !hasSession || !hasPairing {
        return;
      }
      controlGeneration := controlGeneration + 1;
      tasks := tasks[task := ControlTask(controlGeneration, false, Scheduled, None)];
      controlTask := Some(task);
    }

    method Cancel(socket: Option<nat>)
      modifies this`sockets
      ensures Value() == CancelSocket(old(Value()), socket)
    {
      if socket.Some? {
        sockets := sockets[socket.value := true];
      }
    }

    method Stop()
      requires TaskKnown(Value())
      modifies this
      ensures Value() == StopControlConnection(old(Value()))
    {
      controlGeneration := controlGeneration + 1;
      if controlTask.Some? {
        tasks := tasks[controlTask.value := tasks[controlTask.value].(cancelled := true)];
      }
      controlTask := None;
      Cancel(controlSocket);
      controlSocket := None;
    }

    /** defer */
    method LeaveScope(t: nat)
      requires t in tasks
      modifies this
      ensures Value() == Leave(old(Value()), t)
    {
      Cancel(tasks[t].activeSocket);
      if controlGeneration == tasks[t].generation {
        controlSocket := None;
        controlTask := None;
      }
      tasks := tasks[t := tasks[t].(point := Finished, activeSocket := None)];
    }

    /** catch */
    method HandleError(t: nat)
      requires t in tasks
      modifies this
      ensures Value() == Catch(old(Value()), t)
    {
      Cancel(tasks[t].activeSocket);
      tasks := tasks[t := tasks[t].(point := Sleeping, activeSocket := None)];
      if controlGeneration == tasks[t].generation {
        controlSocket := None;
      }
      if tasks[t].cancelled {
        LeaveScope(t);
      }
    }

    /** The outer loop's test and its body up to the first await. */
    method RunLoop(t: nat, opening: Opening)
      requires t in tasks
      modifies this
      ensures Value() == LoopHead(old(Value()), t, opening)
    {
      if tasks[t].cancelled || controlGeneration != tasks[t].generation || !hasPairing {
        LeaveScope(t);
        return;
      }
      match opening
      case NoClient => LeaveScope(t);
      case OpenFails => HandleError(t);
      case Opens(socket) =>
        sockets := sockets[socket := false];
        tasks := tasks[t := tasks[t].(activeSocket := Some(socket))];
        controlSocket := Some(socket);
        tasks := tasks[t := tasks[t].(point := Sending)];
    }
  }
}
