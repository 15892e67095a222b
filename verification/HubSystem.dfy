/**
 Every replica's hub, the shared station tables and all control connections as
 one transition system. A connection is a program counter through `serve` with
 its write loop beside it; critical sections under the hub mutex are single
 steps, and the socket close that follows one is a separate, pending step.
 */
module HubSystem {
  import opened StationTables
  import opened Wrappers

  /** Where `serve` is: the statement it runs next. */
  datatype Pc = Claiming | Registering | Greeting | Reading | Draining | Unregistering | Releasing | Returned

  datatype Writer = NotStarted | Running | Stopped

  /** `claimed` (the claim returned no error), `attempts` and `released` are history. */
  datatype Peer = Peer(
    hub: nat, station: int, pc: Pc, writer: Writer, closeRequested: bool,
    claimed: bool, attempts: nat, released: bool)

  datatype HubState = HubState(conns: map<int, string>, closed: bool)

  /** `closing`: sockets taken out of a map whose close is the next statement of whoever took them out. */
  datatype System = System(
    tables: Tables, clock: int, hubs: map<nat, HubState>, peers: map<string, Peer>, closing: set<string>)

  predicate Init(s: System) {
    s.tables == EMPTY && s.hubs == map[] && s.peers == map[] && s.closing == {}
  }

  /**
   How a connection's query ends: its outcome comes back, it ran but its caller
   got an error such as a timeout, or it did not run and its caller got an error.
   */
  datatype Answer = Answered | Lost | NotRun

  datatype Step =
    | Elapse(now: int)
    | StartHub(h: nat)
    | CloseHub(h: nat)
    | Administer(op: Op)
    | Disconnect(h: nat, station: int)
    | Serve(c: string, h: nat, station: int)
    | Claim(c: string, hash: SecretHash, protocolVersion: int, version: string, answer: Answer)
    | Register(c: string)
    | Greet(c: string, ok: bool)
    | Presence(c: string, answer: Answer)
    | ReadFails(c: string)
    | Drain(c: string)
    | WriterTick(c: string, answer: Answer)
    | WriterStops(c: string)
    | Unregister(c: string)
    | Release(c: string, answer: Answer)
    | CloseSocket(c: string)

  // ---------------------------------------------------------------- the hub's critical sections

  function Install(hub: HubState, station: int, c: string): HubState {
    hub.(conns := hub.conns[station := c])
  }

  function Remove(hub: HubState, station: int): HubState {
    hub.(conns := hub.conns - {station})
  }

  /** unregister removes the entry only while it is the connection's own. */
  function RemoveOwn(hub: HubState, station: int, c: string): HubState {
    if station in hub.conns && hub.conns[station] == c then Remove(hub, station) else hub
  }

  /** The socket a critical section has taken out of the map and must still close. */
  function Taken(hub: HubState, station: int): set<string> {
    if station in hub.conns then {hub.conns[station]} else {}
  }

  // ---------------------------------------------------------------- steps

  predicate At(s: System, c: string, pc: Pc) {
    c in s.peers && s.peers[c].pc == pc && s.peers[c].hub in s.hubs
  }

  predicate Enabled(s: System, step: Step) {
    match step
    case Elapse(now) => s.clock <= now
    case StartHub(h) => h !in s.hubs
    case CloseHub(h) => h in s.hubs
    case Administer(op) => op.OpCreate? || op.OpUpdate? || op.OpRotate? || op.OpDelete? || op.OpReject?
    case Disconnect(h, _) => h in s.hubs
    case Serve(c, h, _) => c !in s.peers && h in s.hubs
    case Claim(c, _, _, _, _) => At(s, c, Claiming)
    case Register(c) => At(s, c, Registering)
    case Greet(c, _) => At(s, c, Greeting)
    case Presence(c, _) => At(s, c, Reading)
    case ReadFails(c) => At(s, c, Reading)
    case Drain(c) => At(s, c, Draining) && s.peers[c].writer == Stopped
    case WriterTick(c, _) => c in s.peers && s.peers[c].writer == Running
    case WriterStops(c) => c in s.peers && s.peers[c].writer == Running
    case Unregister(c) => At(s, c, Unregistering)
    case Release(c, _) => At(s, c, Releasing)
    case CloseSocket(c) => c in s.peers
  }

  /** The transaction a step runs on the shared tables, if any. */
  function Transaction(s: System, step: Step): Option<Op>
    requires Enabled(s, step)
  {
    match step
    case Administer(op) => Some(op)
    case Claim(c, hash, protocolVersion, version, answer) =>
      Ran(answer, OpClaim(s.peers[c].station, hash, c, protocolVersion, version))
    case Presence(c, answer) => Ran(answer, OpRenew(s.peers[c].station, c))
    case WriterTick(c, answer) => Ran(answer, OpRenew(s.peers[c].station, c))
    case Release(c, answer) => Ran(answer, OpRelease(s.peers[c].station, c))
    case _ => None
  }

  function Ran(answer: Answer, op: Op): Option<Op> {
    if answer.NotRun? then None else Some(op)
  }

  function TablesAfter(s: System, transaction: Option<Op>): Tables {
    if transaction.Some? then Commit(s.tables, s.clock, transaction.value) else s.tables
  }

  /** The caller learns that the transaction succeeded. */
  predicate Confirmed(s: System, transaction: Option<Op>, answer: Answer) {
    answer.Answered? && transaction.Some? && Perform(s.tables, s.clock, transaction.value).Success?
  }

  function After(s: System, step: Step): System
    requires Enabled(s, step)
  {
    match step
    case Elapse(now) => s.(clock := now)
    case StartHub(h) => s.(hubs := s.hubs[h := HubState(map[], false)])
    case CloseHub(h) =>
      s.(hubs := s.hubs[h := HubState(map[], true)], closing := s.closing + s.hubs[h].conns.Values)
    case Administer(_) => s.(tables := TablesAfter(s, Transaction(s, step)))
    case Disconnect(h, station) =>
      s.(hubs := s.hubs[h := Remove(s.hubs[h], station)], closing := s.closing + Taken(s.hubs[h], station))
    case Serve(c, h, station) =>
      s.(peers := s.peers[c := Peer(h, station, Claiming, NotStarted, false, false, 0, false)])
    case Claim(c, _, _, _, answer) =>
      var claimed := Confirmed(s, Transaction(s, step), answer);
      s.(tables := TablesAfter(s, Transaction(s, step)),
         peers := s.peers[c :=
           if claimed then s.peers[c].(pc := Registering, claimed := true)
           else s.peers[c].(pc := Returned, closeRequested := true)])
    case Register(c) =>
      var p := s.peers[c];
      var hub := s.hubs[p.hub];
      if hub.closed then s.(peers := s.peers[c := p.(pc := Releasing)])
      else
        s.(hubs := s.hubs[p.hub := Install(hub, p.station, c)],
           closing := s.closing + Taken(hub, p.station),
           peers := s.peers[c := p.(pc := Greeting)])
    case Greet(c, ok) =>
      s.(peers := s.peers[c := s.peers[c].(pc := if ok then Reading else Unregistering, writer := Running)])
    case Presence(c, answer) =>
      var renewed := s.(tables := TablesAfter(s, Transaction(s, step)));
      if Confirmed(s, Transaction(s, step), answer) then renewed
      else renewed.(peers := s.peers[c := s.peers[c].(pc := Draining, closeRequested := true)])
    case ReadFails(c) => s.(peers := s.peers[c := s.peers[c].(pc := Draining)])
    case Drain(c) => s.(peers := s.peers[c := s.peers[c].(pc := Unregistering)])
    case WriterTick(c, answer) =>
      var renewed := s.(tables := TablesAfter(s, Transaction(s, step)));
      if Confirmed(s, Transaction(s, step), answer) then renewed
      else renewed.(peers := s.peers[c := s.peers[c].(writer := Stopped)])
    case WriterStops(c) => s.(peers := s.peers[c := s.peers[c].(writer := Stopped)])
    case Unregister(c) =>
      var p := s.peers[c];
      s.(hubs := s.hubs[p.hub := RemoveOwn(s.hubs[p.hub], p.station, c)],
         peers := s.peers[c := p.(pc := Releasing)])
    case Release(c, answer) =>
      var p := s.peers[c];
      s.(tables := TablesAfter(s, Transaction(s, step)),
         peers := s.peers[c := p.(pc := Returned, attempts := p.attempts + 1, released := answer.Answered?)])
    case CloseSocket(c) =>
      s.(closing := s.closing - {c}, peers := s.peers[c := s.peers[c].(closeRequested := true)])
  }

  // ---------------------------------------------------------------- invariant

  /** Between register and the map step of unregister. */
  predicate Registered(p: Peer) {
    p.pc == Greeting || p.pc == Reading || p.pc == Draining || p.pc == Unregistering
  }

  predicate InMap(s: System, c: string) {
    c in s.peers && s.peers[c].hub in s.hubs
    && s.peers[c].station in s.hubs[s.peers[c].hub].conns
    && s.hubs[s.peers[c].hub].conns[s.peers[c].station] == c
  }

  /** A registered connection is findable, or its socket is closed or about to be. */
  predicate PeerOk(s: System, c: string)
    requires c in s.peers
  {
    var p := s.peers[c];
    && p.hub in s.hubs
    && (Registered(p) ==> InMap(s, c) || p.closeRequested || c in s.closing)
    && (p.attempts == if p.claimed && p.pc == Returned then 1 else 0)
    && (p.released ==> p.pc == Returned && p.claimed)
    && (p.claimed <==> p.pc != Claiming && (p.pc == Returned ==> p.attempts == 1))
    && (p.writer != NotStarted ==> p.claimed)
  }

  /** A map holds registered connections under their own hub and station; a closed hub's map is empty. */
  predicate HubOk(s: System, h: nat)
    requires h in s.hubs
  {
    && (s.hubs[h].closed ==> s.hubs[h].conns == map[])
    && forall station :: station in s.hubs[h].conns ==>
         var c := s.hubs[h].conns[station];
         c in s.peers && s.peers[c].hub == h && s.peers[c].station == station && Registered(s.peers[c])
  }

  /** A session row belongs to a served connection of that station that has not released it. */
  predicate RowOk(s: System, id: int) {
    id in s.tables.sessions ==>
      var c := s.tables.sessions[id].connection;
      c in s.peers && s.peers[c].station == id && s.peers[c].pc != Claiming && !s.peers[c].released
  }

  ghost predicate Inv(s: System) {
    && (forall c :: c in s.peers ==> PeerOk(s, c))
    && (forall h :: h in s.hubs ==> HubOk(s, h))
    && (forall id :: RowOk(s, id))
  }

  // ---------------------------------------------------------------- what one step can change

  /** The connection whose record a step changes. */
  function Subject(step: Step): Option<string> {
    match step
    case Elapse(_) => None
    case StartHub(_) => None
    case CloseHub(_) => None
    case Administer(_) => None
    case Disconnect(_, _) => None
    case Serve(c, _, _) => Some(c)
    case Claim(c, _, _, _, _) => Some(c)
    case Register(c) => Some(c)
    case Greet(c, _) => Some(c)
    case Presence(c, _) => Some(c)
    case ReadFails(c) => Some(c)
    case Drain(c) => Some(c)
    case WriterTick(c, _) => Some(c)
    case WriterStops(c) => Some(c)
    case Unregister(c) => Some(c)
    case Release(c, _) => Some(c)
    case CloseSocket(c) => Some(c)
  }

  lemma PeersFrame(s: System, step: Step, c: string)
    requires Enabled(s, step) && Subject(step) != Some(c)
    ensures c in s.peers <==> c in After(s, step).peers
    ensures c in s.peers ==> After(s, step).peers[c] == s.peers[c]
    ensures c in s.closing ==> c in After(s, step).closing
  {
  }

  lemma HubsOnlyStart(s: System, step: Step, h: nat)
    requires Enabled(s, step) && h in s.hubs
    ensures h in After(s, step).hubs
    ensures s.hubs[h].closed ==> After(s, step).hubs[h].closed
  {
  }

  /** An entry leaves a map only through its own connection's unregister, or into the set of sockets to close. */
  lemma EntryLeaves(s: System, step: Step, h: nat, station: int)
    requires Enabled(s, step) && h in s.hubs && station in s.hubs[h].conns
    ensures var c := s.hubs[h].conns[station]; var hub := After(s, step).hubs[h];
      (station in hub.conns && hub.conns[station] == c)
      || step == Unregister(c)
      || c in After(s, step).closing
  {
    assert s.hubs[h].conns[station] in s.hubs[h].conns.Values;
  }

  /** An entry enters a map only through its connection's register. */
  lemma EntryEnters(s: System, step: Step, h: nat, station: int)
    requires Enabled(s, step) && h in After(s, step).hubs && station in After(s, step).hubs[h].conns
    ensures var c := After(s, step).hubs[h].conns[station];
      (h in s.hubs && station in s.hubs[h].conns && s.hubs[h].conns[station] == c
       && !(step == Unregister(c) && s.peers[c].hub == h && s.peers[c].station == station))
      || (step == Register(c) && s.peers[c].hub == h && s.peers[c].station == station && !s.hubs[h].closed)
  {
  }

  lemma ClosedHubGainsNothing(s: System, step: Step, h: nat)
    requires Enabled(s, step) && h in s.hubs && s.hubs[h].closed && s.hubs[h].conns == map[]
    ensures After(s, step).hubs[h].conns == map[]
  {
    if station :| station in After(s, step).hubs[h].conns {
      EntryEnters(s, step, h, station);
    }
  }

  /** The shared tables change by whole transactions only. */
  lemma TablesFollow(s: System, step: Step)
    requires Enabled(s, step)
    ensures After(s, step).tables == TablesAfter(s, Transaction(s, step))
  {
  }

  /** A transaction gives a session row to no one but its claimer. */
  lemma OnlyClaimerGains(t: Tables, now: int, op: Op, id: int)
    requires id in Commit(t, now, op).sessions
    ensures var c := Commit(t, now, op).sessions[id].connection;
      (id in t.sessions && t.sessions[id].connection == c && op != OpRelease(id, c))
      || (op.OpClaim? && op.connection == c && op.id == id)
  {
  }

  /** A session row changes hands only to a connection whose claim this step commits. */
  lemma RowEnters(s: System, step: Step, id: int)
    requires Enabled(s, step) && id in After(s, step).tables.sessions
    ensures var c := After(s, step).tables.sessions[id].connection;
      (id in s.tables.sessions && s.tables.sessions[id].connection == c
       && !(step.Release? && step.c == c && step.answer.Answered? && s.peers[c].station == id))
      || (step.Claim? && step.c == c && s.peers[c].station == id)
  {
    TablesFollow(s, step);
    var transaction := Transaction(s, step);
    if transaction.Some? {
      OnlyClaimerGains(s.tables, s.clock, transaction.value, id);
    }
  }

  // ---------------------------------------------------------------- preservation

  /** A connection's own step that changes a hub: register and unregister. */
  lemma OwnHubStepOk(s: System, step: Step, c: string)
    requires Enabled(s, step) && (step == Register(c) || step == Unregister(c)) && PeerOk(s, c)
    ensures PeerOk(After(s, step), c)
  {
  }

  /** A connection's own step that runs a query. */
  lemma OwnQueryStepOk(s: System, step: Step, c: string)
    requires Enabled(s, step) && Subject(step) == Some(c) && c in s.peers && PeerOk(s, c)
    requires step.Claim? || step.Presence? || step.WriterTick? || step.Release?
    ensures PeerOk(After(s, step), c)
  {
    assert After(s, step).hubs == s.hubs && After(s, step).closing == s.closing;
  }

  /** The step a connection takes itself. */
  lemma OwnStepOk(s: System, step: Step, c: string)
    requires Inv(s) && Enabled(s, step) && Subject(step) == Some(c)
    ensures PeerOk(After(s, step), c)
  {
    if c in s.peers {
      assert PeerOk(s, c);
    }
    if step == Register(c) || step == Unregister(c) {
      OwnHubStepOk(s, step, c);
    } else if step.Claim? || step.Presence? || step.WriterTick? || step.Release? {
      OwnQueryStepOk(s, step, c);
    }
  }

  lemma StepKeepsPeers(s: System, step: Step, c: string)
    requires Inv(s) && Enabled(s, step) && c in After(s, step).peers
    ensures PeerOk(After(s, step), c)
  {
    if Subject(step) == Some(c) {
      OwnStepOk(s, step, c);
    } else {
      PeersFrame(s, step, c);
      assert PeerOk(s, c);
      HubsOnlyStart(s, step, s.peers[c].hub);
      if InMap(s, c) {
        EntryLeaves(s, step, s.peers[c].hub, s.peers[c].station);
      }
    }
  }

  lemma StepKeepsHubs(s: System, step: Step, h: nat)
    requires Inv(s) && Enabled(s, step) && h in After(s, step).hubs
    ensures HubOk(After(s, step), h)
  {
    var after := After(s, step);
    forall station | station in after.hubs[h].conns
      ensures var c := after.hubs[h].conns[station];
        c in after.peers && after.peers[c].hub == h && after.peers[c].station == station && Registered(after.peers[c])
    {
      var c := after.hubs[h].conns[station];
      EntryEnters(s, step, h, station);
      if step != Register(c) {
        assert HubOk(s, h);
        OwnStepStaysRegistered(s, step, c);
      }
    }
    if h in s.hubs {
      assert HubOk(s, h);
      if s.hubs[h].closed {
        ClosedHubGainsNothing(s, step, h);
      }
    }
    if after.hubs[h].closed {
      ClosesEmpty(s, step, h);
    }
  }

  lemma ClosesEmpty(s: System, step: Step, h: nat)
    requires Enabled(s, step) && h in After(s, step).hubs && After(s, step).hubs[h].closed
    ensures After(s, step).hubs[h].conns == map[] || (h in s.hubs && s.hubs[h].closed)
  {
  }

  lemma OwnStepStaysRegistered(s: System, step: Step, c: string)
    requires Enabled(s, step) && c in s.peers && Registered(s.peers[c]) && step != Unregister(c)
    ensures c in After(s, step).peers && Registered(After(s, step).peers[c])
    ensures After(s, step).peers[c].hub == s.peers[c].hub && After(s, step).peers[c].station == s.peers[c].station
  {
    if Subject(step) != Some(c) {
      PeersFrame(s, step, c);
    }
  }

  lemma StepKeepsRows(s: System, step: Step, id: int)
    requires Inv(s) && Enabled(s, step)
    ensures RowOk(After(s, step), id)
  {
    if id in After(s, step).tables.sessions {
      RowEnters(s, step, id);
      assert RowOk(s, id);
      var c := After(s, step).tables.sessions[id].connection;
      assert PeerOk(s, c);
      HolderStaysUnreleased(s, step, c);
    }
  }

  lemma HolderStaysUnreleased(s: System, step: Step, c: string)
    requires Enabled(s, step) && c in s.peers && !s.peers[c].released && step != Release(c, Answered)
    requires s.peers[c].pc != Claiming || step.Claim?
    ensures c in After(s, step).peers && After(s, step).peers[c].station == s.peers[c].station
    ensures !After(s, step).peers[c].released
    ensures s.peers[c].pc != Claiming || Subject(step) == Some(c) ==> After(s, step).peers[c].pc != Claiming
  {
    if Subject(step) != Some(c) {
      PeersFrame(s, step, c);
    }
  }

  lemma StepKeepsInv(s: System, step: Step)
    requires Inv(s) && Enabled(s, step)
    ensures Inv(After(s, step))
  {
    forall c | c in After(s, step).peers ensures PeerOk(After(s, step), c) {
      StepKeepsPeers(s, step, c);
    }
    forall h | h in After(s, step).hubs ensures HubOk(After(s, step), h) {
      StepKeepsHubs(s, step, h);
    }
    forall id ensures RowOk(After(s, step), id) {
      StepKeepsRows(s, step, id);
    }
  }

  // ---------------------------------------------------------------- whole runs

  predicate Runs(s: System, steps: seq<Step>)
    decreases |steps|
  {
    steps != [] ==> Enabled(s, steps[0]) && Runs(After(s, steps[0]), steps[1..])
  }

  function AfterAll(s: System, steps: seq<Step>): System
    requires Runs(s, steps)
    decreases |steps|
  {
    if steps == [] then s else AfterAll(After(s, steps[0]), steps[1..])
  }

  lemma {:induction false} RunKeepsInv(s: System, steps: seq<Step>)
    requires Inv(s) && Runs(s, steps)
    ensures Inv(AfterAll(s, steps))
    decreases |steps|
  {
    if steps != [] {
      StepKeepsInv(s, steps[0]);
      RunKeepsInv(After(s, steps[0]), steps[1..]);
    }
  }

  /** No orphan sockets: a connection that registered and has not run unregister is in the map, closed, or about to be closed. */
  lemma NoOrphanSockets(s: System, steps: seq<Step>, c: string)
    requires Init(s) && Runs(s, steps)
    ensures var now := AfterAll(s, steps);
      c in now.peers && Registered(now.peers[c]) ==> InMap(now, c) || now.peers[c].closeRequested || c in now.closing
  {
    RunKeepsInv(s, steps);
    if c in AfterAll(s, steps).peers {
      assert PeerOk(AfterAll(s, steps), c);
    }
  }

  /** The connection's socket has been asked to close, or whoever took it out of the map is about to ask. */
  predicate Going(s: System, c: string) {
    c in s.peers && (s.peers[c].closeRequested || c in s.closing)
  }

  /** What the map is for: of two registered connections of one station on one hub, at least one is going. */
  lemma OneConnectionPerStation(s: System, steps: seq<Step>, c: string, d: string)
    requires Init(s) && Runs(s, steps) && c != d
    requires var now := AfterAll(s, steps);
      && c in now.peers && d in now.peers && Registered(now.peers[c]) && Registered(now.peers[d])
      && now.peers[c].hub == now.peers[d].hub && now.peers[c].station == now.peers[d].station
    ensures Going(AfterAll(s, steps), c) || Going(AfterAll(s, steps), d)
  {
    NoOrphanSockets(s, steps, c);
    NoOrphanSockets(s, steps, d);
  }

  /** A hub that has closed stays closed with an empty map over every further run. */
  lemma {:induction false} ClosedHubStaysEmpty(s: System, steps: seq<Step>, h: nat)
    requires Inv(s) && Runs(s, steps) && h in s.hubs && s.hubs[h].closed
    ensures h in AfterAll(s, steps).hubs && AfterAll(s, steps).hubs[h] == HubState(map[], true)
    decreases |steps|
  {
    assert HubOk(s, h);
    if steps != [] {
      HubsOnlyStart(s, steps[0], h);
      StepKeepsInv(s, steps[0]);
      ClosedHubStaysEmpty(After(s, steps[0]), steps[1..], h);
    }
  }

  /** A connection whose claim succeeded has attempted its release exactly once when `serve` has returned, and never before. */
  lemma ReleasedExactlyOnce(s: System, steps: seq<Step>, c: string)
    requires Init(s) && Runs(s, steps) && c in AfterAll(s, steps).peers
    ensures var p := AfterAll(s, steps).peers[c];
      p.attempts == if p.claimed && p.pc == Returned then 1 else 0
  {
    RunKeepsInv(s, steps);
    assert PeerOk(AfterAll(s, steps), c);
  }

  /** The cleanup of one connection leaves every other connection's map entry and session row alone. */
  lemma CleanupIsOwn(s: System, step: Step, c: string, d: string, h: nat, station: int)
    requires Enabled(s, step) && c != d && (step == Unregister(c) || (step.Release? && step.c == c))
    ensures h in s.hubs && station in s.hubs[h].conns && s.hubs[h].conns[station] == d ==>
      station in After(s, step).hubs[h].conns && After(s, step).hubs[h].conns[station] == d
    ensures station in s.tables.sessions && s.tables.sessions[station].connection == d ==>
      station in After(s, step).tables.sessions
      && After(s, step).tables.sessions[station] == s.tables.sessions[station]
  {
  }

  predicate HasRow(s: System, c: string) {
    c in s.peers && s.peers[c].station in s.tables.sessions
    && s.tables.sessions[s.peers[c].station].connection == c
  }

  /** After its release succeeded, a connection never has a session row again, though its write loop may still tick. */
  lemma ReleasedNeverReturns(s: System, steps: seq<Step>, c: string, id: int)
    requires Init(s) && Runs(s, steps)
    requires var now := AfterAll(s, steps); c in now.peers && now.peers[c].released
    ensures var now := AfterAll(s, steps);
      id in now.tables.sessions ==> now.tables.sessions[id].connection != c
  {
    RunKeepsInv(s, steps);
    assert RowOk(AfterAll(s, steps), id);
  }

  /** The connection is past its claim and its row is gone: replaced, cleared by an administrator, or released. */
  predicate Dispossessed(s: System, c: string) {
    c in s.peers && s.peers[c].pc != Claiming && !HasRow(s, c)
  }

  lemma DispossessedIsStable(s: System, step: Step, c: string)
    requires Inv(s) && Enabled(s, step) && Dispossessed(s, c)
    ensures Dispossessed(After(s, step), c)
  {
    var after := After(s, step);
    if Subject(step) != Some(c) {
      PeersFrame(s, step, c);
    }
    if s.peers[c].station in after.tables.sessions {
      RowEnters(s, step, s.peers[c].station);
    }
  }

  /**
   Across all replicas, a dispossessed connection stays so, whatever runs later:
   its next presence message ends its read loop and its next tick stops its
   write loop, even while it still sits in some hub's map.
   */
  lemma {:induction false} DispossessedForever(s: System, steps: seq<Step>, c: string)
    requires Inv(s) && Runs(s, steps) && Dispossessed(s, c)
    ensures var now := AfterAll(s, steps);
      && Dispossessed(now, c)
      && (forall answer :: Enabled(now, Presence(c, answer)) ==>
            var after := After(now, Presence(c, answer));
            after.peers[c].pc == Draining && after.peers[c].closeRequested && after.tables == now.tables)
      && (forall answer :: Enabled(now, WriterTick(c, answer)) ==>
            var after := After(now, WriterTick(c, answer));
            after.peers[c].writer == Stopped && after.tables == now.tables)
    decreases |steps|
  {
    if steps != [] {
      StepKeepsInv(s, steps[0]);
      DispossessedIsStable(s, steps[0], c);
      DispossessedForever(After(s, steps[0]), steps[1..], c);
    }
  }

  /**
   Every session row is accounted for: its connection is still being served, or
   its one release failed, or its claim committed without being acknowledged.
   */
  lemma RowsAccountedFor(s: System, steps: seq<Step>, id: int)
    requires Init(s) && Runs(s, steps) && id in AfterAll(s, steps).tables.sessions
    ensures var now := AfterAll(s, steps); var c := now.tables.sessions[id].connection;
      && c in now.peers && now.peers[c].station == id
      && (now.peers[c].pc != Returned
          || (now.peers[c].claimed && now.peers[c].attempts == 1 && !now.peers[c].released)
          || !now.peers[c].claimed)
  {
    RunKeepsInv(s, steps);
    var now := AfterAll(s, steps);
    assert RowOk(now, id);
    assert PeerOk(now, now.tables.sessions[id].connection);
  }
}
