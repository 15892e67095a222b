/**
 What a run of hubs, connections and administrators is to the database: one run
 of store transactions in time order. The status a Station shows and the fencing
 of lost sessions therefore hold for the system as a whole.
 */
module HubHistory {
  import opened HubSystem
  import opened StationRuns
  import opened StationTables
  import opened Wrappers

  // ---------------------------------------------------------------- the transactions of a run

  function Logged(s: System, step: Step): Run
    requires Enabled(s, step)
  {
    var transaction := Transaction(s, step);
    if transaction.Some? then [Event(s.clock, transaction.value)] else []
  }

  /** The transactions that ran, each at the database time of its step. */
  function Transactions(s: System, steps: seq<Step>): Run
    requires Runs(s, steps)
    decreases |steps|
  {
    if steps == [] then [] else Logged(s, steps[0]) + Transactions(After(s, steps[0]), steps[1..])
  }

  lemma {:induction false} TablesAreExecuted(s: System, steps: seq<Step>)
    requires Runs(s, steps)
    ensures AfterAll(s, steps).tables == ExecFrom(s.tables, Transactions(s, steps))
    decreases |steps|
  {
    if steps != [] {
      var first, rest := Logged(s, steps[0]), Transactions(After(s, steps[0]), steps[1..]);
      TablesFollow(s, steps[0]);
      TablesAreExecuted(After(s, steps[0]), steps[1..]);
      if first == [] {
        assert first + rest == rest;
      } else {
        assert (first + rest)[0] == first[0] && (first + rest)[1..] == rest;
      }
    }
  }

  /** The database clock only moves on, so the transactions lie in time order. */
  lemma {:induction false} TransactionsInTime(s: System, steps: seq<Step>)
    requires Runs(s, steps)
    ensures Timed(Transactions(s, steps)) && s.clock <= AfterAll(s, steps).clock
    ensures forall i :: 0 <= i < |Transactions(s, steps)| ==>
      s.clock <= Transactions(s, steps)[i].at <= AfterAll(s, steps).clock
    decreases |steps|
  {
    if steps != [] {
      TransactionsInTime(After(s, steps[0]), steps[1..]);
    }
  }

  /** A connection past its claim does not claim again. */
  lemma {:induction false} ClaimsOnce(s: System, steps: seq<Step>, i: nat)
    requires Runs(s, steps) && i < |Transactions(s, steps)| && Transactions(s, steps)[i].op.OpClaim?
    ensures var c := Transactions(s, steps)[i].op.connection; c in s.peers ==> s.peers[c].pc == Claiming
    decreases |steps|
  {
    var c := Transactions(s, steps)[i].op.connection;
    var n := |Logged(s, steps[0])|;
    if n <= i {
      ClaimsOnce(After(s, steps[0]), steps[1..], i - n);
      if c in s.peers && s.peers[c].pc != Claiming {
        ClaimingIsFirst(s, steps[0], c);
      }
    }
  }

  lemma ClaimingIsFirst(s: System, step: Step, c: string)
    requires Enabled(s, step) && c in s.peers && s.peers[c].pc != Claiming
    ensures c in After(s, step).peers && After(s, step).peers[c].pc != Claiming
    ensures After(s, step).peers[c].station == s.peers[c].station
  {
    if Subject(step) != Some(c) {
      PeersFrame(s, step, c);
    }
  }

  /** No two claims of a run carry the same connection: the freshness that fencing rests on. */
  lemma {:induction false} ClaimsAreFresh(s: System, steps: seq<Step>)
    requires Runs(s, steps)
    ensures FreshClaims(Transactions(s, steps))
    decreases |steps|
  {
    if steps != [] {
      var first, rest := Logged(s, steps[0]), Transactions(After(s, steps[0]), steps[1..]);
      ClaimsAreFresh(After(s, steps[0]), steps[1..]);
      if first != [] && first[0].op.OpClaim? {
        forall j | 0 <= j < |rest| && rest[j].op.OpClaim? ensures rest[j].op.connection != first[0].op.connection {
          ClaimsOnce(After(s, steps[0]), steps[1..], j);
        }
      }
    }
  }

  /** The tables of any run of the system are those of its transactions, a run of the kind StationRuns is about. */
  lemma SystemRunsTransactions(s: System, steps: seq<Step>)
    requires Init(s) && Runs(s, steps)
    ensures var run := Transactions(s, steps);
      AfterAll(s, steps).tables == Exec(run, |run|) && Timed(run) && FreshClaims(run)
  {
    var run := Transactions(s, steps);
    TablesAreExecuted(s, steps);
    ExecFromTail(run, 0);
    assert run[0..] == run;
    TransactionsInTime(s, steps);
    ClaimsAreFresh(s, steps);
  }

  // ---------------------------------------------------------------- status

  /**
   In every reachable state of the system a station shows online exactly when a
   claim nothing ended has been kept alive by timely heartbeats, and incompatible
   exactly when it does not and a recent rejection follows its latest claim.
   */
  lemma StatusOfSystem(s: System, steps: seq<Step>, id: int)
    requires Init(s) && Runs(s, steps)
    ensures var now := AfterAll(s, steps); var run := Transactions(s, steps);
      var state := StateAt(now.tables, now.clock, id);
      && (state == Online <==>
            exists connection, beats ::
              Heartbeats(run, |run|, id, connection, beats) && now.clock < LastBeat(run, beats) + SESSION_TTL)
      && (state == Incompatible <==>
            state != Online && exists i :: RejectionStands(run, |run|, i, id, now.clock))
  {
    SystemRunsTransactions(s, steps);
    OnlineIffHeartbeats(Transactions(s, steps), id, AfterAll(s, steps).clock);
    IncompatibleIffRejectionStands(Transactions(s, steps), id, AfterAll(s, steps).clock);
  }

  // ---------------------------------------------------------------- fencing

  /** Past its claim and without a live lease: replaced, cleared, released, or run out. */
  predicate Lapsed(s: System, c: string) {
    c in s.peers && s.peers[c].pc != Claiming && !Holds(s.tables, s.clock, s.peers[c].station, c)
  }

  lemma LapsedIsStable(s: System, step: Step, c: string)
    requires Enabled(s, step) && Lapsed(s, c)
    ensures Lapsed(After(s, step), c)
  {
    ClaimingIsFirst(s, step, c);
    TablesFollow(s, step);
    var transaction := Transaction(s, step);
    if transaction.Some? {
      LossIsStable(s.tables, s.clock, transaction.value, s.clock, s.peers[c].station, c);
    }
  }

  /** Its renewals fail and change nothing: presence ends the read loop, a tick the write loop. */
  predicate Powerless(s: System, c: string) {
    && (forall answer :: Enabled(s, Presence(c, answer)) ==>
          var after := After(s, Presence(c, answer));
          after.peers[c].pc == Draining && after.peers[c].closeRequested && after.tables == s.tables)
    && (forall answer :: Enabled(s, WriterTick(c, answer)) ==>
          var after := After(s, WriterTick(c, answer));
          after.peers[c].writer == Stopped && after.tables == s.tables)
  }

  /** A connection whose lease was lost or has run out never renews again, whatever hubs and administrators do. */
  lemma {:induction false} LapsedForever(s: System, steps: seq<Step>, c: string)
    requires Runs(s, steps) && Lapsed(s, c)
    ensures Lapsed(AfterAll(s, steps), c) && Powerless(AfterAll(s, steps), c)
    decreases |steps|
  {
    if steps != [] {
      LapsedIsStable(s, steps[0], c);
      LapsedForever(After(s, steps[0]), steps[1..], c);
    }
  }

  // ---------------------------------------------------------------- what a live connection does

  lemma ReachableIsConsistent(s: System, steps: seq<Step>)
    requires Init(s) && Runs(s, steps)
    ensures Consistent(AfterAll(s, steps).tables)
  {
    SystemRunsTransactions(s, steps);
    ExecConsistent(Transactions(s, steps), |Transactions(s, steps)|);
  }

  /** The connection holds its station's session, unexpired. */
  predicate Live(s: System, c: string) {
    c in s.peers && Holds(s.tables, s.clock, s.peers[c].station, c)
  }

  /** The lease of the connection's station now ends fifteen seconds from now; nothing else has changed. */
  predicate Renewed(s: System, after: System, c: string)
    requires Live(s, c)
  {
    var station := s.peers[c].station;
    after == s.(tables := s.tables.(
      sessions := s.tables.sessions[station := s.tables.sessions[station].(expiresAt := s.clock + 15 * 1_000_000)]))
  }

  /** In every reachable state a presence message of a live connection renews its lease, and the read loop goes on. */
  lemma PresenceRenews(s: System, steps: seq<Step>, c: string)
    requires Init(s) && Runs(s, steps) && At(AfterAll(s, steps), c, Reading) && Live(AfterAll(s, steps), c)
    ensures var now := AfterAll(s, steps); var after := After(now, Presence(c, Answered));
      Renewed(now, after, c) && At(after, c, Reading) && Live(after, c)
  {
    ReachableIsConsistent(s, steps);
    var now := AfterAll(s, steps);
    RenewImpliesAuthority(now.tables, now.clock, now.peers[c].station, c);
    RenewedSession(now.tables, now.clock, now.peers[c].station, c);
  }

  /** And so does a tick of its write loop, which goes on too. */
  lemma TickRenews(s: System, steps: seq<Step>, c: string)
    requires Init(s) && Runs(s, steps) && Live(AfterAll(s, steps), c) && AfterAll(s, steps).peers[c].writer == Running
    ensures var now := AfterAll(s, steps); var after := After(now, WriterTick(c, Answered));
      Renewed(now, after, c) && after.peers[c].writer == Running && Live(after, c)
  {
    ReachableIsConsistent(s, steps);
    var now := AfterAll(s, steps);
    RenewImpliesAuthority(now.tables, now.clock, now.peers[c].station, c);
    RenewedSession(now.tables, now.clock, now.peers[c].station, c);
  }

  /** An answered claim succeeds exactly with a key that opens the station, and then records this client for fifteen seconds. */
  lemma ClaimSucceedsIff(s: System, c: string, secret: string, protocolVersion: int, version: string)
    requires At(s, c, Claiming)
    ensures var station := s.peers[c].station;
      var after := After(s, Claim(c, HashSecret(secret), protocolVersion, version, Answered));
      if c != "" && Opens(s.tables, station, secret) then
        && after.peers == s.peers[c := s.peers[c].(pc := Registering, claimed := true)]
        && station in after.tables.sessions && station !in after.tables.rejections
        && after.tables.sessions[station] ==
             Session(c, HashSecret(secret), protocolVersion, version, s.clock + 15 * 1_000_000)
      else after.tables == s.tables && after.peers[c].pc == Returned && after.peers[c].closeRequested
  {
  }

  /** Once its read loop has ended, nothing takes a connection on to its cleanup before its write loop has stopped too. */
  lemma CleanupWaits(s: System, step: Step, c: string)
    requires Enabled(s, step) && c in s.peers && s.peers[c].pc == Draining
    ensures c in After(s, step).peers
    ensures After(s, step).peers[c].pc != Draining ==> step == Drain(c) && s.peers[c].writer == Stopped
  {
    if Subject(step) != Some(c) {
      PeersFrame(s, step, c);
    }
  }

  /** On an open hub a claimed connection is filed under its station, and the one it replaces is about to be closed. */
  lemma RegisterJoins(s: System, c: string)
    requires At(s, c, Registering)
    ensures var h := s.peers[c].hub; var station := s.peers[c].station; var after := After(s, Register(c));
      if s.hubs[h].closed then after.hubs == s.hubs && At(after, c, Releasing)
      else At(after, c, Greeting) && InMap(after, c)
           && (station in s.hubs[h].conns ==> s.hubs[h].conns[station] in after.closing)
           && forall other :: other in s.hubs[h].conns && other != station ==>
                other in after.hubs[h].conns && after.hubs[h].conns[other] == s.hubs[h].conns[other]
  {
  }

  lemma {:induction false} RunsOn(s: System, steps: seq<Step>, step: Step)
    requires Runs(s, steps) && Enabled(AfterAll(s, steps), step)
    ensures Runs(s, steps + [step]) && AfterAll(s, steps + [step]) == After(AfterAll(s, steps), step)
    decreases |steps|
  {
    if steps == [] {
      assert (steps + [step])[1..] == [];
    } else {
      assert (steps + [step])[1..] == steps[1..] + [step];
      RunsOn(After(s, steps[0]), steps[1..], step);
    }
  }

  /** One more step. */
  lemma Continue(s: System, steps: seq<Step>, step: Step) returns (longer: seq<Step>)
    requires Runs(s, steps) && Enabled(AfterAll(s, steps), step)
    ensures longer == steps + [step] && Runs(s, longer) && AfterAll(s, longer) == After(AfterAll(s, steps), step)
  {
    RunsOn(s, steps, step);
    longer := steps + [step];
  }

  /** Served: reading and writing, filed in its hub, and holding its station's session. */
  predicate Served(s: System, c: string) {
    At(s, c, Reading) && s.peers[c].writer == Running && !s.peers[c].closeRequested && InMap(s, c) && Live(s, c)
  }

  /** The first half: accepted and claimed, with the session row in place. */
  lemma ServingClaims(s: System, c: string, h: nat, station: int, secret: string) returns (steps: seq<Step>)
    requires h in s.hubs && c !in s.peers && c != "" && Opens(s.tables, station, secret)
    ensures steps == [Serve(c, h, station), Claim(c, HashSecret(secret), 1, "", Answered)] && Runs(s, steps)
    ensures var now := AfterAll(s, steps);
      && At(now, c, Registering) && now.hubs == s.hubs && now.clock == s.clock && Live(now, c)
      && now.peers[c] == Peer(h, station, Registering, NotStarted, false, true, 0, false)
  {
    steps := Continue(s, [], Serve(c, h, station));
    ClaimSucceedsIff(AfterAll(s, steps), c, secret, 1, "");
    steps := Continue(s, steps, Claim(c, HashSecret(secret), 1, "", Answered));
  }

  /** On an open hub, a new connection presenting a key that opens its station comes to be served, and the station shows online. */
  lemma ServingBegins(s: System, c: string, h: nat, station: int, secret: string) returns (steps: seq<Step>)
    requires h in s.hubs && !s.hubs[h].closed && c !in s.peers && c != "" && Opens(s.tables, station, secret)
    ensures steps == [Serve(c, h, station), Claim(c, HashSecret(secret), 1, "", Answered), Register(c), Greet(c, true)]
    ensures Runs(s, steps) && Served(AfterAll(s, steps), c)
    ensures AfterAll(s, steps).peers[c].station == station && AfterAll(s, steps).peers[c].hub == h
    ensures StateAt(AfterAll(s, steps).tables, AfterAll(s, steps).clock, station) == Online
  {
    steps := ServingClaims(s, c, h, station, secret);
    RegisterJoins(AfterAll(s, steps), c);
    steps := Continue(s, steps, Register(c));
    steps := Continue(s, steps, Greet(c, true));
  }

  /** Up to its cleanup the failing connection changes nothing but itself. */
  lemma ServingStops(s: System, c: string) returns (steps: seq<Step>)
    requires Served(s, c)
    ensures steps == [ReadFails(c), WriterStops(c), Drain(c)] && Runs(s, steps)
    ensures AfterAll(s, steps) == s.(peers := s.peers[c := s.peers[c].(pc := Unregistering, writer := Stopped)])
  {
    steps := Continue(s, [], ReadFails(c));
    steps := Continue(s, steps, WriterStops(c));
    steps := Continue(s, steps, Drain(c));
  }

  /** When its socket fails, a served connection leaves its hub, gives its session back and has returned; the station has neither. */
  lemma ServingEnds(s: System, c: string) returns (steps: seq<Step>)
    requires Served(s, c)
    ensures steps == [ReadFails(c), WriterStops(c), Drain(c), Unregister(c), Release(c, Answered)]
    ensures Runs(s, steps)
    ensures var now := AfterAll(s, steps);
      c in now.peers && now.peers[c].hub in now.hubs &&
      var p := now.peers[c];
      && p.pc == Returned && p.released && p.hub == s.peers[c].hub && p.station == s.peers[c].station
      && p.station !in now.hubs[p.hub].conns && p.station !in now.tables.sessions
      && now.tables.stations == s.tables.stations && now.tables.rejections == s.tables.rejections
  {
    steps := ServingStops(s, c);
    steps := Continue(s, steps, Unregister(c));
    steps := Continue(s, steps, Release(c, Answered));
  }

  /** The queries a connection makes. */
  datatype Query = Claims(hash: SecretHash, protocolVersion: int, version: string) | Presents | Ticks | Gives

  function Making(q: Query, c: string, answer: Answer): Step {
    match q
    case Claims(hash, protocolVersion, version) => HubSystem.Claim(c, hash, protocolVersion, version, answer)
    case Presents => Presence(c, answer)
    case Ticks => WriterTick(c, answer)
    case Gives => HubSystem.Release(c, answer)
  }

  /** Without an answer the claim, the read loop or the write loop is over, and the release does not count as one. */
  predicate Ended(q: Query, p: Peer) {
    match q
    case Claims(_, _, _) => p.pc == Returned && !p.claimed
    case Presents => p.pc == Draining && p.closeRequested
    case Ticks => p.writer == Stopped
    case Gives => p.pc == Returned && !p.released
  }

  /** A query whose answer is lost has run as if it had been answered; one that did not run changes no table; both end alike. */
  lemma LostHasRun(s: System, c: string, q: Query)
    requires Enabled(s, Making(q, c, Lost)) && PeerOk(s, c)
    ensures Enabled(s, Making(q, c, Answered)) && Enabled(s, Making(q, c, NotRun))
    ensures After(s, Making(q, c, Lost)).tables == After(s, Making(q, c, Answered)).tables
    ensures After(s, Making(q, c, NotRun)).tables == s.tables
    ensures Ended(q, After(s, Making(q, c, Lost)).peers[c]) && Ended(q, After(s, Making(q, c, NotRun)).peers[c])
  {
  }

  /** Administration reaches the tables and the hub: each step does what its name says, and no more. */
  lemma AdministrationActs(s: System, op: Op, h: nat, station: int, c: string)
    ensures Enabled(s, Administer(op)) ==>
      After(s, Administer(op)) == s.(tables := Commit(s.tables, s.clock, op))
    ensures h in s.hubs ==>
      var after := After(s, Disconnect(h, station));
      && station !in after.hubs[h].conns && after.tables == s.tables && after.peers == s.peers
      && (station in s.hubs[h].conns ==> s.hubs[h].conns[station] in after.closing)
    ensures h in s.hubs ==>
      var after := After(s, CloseHub(h));
      && after.hubs[h].closed && after.hubs[h].conns == map[]
      && (station in s.hubs[h].conns ==> s.hubs[h].conns[station] in after.closing)
    ensures h !in s.hubs ==>
      var after := After(s, StartHub(h)); h in after.hubs && !after.hubs[h].closed && after.hubs[h].conns == map[]
    ensures c in s.peers ==>
      After(s, CloseSocket(c)).peers[c] == s.peers[c].(closeRequested := true) && c !in After(s, CloseSocket(c)).closing
    ensures forall now :: s.clock <= now ==> After(s, Elapse(now)) == s.(clock := now)
  {
    if h in s.hubs && station in s.hubs[h].conns {
      assert s.hubs[h].conns[station] in s.hubs[h].conns.Values;
    }
  }
}
