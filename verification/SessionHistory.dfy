/**
 What the statement-level interleavings of SessionLocks amount to: the tables
 they leave are those of their committed transactions run one after the other in
 commit order, and the status a Station shows follows from that history alone.
 Commit order need not be the order of the transactions' own times.
 */
module SessionHistory {
  import opened StationRuns
  import opened StationTables
  import opened Wrappers
  import Locks = SessionLocks

  /** A commit: the transaction, its own now(), the time of the commit, and whether it was a claim that missed a rejection. */
  datatype Entry = Entry(event: Event, committed: int, missed: bool)

  type Log = seq<Entry>

  function Apply(t: Tables, e: Entry): Tables {
    var after := Commit(t, e.event.at, e.event.op);
    if e.missed then after.(rejections := t.rejections) else after
  }

  /** The tables after the first `n` commits, each run as a whole. */
  function Replay(log: Log, n: nat): Tables
    requires n <= |log|
  {
    if n == 0 then EMPTY else Apply(Replay(log, n - 1), log[n - 1])
  }

  function Events(log: Log): Run {
    seq(|log|, i requires 0 <= i < |log| => log[i].event)
  }

  // ---------------------------------------------------------------- the log of a run

  ghost function Logged(db: Locks.Database, step: Locks.Step): Log
    requires Locks.Enabled(db, step)
  {
    match step
    case CreateStation(id, mutation, hash) => [Entry(Event(db.clock, OpCreate(id, mutation, hash)), db.clock, false)]
    case Finish(x) =>
      [Entry(Event(db.txns[x].start, Locks.OpOf(db.txns[x])), db.clock, Locks.MissesRejection(db.tables, db.txns[x]))]
    case _ => []
  }

  /** The commits of a run, in commit order. */
  ghost function Commits(db: Locks.Database, steps: seq<Locks.Step>): Log
    requires Locks.Runs(db, steps)
    decreases |steps|
  {
    if steps == [] then [] else Logged(db, steps[0]) + Commits(Locks.After(db, steps[0]), steps[1..])
  }

  function ReplayFrom(t: Tables, log: Log): Tables
    decreases |log|
  {
    if log == [] then t else ReplayFrom(Apply(t, log[0]), log[1..])
  }

  lemma {:induction false} ReplayFromTail(log: Log, k: nat)
    requires k <= |log|
    ensures ReplayFrom(Replay(log, k), log[k..]) == Replay(log, |log|)
    decreases |log| - k
  {
    if k < |log| {
      assert log[k..][1..] == log[k + 1..];
      ReplayFromTail(log, k + 1);
    }
  }

  lemma StepIsLogged(db: Locks.Database, step: Locks.Step)
    requires Locks.Inv(db) && Locks.Enabled(db, step)
    ensures Locks.After(db, step).tables == ReplayFrom(db.tables, Logged(db, step))
  {
    if step.Finish? {
      Locks.CommitIsAtomic(db, step.x);
    }
  }

  lemma {:induction false} RunIsLogged(db: Locks.Database, steps: seq<Locks.Step>)
    requires Locks.Inv(db) && Locks.Runs(db, steps)
    ensures Locks.AfterAll(db, steps).tables == ReplayFrom(db.tables, Commits(db, steps))
    decreases |steps|
  {
    if steps != [] {
      var first := Logged(db, steps[0]);
      var rest := Commits(Locks.After(db, steps[0]), steps[1..]);
      StepIsLogged(db, steps[0]);
      Locks.StepKeepsInv(db, steps[0]);
      RunIsLogged(Locks.After(db, steps[0]), steps[1..]);
      if first == [] {
        assert first + rest == rest;
      } else {
        assert (first + rest)[0] == first[0] && (first + rest)[1..] == rest;
      }
    }
  }

  /** However the statements interleave, the tables are those of the committed transactions run one after the other. */
  lemma TablesAreReplayed(db: Locks.Database, steps: seq<Locks.Step>)
    requires Locks.Init(db) && Locks.Runs(db, steps)
    ensures var log := Commits(db, steps); Locks.AfterAll(db, steps).tables == Replay(log, |log|)
  {
    Locks.InitInv(db);
    RunIsLogged(db, steps);
    var log := Commits(db, steps);
    ReplayFromTail(log, 0);
    assert log[0..] == log;
  }

  // ---------------------------------------------------------------- missed rejections touch rejections only

  predicate OnlyClaimsMiss(log: Log) {
    forall i :: 0 <= i < |log| && log[i].missed ==> log[i].event.op.OpClaim?
  }

  lemma {:induction false} OnlyClaimsMissInRuns(db: Locks.Database, steps: seq<Locks.Step>)
    requires Locks.Runs(db, steps)
    ensures OnlyClaimsMiss(Commits(db, steps))
    decreases |steps|
  {
    if steps != [] {
      OnlyClaimsMissInRuns(Locks.After(db, steps[0]), steps[1..]);
    }
  }

  predicate SameSessions(a: Tables, b: Tables) {
    a.stations == b.stations && a.sessions == b.sessions
  }

  /** Which transactions succeed, and what they do to stations and sessions, never depends on the rejections. */
  lemma RejectionsDoNotMatter(a: Tables, b: Tables, now: int, op: Op)
    requires SameSessions(a, b)
    ensures Perform(a, now, op).Success? <==> Perform(b, now, op).Success?
    ensures SameSessions(Commit(a, now, op), Commit(b, now, op))
  {
  }

  lemma {:induction false} ReplayHasSessions(log: Log, n: nat)
    requires n <= |log|
    ensures SameSessions(Replay(log, n), Exec(Events(log), n))
  {
    if n > 0 {
      ReplayHasSessions(log, n - 1);
      RejectionsDoNotMatter(Replay(log, n - 1), Exec(Events(log), n - 1), log[n - 1].event.at, log[n - 1].event.op);
    }
  }

  // ---------------------------------------------------------------- rejections

  /** Commit `i` takes the rejection row of a station away: a wipe, or a claim that did not miss it. */
  predicate Removes(log: Log, i: nat, id: int) {
    i < |log| && (Wiped(Events(log), i, id) || (AcceptedClaim(Events(log), i, id) && !log[i].missed))
  }

  /** The last rejection recorded, and nothing has removed it since. */
  ghost predicate Stands(log: Log, n: nat, i: nat, id: int) {
    && i < n <= |log| && AcceptedReject(Events(log), i, id)
    && forall j: nat :: i < j < n ==> !AcceptedReject(Events(log), j, id) && !Removes(log, j, id)
  }

  /** What one commit does to the rejection row of a station. */
  lemma ReplayRejectionStep(log: Log, n: nat, id: int)
    requires n < |log| && OnlyClaimsMiss(log)
    ensures var before := Replay(log, n).rejections; var after := Replay(log, n + 1).rejections;
      if AcceptedReject(Events(log), n, id) then
        id in after && after[id].expiresAt == log[n].event.at + REJECTION_TTL
      else if Removes(log, n, id) then id !in after
      else (id in after <==> id in before) && (id in before ==> after[id] == before[id])
  {
    var t, e := Replay(log, n), log[n].event;
    ReplayHasSessions(log, n);
    RejectionsDoNotMatter(t, Exec(Events(log), n), e.at, e.op);
    if e.op.id != id {
      CommitFrame(t, e.at, e.op, id);
      assert RowsOf(Commit(t, e.at, e.op), id).2 == RowsOf(t, id).2;
    }
  }

  lemma StandsNext(log: Log, n: nat, i: nat, id: int)
    requires n < |log| && Stands(log, n, i, id) && !AcceptedReject(Events(log), n, id) && !Removes(log, n, id)
    ensures Stands(log, n + 1, i, id)
  {
  }

  lemma LatestStands(log: Log, n: nat, id: int)
    requires n < |log| && AcceptedReject(Events(log), n, id)
    ensures Stands(log, n + 1, n, id)
  {
  }

  /** A rejection row comes from a rejection that stands, and expires five minutes after it. */
  lemma {:induction false} RejectionHasCommit(log: Log, n: nat, id: int) returns (i: nat)
    requires n <= |log| && OnlyClaimsMiss(log) && id in Replay(log, n).rejections
    ensures Stands(log, n, i, id) && Replay(log, n).rejections[id].expiresAt == log[i].event.at + REJECTION_TTL
  {
    ReplayRejectionStep(log, n - 1, id);
    if AcceptedReject(Events(log), n - 1, id) {
      i := n - 1;
      LatestStands(log, n - 1, id);
    } else {
      i := RejectionHasCommit(log, n - 1, id);
      StandsNext(log, n - 1, i, id);
    }
  }

  lemma {:induction false} StandingIsKept(log: Log, n: nat, id: int, i: nat)
    requires OnlyClaimsMiss(log) && Stands(log, n, i, id)
    ensures id in Replay(log, n).rejections
    ensures Replay(log, n).rejections[id].expiresAt == log[i].event.at + REJECTION_TTL
  {
    ReplayRejectionStep(log, n - 1, id);
    if i < n - 1 {
      StandingIsKept(log, n - 1, id, i);
    }
  }

  // ---------------------------------------------------------------- status

  /** The timely renewals since a claim that nothing ended keep the session alive until `now`. */
  ghost predicate Alive(run: Run, id: int, now: int) {
    exists connection, beats ::
      Heartbeats(run, |run|, id, connection, beats) && Exhaustive(run, |run|, id, connection, beats)
      && now < LastBeat(run, beats) + SESSION_TTL
  }

  /**
   After any interleaving of statements a station shows online exactly when its
   committed history keeps a claim alive, and incompatible exactly when it is not
   online and a rejection under five minutes old stands.
   */
  lemma StatusOfHistory(db: Locks.Database, steps: seq<Locks.Step>, id: int, now: int)
    requires Locks.Init(db) && Locks.Runs(db, steps)
    ensures var log := Commits(db, steps); var state := StateAt(Locks.AfterAll(db, steps).tables, now, id);
      && (state == Online <==> Alive(Events(log), id, now))
      && (state == Incompatible <==>
            !Alive(Events(log), id, now)
            && exists i: nat :: Stands(log, |log|, i, id) && now < log[i].event.at + REJECTION_TTL)
  {
    var log := Commits(db, steps);
    TablesAreReplayed(db, steps);
    OnlyClaimsMissInRuns(db, steps);
    ReplayHasSessions(log, |log|);
    OnlineIffBeats(Events(log), id, now);
    if id in Replay(log, |log|).rejections {
      var i := RejectionHasCommit(log, |log|, id);
    }
    forall i: nat | Stands(log, |log|, i, id)
      ensures id in Replay(log, |log|).rejections
              && Replay(log, |log|).rejections[id].expiresAt == log[i].event.at + REJECTION_TTL
    {
      StandingIsKept(log, |log|, id, i);
    }
  }

  // ---------------------------------------------------------------- continuity

  /** A run taken in two parts. */
  lemma {:induction false} Split(db: Locks.Database, some: seq<Locks.Step>, rest: seq<Locks.Step>)
    requires Locks.Runs(db, some + rest)
    ensures Locks.Runs(db, some) && Locks.Runs(Locks.AfterAll(db, some), rest)
    ensures Locks.AfterAll(db, some + rest) == Locks.AfterAll(Locks.AfterAll(db, some), rest)
    ensures Commits(db, some + rest) == Commits(db, some) + Commits(Locks.AfterAll(db, some), rest)
    decreases |some|
  {
    if some == [] {
      assert some + rest == rest;
      assert [] + Commits(db, rest) == Commits(db, rest);
    } else {
      assert (some + rest)[0] == some[0] && (some + rest)[1..] == some[1..] + rest;
      Split(Locks.After(db, some[0]), some[1..], rest);
      Joined(Logged(db, some[0]), Commits(Locks.After(db, some[0]), some[1..]), Commits(Locks.AfterAll(db, some), rest));
    }
  }

  lemma Joined(a: Log, b: Log, c: Log)
    ensures a + (b + c) == a + b + c
  {
  }

  /** Commits happen at clock times of the run, and the clock only moves on. */
  lemma {:induction false} CommittedWithin(db: Locks.Database, steps: seq<Locks.Step>)
    requires Locks.Runs(db, steps)
    ensures db.clock <= Locks.AfterAll(db, steps).clock
    ensures forall i :: 0 <= i < |Commits(db, steps)| ==>
      db.clock <= Commits(db, steps)[i].committed <= Locks.AfterAll(db, steps).clock
    decreases |steps|
  {
    if steps != [] {
      CommittedWithin(Locks.After(db, steps[0]), steps[1..]);
    }
  }

  /** The state just before the i-th commit. */
  lemma {:induction false} CommitPoint(db: Locks.Database, steps: seq<Locks.Step>, i: nat) returns (s: nat)
    requires Locks.Runs(db, steps) && i < |Commits(db, steps)|
    ensures s <= |steps| && Locks.Runs(db, steps[..s])
    ensures |Commits(db, steps[..s])| == i
    ensures Locks.AfterAll(db, steps[..s]).clock == Commits(db, steps)[i].committed
    decreases |steps|
  {
    var n := |Logged(db, steps[0])|;
    if i < n {
      s := 0;
    } else {
      var t := CommitPoint(Locks.After(db, steps[0]), steps[1..], i - n);
      s := t + 1;
      assert steps[..s][0] == steps[0] && steps[..s][1..] == steps[1..][..t];
    }
  }

  /** What the first `s` steps have committed and left, seen from the whole run. */
  lemma PointOf(db: Locks.Database, steps: seq<Locks.Step>, s: nat)
    requires Locks.Init(db) && Locks.Runs(db, steps) && s <= |steps|
    ensures Locks.Runs(db, steps[..s])
    ensures var now := Locks.AfterAll(db, steps[..s]); var log := Commits(db, steps); var n := |Commits(db, steps[..s])|;
      && n <= |log| && now.clock <= Locks.AfterAll(db, steps).clock
      && (forall i :: n <= i < |log| ==> now.clock <= log[i].committed)
      && SameSessions(now.tables, Exec(Events(log), n))
  {
    assert steps == steps[..s] + steps[s..];
    Split(db, steps[..s], steps[s..]);
    CommittedWithin(Locks.AfterAll(db, steps[..s]), steps[s..]);
    var some := Commits(db, steps[..s]);
    TablesAreReplayed(db, steps[..s]);
    ReplayHasSessions(some, |some|);
    ExecPrefix(Events(some), Events(Commits(db, steps)), |some|);
  }

  ghost predicate OnlineAfter(db: Locks.Database, steps: seq<Locks.Step>, id: int)
    requires Locks.Runs(db, steps)
  {
    StateAt(Locks.AfterAll(db, steps).tables, Locks.AfterAll(db, steps).clock, id) == Online
  }

  /** In every state of the run after commit `first`; each prefix of a run is itself a run, by PointOf. */
  ghost predicate StaysOnline(db: Locks.Database, steps: seq<Locks.Step>, id: int, first: nat) {
    forall s: nat :: s <= |steps| && Locks.Runs(db, steps[..s]) && first < |Commits(db, steps[..s])| ==>
      OnlineAfter(db, steps[..s], id)
  }

  /** Every renewal commits before the lease of the one before it runs out. */
  predicate CommittedInTime(log: Log, beats: seq<nat>)
    requires forall k :: 0 <= k < |beats| ==> beats[k] < |log|
  {
    forall k :: 1 <= k < |beats| ==> log[beats[k]].committed < log[beats[k - 1]].event.at + SESSION_TTL
  }

  /** At one state: online exactly while the lease of the last committed beat runs. */
  lemma OnlineAtPoint(
    db: Locks.Database, steps: seq<Locks.Step>, s: nat, id: int, connection: string, beats: seq<nat>, m: nat)
    requires Locks.Init(db) && Locks.Runs(db, steps) && s <= |steps| && Locks.Runs(db, steps[..s])
    requires var run := Events(Commits(db, steps)); var n := |Commits(db, steps[..s])|;
      && Heartbeats(run, |run|, id, connection, beats) && Exhaustive(run, |run|, id, connection, beats)
      && 0 < m <= |beats| && beats[m - 1] < n && (m < |beats| ==> n <= beats[m])
    ensures OnlineAfter(db, steps[..s], id) <==>
      Locks.AfterAll(db, steps[..s]).clock < Commits(db, steps)[beats[m - 1]].event.at + SESSION_TTL
  {
    PointOf(db, steps, s);
    HeldSinceBeat(Events(Commits(db, steps)), id, connection, beats, m, |Commits(db, steps[..s])|);
  }

  /**
   A station is online in every state from its claim to the end of the run exactly
   when each timely renewal also commits before the lease of the one before it
   runs out, and the last lease reaches the end: being timely is not enough.
   */
  lemma StaysOnlineIff(db: Locks.Database, steps: seq<Locks.Step>, id: int, connection: string, beats: seq<nat>)
    requires Locks.Init(db) && Locks.Runs(db, steps)
    requires var run := Events(Commits(db, steps));
      Heartbeats(run, |run|, id, connection, beats) && Exhaustive(run, |run|, id, connection, beats)
    ensures var log := Commits(db, steps);
      StaysOnline(db, steps, id, beats[0]) <==>
        CommittedInTime(log, beats)
        && Locks.AfterAll(db, steps).clock < LastBeat(Events(log), beats) + SESSION_TTL
  {
    if StaysOnline(db, steps, id, beats[0]) {
      forall k | 1 <= k < |beats|
        ensures Commits(db, steps)[beats[k]].committed < Commits(db, steps)[beats[k - 1]].event.at + SESSION_TTL
      {
        OnlineBeforeBeat(db, steps, id, connection, beats, k);
      }
      OnlineAtEnd(db, steps, id, connection, beats);
    }
    if CommittedInTime(Commits(db, steps), beats)
       && Locks.AfterAll(db, steps).clock < LastBeat(Events(Commits(db, steps)), beats) + SESSION_TTL {
      InTimeMeansOnline(db, steps, id, connection, beats);
    }
  }

  lemma OnlineBeforeBeat(
    db: Locks.Database, steps: seq<Locks.Step>, id: int, connection: string, beats: seq<nat>, k: nat)
    requires Locks.Init(db) && Locks.Runs(db, steps)
    requires var run := Events(Commits(db, steps));
      Heartbeats(run, |run|, id, connection, beats) && Exhaustive(run, |run|, id, connection, beats)
    requires StaysOnline(db, steps, id, beats[0]) && 1 <= k < |beats|
    ensures var log := Commits(db, steps); log[beats[k]].committed < log[beats[k - 1]].event.at + SESSION_TTL
  {
    var s := CommitPoint(db, steps, beats[k]);
    FirstBeatIsEarliest(Events(Commits(db, steps)), id, connection, beats, k);
    OnlineAtPoint(db, steps, s, id, connection, beats, k);
  }

  lemma OnlineAtEnd(db: Locks.Database, steps: seq<Locks.Step>, id: int, connection: string, beats: seq<nat>)
    requires Locks.Init(db) && Locks.Runs(db, steps)
    requires var run := Events(Commits(db, steps));
      Heartbeats(run, |run|, id, connection, beats) && Exhaustive(run, |run|, id, connection, beats)
    requires StaysOnline(db, steps, id, beats[0])
    ensures Locks.AfterAll(db, steps).clock < LastBeat(Events(Commits(db, steps)), beats) + SESSION_TTL
  {
    BeatsWithin(Events(Commits(db, steps)), |Commits(db, steps)|, id, connection, beats, |beats| - 1);
    assert steps[..|steps|] == steps;
    OnlineAtPoint(db, steps, |steps|, id, connection, beats, |beats|);
  }

  lemma InTimeMeansOnline(db: Locks.Database, steps: seq<Locks.Step>, id: int, connection: string, beats: seq<nat>)
    requires Locks.Init(db) && Locks.Runs(db, steps)
    requires var run := Events(Commits(db, steps));
      Heartbeats(run, |run|, id, connection, beats) && Exhaustive(run, |run|, id, connection, beats)
    requires CommittedInTime(Commits(db, steps), beats)
    requires Locks.AfterAll(db, steps).clock < LastBeat(Events(Commits(db, steps)), beats) + SESSION_TTL
    ensures StaysOnline(db, steps, id, beats[0])
  {
    var log := Commits(db, steps);
    forall s: nat | s <= |steps| && Locks.Runs(db, steps[..s]) && beats[0] < |Commits(db, steps[..s])|
      ensures OnlineAfter(db, steps[..s], id)
    {
      var n := |Commits(db, steps[..s])|;
      PointOf(db, steps, s);
      var m := BeatsBefore(Events(log), id, connection, beats, n);
      OnlineAtPoint(db, steps, s, id, connection, beats, m);
      if m < |beats| {
        assert log[beats[m]].committed < log[beats[m - 1]].event.at + SESSION_TTL;
      }
    }
  }

  /** When no claim misses a rejection, the run is a run of atomic transactions. */
  lemma {:induction false} NothingMissed(log: Log, n: nat)
    requires n <= |log| && forall i :: 0 <= i < |log| ==> !log[i].missed
    ensures Replay(log, n) == Exec(Events(log), n)
  {
    if n > 0 {
      NothingMissed(log, n - 1);
    }
  }
}
