/**
 Whole runs of store transactions. What the station list shows and who may
 renew are characterised by the history of the run alone: which claims and
 rejections were accepted, and which heartbeats followed in time.
 */
module StationRuns {
  import opened StationTables
  import opened Wrappers

  /** One transaction and the database time it ran at. */
  datatype Event = Event(at: int, op: Op)

  type Run = seq<Event>

  predicate Timed(run: Run) {
    forall i, j :: 0 <= i <= j < |run| ==> run[i].at <= run[j].at
  }

  /** The tables after the first `n` events. */
  function Exec(run: Run, n: nat): Tables
    requires n <= |run|
  {
    if n == 0 then EMPTY else Commit(Exec(run, n - 1), run[n - 1].at, run[n - 1].op)
  }

  predicate Accepted(run: Run, i: nat)
    requires i < |run|
  {
    Perform(Exec(run, i), run[i].at, run[i].op).Success?
  }

  lemma {:induction false} ExecConsistent(run: Run, n: nat)
    requires n <= |run|
    ensures Consistent(Exec(run, n))
  {
    if n == 0 {
      forall id ensures RowsCurrent(EMPTY, id) {
      }
    } else {
      ExecConsistent(run, n - 1);
      CommitKeepsConsistent(Exec(run, n - 1), run[n - 1].at, run[n - 1].op);
    }
  }

  function ExecFrom(t: Tables, run: Run): Tables
    decreases |run|
  {
    if run == [] then t else ExecFrom(Commit(t, run[0].at, run[0].op), run[1..])
  }

  lemma {:induction false} ExecFromTail(run: Run, k: nat)
    requires k <= |run|
    ensures ExecFrom(Exec(run, k), run[k..]) == Exec(run, |run|)
    decreases |run| - k
  {
    if k < |run| {
      assert run[k..][1..] == run[k + 1..];
      ExecFromTail(run, k + 1);
    }
  }

  // ---------------------------------------------------------------- histories

  predicate AcceptedClaim(run: Run, i: nat, id: int) {
    i < |run| && run[i].op.OpClaim? && run[i].op.id == id && Accepted(run, i)
  }

  predicate AcceptedReject(run: Run, i: nat, id: int) {
    i < |run| && run[i].op.OpReject? && run[i].op.id == id && Accepted(run, i)
  }

  /** Disabling, rotating the key of and deleting a station wipe its client rows. */
  predicate Wiped(run: Run, i: nat, id: int) {
    i < |run| && run[i].op.id == id && Accepted(run, i)
    && (run[i].op.OpRotate? || run[i].op.OpDelete? || (run[i].op.OpUpdate? && !run[i].op.mutation.enabled))
  }

  /** Event `i` takes the session of `connection` away from it. */
  predicate Ends(run: Run, i: nat, id: int, connection: string) {
    AcceptedClaim(run, i, id)
    || Wiped(run, i, id)
    || (i < |run| && run[i].op == OpRelease(id, connection))
  }

  /** No event from `from` up to `n` takes the session of `connection` away. */
  ghost predicate Unended(run: Run, from: nat, n: nat, id: int, connection: string) {
    forall j: nat :: from <= j < n ==> !Ends(run, j, id, connection)
  }

  /** No event from `from` up to `n` removes the rejection row. */
  ghost predicate Unremoved(run: Run, from: nat, n: nat, id: int) {
    forall j: nat :: from <= j < n ==> !AcceptedClaim(run, j, id) && !Wiped(run, j, id)
  }

  /** Renewals at increasing positions, each under SESSION_TTL after the one before. */
  ghost predicate Beating(run: Run, id: int, connection: string, beats: seq<nat>) {
    && (forall k :: 0 <= k < |beats| ==> beats[k] < |run|)
    && (forall k :: 1 <= k < |beats| ==>
          && beats[k - 1] < beats[k]
          && run[beats[k]].op == OpRenew(id, connection)
          && run[beats[k]].at < run[beats[k - 1]].at + SESSION_TTL)
  }

  /** Within the first `n` events: an accepted claim that nothing ended, then timely renewals. */
  ghost predicate Heartbeats(run: Run, n: nat, id: int, connection: string, beats: seq<nat>) {
    && n <= |run| && beats != [] && beats[|beats| - 1] < n
    && Beating(run, id, connection, beats)
    && AcceptedClaim(run, beats[0], id) && run[beats[0]].op.connection == connection
    && Unended(run, beats[0] + 1, n, id, connection)
  }

  /** No other renewal of the connection would have been in time: the beats are all the accepted ones. */
  ghost predicate Exhaustive(run: Run, n: nat, id: int, connection: string, beats: seq<nat>)
    requires forall k :: 0 <= k < |beats| ==> beats[k] < |run|
  {
    forall k, j: nat :: 0 <= k < |beats| && Between(beats, k, n, j) && j < |run| && run[j].op == OpRenew(id, connection) ==>
      run[beats[k]].at + SESSION_TTL <= run[j].at
  }

  /** Position `j` lies after beat `k` and before the next one, or before `n`. */
  predicate Between(beats: seq<nat>, k: nat, n: nat, j: nat)
    requires k < |beats|
  {
    beats[k] < j < if k + 1 < |beats| then beats[k + 1] else n
  }

  ghost function LastBeat(run: Run, beats: seq<nat>): int
    requires beats != [] && beats[|beats| - 1] < |run|
  {
    run[beats[|beats| - 1]].at
  }

  /** Rejection `i` was accepted, is younger than REJECTION_TTL, and no later claim or wipe removed it. */
  ghost predicate RejectionStands(run: Run, n: nat, i: nat, id: int, now: int) {
    && i < n <= |run|
    && AcceptedReject(run, i, id)
    && now < run[i].at + REJECTION_TTL
    && Unremoved(run, i + 1, n, id)
  }

  // ---------------------------------------------------------------- online

  /** What one event does to the session row of a station. */
  lemma SessionStep(run: Run, n: nat, id: int)
    requires n < |run|
    ensures var before := Exec(run, n); var after := Exec(run, n + 1);
      if AcceptedClaim(run, n, id) then
        id in after.sessions && after.sessions[id].connection == run[n].op.connection
        && after.sessions[id].expiresAt == run[n].at + SESSION_TTL
      else if id in before.sessions then
        var connection := before.sessions[id].connection;
        if Ends(run, n, id, connection) then id !in after.sessions
        else id in after.sessions && after.sessions[id].connection == connection
             && after.sessions[id].expiresAt ==
                (if run[n].op == OpRenew(id, connection) && Accepted(run, n) then run[n].at + SESSION_TTL
                 else before.sessions[id].expiresAt)
      else id !in after.sessions
  {
    if run[n].op.id != id {
      CommitFrame(Exec(run, n), run[n].at, run[n].op, id);
      assert RowsOf(Exec(run, n + 1), id).1 == RowsOf(Exec(run, n), id).1;
    }
  }

  lemma {:induction false} FirstBeatIsEarliest(run: Run, id: int, connection: string, beats: seq<nat>, k: nat)
    requires Beating(run, id, connection, beats) && k < |beats|
    ensures beats[0] <= beats[k] && (0 < k ==> beats[0] < beats[k])
  {
    if 0 < k {
      FirstBeatIsEarliest(run, id, connection, beats, k - 1);
    }
  }

  lemma BeatingGrows(run: Run, id: int, connection: string, beats: seq<nat>, n: nat)
    requires Beating(run, id, connection, beats) && beats != [] && beats[|beats| - 1] < n < |run|
    requires run[n].op == OpRenew(id, connection) && run[n].at < LastBeat(run, beats) + SESSION_TTL
    ensures Beating(run, id, connection, beats + [n])
  {
    var all := beats + [n];
    forall k | 1 <= k < |all|
      ensures all[k - 1] < all[k] && run[all[k]].op == OpRenew(id, connection)
              && run[all[k]].at < run[all[k - 1]].at + SESSION_TTL
    {
      if k < |beats| {
        assert all[k] == beats[k] && all[k - 1] == beats[k - 1];
      }
    }
  }

  lemma ExhaustiveGrows(run: Run, n: nat, id: int, connection: string, beats: seq<nat>)
    requires (forall k :: 0 <= k < |beats| ==> beats[k] < |run|) && beats != [] && beats[|beats| - 1] < n < |run|
    requires Exhaustive(run, n, id, connection, beats)
    ensures Exhaustive(run, n + 1, id, connection, beats + [n])
    ensures !(run[n].op == OpRenew(id, connection) && run[n].at < LastBeat(run, beats) + SESSION_TTL) ==>
      Exhaustive(run, n + 1, id, connection, beats)
  {
    var all := beats + [n];
    forall k, j: nat | 0 <= k < |all| && Between(all, k, n + 1, j) && j < |run| && run[j].op == OpRenew(id, connection)
      ensures run[all[k]].at + SESSION_TTL <= run[j].at
    {
      assert k < |beats| && Between(beats, k, n, j);
    }
    if !(run[n].op == OpRenew(id, connection) && run[n].at < LastBeat(run, beats) + SESSION_TTL) {
      forall k, j: nat | 0 <= k < |beats| && Between(beats, k, n + 1, j) && j < |run| && run[j].op == OpRenew(id, connection)
        ensures run[beats[k]].at + SESSION_TTL <= run[j].at
      {
        assert j == n || Between(beats, k, n, j);
      }
    }
  }

  /** A renewal of the holder is accepted exactly while its lease runs. */
  lemma RenewalAccepted(run: Run, n: nat, id: int)
    requires n < |run| && id in Exec(run, n).sessions
    requires run[n].op == OpRenew(id, Exec(run, n).sessions[id].connection)
    ensures Accepted(run, n) <==> run[n].at < Exec(run, n).sessions[id].expiresAt
  {
    ExecConsistent(run, n);
    RenewImpliesAuthority(Exec(run, n), run[n].at, id, Exec(run, n).sessions[id].connection);
  }

  /** A row that outlives an event which is not a claim: whose it was, and what the event did to its lease. */
  lemma SessionBefore(run: Run, n: nat, id: int)
    requires n < |run| && id in Exec(run, n + 1).sessions && !AcceptedClaim(run, n, id)
    ensures id in Exec(run, n).sessions
    ensures var before := Exec(run, n).sessions[id]; var after := Exec(run, n + 1).sessions[id];
      && after.connection == before.connection && !Ends(run, n, id, before.connection)
      && after.expiresAt ==
         (if run[n].op == OpRenew(id, before.connection) && run[n].at < before.expiresAt then run[n].at + SESSION_TTL
          else before.expiresAt)
  {
    SessionStep(run, n, id);
    if run[n].op == OpRenew(id, Exec(run, n).sessions[id].connection) {
      RenewalAccepted(run, n, id);
    }
  }

  lemma HeartbeatsGrow(run: Run, n: nat, id: int, connection: string, beats: seq<nat>)
    requires Heartbeats(run, n, id, connection, beats) && n < |run| && !Ends(run, n, id, connection)
    ensures Heartbeats(run, n + 1, id, connection, beats)
    ensures run[n].op == OpRenew(id, connection) && run[n].at < LastBeat(run, beats) + SESSION_TTL ==>
      Heartbeats(run, n + 1, id, connection, beats + [n])
  {
    if run[n].op == OpRenew(id, connection) && run[n].at < LastBeat(run, beats) + SESSION_TTL {
      BeatingGrows(run, id, connection, beats, n);
      assert (beats + [n])[0] == beats[0];
    }
  }

  /** Every session row comes from a heartbeat history, and its lease runs from the last beat. */
  lemma {:induction false} SessionHasHeartbeats(run: Run, n: nat, id: int) returns (beats: seq<nat>)
    requires n <= |run| && id in Exec(run, n).sessions
    ensures Heartbeats(run, n, id, Exec(run, n).sessions[id].connection, beats)
    ensures Exhaustive(run, n, id, Exec(run, n).sessions[id].connection, beats)
    ensures Exec(run, n).sessions[id].expiresAt == LastBeat(run, beats) + SESSION_TTL
  {
    var connection := Exec(run, n).sessions[id].connection;
    if AcceptedClaim(run, n - 1, id) {
      SessionStep(run, n - 1, id);
      beats := [n - 1];
    } else {
      SessionBefore(run, n - 1, id);
      beats := SessionHasHeartbeats(run, n - 1, id);
      ExhaustiveGrows(run, n - 1, id, connection, beats);
      HeartbeatsGrow(run, n - 1, id, connection, beats);
      if run[n - 1].op == OpRenew(id, connection) && run[n - 1].at < LastBeat(run, beats) + SESSION_TTL {
        beats := beats + [n - 1];
      }
    }
  }

  predicate HeldUntil(t: Tables, id: int, connection: string, until: int) {
    id in t.sessions && t.sessions[id].connection == connection && t.sessions[id].expiresAt == until
  }

  lemma HeldByClaim(run: Run, n: nat, id: int)
    requires n < |run| && AcceptedClaim(run, n, id)
    ensures HeldUntil(Exec(run, n + 1), id, run[n].op.connection, run[n].at + SESSION_TTL)
  {
    SessionStep(run, n, id);
  }

  /** An event that does not end the session moves its lease exactly if it is a timely renewal. */
  lemma HeldNext(run: Run, n: nat, id: int, connection: string, until: int)
    requires n < |run| && HeldUntil(Exec(run, n), id, connection, until) && !Ends(run, n, id, connection)
    ensures HeldUntil(Exec(run, n + 1), id, connection,
      if run[n].op == OpRenew(id, connection) && run[n].at < until then run[n].at + SESSION_TTL else until)
  {
    SessionStep(run, n, id);
    if run[n].op == OpRenew(id, connection) {
      RenewalAccepted(run, n, id);
    }
  }

  /** No event of a stretch ends the session, and no renewal in it is timely. */
  ghost predicate Quiet(run: Run, from: nat, n: nat, id: int, connection: string, until: int)
    requires n <= |run|
  {
    forall j: nat :: from <= j < n ==>
      !Ends(run, j, id, connection) && (run[j].op == OpRenew(id, connection) ==> until <= run[j].at)
  }

  lemma {:induction false} HeldAcross(run: Run, from: nat, n: nat, id: int, connection: string, until: int)
    requires from <= n <= |run| && HeldUntil(Exec(run, from), id, connection, until)
    requires Quiet(run, from, n, id, connection, until)
    ensures HeldUntil(Exec(run, n), id, connection, until)
  {
    if from < n {
      HeldAcross(run, from, n - 1, id, connection, until);
      HeldNext(run, n - 1, id, connection, until);
    }
  }

  lemma QuietBetweenBeats(run: Run, n: nat, id: int, connection: string, beats: seq<nat>, k: nat)
    requires Heartbeats(run, n, id, connection, beats) && Exhaustive(run, n, id, connection, beats) && k < |beats|
    ensures var next := if k + 1 < |beats| then beats[k + 1] else n;
      beats[k] < next <= n && Quiet(run, beats[k] + 1, next, id, connection, run[beats[k]].at + SESSION_TTL)
  {
    BeatsWithin(run, n, id, connection, beats, k);
    if k + 1 < |beats| {
      BeatsWithin(run, n, id, connection, beats, k + 1);
    }
    var next := if k + 1 < |beats| then beats[k + 1] else n;
    forall j: nat | beats[k] + 1 <= j < next
      ensures !Ends(run, j, id, connection)
      ensures run[j].op == OpRenew(id, connection) ==> run[beats[k]].at + SESSION_TTL <= run[j].at
    {
      assert Between(beats, k, n, j);
    }
  }

  /** After its k-th beat the lease runs from that beat. */
  lemma {:induction false} HeldAfterBeat(run: Run, n: nat, id: int, connection: string, beats: seq<nat>, k: nat)
    requires Heartbeats(run, n, id, connection, beats) && Exhaustive(run, n, id, connection, beats) && k < |beats|
    ensures HeldUntil(Exec(run, beats[k] + 1), id, connection, run[beats[k]].at + SESSION_TTL)
  {
    if k == 0 {
      HeldByClaim(run, beats[0], id);
    } else {
      var until := run[beats[k - 1]].at + SESSION_TTL;
      HeldAfterBeat(run, n, id, connection, beats, k - 1);
      QuietBetweenBeats(run, n, id, connection, beats, k - 1);
      HeldAcross(run, beats[k - 1] + 1, beats[k], id, connection, until);
      BeatsWithin(run, n, id, connection, beats, k);
      HeldNext(run, beats[k], id, connection, until);
    }
  }

  /** A heartbeat history with every timely renewal in it fixes the row: holder and lease, whatever the times do. */
  lemma ExhaustiveFixesSession(run: Run, n: nat, id: int, connection: string, beats: seq<nat>)
    requires Heartbeats(run, n, id, connection, beats) && Exhaustive(run, n, id, connection, beats)
    ensures HeldUntil(Exec(run, n), id, connection, LastBeat(run, beats) + SESSION_TTL)
  {
    var last := |beats| - 1;
    HeldAfterBeat(run, n, id, connection, beats, last);
    QuietBetweenBeats(run, n, id, connection, beats, last);
    HeldAcross(run, beats[last] + 1, n, id, connection, LastBeat(run, beats) + SESSION_TTL);
  }

  /** Beats lie in order inside the history, and nothing from one to the end ends the session. */
  lemma {:induction false} BeatsWithin(run: Run, n: nat, id: int, connection: string, beats: seq<nat>, k: nat)
    requires Heartbeats(run, n, id, connection, beats) && k < |beats|
    ensures beats[0] <= beats[k] < n
    ensures forall j: nat :: beats[k] < j < n ==> !Ends(run, j, id, connection)
    ensures 0 < k ==> beats[k - 1] < beats[k] && !Ends(run, beats[k], id, connection)
    decreases |beats| - k
  {
    FirstBeatIsEarliest(run, id, connection, beats, k);
    if k + 1 < |beats| {
      BeatsWithin(run, n, id, connection, beats, k + 1);
    }
  }

  /** Between two beats, and from the last one on, the lease is that of the beat before. */
  lemma HeldSinceBeat(run: Run, id: int, connection: string, beats: seq<nat>, m: nat, n: nat)
    requires Heartbeats(run, |run|, id, connection, beats) && Exhaustive(run, |run|, id, connection, beats)
    requires 0 < m <= |beats| && beats[m - 1] < n <= |run| && (m < |beats| ==> n <= beats[m])
    ensures HeldUntil(Exec(run, n), id, connection, run[beats[m - 1]].at + SESSION_TTL)
  {
    HeldAfterBeat(run, |run|, id, connection, beats, m - 1);
    QuietBetweenBeats(run, |run|, id, connection, beats, m - 1);
    HeldAcross(run, beats[m - 1] + 1, n, id, connection, run[beats[m - 1]].at + SESSION_TTL);
  }

  /** The tables after `n` events depend on those events alone. */
  lemma {:induction false} ExecPrefix(some: Run, run: Run, n: nat)
    requires n <= |some| && n <= |run| && forall i :: 0 <= i < n ==> some[i] == run[i]
    ensures Exec(some, n) == Exec(run, n)
  {
    if n > 0 {
      ExecPrefix(some, run, n - 1);
    }
  }

  /** Whatever the order of the times: online exactly when the timely renewals since a claim nothing ended reach until now. */
  lemma OnlineIffBeats(run: Run, id: int, now: int)
    ensures StateAt(Exec(run, |run|), now, id) == Online <==>
      exists connection, beats ::
        Heartbeats(run, |run|, id, connection, beats) && Exhaustive(run, |run|, id, connection, beats)
        && now < LastBeat(run, beats) + SESSION_TTL
  {
    if StateAt(Exec(run, |run|), now, id) == Online {
      var beats := SessionHasHeartbeats(run, |run|, id);
    }
    forall connection, beats |
      Heartbeats(run, |run|, id, connection, beats) && Exhaustive(run, |run|, id, connection, beats)
      && now < LastBeat(run, beats) + SESSION_TTL
      ensures StateAt(Exec(run, |run|), now, id) == Online
    {
      ExhaustiveFixesSession(run, |run|, id, connection, beats);
    }
  }

  predicate Leases(t: Tables, id: int, connection: string, until: int) {
    id in t.sessions && t.sessions[id].connection == connection && until <= t.sessions[id].expiresAt
  }

  /** An event that does not end the session keeps it, and never shortens the lease below what a renewal now gives. */
  lemma LeaseKept(run: Run, n: nat, id: int, connection: string, until: int)
    requires n < |run| && Leases(Exec(run, n), id, connection, until) && until <= run[n].at + SESSION_TTL
    requires !Ends(run, n, id, connection)
    ensures Leases(Exec(run, n + 1), id, connection, until)
  {
    SessionStep(run, n, id);
  }

  /** A renewal inside the lease is accepted and extends it. */
  lemma LeaseRenewed(run: Run, n: nat, id: int, connection: string, until: int)
    requires n < |run| && Leases(Exec(run, n), id, connection, until)
    requires run[n].op == OpRenew(id, connection) && run[n].at < until
    ensures Leases(Exec(run, n + 1), id, connection, run[n].at + SESSION_TTL)
  {
    SessionStep(run, n, id);
    RenewalAccepted(run, n, id);
  }

  lemma {:induction false} LeasesAcross(run: Run, from: nat, n: nat, id: int, connection: string, until: int)
    requires Timed(run) && from <= n <= |run| && Leases(Exec(run, from), id, connection, until)
    requires forall j: nat :: from <= j < n ==> !Ends(run, j, id, connection)
    requires from < n ==> until <= run[from].at + SESSION_TTL
    ensures Leases(Exec(run, n), id, connection, until)
  {
    if from < n {
      LeasesAcross(run, from, n - 1, id, connection, until);
      LeaseKept(run, n - 1, id, connection, until);
    }
  }

  lemma {:induction false} LeasesAfterBeat(run: Run, n: nat, id: int, connection: string, beats: seq<nat>, k: nat)
    requires Timed(run) && Heartbeats(run, n, id, connection, beats) && k < |beats|
    ensures Leases(Exec(run, beats[k] + 1), id, connection, run[beats[k]].at + SESSION_TTL)
  {
    if k == 0 {
      HeldByClaim(run, beats[0], id);
    } else {
      var until := run[beats[k - 1]].at + SESSION_TTL;
      LeasesAfterBeat(run, n, id, connection, beats, k - 1);
      BeatsWithin(run, n, id, connection, beats, k - 1);
      BeatsWithin(run, n, id, connection, beats, k);
      LeasesAcross(run, beats[k - 1] + 1, beats[k], id, connection, until);
      LeaseRenewed(run, beats[k], id, connection, until);
    }
  }

  /** A heartbeat history keeps the row: it is there, it is this connection's, and its lease covers the last beat. */
  lemma HeartbeatsKeepSession(run: Run, n: nat, id: int, connection: string, beats: seq<nat>)
    requires Timed(run) && Heartbeats(run, n, id, connection, beats)
    ensures Leases(Exec(run, n), id, connection, LastBeat(run, beats) + SESSION_TTL)
  {
    var last := |beats| - 1;
    LeasesAfterBeat(run, n, id, connection, beats, last);
    BeatsWithin(run, n, id, connection, beats, last);
    LeasesAcross(run, beats[last] + 1, n, id, connection, LastBeat(run, beats) + SESSION_TTL);
  }

  /** A station is online exactly when a claim nothing ended has been kept alive by timely heartbeats until now. */
  lemma OnlineIffHeartbeats(run: Run, id: int, now: int)
    requires Timed(run)
    ensures StateAt(Exec(run, |run|), now, id) == Online <==>
      exists connection, beats ::
        Heartbeats(run, |run|, id, connection, beats) && now < LastBeat(run, beats) + SESSION_TTL
  {
    if StateAt(Exec(run, |run|), now, id) == Online {
      var beats := SessionHasHeartbeats(run, |run|, id);
    }
    forall connection, beats |
      Heartbeats(run, |run|, id, connection, beats) && now < LastBeat(run, beats) + SESSION_TTL
      ensures StateAt(Exec(run, |run|), now, id) == Online
    {
      HeartbeatsKeepSession(run, |run|, id, connection, beats);
    }
  }

  /** How many beats fall before event `k`. */
  lemma {:induction false} BeatsBefore(run: Run, id: int, connection: string, beats: seq<nat>, k: nat) returns (m: nat)
    requires Beating(run, id, connection, beats) && beats != [] && beats[0] < k
    ensures 0 < m <= |beats| && beats[m - 1] < k
    ensures m < |beats| ==> k <= beats[m]
  {
    m := |beats|;
    while k <= beats[m - 1]
      invariant 0 < m <= |beats|
      invariant m < |beats| ==> k <= beats[m]
    {
      m := m - 1;
    }
  }

  lemma HeartbeatsUntil(run: Run, n: nat, id: int, connection: string, beats: seq<nat>, k: nat, m: nat)
    requires Heartbeats(run, n, id, connection, beats)
    requires k <= n && 0 < m <= |beats| && beats[m - 1] < k
    ensures Heartbeats(run, k, id, connection, beats[..m])
  {
    var some := beats[..m];
    assert forall i :: 0 <= i < m ==> some[i] == beats[i];
  }

  /** From its claim until SESSION_TTL after the last heartbeat, the station is online at every moment. */
  lemma ContinuouslyOnline(run: Run, n: nat, id: int, connection: string, beats: seq<nat>, k: nat, t: int)
    requires Timed(run) && Heartbeats(run, n, id, connection, beats)
    requires beats[0] < k <= n && (k < |run| ==> t <= run[k].at)
    requires t < LastBeat(run, beats) + SESSION_TTL
    ensures StateAt(Exec(run, k), t, id) == Online
  {
    var m := BeatsBefore(run, id, connection, beats, k);
    HeartbeatsUntil(run, n, id, connection, beats, k, m);
    HeartbeatsKeepSession(run, k, id, connection, beats[..m]);
    assert LastBeat(run, beats[..m]) == run[beats[m - 1]].at;
    if m == |beats| {
      assert beats[..m] == beats;
    } else {
      assert run[beats[m]].at < run[beats[m - 1]].at + SESSION_TTL;
    }
  }

  // ---------------------------------------------------------------- incompatible and offline

  /** What one event does to the rejection row of a station. */
  lemma RejectionStep(run: Run, n: nat, id: int)
    requires n < |run|
    ensures var before := Exec(run, n); var after := Exec(run, n + 1);
      if AcceptedReject(run, n, id) then
        id in after.rejections && after.rejections[id].expiresAt == run[n].at + REJECTION_TTL
      else if AcceptedClaim(run, n, id) || Wiped(run, n, id) then id !in after.rejections
      else
        (id in after.rejections <==> id in before.rejections)
        && (id in before.rejections ==> after.rejections[id] == before.rejections[id])
  {
    if run[n].op.id != id {
      CommitFrame(Exec(run, n), run[n].at, run[n].op, id);
      assert RowsOf(Exec(run, n + 1), id).2 == RowsOf(Exec(run, n), id).2;
    }
  }

  lemma {:induction false} RejectionHasHistory(run: Run, n: nat, id: int) returns (i: nat)
    requires n <= |run| && id in Exec(run, n).rejections
    ensures i < n && AcceptedReject(run, i, id)
    ensures Exec(run, n).rejections[id].expiresAt == run[i].at + REJECTION_TTL
    ensures Unremoved(run, i + 1, n, id)
  {
    RejectionStep(run, n - 1, id);
    if AcceptedReject(run, n - 1, id) {
      i := n - 1;
    } else {
      i := RejectionHasHistory(run, n - 1, id);
    }
  }

  lemma {:induction false} StandingRejectionKept(run: Run, n: nat, id: int, i: nat)
    requires Timed(run) && i < n <= |run| && AcceptedReject(run, i, id) && Unremoved(run, i + 1, n, id)
    ensures id in Exec(run, n).rejections && run[i].at + REJECTION_TTL <= Exec(run, n).rejections[id].expiresAt
  {
    RejectionStep(run, n - 1, id);
    if i < n - 1 {
      StandingRejectionKept(run, n - 1, id, i);
    }
  }

  /** A station shows incompatible exactly when it is not online and a recent rejection follows its latest claim. */
  lemma IncompatibleIffRejectionStands(run: Run, id: int, now: int)
    requires Timed(run)
    ensures StateAt(Exec(run, |run|), now, id) == Incompatible <==>
      StateAt(Exec(run, |run|), now, id) != Online && exists i :: RejectionStands(run, |run|, i, id, now)
  {
    if StateAt(Exec(run, |run|), now, id) == Incompatible {
      var i := RejectionHasHistory(run, |run|, id);
      assert RejectionStands(run, |run|, i, id, now);
    }
    forall i | RejectionStands(run, |run|, i, id, now)
      ensures StateAt(Exec(run, |run|), now, id) != Offline
    {
      StandingRejectionKept(run, |run|, id, i);
    }
  }

  /** With no rejection recorded since the latest claim, a session that lapses falls to offline, not incompatible. */
  lemma LapsedClaimFallsOffline(run: Run, id: int, now: int, i: nat)
    requires Timed(run) && AcceptedClaim(run, i, id)
    requires forall j: nat :: i < j < |run| ==> !AcceptedReject(run, j, id)
    ensures StateAt(Exec(run, |run|), now, id) != Incompatible
  {
    IncompatibleIffRejectionStands(run, id, now);
    forall r: nat ensures !RejectionStands(run, |run|, r, id, now) {
      if r < i {
        assert AcceptedClaim(run, i, id);
      }
    }
  }

  // ---------------------------------------------------------------- fencing

  /** Connection ids are random tokens: no two claims of a run share one. */
  predicate FreshClaims(run: Run) {
    forall i, j :: 0 <= i < j < |run| && run[i].op.OpClaim? && run[j].op.OpClaim? ==>
      run[i].op.connection != run[j].op.connection
  }

  predicate Holds(t: Tables, now: int, id: int, connection: string) {
    id in t.sessions && t.sessions[id].connection == connection && now < t.sessions[id].expiresAt
  }

  /** A connection that does not hold a live session cannot gain one from any transaction but its own claim. */
  lemma LossIsStable(t: Tables, now: int, op: Op, later: int, id: int, connection: string)
    requires !Holds(t, now, id, connection) && now <= later
    requires op.OpClaim? ==> op.connection != connection
    ensures !Holds(Commit(t, now, op), later, id, connection)
  {
  }

  /** Replaced, wiped, released or expired: a claimed connection that has lost its session never renews again. */
  lemma {:induction false} FencedForever(run: Run, i: nat, j: nat, k: nat, id: int)
    requires Timed(run) && FreshClaims(run)
    requires i < j <= k < |run| && run[i].op.OpClaim?
    requires !Holds(Exec(run, j), run[j].at, id, run[i].op.connection)
    ensures !Holds(Exec(run, k), run[k].at, id, run[i].op.connection)
    ensures run[k].op == OpRenew(id, run[i].op.connection) ==> !Accepted(run, k)
    decreases k
  {
    if j < k {
      FencedForever(run, i, j, k - 1, id);
      LossIsStable(Exec(run, k - 1), run[k - 1].at, run[k - 1].op, run[k].at, id, run[i].op.connection);
    }
  }
}
