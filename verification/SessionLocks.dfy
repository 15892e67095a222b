/**
 The store's transactions split into their statements, interleaved freely under
 PostgreSQL READ COMMITTED: a statement reads committed rows, a transaction's
 writes stay pending until it commits, FOR SHARE and UPDATE/DELETE lock the
 station row, and a pending write locks the client row it replaces.
 */
module SessionLocks {
  import opened StationTables
  import opened Wrappers

  datatype Work =
    | Claiming(hash: SecretHash, connection: string, protocolVersion: int, version: string)
    | Rejecting(hash: SecretHash, reported: Option<int>, version: string)
    | Updating(mutation: Mutation)
    | Rotating(hash: SecretHash)
    | Deleting
    | Renewing(connection: string)
    | Releasing(connection: string)

  /** A pending write to one row. */
  datatype Write<T> = Keep | Put(row: T) | Erase

  /** How far a transaction has come: nothing run, station statement run, session statement run, ready to commit. */
  datatype Phase = Started | Locked | SessionDone | Ready

  /** `start` is the transaction's now(); `sawEnabled` is the station row in a renewal's statement snapshot. */
  datatype Txn = Txn(
    id: int, work: Work, start: int, phase: Phase, sawEnabled: bool,
    station: Write<Station>, session: Write<Session>, rejection: Write<Rejection>)

  /** `done` (connections whose claim committed) and `latest` (last committed claimer of a station) are history. */
  datatype Database = Database(
    tables: Tables, txns: map<nat, Txn>, clock: int, issued: set<string>, done: set<string>, latest: map<int, string>)

  predicate Init(db: Database) {
    db.tables == EMPTY && db.txns == map[] && db.issued == {} && db.done == {} && db.latest == map[]
  }

  // ---------------------------------------------------------------- locks

  predicate SharesStation(t: Txn) {
    (t.work.Claiming? || t.work.Rejecting?) && t.phase != Started
  }

  predicate OwnsStation(t: Txn) {
    (t.work.Updating? || t.work.Rotating? || t.work.Deleting?) && t.phase != Started
  }

  /** The transactions may hold their locks at the same time. */
  predicate Compatible(t: Txn, u: Txn) {
    && (t.id == u.id ==>
          && !(OwnsStation(t) && (OwnsStation(u) || SharesStation(u)))
          && !(OwnsStation(u) && SharesStation(t))
          && (t.session.Keep? || u.session.Keep?)
          && (t.rejection.Keep? || u.rejection.Keep?))
    && (t.id != u.id && t.station.Put? && u.station.Put? ==>
          t.station.row.name != u.station.row.name && t.station.row.secretHash != u.station.row.secretHash)
    && (t.work.Claiming? && u.work.Claiming? ==> t.work.connection != u.work.connection)
  }

  /** Disabling, rotating and deleting clear the client rows; an update that leaves the station enabled does not. */
  predicate Clears(work: Work) {
    work.Rotating? || work.Deleting? || (work.Updating? && !work.mutation.enabled)
  }

  // ---------------------------------------------------------------- statements

  function EraseIf<T>(present: bool): Write<T> {
    if present then Erase else Keep
  }

  /** The row an administrative statement leaves behind. */
  function Administered(work: Work, row: Station): Write<Station>
    requires work.Updating? || work.Rotating? || work.Deleting?
  {
    match work
    case Updating(m) => Put(row.(name := m.name, locationId := m.locationId, enabled := m.enabled))
    case Rotating(hash) => Put(row.(secretHash := hash))
    case Deleting => Erase
  }

  /** The transaction after its next statement; None when the statement fails or matches no row. */
  function Statement(tables: Tables, t: Txn): Option<Txn> {
    match t.work
    case Claiming(hash, connection, protocolVersion, version) => (
      match t.phase
      case Started =>
        if connection != "" && CredentialHolds(tables, t.id, hash) then Some(t.(phase := Locked)) else None
      case Locked =>
        Some(t.(phase := SessionDone,
                session := Put(Session(connection, hash, protocolVersion, version, t.start + SESSION_TTL))))
      case SessionDone => Some(t.(phase := Ready, rejection := EraseIf(t.id in tables.rejections)))
      case Ready => None)
    case Rejecting(hash, reported, version) => (
      match t.phase
      case Started => if CredentialHolds(tables, t.id, hash) then Some(t.(phase := Locked)) else None
      case Locked =>
        Some(t.(phase := Ready, rejection := Put(Rejection(hash, reported, version, t.start + REJECTION_TTL))))
      case _ => None)
    case Renewing(connection) => (
      match t.phase
      case Started =>
        Some(t.(phase := Locked, sawEnabled := t.id in tables.stations && tables.stations[t.id].enabled))
      case Locked =>
        if t.sawEnabled && t.id in tables.sessions && tables.sessions[t.id].connection == connection
           && t.start < tables.sessions[t.id].expiresAt
        then Some(t.(phase := Ready, session := Put(tables.sessions[t.id].(expiresAt := t.start + SESSION_TTL))))
        else None
      case _ => None)
    case Releasing(connection) =>
      if t.phase == Started then
        Some(t.(phase := Ready,
                session := EraseIf(t.id in tables.sessions && tables.sessions[t.id].connection == connection)))
      else None
    case _ => (
      match t.phase
      case Started =>
        if t.id in tables.stations && LocationFound(t.work) && RowFree(tables, t.id, Administered(t.work, tables.stations[t.id]))
        then Some(t.(phase := if Clears(t.work) then Locked else Ready,
                     station := Administered(t.work, tables.stations[t.id])))
        else None
      case Locked => Some(t.(phase := SessionDone, session := EraseIf(t.id in tables.sessions)))
      case SessionDone => Some(t.(phase := Ready, rejection := EraseIf(t.id in tables.rejections)))
      case Ready => None)
  }

  /** The unique indexes on name and secret hash. */
  predicate RowFree(tables: Tables, id: int, write: Write<Station>) {
    write.Put? ==>
      !BlankName(write.row.name) && write.row.secretHash != Blank && NameFree(tables, write.row.name, id) && HashFree(tables, write.row.secretHash, id)
  }

  /** The foreign key to the location. */
  predicate LocationFound(work: Work) {
    work.Updating? ==> work.mutation.locationExists
  }

  function ApplyWrite<T>(rows: map<int, T>, id: int, write: Write<T>): map<int, T> {
    match write
    case Keep => rows
    case Put(row) => rows[id := row]
    case Erase => rows - {id}
  }

  function Written(tables: Tables, t: Txn): Tables {
    Tables(ApplyWrite(tables.stations, t.id, t.station),
           ApplyWrite(tables.sessions, t.id, t.session),
           ApplyWrite(tables.rejections, t.id, t.rejection))
  }

  function Committed(db: Database, x: nat): Database
    requires x in db.txns
  {
    var t := db.txns[x];
    db.(tables := Written(db.tables, t), txns := db.txns - {x},
        done := if t.work.Claiming? then db.done + {t.work.connection} else db.done,
        latest := if t.work.Claiming? then db.latest[t.id := t.work.connection] else db.latest)
  }

  // ---------------------------------------------------------------- steps

  datatype Step =
    | Tick(now: int)
    | CreateStation(id: int, mutation: Mutation, hash: SecretHash)
    | Begin(x: nat, id: int, work: Work)
    | Advance(x: nat)
    | Finish(x: nat)
    | Abort(x: nat)

  /**
   Claims carry fresh ids; only a connection whose claim returned renews or
   releases. A statement waits until its new locks are compatible with every
   other transaction. Abort covers failures, cancellations and rollbacks.
   */
  ghost predicate Enabled(db: Database, step: Step) {
    match step
    case Tick(now) => db.clock <= now
    case CreateStation(id, mutation, hash) =>
      && Create(db.tables, id, mutation, hash).Success?
      && (forall x :: x in db.txns && db.txns[x].station.Put? ==>
            db.txns[x].station.row.name != mutation.name && db.txns[x].station.row.secretHash != hash)
    case Begin(x, id, work) =>
      && x !in db.txns
      && (work.Claiming? ==> work.connection !in db.issued)
      && (work.Renewing? || work.Releasing? ==> work.connection in db.done)
    case Advance(x) =>
      && x in db.txns && Statement(db.tables, db.txns[x]).Some?
      && forall y :: y in db.txns && y != x ==> Compatible(Statement(db.tables, db.txns[x]).value, db.txns[y])
    case Finish(x) => x in db.txns && db.txns[x].phase == Ready
    case Abort(x) => x in db.txns
  }

  function Fresh(db: Database, id: int, work: Work): Txn {
    Txn(id, work, db.clock, Started, false, Keep, Keep, Keep)
  }

  ghost function After(db: Database, step: Step): Database
    requires Enabled(db, step)
  {
    match step
    case Tick(now) => db.(clock := now)
    case CreateStation(id, mutation, hash) => db.(tables := Create(db.tables, id, mutation, hash).value)
    case Begin(x, id, work) =>
      db.(txns := db.txns[x := Fresh(db, id, work)],
          issued := if work.Claiming? then db.issued + {work.connection} else db.issued)
    case Advance(x) => db.(txns := db.txns[x := Statement(db.tables, db.txns[x]).value])
    case Finish(x) => Committed(db, x)
    case Abort(x) => db.(txns := db.txns - {x})
  }

  // ---------------------------------------------------------------- invariant

  /** The transaction whose effect a record has, run as a whole. */
  function OpOf(t: Txn): Op {
    match t.work
    case Claiming(hash, connection, protocolVersion, version) => OpClaim(t.id, hash, connection, protocolVersion, version)
    case Rejecting(hash, reported, version) => OpReject(t.id, hash, reported, version)
    case Updating(mutation) => OpUpdate(t.id, mutation)
    case Rotating(hash) => OpRotate(t.id, hash)
    case Deleting => OpDelete(t.id)
    case Renewing(connection) => OpRenew(t.id, connection)
    case Releasing(connection) => OpRelease(t.id, connection)
  }

  predicate HoldsRow(tables: Tables, id: int, connection: string) {
    id in tables.sessions && tables.sessions[id].connection == connection
  }

  /** What a transaction's locks guarantee about the committed rows it has read or will replace. */
  predicate TxnOk(tables: Tables, issued: set<string>, done: set<string>, clock: int, t: Txn) {
    && t.start <= clock
    && match t.work
       case Claiming(hash, connection, protocolVersion, version) =>
         && connection in issued && connection !in done
         && t.station == Keep
         && (t.phase != Started ==> connection != "" && CredentialHolds(tables, t.id, hash))
         && t.session == (if t.phase == SessionDone || t.phase == Ready
                          then Put(Session(connection, hash, protocolVersion, version, t.start + SESSION_TTL)) else Keep)
         && !t.rejection.Put? && (t.rejection.Erase? ==> t.phase == Ready)
       case Rejecting(hash, reported, version) =>
         && t.station == Keep && t.session == Keep && t.phase != SessionDone
         && (t.phase != Started ==> CredentialHolds(tables, t.id, hash))
         && t.rejection == (if t.phase == Ready
                            then Put(Rejection(hash, reported, version, t.start + REJECTION_TTL)) else Keep)
       case Renewing(connection) =>
         && connection in done && t.phase != SessionDone
         && t.station == Keep && t.rejection == Keep
         && (t.phase != Started && HoldsRow(tables, t.id, connection) ==> t.sawEnabled)
         && (if t.phase == Ready then
               HoldsRow(tables, t.id, connection) && t.start < tables.sessions[t.id].expiresAt
               && t.session == Put(tables.sessions[t.id].(expiresAt := t.start + SESSION_TTL))
             else t.session == Keep)
       case Releasing(connection) =>
         && connection in done && (t.phase == Started || t.phase == Ready)
         && t.station == Keep && t.rejection == Keep
         && t.session == EraseIf(t.phase == Ready && HoldsRow(tables, t.id, connection))
       case _ =>
         && (if t.phase == Started then t.station == Keep
             else t.id in tables.stations && LocationFound(t.work) && t.station == Administered(t.work, tables.stations[t.id])
                  && RowFree(tables, t.id, t.station))
         && t.session == EraseIf(Clears(t.work) && (t.phase == SessionDone || t.phase == Ready) && t.id in tables.sessions)
         && t.rejection == EraseIf(Clears(t.work) && t.phase == Ready && t.id in tables.rejections)
         && (!Clears(t.work) ==> t.phase == Started || t.phase == Ready)
  }

  /** Session rows carry connections whose claim committed, the latest one for the station. */
  predicate RowClaimed(db: Database, id: int) {
    id in db.tables.sessions ==>
      db.tables.sessions[id].connection in db.done
      && id in db.latest && db.latest[id] == db.tables.sessions[id].connection
  }

  ghost predicate Inv(db: Database) {
    && Consistent(db.tables)
    && db.done <= db.issued
    && (forall id :: RowClaimed(db, id))
    && (forall x :: x in db.txns ==> TxnOk(db.tables, db.issued, db.done, db.clock, db.txns[x]))
    && (forall x, y :: x in db.txns && y in db.txns && x != y ==> Compatible(db.txns[x], db.txns[y]))
  }

  // ---------------------------------------------------------------- preservation, one transaction at a time

  lemma StatementKeepsOk(db: Database, t: Txn)
    requires Consistent(db.tables) && TxnOk(db.tables, db.issued, db.done, db.clock, t)
    requires Statement(db.tables, t).Some?
    ensures TxnOk(db.tables, db.issued, db.done, db.clock, Statement(db.tables, t).value)
  {
    assert RowsCurrent(db.tables, t.id);
  }

  /** A claim that found no rejection to delete, though one has been committed since. */
  predicate MissesRejection(tables: Tables, t: Txn) {
    t.work.Claiming? && t.rejection.Keep? && t.id in tables.rejections
  }

  /**
   A commit has the effect its transaction has when run as a whole on the
   committed tables at that moment, if and only if it is not a claim that misses
   a rejection; such a claim leaves the rejections as they are.
   */
  lemma CommitIsAtomic(db: Database, x: nat)
    requires Inv(db) && x in db.txns && db.txns[x].phase == Ready
    ensures var t := db.txns[x]; var whole := Perform(db.tables, t.start, OpOf(t));
      && whole.Success?
      && (Written(db.tables, t) == whole.value <==> !MissesRejection(db.tables, t))
      && (MissesRejection(db.tables, t) ==> Written(db.tables, t) == whole.value.(rejections := db.tables.rejections))
  {
    var t := db.txns[x];
    assert RowsCurrent(db.tables, t.id);
    assert TxnOk(db.tables, db.issued, db.done, db.clock, t);
    if t.work.Claiming? {
      ClaimIsAtomic(db.tables, db.issued, db.done, db.clock, t);
    } else if t.work.Updating? || t.work.Rotating? || t.work.Deleting? {
      AdministrationIsAtomic(db.tables, db.issued, db.done, db.clock, t);
    }
  }

  lemma ClaimIsAtomic(tables: Tables, issued: set<string>, done: set<string>, clock: int, t: Txn)
    requires TxnOk(tables, issued, done, clock, t) && t.phase == Ready && t.work.Claiming?
    ensures var whole := Perform(tables, t.start, OpOf(t));
      && whole.Success?
      && (if MissesRejection(tables, t) then Written(tables, t) == whole.value.(rejections := tables.rejections)
          else Written(tables, t) == whole.value)
  {
    assert t.id !in tables.rejections ==> tables.rejections - {t.id} == tables.rejections;
  }

  lemma AdministrationIsAtomic(tables: Tables, issued: set<string>, done: set<string>, clock: int, t: Txn)
    requires Consistent(tables) && TxnOk(tables, issued, done, clock, t) && t.phase == Ready
    requires t.work.Updating? || t.work.Rotating? || t.work.Deleting?
    ensures Perform(tables, t.start, OpOf(t)) == Success(Written(tables, t))
  {
    assert RowsCurrent(tables, t.id);
    assert t.id !in tables.sessions ==> tables.sessions - {t.id} == tables.sessions;
    assert t.id !in tables.rejections ==> tables.rejections - {t.id} == tables.rejections;
  }

  lemma CommitKeepsKeys(tables: Tables, issued: set<string>, done: set<string>, clock: int, t: Txn)
    requires Consistent(tables) && TxnOk(tables, issued, done, clock, t) && t.phase == Ready
    ensures KeysDistinct(Written(tables, t))
  {
  }

  lemma CommitKeepsRows(tables: Tables, issued: set<string>, done: set<string>, clock: int, t: Txn, id: int)
    requires Consistent(tables) && TxnOk(tables, issued, done, clock, t) && t.phase == Ready
    ensures RowsCurrent(Written(tables, t), id)
  {
    assert RowsCurrent(tables, id);
  }

  /** A commit leaves every other transaction's assumptions standing, because their locks are compatible. */
  lemma CommitKeepsOther(db: Database, t: Txn, u: Txn)
    requires Consistent(db.tables) && db.done <= db.issued
    requires TxnOk(db.tables, db.issued, db.done, db.clock, t) && t.phase == Ready
    requires TxnOk(db.tables, db.issued, db.done, db.clock, u) && Compatible(t, u)
    ensures TxnOk(Written(db.tables, t), db.issued,
                  if t.work.Claiming? then db.done + {t.work.connection} else db.done, db.clock, u)
  {
    assert RowsCurrent(db.tables, t.id);
    if t.id == u.id {
      CommitKeepsSameStation(db, t, u);
    } else {
      CommitKeepsOtherStation(db, t, u);
    }
  }

  lemma CommitKeepsSameStation(db: Database, t: Txn, u: Txn)
    requires Consistent(db.tables) && db.done <= db.issued && t.id == u.id
    requires TxnOk(db.tables, db.issued, db.done, db.clock, t) && t.phase == Ready
    requires TxnOk(db.tables, db.issued, db.done, db.clock, u) && Compatible(t, u)
    ensures TxnOk(Written(db.tables, t), db.issued,
                  if t.work.Claiming? then db.done + {t.work.connection} else db.done, db.clock, u)
  {
    assert RowsCurrent(db.tables, t.id);
  }

  lemma CommitKeepsOtherStation(db: Database, t: Txn, u: Txn)
    requires Consistent(db.tables) && db.done <= db.issued && t.id != u.id
    requires TxnOk(db.tables, db.issued, db.done, db.clock, t) && t.phase == Ready
    requires TxnOk(db.tables, db.issued, db.done, db.clock, u) && Compatible(t, u)
    ensures TxnOk(Written(db.tables, t), db.issued,
                  if t.work.Claiming? then db.done + {t.work.connection} else db.done, db.clock, u)
  {
  }

  // ---------------------------------------------------------------- preservation, one step at a time

  lemma FinishKeepsRow(db: Database, x: nat, id: int)
    requires Inv(db) && Enabled(db, Finish(x))
    ensures RowsCurrent(After(db, Finish(x)).tables, id) && RowClaimed(After(db, Finish(x)), id)
  {
    assert TxnOk(db.tables, db.issued, db.done, db.clock, db.txns[x]);
    CommitKeepsRows(db.tables, db.issued, db.done, db.clock, db.txns[x], id);
    assert RowClaimed(db, id) && RowsCurrent(db.tables, id);
  }

  lemma FinishKeepsInv(db: Database, x: nat)
    requires Inv(db) && Enabled(db, Finish(x))
    ensures Inv(After(db, Finish(x)))
  {
    var t, after := db.txns[x], After(db, Finish(x));
    CommitKeepsKeys(db.tables, db.issued, db.done, db.clock, t);
    forall id ensures RowsCurrent(after.tables, id) && RowClaimed(after, id) {
      FinishKeepsRow(db, x, id);
    }
    forall y | y in after.txns
      ensures TxnOk(after.tables, after.issued, after.done, after.clock, after.txns[y])
    {
      CommitKeepsOther(db, t, db.txns[y]);
    }
  }

  lemma AdvanceKeepsInv(db: Database, x: nat)
    requires Inv(db) && Enabled(db, Advance(x))
    ensures Inv(After(db, Advance(x)))
  {
    StatementKeepsOk(db, db.txns[x]);
    var after := After(db, Advance(x));
    assert forall id :: RowClaimed(db, id) ==> RowClaimed(after, id);
    forall y, z | y in after.txns && z in after.txns && y != z
      ensures Compatible(after.txns[y], after.txns[z])
    {
      if y == x {
        assert Compatible(after.txns[x], db.txns[z]);
      } else if z == x {
        assert Compatible(after.txns[x], db.txns[y]);
      } else {
        assert Compatible(db.txns[y], db.txns[z]);
      }
    }
  }

  lemma BeginKeepsInv(db: Database, x: nat, id: int, work: Work)
    requires Inv(db) && Enabled(db, Begin(x, id, work))
    ensures Inv(After(db, Begin(x, id, work)))
  {
    var after := After(db, Begin(x, id, work));
    assert forall i :: RowClaimed(db, i) ==> RowClaimed(after, i);
    forall y | y in db.txns && y != x
      ensures TxnOk(after.tables, after.issued, after.done, after.clock, after.txns[y])
      ensures Compatible(after.txns[x], after.txns[y]) && Compatible(after.txns[y], after.txns[x])
    {
      assert TxnOk(db.tables, db.issued, db.done, db.clock, db.txns[y]);
    }
  }

  /** A new station row disturbs no transaction: the unique indexes cover pending rows too. */
  lemma CreateKeepsTxn(db: Database, id: int, mutation: Mutation, hash: SecretHash, t: Txn)
    requires Consistent(db.tables) && Enabled(db, CreateStation(id, mutation, hash))
    requires TxnOk(db.tables, db.issued, db.done, db.clock, t)
    requires t.station.Put? ==> t.station.row.name != mutation.name && t.station.row.secretHash != hash
    ensures TxnOk(Create(db.tables, id, mutation, hash).value, db.issued, db.done, db.clock, t)
  {
    assert RowsCurrent(db.tables, t.id);
  }

  lemma StepKeepsInv(db: Database, step: Step)
    requires Inv(db) && Enabled(db, step)
    ensures Inv(After(db, step))
  {
    match step
    case Tick(now) =>
      assert forall id :: RowClaimed(db, id) ==> RowClaimed(After(db, step), id);
    case CreateStation(id, mutation, hash) =>
      CommitKeepsConsistent(db.tables, db.clock, OpCreate(id, mutation, hash));
      assert forall i :: RowClaimed(db, i) ==> RowClaimed(After(db, step), i);
      forall x | x in db.txns
        ensures TxnOk(After(db, step).tables, db.issued, db.done, db.clock, db.txns[x])
      {
        CreateKeepsTxn(db, id, mutation, hash, db.txns[x]);
      }
    case Begin(x, id, work) => BeginKeepsInv(db, x, id, work);
    case Advance(x) => AdvanceKeepsInv(db, x);
    case Finish(x) => FinishKeepsInv(db, x);
    case Abort(x) =>
      assert forall id :: RowClaimed(db, id) ==> RowClaimed(After(db, step), id);
  }

  // ---------------------------------------------------------------- whole runs

  /** The database after a list of steps, each enabled where it is taken. */
  ghost predicate Runs(db: Database, steps: seq<Step>)
    decreases |steps|
  {
    steps != [] ==> Enabled(db, steps[0]) && Runs(After(db, steps[0]), steps[1..])
  }

  ghost function AfterAll(db: Database, steps: seq<Step>): Database
    requires Runs(db, steps)
    decreases |steps|
  {
    if steps == [] then db else AfterAll(After(db, steps[0]), steps[1..])
  }

  lemma {:induction false} RunKeepsInv(db: Database, steps: seq<Step>)
    requires Inv(db) && Runs(db, steps)
    ensures Inv(AfterAll(db, steps))
    decreases |steps|
  {
    if steps != [] {
      StepKeepsInv(db, steps[0]);
      RunKeepsInv(After(db, steps[0]), steps[1..]);
    }
  }

  lemma InitInv(db: Database)
    requires Init(db)
    ensures Inv(db)
  {
    assert forall id :: RowsCurrent(db.tables, id);
  }

  /**
   However claims, rejections, renewals, disabling, rotation and deletion
   interleave statement by statement, every committed client row belongs to an
   enabled station and was written with the key that is still its current key.
   */
  lemma ClientRowsAlwaysCurrent(db: Database, steps: seq<Step>, id: int)
    requires Init(db) && Runs(db, steps)
    ensures var t := AfterAll(db, steps).tables;
      && (id in t.sessions ==> CredentialHolds(t, id, t.sessions[id].claimedWith))
      && (id in t.rejections ==> CredentialHolds(t, id, t.rejections[id].observedWith))
  {
    InitInv(db);
    RunKeepsInv(db, steps);
    assert RowsCurrent(AfterAll(db, steps).tables, id);
  }

  /** A renewal about to commit is its station's latest claimer, on its current key, with a lease unexpired at its start. */
  lemma RenewalHasAuthority(db: Database, steps: seq<Step>, x: nat)
    requires Init(db) && Runs(db, steps)
    requires var now := AfterAll(db, steps); x in now.txns && now.txns[x].work.Renewing? && now.txns[x].phase == Ready
    ensures var now := AfterAll(db, steps); var t := now.txns[x];
      && t.id in now.latest && now.latest[t.id] == t.work.connection
      && t.id in now.tables.sessions
      && now.tables.sessions[t.id].connection == t.work.connection
      && t.start < now.tables.sessions[t.id].expiresAt
      && CredentialHolds(now.tables, t.id, now.tables.sessions[t.id].claimedWith)
  {
    InitInv(db);
    RunKeepsInv(db, steps);
    var now := AfterAll(db, steps);
    assert TxnOk(now.tables, now.issued, now.done, now.clock, now.txns[x]);
    assert RowClaimed(now, now.txns[x].id) && RowsCurrent(now.tables, now.txns[x].id);
  }

  // ---------------------------------------------------------------- one transaction alone

  /** The transaction is the only one open, and its run as a whole would succeed. */
  ghost predicate AloneAndSound(db: Database, x: nat) {
    && Inv(db) && db.txns.Keys == {x}
    && Perform(db.tables, db.txns[x].start, OpOf(db.txns[x])).Success?
    && (db.txns[x].phase == Ready ==> !MissesRejection(db.tables, db.txns[x]))
  }

  function PhasesLeft(phase: Phase): nat {
    match phase case Started => 3 case Locked => 2 case SessionDone => 1 case Ready => 0
  }

  /** Its next statement succeeds. */
  lemma AloneAdvances(db: Database, x: nat)
    requires AloneAndSound(db, x) && db.txns[x].phase != Ready
    ensures Enabled(db, Advance(x)) && AloneAndSound(After(db, Advance(x)), x)
    ensures var after := After(db, Advance(x));
      && after.tables == db.tables && after.txns[x].work == db.txns[x].work && after.txns[x].id == db.txns[x].id
      && after.txns[x].start == db.txns[x].start
      && PhasesLeft(after.txns[x].phase) < PhasesLeft(db.txns[x].phase)
  {
    var t := db.txns[x];
    assert TxnOk(db.tables, db.issued, db.done, db.clock, t);
    SoundStatement(db.tables, db.issued, db.done, db.clock, t);
    StepKeepsInv(db, Advance(x));
  }

  lemma SoundStatement(tables: Tables, issued: set<string>, done: set<string>, clock: int, t: Txn)
    requires Consistent(tables) && TxnOk(tables, issued, done, clock, t) && t.phase != Ready
    requires Perform(tables, t.start, OpOf(t)).Success?
    ensures Statement(tables, t).Some?
    ensures var next := Statement(tables, t).value;
      && next.work == t.work && next.id == t.id && next.start == t.start && PhasesLeft(next.phase) < PhasesLeft(t.phase)
      && (next.phase == Ready ==> !MissesRejection(tables, next))
  {
  }

  lemma {:induction false} AloneIsReady(db: Database, x: nat) returns (steps: seq<Step>)
    requires AloneAndSound(db, x)
    ensures Runs(db, steps) && forall s :: s in steps ==> s == Advance(x)
    ensures AloneAndSound(AfterAll(db, steps), x)
    ensures var now := AfterAll(db, steps);
      && now.tables == db.tables && now.txns[x].phase == Ready && now.txns[x].start == db.txns[x].start
      && now.txns[x].work == db.txns[x].work && now.txns[x].id == db.txns[x].id
    decreases PhasesLeft(db.txns[x].phase)
  {
    if db.txns[x].phase == Ready {
      steps := [];
    } else {
      AloneAdvances(db, x);
      var rest := AloneIsReady(After(db, Advance(x)), x);
      steps := [Advance(x)] + rest;
      assert steps[1..] == rest;
    }
  }

  lemma StatementMoves(tables: Tables, t: Txn)
    requires Statement(tables, t).Some?
    ensures var next := Statement(tables, t).value; next.start == t.start && next.work == t.work && next.id == t.id
  {
  }

  /** Statements of one transaction change nothing but that transaction. */
  lemma {:induction false} AdvancesKeep(db: Database, x: nat, steps: seq<Step>)
    requires Inv(db) && Runs(db, steps) && x in db.txns && forall s :: s in steps ==> s == Advance(x)
    ensures var now := AfterAll(db, steps);
      && Inv(now) && now.tables == db.tables && x in now.txns && now.txns[x].start == db.txns[x].start
      && now.txns[x].work == db.txns[x].work && now.txns[x].id == db.txns[x].id
    decreases |steps|
  {
    if steps != [] {
      assert steps[0] in steps;
      StepKeepsInv(db, steps[0]);
      StatementMoves(db.tables, db.txns[x]);
      assert forall s :: s in steps[1..] ==> s in steps;
      AdvancesKeep(After(db, steps[0]), x, steps[1..]);
    }
  }

  /** The transaction's own statements bring it to its commit. */
  ghost predicate ReadyAfter(db: Database, x: nat, steps: seq<Step>) {
    && (forall s :: s in steps ==> s == Advance(x)) && Runs(db, steps)
    && x in AfterAll(db, steps).txns && AfterAll(db, steps).txns[x].phase == Ready
  }

  lemma AloneBegins(db: Database, x: nat, id: int, work: Work)
    requires Inv(db) && db.txns == map[] && Enabled(db, Begin(x, id, work))
    requires Perform(db.tables, db.clock, OpOf(Fresh(db, id, work))).Success?
    ensures AloneAndSound(After(db, Begin(x, id, work)), x)
  {
    StepKeepsInv(db, Begin(x, id, work));
  }

  /** From a sound lone transaction at its commit, the commit has the effect of the whole. */
  lemma LoneCommit(db: Database, x: nat)
    requires AloneAndSound(db, x) && db.txns[x].phase == Ready
    ensures After(db, Finish(x)).tables == Commit(db.tables, db.txns[x].start, OpOf(db.txns[x]))
  {
    CommitIsAtomic(db, x);
  }

  lemma AloneCommits(db: Database, x: nat, id: int, work: Work) returns (steps: seq<Step>)
    requires Inv(db) && db.txns == map[] && Enabled(db, Begin(x, id, work))
    requires Perform(db.tables, db.clock, OpOf(Fresh(db, id, work))).Success?
    ensures var begun := After(db, Begin(x, id, work));
      && ReadyAfter(begun, x, steps)
      && After(AfterAll(begun, steps), Finish(x)).tables == Commit(db.tables, db.clock, OpOf(Fresh(db, id, work)))
  {
    var begun := After(db, Begin(x, id, work));
    AloneBegins(db, x, id, work);
    steps := AloneIsReady(begun, x);
    LoneCommit(AfterAll(begun, steps), x);
  }

  lemma ReadyIsSound(begun: Database, x: nat, steps: seq<Step>)
    requires Inv(begun) && x in begun.txns && ReadyAfter(begun, x, steps)
    ensures Perform(begun.tables, begun.txns[x].start, OpOf(begun.txns[x])).Success?
  {
    AdvancesKeep(begun, x, steps);
    CommitIsAtomic(AfterAll(begun, steps), x);
  }

  /**
   Run alone, the statements are the transaction: they reach the commit exactly when
   the transaction as a whole succeeds, and the commit then has its effect.
   */
  lemma AloneIsWhole(db: Database, x: nat, id: int, work: Work)
    requires Inv(db) && db.txns == map[] && Enabled(db, Begin(x, id, work))
    ensures var begun := After(db, Begin(x, id, work)); var op := OpOf(Fresh(db, id, work));
      && ((exists steps :: ReadyAfter(begun, x, steps)) <==> Perform(db.tables, db.clock, op).Success?)
      && (Perform(db.tables, db.clock, op).Success? ==>
            exists steps :: ReadyAfter(begun, x, steps)
              && After(AfterAll(begun, steps), Finish(x)).tables == Commit(db.tables, db.clock, op))
  {
    var begun := After(db, Begin(x, id, work));
    StepKeepsInv(db, Begin(x, id, work));
    if Perform(db.tables, db.clock, OpOf(Fresh(db, id, work))).Success? {
      var steps := AloneCommits(db, x, id, work);
    }
    forall steps | ReadyAfter(begun, x, steps)
      ensures Perform(db.tables, db.clock, OpOf(Fresh(db, id, work))).Success?
    {
      ReadyIsSound(begun, x, steps);
    }
  }

  // ---------------------------------------------------------------- fencing

  /** Some renewal of `connection` on `id`, already under way, began before the lease in the row ran out. */
  ghost predicate RenewalInFlight(db: Database, id: int, connection: string) {
    exists x :: x in db.txns && RenewsInTime(db.tables, db.txns[x], id, connection)
  }

  predicate RenewsInTime(tables: Tables, t: Txn, id: int, connection: string) {
    t.work == Renewing(connection) && t.id == id && HoldsRow(tables, id, connection)
    && t.start < tables.sessions[id].expiresAt
  }

  /**
   `connection` has claimed, and has since been replaced, cleared or released
   (no row), or has expired with no renewal under way.
   */
  ghost predicate Fenced(db: Database, id: int, connection: string) {
    && connection in db.done
    && (HoldsRow(db.tables, id, connection) ==>
          db.tables.sessions[id].expiresAt <= db.clock && !RenewalInFlight(db, id, connection))
  }

  /** One commit gives a connection that has claimed no row, and extends its lease only through a renewal in time. */
  lemma CommitCannotRevive(tables: Tables, issued: set<string>, done: set<string>, clock: int, t: Txn, id: int, connection: string)
    requires TxnOk(tables, issued, done, clock, t) && t.phase == Ready && connection in done
    requires !RenewsInTime(tables, t, id, connection)
    ensures HoldsRow(Written(tables, t), id, connection) ==>
      HoldsRow(tables, id, connection) && Written(tables, t).sessions[id] == tables.sessions[id]
  {
  }

  lemma FencedIsStable(db: Database, step: Step, id: int, connection: string)
    requires Inv(db) && Enabled(db, step) && Fenced(db, id, connection)
    ensures Fenced(After(db, step), id, connection)
  {
    var after := After(db, step);
    if HoldsRow(after.tables, id, connection) {
      if step.Finish? {
        assert TxnOk(db.tables, db.issued, db.done, db.clock, db.txns[step.x]);
        CommitCannotRevive(db.tables, db.issued, db.done, db.clock, db.txns[step.x], id, connection);
      }
      assert HoldsRow(db.tables, id, connection) && after.tables.sessions[id] == db.tables.sessions[id];
      forall x | x in after.txns ensures !RenewsInTime(after.tables, after.txns[x], id, connection) {
        if x in db.txns {
          assert !RenewsInTime(db.tables, db.txns[x], id, connection);
        }
      }
    }
  }

  /** A renewal of `connection` on `id` has updated the row and can commit. */
  predicate RenewalReady(db: Database, x: nat, id: int, connection: string) {
    x in db.txns && db.txns[x].id == id && db.txns[x].work == Renewing(connection) && db.txns[x].phase == Ready
  }

  /** Once fenced, a connection stays fenced over every further run, and no renewal of it ever gets to commit. */
  lemma {:induction false} FencedNeverRenews(db: Database, steps: seq<Step>, id: int, connection: string)
    requires Inv(db) && Runs(db, steps) && Fenced(db, id, connection)
    ensures Fenced(AfterAll(db, steps), id, connection)
    ensures forall x :: !RenewalReady(AfterAll(db, steps), x, id, connection)
    decreases |steps|
  {
    if steps == [] {
      forall x ensures !RenewalReady(db, x, id, connection)
      {
        if RenewalReady(db, x, id, connection) {
          assert TxnOk(db.tables, db.issued, db.done, db.clock, db.txns[x]);
          assert RenewsInTime(db.tables, db.txns[x], id, connection);
        }
      }
    } else {
      StepKeepsInv(db, steps[0]);
      FencedIsStable(db, steps[0], id, connection);
      FencedNeverRenews(After(db, steps[0]), steps[1..], id, connection);
    }
  }

  /** A renewal in time can always be driven to its commit, once no other transaction holds the row. */
  lemma {:induction false} DriveRenewal(db: Database, x: nat, id: int, connection: string) returns (steps: seq<Step>)
    requires Inv(db) && x in db.txns && RenewsInTime(db.tables, db.txns[x], id, connection)
    requires forall y :: y in db.txns && y != x && db.txns[y].id == id ==> db.txns[y].session.Keep?
    ensures Runs(db, steps) && RenewalReady(AfterAll(db, steps), x, id, connection)
    decreases match db.txns[x].phase case Started => 2 case Ready => 0 case _ => 1
  {
    var t := db.txns[x];
    assert TxnOk(db.tables, db.issued, db.done, db.clock, t);
    assert RowsCurrent(db.tables, id);
    if t.phase == Ready {
      steps := [];
    } else {
      forall y | y in db.txns && y != x ensures Compatible(Statement(db.tables, t).value, db.txns[y]) {
        assert Compatible(t, db.txns[y]);
      }
      StepKeepsInv(db, Advance(x));
      var rest := DriveRenewal(After(db, Advance(x)), x, id, connection);
      steps := [Advance(x)] + rest;
      assert steps[1..] == rest;
    }
  }

  /** The steps lead to a renewal by transaction `x` that can commit. */
  ghost predicate LeadsToRenewal(db: Database, steps: seq<Step>, x: nat, id: int, connection: string) {
    Runs(db, steps) && RenewalReady(AfterAll(db, steps), x, id, connection)
  }

  /** Abort whichever transaction holds the row, then drive the renewal. */
  lemma ClearTheWay(db: Database, x: nat, id: int, connection: string) returns (steps: seq<Step>)
    requires Inv(db) && x in db.txns && RenewsInTime(db.tables, db.txns[x], id, connection)
    ensures Runs(db, steps) && RenewalReady(AfterAll(db, steps), x, id, connection)
  {
    if y :| y in db.txns && y != x && db.txns[y].id == id && !db.txns[y].session.Keep? {
      forall z | z in db.txns && z != x && z != y && db.txns[z].id == id ensures db.txns[z].session.Keep? {
        assert Compatible(db.txns[y], db.txns[z]);
      }
      StepKeepsInv(db, Abort(y));
      var rest := DriveRenewal(After(db, Abort(y)), x, id, connection);
      steps := [Abort(y)] + rest;
      assert steps[1..] == rest;
    } else {
      steps := DriveRenewal(db, x, id, connection);
    }
  }

  /** The row of `id` is not a live lease of `connection`. */
  predicate LeaseLost(db: Database, id: int, connection: string) {
    HoldsRow(db.tables, id, connection) ==> db.tables.sessions[id].expiresAt <= db.clock
  }

  /**
   A connection without a live lease can still renew in some continuation
   exactly when its row is still there and a renewal statement that began
   before the lease ran out is still under way: now() is the start of the
   transaction, so the late statement sees the lease as it was.
   */
  lemma LostLeaseRenewsIffInFlight(db: Database, id: int, connection: string)
    requires Inv(db) && connection in db.done && LeaseLost(db, id, connection)
    ensures (exists steps, x :: LeadsToRenewal(db, steps, x, id, connection))
      <==> RenewalInFlight(db, id, connection)
  {
    if RenewalInFlight(db, id, connection) {
      var x :| x in db.txns && RenewsInTime(db.tables, db.txns[x], id, connection);
      var steps := ClearTheWay(db, x, id, connection);
      assert LeadsToRenewal(db, steps, x, id, connection);
    } else {
      forall steps, x
        ensures !LeadsToRenewal(db, steps, x, id, connection)
      {
        if Runs(db, steps) {
          FencedNeverRenews(db, steps, id, connection);
        }
      }
    }
  }

  lemma {:induction false} RunsAppend(db: Database, steps: seq<Step>, step: Step)
    requires Runs(db, steps) && Enabled(AfterAll(db, steps), step)
    ensures Runs(db, steps + [step])
    ensures AfterAll(db, steps + [step]) == After(AfterAll(db, steps), step)
    decreases |steps|
  {
    if steps == [] {
      assert (steps + [step])[1..] == [];
    } else {
      assert (steps + [step])[1..] == steps[1..] + [step];
      RunsAppend(After(db, steps[0]), steps[1..], step);
    }
  }

  lemma Extend(db: Database, steps: seq<Step>, step: Step) returns (longer: seq<Step>)
    requires Runs(db, steps) && Enabled(AfterAll(db, steps), step)
    ensures longer == steps + [step]
    ensures Runs(db, longer) && AfterAll(db, longer) == After(AfterAll(db, steps), step)
  {
    RunsAppend(db, steps, step);
    longer := steps + [step];
  }

  const DOOR := Station("door", 1, true, Digest("k"))

  lemma CreateDoor(db: Database) returns (steps: seq<Step>)
    requires Init(db) && db.clock == 0
    ensures Runs(db, steps)
    ensures AfterAll(db, steps) == Database(Tables(map[1 := DOOR], map[], map[]), map[], 0, {}, {}, map[])
  {
    assert !BlankName("door") by {
      assert 'd' == "door"[0] && 'd' in "door";
    }
    steps := Extend(db, [], CreateStation(1, Mutation("door", 1, true, true), Digest("k")));
  }

  const CLAIM := Txn(1, Claiming(Digest("k"), "c", 1, ""), 0, Started, false, Keep, Keep, Keep)

  lemma ClaimBegun(db: Database) returns (steps: seq<Step>)
    requires Init(db) && db.clock == 0
    ensures Runs(db, steps)
    ensures AfterAll(db, steps) ==
      Database(Tables(map[1 := DOOR], map[], map[]), map[0 := CLAIM.(phase := Locked)], 0, {"c"}, {}, map[])
  {
    steps := CreateDoor(db);
    steps := Extend(db, steps, Begin(0, 1, Claiming(Digest("k"), "c", 1, "")));
    steps := Extend(db, steps, Advance(0));
  }

  /** Connection "c" claims the station at time 0, alone. */
  lemma ClaimScript(db: Database) returns (steps: seq<Step>)
    requires Init(db) && db.clock == 0
    ensures Runs(db, steps)
    ensures AfterAll(db, steps) == Database(
      Tables(map[1 := DOOR], map[1 := Session("c", Digest("k"), 1, "", SESSION_TTL)], map[]),
      map[], 0, {"c"}, {"c"}, map[1 := "c"])
  {
    steps := ClaimBegun(db);
    steps := Extend(db, steps, Advance(0));
    steps := Extend(db, steps, Advance(0));
    steps := Extend(db, steps, Finish(0));
  }

  /**
   The case is real: from empty tables, a renewal begun one microsecond before
   its lease runs out is still under way when it has, commits afterwards, and the
   lapsed connection holds a live lease again.
   */
  lemma ExpiredLeaseCanRenew(db: Database) returns (steps: seq<Step>, more: seq<Step>)
    requires Init(db) && db.clock == 0
    ensures Runs(db, steps)
    ensures var lapsed := AfterAll(db, steps);
      && "c" in lapsed.done && HoldsRow(lapsed.tables, 1, "c") && LeaseLost(lapsed, 1, "c")
      && LeadsToRenewal(lapsed, more, 1, 1, "c")
      && Enabled(AfterAll(lapsed, more), Finish(1))
      && !LeaseLost(After(AfterAll(lapsed, more), Finish(1)), 1, "c")
  {
    steps := ClaimScript(db);
    steps := Extend(db, steps, Tick(SESSION_TTL - 1));
    steps := Extend(db, steps, Begin(1, 1, Renewing("c")));
    steps := Extend(db, steps, Tick(SESSION_TTL));
    var lapsed := AfterAll(db, steps);
    more := Extend(lapsed, [], Advance(1));
    more := Extend(lapsed, more, Advance(1));
  }

  /** A claim holds its lock, and a rejection of the same station has been written but not committed. */
  lemma ClaimBesideRejection(db: Database) returns (steps: seq<Step>)
    requires Init(db) && db.clock == 0
    ensures Runs(db, steps)
    ensures AfterAll(db, steps) == Database(
      Tables(map[1 := DOOR], map[], map[]),
      map[0 := CLAIM.(phase := Locked),
          1 := Txn(1, Rejecting(Digest("k"), None, ""), 0, Ready, false, Keep, Keep,
                   Put(Rejection(Digest("k"), None, "", REJECTION_TTL)))],
      0, {"c"}, {}, map[])
  {
    steps := ClaimBegun(db);
    steps := Extend(db, steps, Begin(1, 1, Rejecting(Digest("k"), None, "")));
    steps := Extend(db, steps, Advance(1));
    steps := Extend(db, steps, Advance(1));
  }

  /** A claim can miss a rejection: committed after it looked, the rejection survives beside the session. */
  lemma ClaimCanMissRejection(db: Database) returns (steps: seq<Step>)
    requires Init(db) && db.clock == 0
    ensures Runs(db, steps) && Enabled(AfterAll(db, steps), Finish(0))
    ensures var now := AfterAll(db, steps); var tables := After(now, Finish(0)).tables;
      MissesRejection(now.tables, now.txns[0]) && 1 in tables.sessions && 1 in tables.rejections
  {
    steps := ClaimBesideRejection(db);
    steps := Extend(db, steps, Advance(0));
    steps := Extend(db, steps, Advance(0));
    steps := Extend(db, steps, Finish(1));
  }
}
