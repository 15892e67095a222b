/**
 The three PostgreSQL tables behind a Station, and each store transaction as a
 function from the tables before it to the tables after it.
 */
module StationTables {
  import opened Text
  import opened Wrappers

  const SESSION_TTL := 15_000_000
  const REJECTION_TTL := 300_000_000

  /** The hash is modelled as injective: the digest keeps the trimmed secret. */
  datatype SecretHash = Blank | Digest(secret: string)

  function HashSecret(secret: string): SecretHash {
    var trimmed := Trim(secret);
    if trimmed == "" then Blank else Digest(trimmed)
  }

  datatype Station = Station(name: string, locationId: int, enabled: bool, secretHash: SecretHash)

  /** `claimedWith` and `observedWith` are history: the credential the writer presented. No statement reads them. */
  datatype Session = Session(
    connection: string, claimedWith: SecretHash, protocolVersion: int, version: string, expiresAt: int)

  datatype Rejection = Rejection(
    observedWith: SecretHash, protocolVersion: Option<int>, version: string, expiresAt: int)

  datatype Tables = Tables(
    stations: map<int, Station>, sessions: map<int, Session>, rejections: map<int, Rejection>)

  const EMPTY := Tables(map[], map[], map[])

  /** `locationExists` is what the foreign key finds when the row is written. */
  datatype Mutation = Mutation(name: string, locationId: int, enabled: bool, locationExists: bool)

  datatype State = Online | Incompatible | Offline

  // ---------------------------------------------------------------- transactions

  predicate CredentialHolds(t: Tables, id: int, hash: SecretHash) {
    id in t.stations && t.stations[id].enabled && t.stations[id].secretHash == hash
  }

  function ClearClientStates(t: Tables, id: int): Tables {
    t.(sessions := t.sessions - {id}, rejections := t.rejections - {id})
  }

  predicate NameFree(t: Tables, name: string, except: int) {
    forall other :: other in t.stations && other != except ==> t.stations[other].name != name
  }

  predicate HashFree(t: Tables, hash: SecretHash, except: int) {
    forall other :: other in t.stations && other != except ==> t.stations[other].secretHash != hash
  }

  /** CHECK (btrim(name) <> ''). */
  predicate BlankName(name: string) {
    forall c :: c in name ==> c == ' '
  }

  /** `id` is the BIGSERIAL value drawn for the row. Check constraints come first, then unique indexes, then the foreign key. */
  function Create(t: Tables, id: int, mutation: Mutation, hash: SecretHash): Result<Tables, Fault> {
    if BlankName(mutation.name) || hash == Blank then Failure(InvalidInput)
    else if id in t.stations || !NameFree(t, mutation.name, id) || !HashFree(t, hash, id) then Failure(AlreadyExists)
    else if !mutation.locationExists then Failure(NotFound)
    else
      Success(t.(stations := t.stations[id := Station(mutation.name, mutation.locationId, mutation.enabled, hash)]))
  }

  function Update(t: Tables, id: int, mutation: Mutation): Result<Tables, Fault> {
    if id !in t.stations then Failure(NotFound)
    else if BlankName(mutation.name) then Failure(InvalidInput)
    else if !NameFree(t, mutation.name, id) then Failure(AlreadyExists)
    else if !mutation.locationExists then Failure(NotFound)
    else
      var row := t.stations[id].(name := mutation.name, locationId := mutation.locationId, enabled := mutation.enabled);
      var updated := t.(stations := t.stations[id := row]);
      Success(if mutation.enabled then updated else ClearClientStates(updated, id))
  }

  function RotateKey(t: Tables, id: int, hash: SecretHash): Result<Tables, Fault> {
    if id !in t.stations then Failure(NotFound)
    else if hash == Blank then Failure(InvalidInput)
    else if !HashFree(t, hash, id) then Failure(AlreadyExists)
    else
      Success(ClearClientStates(t.(stations := t.stations[id := t.stations[id].(secretHash := hash)]), id))
  }

  /** Session and rejection rows go with the station: both foreign keys are ON DELETE CASCADE. */
  function Delete(t: Tables, id: int): Result<Tables, Fault> {
    if id !in t.stations then Failure(NotFound)
    else Success(ClearClientStates(t.(stations := t.stations - {id}), id))
  }

  function Claim(t: Tables, now: int, id: int, hash: SecretHash, connection: string, protocolVersion: int, version: string)
    : Result<Tables, Fault>
  {
    if connection == "" then Failure(InvalidInput)
    else if !CredentialHolds(t, id, hash) then Failure(SessionInvalid)
    else
      Success(t.(
        sessions := t.sessions[id := Session(connection, hash, protocolVersion, version, now + SESSION_TTL)],
        rejections := t.rejections - {id}))
  }

  function Reject(t: Tables, now: int, id: int, hash: SecretHash, protocolVersion: Option<int>, version: string)
    : Result<Tables, Fault>
  {
    if !CredentialHolds(t, id, hash) then Failure(SessionInvalid)
    else Success(t.(rejections := t.rejections[id := Rejection(hash, protocolVersion, version, now + REJECTION_TTL)]))
  }

  /** Renewal matches the row by connection and lease and the station by `enabled`; it never looks at the key. */
  function Renew(t: Tables, now: int, id: int, connection: string): Result<Tables, Fault> {
    if id in t.sessions && t.sessions[id].connection == connection && now < t.sessions[id].expiresAt
       && id in t.stations && t.stations[id].enabled
    then Success(t.(sessions := t.sessions[id := t.sessions[id].(expiresAt := now + SESSION_TTL)]))
    else Failure(SessionInvalid)
  }

  function Release(t: Tables, id: int, connection: string): Tables {
    if id in t.sessions && t.sessions[id].connection == connection
    then t.(sessions := t.sessions - {id})
    else t
  }

  function StateAt(t: Tables, now: int, id: int): State {
    if id in t.sessions && now < t.sessions[id].expiresAt then Online
    else if id in t.rejections && now < t.rejections[id].expiresAt then Incompatible
    else Offline
  }

  // ---------------------------------------------------------------- the read-back after a commit

  /** The station as the read-back finds it: as committed, as a later transaction left it, or not at all. */
  datatype Reading = Current | Later(row: Option<Station>) | Unreadable

  function ReadBack(t: Tables, id: int, how: Reading): Result<Station, Fault> {
    match how
    case Current => if id in t.stations then Success(t.stations[id]) else Failure(NotFound)
    case Later(None) => Failure(NotFound)
    case Later(Some(row)) => Success(row)
    case Unreadable => Failure(Unmapped)
  }

  /** What the caller gets: the fault of the transaction, or what the read-back after its commit gives. */
  function Reply(outcome: Result<Tables, Fault>, id: int, how: Reading): Result<Station, Fault> {
    if outcome.Failure? then Failure(outcome.error) else ReadBack(outcome.value, id, how)
  }

  // ---------------------------------------------------------------- consistency

  /** Names and digests are unique, and none is blank. */
  ghost predicate KeysDistinct(t: Tables) {
    && (forall i, j :: i in t.stations && j in t.stations && i != j ==>
          t.stations[i].name != t.stations[j].name && t.stations[i].secretHash != t.stations[j].secretHash)
    && (forall i :: i in t.stations ==> t.stations[i].secretHash != Blank && !BlankName(t.stations[i].name))
  }

  /** The client rows of one station: it is enabled and they were written with its current key. */
  predicate RowsCurrent(t: Tables, id: int) {
    && (id in t.sessions ==> t.sessions[id].connection != "" && CredentialHolds(t, id, t.sessions[id].claimedWith))
    && (id in t.rejections ==> CredentialHolds(t, id, t.rejections[id].observedWith))
  }

  ghost predicate Consistent(t: Tables) {
    KeysDistinct(t) && forall id :: RowsCurrent(t, id)
  }

  // ---------------------------------------------------------------- keys

  /** Two keys have the same digest exactly when they are the same up to surrounding blanks; only a blank key has none. */
  lemma SameDigestIff(a: string, b: string)
    ensures HashSecret(a) == HashSecret(b) <==> Trim(a) == Trim(b)
    ensures HashSecret(a) == Blank <==> Trim(a) == ""
  {
  }

  /** The station's digest was made from the key. */
  predicate KeyedWith(t: Tables, id: int, key: string) {
    id in t.stations && t.stations[id].secretHash == HashSecret(key)
  }

  /** The presented key opens the station. */
  predicate Opens(t: Tables, id: int, secret: string) {
    CredentialHolds(t, id, HashSecret(secret))
  }

  /** A key opens a station exactly when the station is enabled and the key is its own, up to surrounding blanks. */
  lemma OpensIff(t: Tables, id: int, key: string, secret: string)
    requires KeyedWith(t, id, key)
    ensures Opens(t, id, secret) <==> t.stations[id].enabled && Trim(secret) == Trim(key)
  {
    SameDigestIff(secret, key);
  }

  /** A name is blank when it has no character but spaces. */
  lemma BlankNameIff(name: string)
    ensures !BlankName(name) <==> exists i :: 0 <= i < |name| && name[i] != ' '
  {
    if !BlankName(name) {
      var c :| c in name && c != ' ';
      var i :| 0 <= i < |name| && name[i] == c;
    }
    if i :| 0 <= i < |name| && name[i] != ' ' {
      assert name[i] in name;
    }
  }

  /** A created station has the name, location and switch it was given, opens with the key it was given, and has no client. */
  lemma CreatedStation(t: Tables, id: int, m: Mutation, key: string, secret: string)
    requires id !in t.sessions && id !in t.rejections
    ensures var r := Create(t, id, m, HashSecret(key));
      && (r.Success? <==>
            (exists i :: 0 <= i < |m.name| && m.name[i] != ' ') && Trim(key) != "" && m.locationExists && id !in t.stations
            && forall other :: other in t.stations ==> t.stations[other].name != m.name && !KeyedWith(t, other, key))
      && (r.Success? ==>
            var after := r.value;
            && after.stations[id].name == m.name && after.stations[id].locationId == m.locationId
            && after.stations[id].enabled == m.enabled
            && (Opens(after, id, secret) <==> m.enabled && Trim(secret) == Trim(key))
            && id !in after.sessions && id !in after.rejections)
  {
    SameDigestIff(key, secret);
    BlankNameIff(m.name);
  }

  /** An update sets name, location and switch, keeps the key, and clears the client rows exactly when it disables. */
  lemma UpdatedStation(t: Tables, id: int, m: Mutation, secret: string)
    ensures var r := Update(t, id, m);
      && (r.Success? <==>
            id in t.stations && (exists i :: 0 <= i < |m.name| && m.name[i] != ' ') && m.locationExists
            && forall other :: other in t.stations && other != id ==> t.stations[other].name != m.name)
      && (r.Success? ==>
            var after := r.value;
            && after.stations[id].name == m.name && after.stations[id].locationId == m.locationId
            && after.stations[id].enabled == m.enabled
            && (Opens(after, id, secret) <==> m.enabled && t.stations[id].secretHash == HashSecret(secret))
            && (if m.enabled then RowsOf(after, id).1 == RowsOf(t, id).1 && RowsOf(after, id).2 == RowsOf(t, id).2
                else id !in after.sessions && id !in after.rejections))
  {
    BlankNameIff(m.name);
  }

  /** After a rotation the new key opens the station and no other does; all else about it stays, and its clients go. */
  lemma RotatedStation(t: Tables, id: int, key: string, secret: string)
    ensures var r := RotateKey(t, id, HashSecret(key));
      && (r.Success? <==>
            id in t.stations && Trim(key) != "" && forall other :: other in t.stations && other != id ==> !KeyedWith(t, other, key))
      && (r.Success? ==>
            var after := r.value;
            && (Opens(after, id, secret) <==> t.stations[id].enabled && Trim(secret) == Trim(key))
            && after.stations[id].name == t.stations[id].name && after.stations[id].locationId == t.stations[id].locationId
            && after.stations[id].enabled == t.stations[id].enabled
            && id !in after.sessions && id !in after.rejections)
  {
    SameDigestIff(key, secret);
  }

  lemma DeletedStation(t: Tables, id: int)
    ensures var r := Delete(t, id);
      && (r.Success? <==> id in t.stations)
      && (r.Success? ==> id !in r.value.stations && id !in r.value.sessions && id !in r.value.rejections)
  {
  }

  /** A claim with the station's key records the client for fifteen seconds and forgets its rejection. */
  lemma ClaimedSession(
    t: Tables, now: int, id: int, key: string, secret: string, connection: string, protocolVersion: int, version: string)
    requires KeyedWith(t, id, key)
    ensures var r := Claim(t, now, id, HashSecret(secret), connection, protocolVersion, version);
      && (r.Success? <==> connection != "" && t.stations[id].enabled && Trim(secret) == Trim(key))
      && (r.Success? ==>
            && id in r.value.sessions && r.value.sessions[id].connection == connection
            && r.value.sessions[id].protocolVersion == protocolVersion && r.value.sessions[id].version == version
            && r.value.sessions[id].expiresAt == now + 15 * 1_000_000
            && id !in r.value.rejections && r.value.stations == t.stations)
  {
    OpensIff(t, id, key, secret);
  }

  /** A rejection with the station's key is remembered for five minutes beside the session. */
  lemma RecordedRejection(
    t: Tables, now: int, id: int, key: string, secret: string, protocolVersion: Option<int>, version: string)
    requires KeyedWith(t, id, key)
    ensures var r := Reject(t, now, id, HashSecret(secret), protocolVersion, version);
      && (r.Success? <==> t.stations[id].enabled && Trim(secret) == Trim(key))
      && (r.Success? ==>
            && id in r.value.rejections && r.value.rejections[id].protocolVersion == protocolVersion
            && r.value.rejections[id].version == version
            && r.value.rejections[id].expiresAt == now + 5 * 60 * 1_000_000
            && r.value.sessions == t.sessions && r.value.stations == t.stations)
  {
    OpensIff(t, id, key, secret);
  }

  /** A renewal moves the end of the lease to fifteen seconds from now, and changes nothing else. */
  lemma RenewedSession(t: Tables, now: int, id: int, connection: string)
    ensures var r := Renew(t, now, id, connection);
      && (r.Success? <==>
            id in t.sessions && t.sessions[id].connection == connection && now < t.sessions[id].expiresAt
            && id in t.stations && t.stations[id].enabled)
      && (r.Success? ==>
            && id in r.value.sessions && r.value.sessions[id] == t.sessions[id].(expiresAt := now + 15 * 1_000_000)
            && r.value.stations == t.stations && r.value.rejections == t.rejections)
  {
  }

  // ---------------------------------------------------------------- one transaction of any kind

  datatype Op =
    | OpCreate(id: int, mutation: Mutation, hash: SecretHash)
    | OpUpdate(id: int, mutation: Mutation)
    | OpRotate(id: int, hash: SecretHash)
    | OpDelete(id: int)
    | OpClaim(id: int, hash: SecretHash, connection: string, protocolVersion: int, version: string)
    | OpReject(id: int, hash: SecretHash, reported: Option<int>, version: string)
    | OpRenew(id: int, connection: string)
    | OpRelease(id: int, connection: string)

  function Perform(t: Tables, now: int, op: Op): Result<Tables, Fault> {
    match op
    case OpCreate(id, mutation, hash) => Create(t, id, mutation, hash)
    case OpUpdate(id, mutation) => Update(t, id, mutation)
    case OpRotate(id, hash) => RotateKey(t, id, hash)
    case OpDelete(id) => Delete(t, id)
    case OpClaim(id, hash, connection, protocolVersion, version) =>
      Claim(t, now, id, hash, connection, protocolVersion, version)
    case OpReject(id, hash, reported, version) => Reject(t, now, id, hash, reported, version)
    case OpRenew(id, connection) => Renew(t, now, id, connection)
    case OpRelease(id, connection) => Success(Release(t, id, connection))
  }

  /** A transaction that fails rolls back. */
  function Commit(t: Tables, now: int, op: Op): Tables {
    var outcome := Perform(t, now, op);
    if outcome.Success? then outcome.value else t
  }

  /**
   After a commit that leaves the station in place, the caller gets an error
   exactly when the read-back fails or finds the station deleted meanwhile; read
   as committed, it is the row just written.
   */
  lemma ErrorAfterCommitIff(t: Tables, now: int, op: Op, how: Reading)
    requires (op.OpCreate? || op.OpUpdate? || op.OpRotate?) && Perform(t, now, op).Success?
    ensures Reply(Perform(t, now, op), op.id, how).Failure? <==> how == Unreadable || how == Later(None)
    ensures how == Current ==>
      op.id in Commit(t, now, op).stations
      && Reply(Perform(t, now, op), op.id, how) == Success(Commit(t, now, op).stations[op.id])
  {
  }

  /** The rows of one station. */
  function RowsOf(t: Tables, id: int): (Option<Station>, Option<Session>, Option<Rejection>) {
    (if id in t.stations then Some(t.stations[id]) else None,
     if id in t.sessions then Some(t.sessions[id]) else None,
     if id in t.rejections then Some(t.rejections[id]) else None)
  }

  /** Every transaction touches the rows of one station only. */
  lemma CommitFrame(t: Tables, now: int, op: Op, other: int)
    requires other != op.id
    ensures RowsOf(Commit(t, now, op), other) == RowsOf(t, other)
  {
  }

  lemma SetStationKeepsKeys(t: Tables, id: int, row: Station)
    requires KeysDistinct(t) && row.secretHash != Blank && !BlankName(row.name) && NameFree(t, row.name, id) && HashFree(t, row.secretHash, id)
    ensures KeysDistinct(t.(stations := t.stations[id := row]))
  {
  }

  lemma CommitKeepsKeysDistinct(t: Tables, now: int, op: Op)
    requires KeysDistinct(t)
    ensures KeysDistinct(Commit(t, now, op))
  {
    if Perform(t, now, op).Success? && (op.OpCreate? || op.OpUpdate? || op.OpRotate?) {
      SetStationKeepsKeys(t, op.id, Commit(t, now, op).stations[op.id]);
    }
  }

  lemma CommitKeepsRowsCurrent(t: Tables, now: int, op: Op)
    requires RowsCurrent(t, op.id)
    requires op.OpCreate? ==> op.id in t.stations || (op.id !in t.sessions && op.id !in t.rejections)
    ensures RowsCurrent(Commit(t, now, op), op.id)
  {
  }

  /** Every transaction keeps the tables consistent. */
  lemma CommitKeepsConsistent(t: Tables, now: int, op: Op)
    requires Consistent(t)
    ensures Consistent(Commit(t, now, op))
  {
    CommitKeepsKeysDistinct(t, now, op);
    forall id ensures RowsCurrent(Commit(t, now, op), id) {
      assert RowsCurrent(t, id) && RowsCurrent(t, op.id);
      if id == op.id {
        CommitKeepsRowsCurrent(t, now, op);
      } else {
        CommitFrame(t, now, op, id);
      }
    }
  }

  /** Renewal never reads the key, yet in consistent tables it succeeds only for the holder of the current key. */
  lemma RenewImpliesAuthority(t: Tables, now: int, id: int, connection: string)
    requires Consistent(t)
    ensures Renew(t, now, id, connection).Success? <==>
      id in t.sessions && t.sessions[id].connection == connection && now < t.sessions[id].expiresAt
    ensures Renew(t, now, id, connection).Success? ==> CredentialHolds(t, id, t.sessions[id].claimedWith)
  {
    assert RowsCurrent(t, id);
  }
}
