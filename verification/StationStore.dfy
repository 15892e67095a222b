/**
 The station store: the three tables as fields, and each exported operation as
 the statements its transaction runs. Every method is proved against the
 transaction of StationTables; a failure leaves the fields as they were.
 */
module StationStore {
  import opened StationTables
  import opened Text
  import opened Wrappers

  /** What a transaction does to the fields: its new tables on success, nothing on failure. */
  predicate Ran(outcome: Result<Tables, Fault>, before: Tables, after: Tables, r: Result<(), Fault>) {
    match outcome
    case Success(tables) => r == Success(()) && after == tables
    case Failure(fault) => r == Failure(fault) && after == before
  }

  /** The same, answered with the station read back; an error then need not mean that nothing changed. */
  predicate Answered(
    outcome: Result<Tables, Fault>, id: int, how: Reading, before: Tables, after: Tables, r: Result<Station, Fault>)
  {
    after == (if outcome.Success? then outcome.value else before) && r == Reply(outcome, id, how)
  }

  class Store {
    var stations: map<int, Station>
    var sessions: map<int, Session>
    var rejections: map<int, Rejection>

    function Value(): Tables
      reads this
    {
      Tables(stations, sessions, rejections)
    }

    constructor ()
      ensures Value() == EMPTY
    {
      stations, sessions, rejections := map[], map[], map[];
    }

    method LockStationCredential(id: int, secret: string) returns (r: Result<(), Fault>)
      ensures r == if CredentialHolds(Value(), id, HashSecret(secret)) then Success(()) else Failure(SessionInvalid)
      ensures forall key :: KeyedWith(Value(), id, key) ==>
        (r.Success? <==> stations[id].enabled && Trim(secret) == Trim(key))
    {
      forall key | KeyedWith(Value(), id, key)
        ensures Opens(Value(), id, secret) <==> stations[id].enabled && Trim(secret) == Trim(key)
      {
        OpensIff(Value(), id, key, secret);
      }
      var found := id in stations && stations[id].enabled && stations[id].secretHash == HashSecret(secret);
      if !found {
        return Failure(SessionInvalid);
      }
      r := Success(());
    }

    method ClearClientStates(id: int)
      modifies this
      ensures Value() == StationTables.ClearClientStates(old(Value()), id)
    {
      sessions := sessions - {id};
      rejections := rejections - {id};
    }

    method Get(id: int, how: Reading) returns (r: Result<Station, Fault>)
      ensures r == ReadBack(Value(), id, how)
    {
      match how
      case Current => r := if id in stations then Success(stations[id]) else Failure(NotFound);
      case Later(row) => r := if row.Some? then Success(row.value) else Failure(NotFound);
      case Unreadable => r := Failure(Unmapped);
    }

    method CreateStation(id: int, mutation: Mutation, hash: SecretHash, how: Reading) returns (r: Result<Station, Fault>)
      modifies this
      ensures Answered(Create(old(Value()), id, mutation, hash), id, how, old(Value()), Value(), r)
    {
      if BlankName(mutation.name) || hash == Blank {
        return Failure(InvalidInput);
      }
      if id in stations || !NameFree(Value(), mutation.name, id) || !HashFree(Value(), hash, id) {
        return Failure(AlreadyExists);
      }
      if !mutation.locationExists {
        return Failure(NotFound);
      }
      stations := stations[id := Station(mutation.name, mutation.locationId, mutation.enabled, hash)];
      r := Get(id, how);
    }

    method UpdateStation(id: int, mutation: Mutation, how: Reading) returns (r: Result<Station, Fault>)
      modifies this
      ensures Answered(Update(old(Value()), id, mutation), id, how, old(Value()), Value(), r)
    {
      if id !in stations {
        return Failure(NotFound);
      }
      if BlankName(mutation.name) {
        return Failure(InvalidInput);
      }
      if !NameFree(Value(), mutation.name, id) {
        return Failure(AlreadyExists);
      }
      if !mutation.locationExists {
        return Failure(NotFound);
      }
      stations := stations[id := stations[id].(
        name := mutation.name, locationId := mutation.locationId, enabled := mutation.enabled)];
      if !mutation.enabled {
        ClearClientStates(id);
      }
      r := Get(id, how);
    }

    method RotateKey(id: int, hash: SecretHash, how: Reading) returns (r: Result<Station, Fault>)
      modifies this
      ensures Answered(StationTables.RotateKey(old(Value()), id, hash), id, how, old(Value()), Value(), r)
    {
      if id !in stations {
        return Failure(NotFound);
      }
      if hash == Blank {
        return Failure(InvalidInput);
      }
      if !HashFree(Value(), hash, id) {
        return Failure(AlreadyExists);
      }
      stations := stations[id := stations[id].(secretHash := hash)];
      ClearClientStates(id);
      r := Get(id, how);
    }

    method DeleteStation(id: int) returns (r: Result<(), Fault>)
      modifies this
      ensures Ran(Delete(old(Value()), id), old(Value()), Value(), r)
    {
      if id !in stations {
        return Failure(NotFound);
      }
      stations := stations - {id};
      sessions := sessions - {id};
      rejections := rejections - {id};
      r := Success(());
    }

    /** Finds the enabled station holding the presented key; distinct keys make it the only one. */
    method Authenticate(secret: string) returns (r: Result<int, Fault>)
      requires KeysDistinct(Value())
      ensures r.Success? ==> forall id :: CredentialHolds(Value(), id, HashSecret(secret)) <==> id == r.value
      ensures r.Failure? ==> r.error == Unauthorized && forall id :: !CredentialHolds(Value(), id, HashSecret(secret))
      ensures forall id, key :: KeyedWith(Value(), id, key) ==>
        (r == Success(id) <==> stations[id].enabled && Trim(secret) == Trim(key))
    {
      forall id, key | KeyedWith(Value(), id, key)
        ensures Opens(Value(), id, secret) <==> stations[id].enabled && Trim(secret) == Trim(key)
      {
        OpensIff(Value(), id, key, secret);
      }
      var hash := HashSecret(secret);
      if hash == Blank {
        return Failure(Unauthorized);
      }
      if id :| id in stations && stations[id].secretHash == hash && stations[id].enabled {
        assert CredentialHolds(Value(), id, hash);
        return Success(id);
      }
      r := Failure(Unauthorized);
    }

    method ObserveRejectedClient(
      now: int, id: int, secret: string, protocolVersion: Option<int>, version: string)
      returns (r: Result<(), Fault>)
      modifies this
      ensures Ran(Reject(old(Value()), now, id, HashSecret(secret), protocolVersion, version), old(Value()), Value(), r)
      ensures forall key :: KeyedWith(old(Value()), id, key) ==>
        (r.Success? <==> old(stations[id]).enabled && Trim(secret) == Trim(key))
    {
      r := LockStationCredential(id, secret);
      if r.Success? {
        rejections := rejections[id :=
          Rejection(HashSecret(secret), protocolVersion, version, now + REJECTION_TTL)];
      }
    }

    method ClaimClientSession(
      now: int, id: int, secret: string, connection: string, protocolVersion: int, version: string)
      returns (r: Result<(), Fault>)
      modifies this
      ensures Ran(Claim(old(Value()), now, id, HashSecret(secret), connection, protocolVersion, version), old(Value()), Value(), r)
      ensures forall key :: KeyedWith(old(Value()), id, key) ==>
        (r.Success? <==> connection != "" && old(stations[id]).enabled && Trim(secret) == Trim(key))
    {
      if connection == "" {
        return Failure(InvalidInput);
      }
      r := LockStationCredential(id, secret);
      if r.Success? {
        sessions := sessions[id :=
          Session(connection, HashSecret(secret), protocolVersion, version, now + SESSION_TTL)];
        rejections := rejections - {id};
      }
    }

    method RenewClientSession(now: int, id: int, connection: string) returns (r: Result<(), Fault>)
      modifies this
      ensures Ran(Renew(old(Value()), now, id, connection), old(Value()), Value(), r)
    {
      var rowsAffected := 0;
      if id in sessions && sessions[id].connection == connection && sessions[id].expiresAt > now
         && id in stations && stations[id].enabled {
        sessions := sessions[id := sessions[id].(expiresAt := now + SESSION_TTL)];
        rowsAffected := 1;
      }
      r := if rowsAffected == 0 then Failure(SessionInvalid) else Success(());
    }

    method ReleaseClientSession(id: int, connection: string)
      modifies this
      ensures Value() == Release(old(Value()), id, connection)
    {
      if id in sessions && sessions[id].connection == connection {
        sessions := sessions - {id};
      }
    }
  }
}
