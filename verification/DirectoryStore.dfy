/** The directory store as it runs: the reconciliation statement by statement, and the user mutations. */
module DirectoryStore {
  import opened DirectoryTables
  import opened ProviderSync
  import opened SyncRuns
  import opened Wrappers

  class Store {
    var users: UserTable
    var groups: GroupTable
    var memberships: set<(int, int)>
    var roles: map<int, RoleSummary>
    var userRoles: set<(int, int)>
    var groupRoles: set<(int, int)>
    var locationGroups: set<(int, int)>

    function Value(): Directory
      reads this
    {
      Directory(users, groups, memberships, roles, userRoles, groupRoles, locationGroups)
    }

    constructor ()
      ensures Valid(Value())
    {
      users, groups := UserTable(map[], 0), GroupTable(map[], 0);
      memberships, roles, userRoles, groupRoles, locationGroups := {}, map[], {}, {}, {};
    }

    /** INSERT ... ON CONFLICT for one staged group. */
    method UpsertStagedGroup(source: Source, g: ProviderGroup)
      requires GroupsOk(groups)
      modifies this`groups
      ensures groups == UpsertGroup(old(groups), source, g)
    {
      var id, row := groups.next, GroupRow(source, g.externalId, g.displayName, NullString(g.mailNickname));
      if known :| known in groups.rows && IsGroup(groups.rows[known], source, g.externalId) {
        assert known == GroupId(groups, source, g.externalId);
        id, row := known, groups.rows[known].(displayName := g.displayName, mailNickname := NullString(g.mailNickname));
      }
      groups := GroupTable(groups.rows[id := row], groups.next + 1);
    }

    /** INSERT ... ON CONFLICT for every staged group, in any order. */
    method UpsertStagedGroups(source: Source, current: map<string, ProviderGroup>) returns (ghost order: seq<string>)
      requires source != Local && GroupsOk(groups) && GroupsKeyed(current)
      modifies this`groups
      ensures IsOrder(order, current.Keys)
      ensures groups == UpsertGroups(old(groups), source, current, order)
    {
      order := [];
      var pending := current.Keys;
      while pending != {}
        invariant pending <= current.Keys
        invariant IsOrder(order, current.Keys - pending)
        invariant groups == UpsertGroups(old(groups), source, current, order)
        decreases |pending|
      {
        var e :| e in pending;
        UpsertGroupsProgress(old(groups), source, current, order);
        UpsertStagedGroup(source, current[e]);
        assert (order + [e])[..|order|] == order;
        order := order + [e];
        pending := pending - {e};
      }
    }

    /** One staged row: INSERT ... ON CONFLICT, then the partial unique indexes are checked against the other rows. */
    method UpsertStagedUser(source: Source, u: ProviderUser) returns (violated: bool)
      requires UsersOk(users) && NoClash(users)
      modifies this`users
      ensures users == UpsertUser(old(users), source, u)
      ensures violated <==> !NoClash(users)
    {
      var id := users.next;
      var row := UserRow(source, Some(u.externalId), Staged(u), None, None, !u.enabled);
      if known :| known in users.rows && IsRow(users.rows[known], source, u.externalId) {
        assert known == UserId(users, source, u.externalId);
        id, row := known, users.rows[known].(attributes := Staged(u), deleted := !u.enabled);
      }
      violated := exists other :: other in users.rows && other != id && Clash(row, users.rows[other]);
      ghost var before := users;
      users := UserTable(users.rows[id := row], users.next + 1);
      IndexCheck(before, users, id, row);
    }

    /** Checking the new row against the others is enough to know that no two rows clash. */
    static lemma IndexCheck(before: UserTable, after: UserTable, id: int, row: UserRow)
      requires NoClash(before) && after.rows == before.rows[id := row]
      ensures NoClash(after) <==> forall other :: other in before.rows && other != id ==> !Clash(row, before.rows[other])
    {
      if forall other :: other in before.rows && other != id ==> !Clash(row, before.rows[other]) {
        forall i, j | i in after.rows && j in after.rows && i != j ensures !Clash(after.rows[i], after.rows[j]) {
          if i != id && j != id {
            assert !Clash(before.rows[i], before.rows[j]);
          }
        }
      } else {
        var other :| other in before.rows && other != id && Clash(row, before.rows[other]);
        assert Clash(after.rows[id], after.rows[other]);
      }
    }

    /** What the rows visited so far say about the snapshot. */
    static lemma Verdict(before: UserTable, source: Source, current: map<string, ProviderUser>, order: seq<string>, done: set<string>)
      requires source == Entra && UsersOk(before) && Tombstoned(before, source) && Keyed(current)
      requires done <= current.Keys && IsOrder(order, done)
      ensures UsersOk(UpsertUsers(before, source, current, order))
      ensures NoClash(UpsertUsers(before, source, current, order)) <==> Distinct(current, done)
    {
      UpsertsProgress(before, source, current, order);
      assert Elems(order) == done;
      ClashOnlyWithinSnapshot(before, UpsertUsers(before, source, current, order), source, current, done);
    }

    /**
     INSERT ... ON CONFLICT for every staged user, in any order. It fails exactly
     when two staged users cannot be active together.
     */
    method UpsertStagedUsers(source: Source, current: map<string, ProviderUser>) returns (ok: bool, ghost order: seq<string>)
      requires source == Entra && UsersOk(users) && Tombstoned(users, source) && Keyed(current)
      modifies this`users
      ensures ok <==> Distinct(current, current.Keys)
      ensures ok ==> IsOrder(order, current.Keys) && users == UpsertUsers(old(users), source, current, order)
    {
      order := [];
      var pending := current.Keys;
      Verdict(users, source, current, [], {});
      while pending != {}
        invariant pending <= current.Keys
        invariant IsOrder(order, current.Keys - pending)
        invariant users == UpsertUsers(old(users), source, current, order)
        invariant UsersOk(users) && NoClash(users)
        decreases |pending|
      {
        var e :| e in pending;
        var violated := UpsertStagedUser(source, current[e]);
        assert (order + [e])[..|order|] == order;
        order := order + [e];
        pending := pending - {e};
        Verdict(old(users), source, current, order, current.Keys - pending);
        if violated {
          return false, order;
        }
      }
      ok := true;
      Verdict(old(users), source, current, order, current.Keys);
    }

    method ReconcileGroups(source: Source, current: map<string, ProviderGroup>) returns (ghost order: seq<string>)
      requires source != Local && GroupsOk(groups) && GroupsKeyed(current)
      modifies this`groups, this`memberships, this`groupRoles, this`locationGroups
      ensures IsOrder(order, current.Keys)
      ensures Value() == DeleteMissingGroups(
        old(Value()).(groups := UpsertGroups(old(groups), source, current, order)), source, current.Keys)
    {
      order := UpsertStagedGroups(source, current);
      var kept := map i | i in groups.rows
        && !(groups.rows[i].source == source && groups.rows[i].externalId !in current.Keys) :: groups.rows[i];
      memberships := set m | m in memberships && m.1 in kept;
      groupRoles := set m | m in groupRoles && m.0 in kept;
      locationGroups := set m | m in locationGroups && m.1 in kept;
      groups := GroupTable(kept, groups.next);
    }

    method ReconcileUsers(source: Source, current: map<string, ProviderUser>) returns (ok: bool, ghost order: seq<string>)
      requires source == Entra && UsersOk(users) && Keyed(current)
      modifies this`users
      ensures ok <==> Distinct(current, current.Keys)
      ensures ok ==>
        IsOrder(order, current.Keys) && users == UpsertUsers(Tombstone(old(users), source), source, current, order)
    {
      TombstoneOk(users, source);
      users := Tombstone(users, source);
      ok, order := UpsertStagedUsers(source, current);
    }

    method ReconcileMemberships(source: Source, current: map<string, ProviderUser>)
      modifies this`memberships
      ensures Value() == RebuildMemberships(old(Value()), source, current)
    {
      var inserted := StagedMembers(Value(), source, current);
      memberships := set m | m in memberships && !Internal(Value(), source, m);
      memberships := memberships + inserted;
    }

    /** The three reconciliations of a staged snapshot; not ok when a unique index stopped the second. */
    method Reconcile(source: Source, snapshot: Snapshot)
      returns (ok: bool, ghost groupOrder: seq<string>, ghost userOrder: seq<string>)
      requires source == Entra && UsersOk(users) && GroupsOk(groups)
      modifies this`users, this`groups, this`memberships, this`groupRoles, this`locationGroups
      ensures ok <==> Insertable(snapshot)
      ensures ok ==>
        && IsOrder(groupOrder, CurrentGroups(snapshot.groups).Keys)
        && IsOrder(userOrder, CurrentUsers(snapshot.users).Keys)
        && Value() == Reconciled(old(Value()), source, snapshot, groupOrder, userOrder)
    {
      var stagedGroups, stagedUsers := CurrentGroups(snapshot.groups), CurrentUsers(snapshot.users);
      StagingKeyed(snapshot);
      groupOrder := ReconcileGroups(source, stagedGroups);
      ok, userOrder := ReconcileUsers(source, stagedUsers);
      if ok {
        ReconcileMemberships(source, stagedUsers);
      }
    }

    /** The whole transaction: it commits exactly when the snapshot is insertable, and otherwise rolls back. */
    method ApplyProviderSnapshot(source: Source, snapshot: Snapshot)
      returns (r: Result<(), Fault>, ghost groupOrder: seq<string>, ghost userOrder: seq<string>)
      requires Valid(Value())
      modifies this
      ensures Valid(Value())
      ensures source == Local ==> r == Failure(LocalSource)
      ensures source != Local ==> (r.Success? <==> Insertable(snapshot)) && (r.Failure? ==> r.error == Unmapped)
      ensures r.Failure? ==> Value() == old(Value())
      ensures r.Success? ==>
        && IsOrder(groupOrder, CurrentGroups(snapshot.groups).Keys)
        && IsOrder(userOrder, CurrentUsers(snapshot.users).Keys)
        && Value() == Reconciled(old(Value()), source, snapshot, groupOrder, userOrder)
      ensures r.Success? ==> ViewOf(Value(), source) == ViewOfSnapshot(snapshot)
      ensures r.Success? ==> SourceShows(Value(), source, CurrentUsers(snapshot.users), CurrentGroups(snapshot.groups))
    {
      groupOrder, userOrder := [], [];
      if source == Local {
        return Failure(LocalSource), [], [];
      }
      var before := Value();
      var ok;
      ok, groupOrder, userOrder := Reconcile(source, snapshot);
      if !ok {
        users, groups, memberships := before.users, before.groups, before.memberships;
        groupRoles, locationGroups := before.groupRoles, before.locationGroups;
        return Failure(Unmapped), groupOrder, userOrder;
      }
      r := Success(());
      Committed(before, Value(), source, snapshot, groupOrder, userOrder);
    }

    lemma StagingKeyed(snapshot: Snapshot)
      ensures Keyed(CurrentUsers(snapshot.users)) && GroupsKeyed(CurrentGroups(snapshot.groups))
    {
      forall e | e in CurrentUsers(snapshot.users) ensures CurrentUsers(snapshot.users)[e].externalId == e {
        CurrentUsersFrom(snapshot.users, e);
      }
      forall e | e in CurrentGroups(snapshot.groups) ensures CurrentGroups(snapshot.groups)[e].externalId == e {
        CurrentGroupsFrom(snapshot.groups, e);
      }
    }

    static lemma Committed(
      before: Directory, after: Directory, source: Source, snapshot: Snapshot, groupOrder: seq<string>, userOrder: seq<string>)
      requires Valid(before) && source == Entra && Insertable(snapshot)
      requires IsOrder(groupOrder, CurrentGroups(snapshot.groups).Keys)
      requires IsOrder(userOrder, CurrentUsers(snapshot.users).Keys)
      requires after == Reconciled(before, source, snapshot, groupOrder, userOrder)
      ensures Valid(after) && ViewOf(after, source) == ViewOfSnapshot(snapshot)
      ensures SourceShows(after, source, CurrentUsers(snapshot.users), CurrentGroups(snapshot.groups))
    {
      SyncShowsFields(before, source, snapshot, groupOrder, userOrder);
      SyncKeepsValid(before, Sync(snapshot, groupOrder, userOrder));
      SyncReplacesView(before, source, snapshot, groupOrder, userOrder);
    }

    /** DELETE the user's direct roles, then INSERT the new ones; an unknown role violates its foreign key. */
    method ReplaceUserRoles(id: int, roleIds: set<int>) returns (ok: bool)
      modifies this`userRoles
      ensures ok <==> roleIds <= roles.Keys
      ensures ok ==>
        userRoles == (set m | m in old(userRoles) && m.0 != id) + (set role | role in roleIds :: (id, role))
    {
      userRoles := set m | m in userRoles && m.0 != id;
      if !(roleIds <= roles.Keys) {
        return false;
      }
      userRoles := userRoles + set role | role in roleIds :: (id, role);
      ok := true;
    }

    method UpdateUser(id: int, name: string, passwordHash: Option<string>, roleIds: set<int>) returns (r: Result<(), Fault>)
      modifies this`users, this`userRoles
      ensures match Updated(old(Value()), id, name, passwordHash, roleIds)
        case Success(after) => r == Success(()) && Value() == after
        case Failure(fault) => r == Failure(fault) && Value() == old(Value())
    {
      if id !in users.rows || users.rows[id].deleted {
        return Failure(NotFound);
      }
      var before := Value();
      var row := users.rows[id];
      if row.source == Local {
        row := row.(attributes := row.attributes.(name := name),
                    passwordHash := if passwordHash.Some? then passwordHash else row.passwordHash);
      }
      users := users.(rows := users.rows[id := row]);
      var ok := ReplaceUserRoles(id, roleIds);
      if !ok {
        users, userRoles := before.users, before.userRoles;
        return Failure(NotFound);
      }
      r := Success(());
    }

    method DeleteUser(id: int, referenced: bool) returns (r: Result<(), Fault>)
      modifies this`users, this`memberships, this`userRoles
      ensures match Deleted(old(Value()), id, referenced)
        case Success(after) => r == Success(()) && Value() == after
        case Failure(fault) => r == Failure(fault) && Value() == old(Value())
    {
      if id !in users.rows || users.rows[id].deleted {
        return Failure(NotFound);
      }
      if users.rows[id].source == Local {
        if referenced {
          return Failure(NotFound);
        }
        users := users.(rows := users.rows - {id});
        memberships := set m | m in memberships && m.0 != id;
        userRoles := set m | m in userRoles && m.0 != id;
      } else {
        users := users.(rows := users.rows[id := users.rows[id].(deleted := true)]);
      }
      r := Success(());
    }
  }
}
