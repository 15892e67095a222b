/** Syncs among user updates and deletes: when a sync commits, what any run of them keeps, and who is eligible afterwards. */
module SyncRuns {
  import opened DirectoryTables
  import opened ProviderSync
  import opened Wrappers

  // ---------------------------------------------------------------- transactions

  datatype Op =
    | Sync(snapshot: Snapshot, groupOrder: seq<string>, userOrder: seq<string>)
    | UpdateUser(id: int, name: string, passwordHash: Option<string>, roleIds: set<int>)
    | DeleteUser(id: int, referenced: bool)

  ghost predicate WellFormed(op: Op) {
    op.Sync? ==>
      && IsOrder(op.groupOrder, CurrentGroups(op.snapshot.groups).Keys)
      && IsOrder(op.userOrder, CurrentUsers(op.snapshot.users).Keys)
  }

  /** The enabled last-wins users have pairwise distinct emails and pairwise distinct principal names. */
  ghost predicate Insertable(snapshot: Snapshot) {
    Distinct(CurrentUsers(snapshot.users), CurrentUsers(snapshot.users).Keys)
  }

  predicate Active(d: Directory, id: int) {
    id in d.users.rows && !d.users.rows[id].deleted
  }

  /** Name and password change on local rows only; direct roles are replaced, and must exist. */
  function Updated(d: Directory, id: int, name: string, passwordHash: Option<string>, roleIds: set<int>)
    : Result<Directory, Fault>
  {
    if !Active(d, id) then Failure(NotFound)
    else if !(roleIds <= d.roles.Keys) then Failure(NotFound)
    else
      var row := d.users.rows[id];
      var written :=
        if row.source == Local
        then row.(attributes := row.attributes.(name := name),
                  passwordHash := if passwordHash.Some? then passwordHash else row.passwordHash)
        else row;
      Success(d.(users := d.users.(rows := d.users.rows[id := written]),
                 userRoles := (set m | m in d.userRoles && m.0 != id) + (set r | r in roleIds :: (id, r))))
  }

  /** Local rows go, with their links; provider rows become tombstones. Check-ins may still reference a local row. */
  function Deleted(d: Directory, id: int, referenced: bool): Result<Directory, Fault> {
    if !Active(d, id) then Failure(NotFound)
    else if d.users.rows[id].source != Local then
      Success(d.(users := d.users.(rows := d.users.rows[id := d.users.rows[id].(deleted := true)])))
    else if referenced then Failure(NotFound)
    else
      Success(d.(users := d.users.(rows := d.users.rows - {id}),
                 memberships := (set m | m in d.memberships && m.0 != id),
                 userRoles := (set m | m in d.userRoles && m.0 != id)))
  }

  ghost function Perform(d: Directory, op: Op): Result<Directory, Fault>
    requires WellFormed(op)
  {
    match op
    case Sync(snapshot, groupOrder, userOrder) =>
      if Insertable(snapshot) then Success(Reconciled(d, Entra, snapshot, groupOrder, userOrder)) else Failure(Unmapped)
    case UpdateUser(id, name, passwordHash, roleIds) => Updated(d, id, name, passwordHash, roleIds)
    case DeleteUser(id, referenced) => Deleted(d, id, referenced)
  }

  ghost function After(d: Directory, op: Op): Directory
    requires WellFormed(op)
  {
    var r := Perform(d, op);
    if r.Success? then r.value else d
  }

  /** The links of every other user, and everything that is not about users, is as it was. */
  predicate OnlyUser(d: Directory, after: Directory, id: int) {
    && after.groups == d.groups && after.roles == d.roles && after.groupRoles == d.groupRoles
    && after.locationGroups == d.locationGroups
    && (forall i :: i in d.users.rows && i != id ==> i in after.users.rows && after.users.rows[i] == d.users.rows[i])
    && (forall i :: i in after.users.rows && i != id ==> i in d.users.rows)
    && (forall m :: m in after.userRoles && m.0 != id ==> m in d.userRoles)
    && (forall m :: m in d.userRoles && m.0 != id ==> m in after.userRoles)
    && (forall m :: m in after.memberships && m.0 != id ==> m in d.memberships)
    && (forall m :: m in d.memberships && m.0 != id ==> m in after.memberships)
  }

  /**
   An update succeeds exactly for an active user and known roles. A local user gets
   the name, and the password when there is one; a provider user's row is not
   touched; either way the direct roles are exactly the given ones.
   */
  lemma UpdatedUser(d: Directory, id: int, name: string, passwordHash: Option<string>, roleIds: set<int>)
    ensures var r := Perform(d, UpdateUser(id, name, passwordHash, roleIds));
      && (r.Success? <==> Active(d, id) && roleIds <= d.roles.Keys)
      && (r.Success? ==>
            var after := r.value; var was := d.users.rows[id];
            && OnlyUser(d, after, id) && id in after.users.rows
            && (forall role :: (id, role) in after.userRoles <==> role in roleIds)
            && (forall group :: (id, group) in after.memberships <==> (id, group) in d.memberships)
            && var row := after.users.rows[id];
               && (was.source != Local ==> row == was)
               && (was.source == Local ==>
                     row.attributes == was.attributes.(name := name) && row.apiKey == was.apiKey
                     && row.source == Local && row.externalId == was.externalId && !row.deleted
                     && (passwordHash.Some? ==> row.passwordHash == passwordHash)
                     && (passwordHash.None? ==> row.passwordHash == was.passwordHash)))
  {
  }

  /**
   A delete succeeds exactly for an active user that no check-in keeps. A local
   user's row and links are gone; a provider user's row stays as a tombstone, links
   and credentials included.
   */
  lemma DeletedUser(d: Directory, id: int, referenced: bool)
    ensures var r := Perform(d, DeleteUser(id, referenced));
      && (r.Success? <==> Active(d, id) && !(d.users.rows[id].source == Local && referenced))
      && (r.Success? ==>
            var after := r.value;
            && OnlyUser(d, after, id) && !Active(after, id)
            && (d.users.rows[id].source == Local ==>
                  id !in after.users.rows
                  && (forall m :: m in after.userRoles ==> m.0 != id) && (forall m :: m in after.memberships ==> m.0 != id))
            && (d.users.rows[id].source != Local ==>
                  id in after.users.rows && after.users.rows[id] == d.users.rows[id].(deleted := true)
                  && after.userRoles == d.userRoles && after.memberships == d.memberships))
  {
  }

  // ---------------------------------------------------------------- one transaction

  lemma FramedLinksValid(d: Directory, after: Directory, source: Source)
    requires Valid(d) && LinksFramed(d, after, source) && UsersFramed(d.users, after.users, source)
    requires UsersOk(after.users) && NoClash(after.users) && GroupsOk(after.groups)
    ensures Valid(after)
  {
    forall m | m in after.memberships ensures m.0 in after.users.rows && m.1 in after.groups.rows {
      if !Internal(after, source, m) {
        var (u, g) := m;
        assert m in d.memberships && u in d.users.rows;
      }
    }
    forall m | m in after.userRoles ensures m.0 in after.users.rows {
      var (u, r) := m;
      assert u in d.users.rows;
    }
  }

  lemma SyncKeepsValid(d: Directory, op: Op)
    requires Valid(d) && op.Sync? && WellFormed(op) && Insertable(op.snapshot)
    ensures Valid(After(d, op))
  {
    var users := CurrentUsers(op.snapshot.users);
    ReconciledParts(d, Entra, op.snapshot, op.groupOrder, op.userOrder);
    SyncFrames(d, Entra, op.snapshot, op.groupOrder, op.userOrder);
    TombstoneOk(d.users, Entra);
    ClashOnlyWithinSnapshot(Tombstone(d.users, Entra), After(d, op).users, Entra, users, users.Keys);
    FramedLinksValid(d, After(d, op), Entra);
  }

  /** Rows that are dropped, or changed only in name, password and tombstone, clash with nothing new. */
  lemma FewerActiveNoClash(before: UserTable, after: UserTable)
    requires NoClash(before)
    requires forall i :: i in after.rows ==>
      i in before.rows && after.rows[i].source == before.rows[i].source
      && (!after.rows[i].deleted ==>
            !before.rows[i].deleted && after.rows[i].attributes.email == before.rows[i].attributes.email
            && after.rows[i].attributes.userPrincipalName == before.rows[i].attributes.userPrincipalName)
    ensures NoClash(after)
  {
    forall i, j | i in after.rows && j in after.rows && i != j ensures !Clash(after.rows[i], after.rows[j]) {
      assert !Clash(before.rows[i], before.rows[j]);
    }
  }

  lemma UpdateKeepsValid(d: Directory, op: Op)
    requires Valid(d) && op.UpdateUser?
    ensures Valid(After(d, op))
  {
    FewerActiveNoClash(d.users, After(d, op).users);
  }

  /** Removing a row with its links. */
  lemma RemovalKeepsValid(d: Directory, id: int)
    requires Valid(d)
    ensures Valid(d.(users := d.users.(rows := d.users.rows - {id}),
                     memberships := (set m | m in d.memberships && m.0 != id),
                     userRoles := (set m | m in d.userRoles && m.0 != id)))
  {
    FewerActiveNoClash(d.users, d.users.(rows := d.users.rows - {id}));
  }

  /** Rewriting a row without touching its identity. */
  lemma RewriteKeepsValid(d: Directory, id: int, row: UserRow)
    requires Valid(d) && id in d.users.rows
    requires row.source == d.users.rows[id].source && row.externalId == d.users.rows[id].externalId
    requires NoClash(d.users.(rows := d.users.rows[id := row]))
    ensures Valid(d.(users := d.users.(rows := d.users.rows[id := row])))
  {
    var rows := d.users.rows[id := row];
    assert rows.Keys == d.users.rows.Keys;
    assert forall i :: i in rows ==> rows[i].source == d.users.rows[i].source && rows[i].externalId == d.users.rows[i].externalId;
  }

  lemma DeleteKeepsValid(d: Directory, op: Op)
    requires Valid(d) && op.DeleteUser?
    ensures Valid(After(d, op))
  {
    if Active(d, op.id) {
      if d.users.rows[op.id].source == Local {
        RemovalKeepsValid(d, op.id);
      } else {
        FewerActiveNoClash(d.users, After(d, op).users);
        RewriteKeepsValid(d, op.id, d.users.rows[op.id].(deleted := true));
      }
    }
  }

  /** A provider row keeps its id, source and external id. */
  predicate SameIdentity(before: UserTable, after: UserTable, id: int) {
    id in before.rows && before.rows[id].source != Local ==>
      id in after.rows && after.rows[id].source == before.rows[id].source
      && after.rows[id].externalId == before.rows[id].externalId
  }

  lemma OpKeepsIdentity(d: Directory, op: Op, id: int)
    requires Valid(d) && WellFormed(op)
    ensures Valid(After(d, op)) && SameIdentity(d.users, After(d, op).users, id)
  {
    if op.Sync? {
      if Insertable(op.snapshot) {
        SyncKeepsValid(d, op);
        SyncFrames(d, Entra, op.snapshot, op.groupOrder, op.userOrder);
      }
    } else if op.UpdateUser? {
      UpdateKeepsValid(d, op);
    } else {
      DeleteKeepsValid(d, op);
    }
  }

  // ---------------------------------------------------------------- whole runs

  ghost function AfterAll(d: Directory, ops: seq<Op>): Directory
    requires forall op :: op in ops ==> WellFormed(op)
    decreases |ops|
  {
    if ops == [] then d else AfterAll(After(d, ops[0]), ops[1..])
  }

  /**
   Over any run of syncs, updates and deletes, the row id of a provider identity
   never changes and is never given to another identity.
   */
  lemma {:induction false} IdentityIsStable(d: Directory, ops: seq<Op>, id: int)
    requires Valid(d) && forall op :: op in ops ==> WellFormed(op)
    ensures Valid(AfterAll(d, ops)) && SameIdentity(d.users, AfterAll(d, ops).users, id)
    ensures id in d.users.rows && d.users.rows[id].source != Local ==>
      forall other :: other in AfterAll(d, ops).users.rows
        && IsRow(AfterAll(d, ops).users.rows[other], d.users.rows[id].source, d.users.rows[id].externalId.value)
        ==> other == id
    decreases |ops|
  {
    if ops != [] {
      OpKeepsIdentity(d, ops[0], id);
      IdentityIsStable(After(d, ops[0]), ops[1..], id);
    }
  }

  /** After a sync that commits, the source's view depends on that snapshot alone, whatever ran before it. */
  lemma LastSyncDecides(d: Directory, ops: seq<Op>, last: Op)
    requires Valid(d) && (forall op :: op in ops ==> WellFormed(op))
    requires last.Sync? && WellFormed(last) && Insertable(last.snapshot)
    ensures ViewOf(After(AfterAll(d, ops), last), Entra) == ViewOfSnapshot(last.snapshot)
  {
    IdentityIsStable(d, ops, 0);
    SyncReplacesView(AfterAll(d, ops), Entra, last.snapshot, last.groupOrder, last.userOrder);
  }

  // ---------------------------------------------------------------- eligibility after a sync

  /** The groups a location lists; with none listed it is open to every active user. */
  predicate Listed(d: Directory, location: int, group: int) {
    (location, group) in d.locationGroups
  }

  ghost predicate Open(d: Directory, location: int) {
    forall group :: !Listed(d, location, group)
  }

  ghost predicate Eligible(d: Directory, location: int, user: int) {
    Active(d, user)
    && (Open(d, location) || exists group :: Listed(d, location, group) && (user, group) in d.memberships)
  }

  /** The group is the source's and the snapshot still has it. */
  predicate Survives(d: Directory, snapshot: Snapshot, group: int) {
    group in d.groups.rows
    && (d.groups.rows[group].source == Entra ==> d.groups.rows[group].externalId in CurrentGroups(snapshot.groups))
  }

  /** A group row outlives the sync exactly when it survives, with its identity. */
  lemma GroupOutlives(d: Directory, op: Op, group: int)
    requires Valid(d) && op.Sync? && WellFormed(op) && Insertable(op.snapshot) && group in d.groups.rows
    ensures Survives(d, op.snapshot, group) <==> group in After(d, op).groups.rows
    ensures Survives(d, op.snapshot, group) ==>
      After(d, op).groups.rows[group].source == d.groups.rows[group].source
      && After(d, op).groups.rows[group].externalId == d.groups.rows[group].externalId
  {
    ReconciledParts(d, Entra, op.snapshot, op.groupOrder, op.userOrder);
  }

  /**
   A sync opens a location to everyone exactly when it leaves none of the groups
   the location listed: the cascade removes its rows, and no rows means no limit.
   */
  lemma SyncOpensLocation(d: Directory, op: Op, location: int)
    requires Valid(d) && op.Sync? && WellFormed(op) && Insertable(op.snapshot)
    ensures Open(After(d, op), location) <==>
      forall group :: Listed(d, location, group) ==> !Survives(d, op.snapshot, group)
  {
    SyncFrames(d, Entra, op.snapshot, op.groupOrder, op.userOrder);
    forall group | Listed(d, location, group)
      ensures Listed(After(d, op), location, group) <==> Survives(d, op.snapshot, group)
    {
      GroupOutlives(d, op, group);
    }
    forall group | Listed(After(d, op), location, group) ensures Listed(d, location, group) {
    }
  }

  /** It happens: an empty snapshot deletes the one group a location lists, and an outsider becomes eligible there. */
  lemma SyncCanOpenLocation() returns (d: Directory, op: Op)
    ensures Valid(d) && op.Sync? && WellFormed(op) && Insertable(op.snapshot)
    ensures !Open(d, 1) && !Eligible(d, 1, 7)
    ensures Open(After(d, op), 1) && Eligible(After(d, op), 1, 7)
  {
    var outsider := UserRow(Local, None, Attributes("o@example.org", "", None, None, None, None, None), None, None, false);
    d := Directory(UserTable(map[7 := outsider], 8), GroupTable(map[3 := GroupRow(Entra, "g", "Staff", None)], 4),
                   {}, map[], {}, {}, {(1, 3)});
    op := Sync(Snapshot([], []), [], []);
    assert Listed(d, 1, 3);
    SyncOpensLocation(d, op, 1);
    SyncFrames(d, Entra, op.snapshot, op.groupOrder, op.userOrder);
    assert 7 in d.users.rows;
  }

  /** The staged user is enabled and names a group the location lists. */
  ghost predicate StagedFor(d: Directory, location: int, u: ProviderUser) {
    u.enabled && exists group ::
      Listed(d, location, group) && group in d.groups.rows && d.groups.rows[group].externalId in u.groupExternalIds
  }

  lemma MembershipAfterSync(d: Directory, op: Op, user: int, group: int)
    requires Valid(d) && op.Sync? && WellFormed(op) && Insertable(op.snapshot)
    requires user in After(d, op).users.rows && After(d, op).users.rows[user].source == Entra
    requires group in d.groups.rows && d.groups.rows[group].source == Entra && Survives(d, op.snapshot, group)
    ensures (user, group) in After(d, op).memberships <==>
      var e := IdOf(After(d, op).users.rows[user]);
      e in CurrentUsers(op.snapshot.users)
      && d.groups.rows[group].externalId in CurrentUsers(op.snapshot.users)[e].groupExternalIds
  {
    var after := After(d, op);
    ReconciledParts(d, Entra, op.snapshot, op.groupOrder, op.userOrder);
    GroupOutlives(d, op, group);
    var d2 := after.(memberships := set m | m in d.memberships && m.1 in after.groups.rows);
    RebuiltMemberships(d2, Entra, CurrentUsers(op.snapshot.users), (user, group));
  }

  /**
   At a location whose groups are a non-empty part of the snapshot's groups, the
   source-owned people eligible after a sync are exactly the last-wins enabled
   users that name a listed group.
   */
  lemma EligibleAfterSync(d: Directory, op: Op, location: int, user: int)
    requires Valid(d) && op.Sync? && WellFormed(op) && Insertable(op.snapshot)
    requires !Open(d, location)
    requires forall group :: Listed(d, location, group) ==>
      d.groups.rows[group].source == Entra && Survives(d, op.snapshot, group)
    requires user in After(d, op).users.rows && After(d, op).users.rows[user].source == Entra
    ensures Eligible(After(d, op), location, user) <==>
      var e := IdOf(After(d, op).users.rows[user]);
      e in CurrentUsers(op.snapshot.users) && StagedFor(d, location, CurrentUsers(op.snapshot.users)[e])
  {
    var after := After(d, op);
    SyncFrames(d, Entra, op.snapshot, op.groupOrder, op.userOrder);
    SyncOpensLocation(d, op, location);
    ActiveAfterSync(d, op, user);
    forall group | Listed(d, location, group)
      ensures Listed(after, location, group)
      ensures (user, group) in after.memberships <==>
        var e := IdOf(after.users.rows[user]);
        e in CurrentUsers(op.snapshot.users)
        && d.groups.rows[group].externalId in CurrentUsers(op.snapshot.users)[e].groupExternalIds
    {
      GroupOutlives(d, op, group);
      MembershipAfterSync(d, op, user, group);
    }
    forall group | Listed(after, location, group) ensures Listed(d, location, group) {
    }
  }

  lemma ActiveAfterSync(d: Directory, op: Op, user: int)
    requires Valid(d) && op.Sync? && WellFormed(op) && Insertable(op.snapshot)
    requires user in After(d, op).users.rows && After(d, op).users.rows[user].source == Entra
    ensures Active(After(d, op), user) <==>
      var e := IdOf(After(d, op).users.rows[user]);
      e in CurrentUsers(op.snapshot.users) && CurrentUsers(op.snapshot.users)[e].enabled
  {
    ReconciledParts(d, Entra, op.snapshot, op.groupOrder, op.userOrder);
    TombstoneOk(d.users, Entra);
  }
}
