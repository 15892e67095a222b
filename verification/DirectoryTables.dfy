/**
 The directory tables and the statements of the provider reconciliation as
 functions on them. A row-by-row statement takes the order in which PostgreSQL
 happens to visit the staged rows; every result holds for every order.
 */
module DirectoryTables {
  import opened Text
  import opened Wrappers

  datatype Source = Local | Entra

  datatype Attributes = Attributes(
    email: string, name: string, userPrincipalName: Option<string>, mailNickname: Option<string>,
    givenName: Option<string>, familyName: Option<string>, department: Option<string>)

  datatype UserRow = UserRow(
    source: Source, externalId: Option<string>, attributes: Attributes,
    passwordHash: Option<string>, apiKey: Option<string>, deleted: bool)

  datatype GroupRow = GroupRow(source: Source, externalId: string, displayName: string, mailNickname: Option<string>)

  datatype RoleSummary = RoleSummary(id: int, key: string, name: string)

  /** `next` is the BIGSERIAL sequence of the table. */
  datatype UserTable = UserTable(rows: map<int, UserRow>, next: int)

  datatype GroupTable = GroupTable(rows: map<int, GroupRow>, next: int)

  /** `locationGroups` holds (location, group), the other link tables hold (owner, target). */
  datatype Directory = Directory(
    users: UserTable, groups: GroupTable, memberships: set<(int, int)>,
    roles: map<int, RoleSummary>, userRoles: set<(int, int)>, groupRoles: set<(int, int)>,
    locationGroups: set<(int, int)>)

  datatype ProviderUser = ProviderUser(
    externalId: string, userPrincipalName: string, mail: string, mailNickname: string, displayName: string,
    givenName: string, familyName: string, department: string, enabled: bool, groupExternalIds: seq<string>)

  datatype ProviderGroup = ProviderGroup(externalId: string, displayName: string, mailNickname: string)

  datatype Snapshot = Snapshot(users: seq<ProviderUser>, groups: seq<ProviderGroup>)

  // ---------------------------------------------------------------- constraints

  predicate IsRow(row: UserRow, source: Source, externalId: string) {
    row.source == source && row.externalId == Some(externalId)
  }

  predicate IsGroup(row: GroupRow, source: Source, externalId: string) {
    row.source == source && row.externalId == externalId
  }

  predicate SameMail(a: UserRow, b: UserRow) {
    a.attributes.email == b.attributes.email && a.attributes.email != ""
  }

  predicate SamePrincipal(a: UserRow, b: UserRow) {
    a.attributes.userPrincipalName == b.attributes.userPrincipalName
    && a.attributes.userPrincipalName.Some? && a.attributes.userPrincipalName != Some("")
  }

  /** Two active provider rows the partial unique indexes do not allow together. */
  predicate Clash(a: UserRow, b: UserRow) {
    a.source != Local && b.source != Local && !a.deleted && !b.deleted && (SameMail(a, b) || SamePrincipal(a, b))
  }

  ghost predicate NoClash(t: UserTable) {
    forall i, j :: i in t.rows && j in t.rows && i != j ==> !Clash(t.rows[i], t.rows[j])
  }

  ghost predicate UsersOk(t: UserTable) {
    && (forall i :: i in t.rows ==> i < t.next)
    && (forall i :: i in t.rows ==> (t.rows[i].source == Local <==> t.rows[i].externalId.None?))
    && (forall i, j :: i in t.rows && j in t.rows && i != j && t.rows[i].externalId.Some? ==>
          t.rows[i].source != t.rows[j].source || t.rows[i].externalId != t.rows[j].externalId)
  }

  ghost predicate GroupsOk(t: GroupTable) {
    && (forall i :: i in t.rows ==> i < t.next && t.rows[i].source != Local)
    && (forall i, j :: i in t.rows && j in t.rows && i != j ==>
          t.rows[i].source != t.rows[j].source || t.rows[i].externalId != t.rows[j].externalId)
  }

  /** The constraints of migrations 002 and 003 that the reconciliation relies on. */
  ghost predicate Valid(d: Directory) {
    && UsersOk(d.users) && NoClash(d.users) && GroupsOk(d.groups)
    && (forall m :: m in d.memberships ==> m.0 in d.users.rows && m.1 in d.groups.rows)
    && (forall r :: r in d.roles ==> d.roles[r].id == r)
    && (forall m :: m in d.userRoles ==> m.0 in d.users.rows && m.1 in d.roles)
    && (forall m :: m in d.groupRoles ==> m.0 in d.groups.rows && m.1 in d.roles)
    && (forall m :: m in d.locationGroups ==> m.1 in d.groups.rows)
  }

  // ---------------------------------------------------------------- staging

  function NullString(value: string): Option<string> {
    if value == "" then None else Some(value)
  }

  /** SELECT DISTINCT ON (external_id) ... ORDER BY external_id, position DESC. */
  function CurrentUsers(users: seq<ProviderUser>): map<string, ProviderUser> {
    if users == [] then map[]
    else CurrentUsers(users[..|users| - 1])[users[|users| - 1].externalId := users[|users| - 1]]
  }

  function CurrentGroups(groups: seq<ProviderGroup>): map<string, ProviderGroup> {
    if groups == [] then map[]
    else CurrentGroups(groups[..|groups| - 1])[groups[|groups| - 1].externalId := groups[|groups| - 1]]
  }

  /** The columns an upsert writes for a staged user. */
  function Staged(u: ProviderUser): Attributes {
    var principal := Trim(u.userPrincipalName);
    var mail := NullString(Trim(u.mail));
    Attributes(if mail.Some? then mail.value else principal, u.displayName, Some(principal),
               NullString(u.mailNickname), NullString(u.givenName), NullString(u.familyName), NullString(u.department))
  }

  // ---------------------------------------------------------------- statements

  /** UPDATE users SET deleted_at = now() WHERE source = $1 AND deleted_at IS NULL. */
  function Tombstone(t: UserTable, source: Source): UserTable {
    t.(rows := map i | i in t.rows :: if t.rows[i].source == source then t.rows[i].(deleted := true) else t.rows[i])
  }

  ghost predicate HasUser(t: UserTable, source: Source, externalId: string) {
    exists i :: i in t.rows && IsRow(t.rows[i], source, externalId)
  }

  ghost predicate HasGroup(t: GroupTable, source: Source, externalId: string) {
    exists i :: i in t.rows && IsGroup(t.rows[i], source, externalId)
  }

  ghost function UserId(t: UserTable, source: Source, externalId: string): int
    requires HasUser(t, source, externalId)
  {
    var i :| i in t.rows && IsRow(t.rows[i], source, externalId); i
  }

  ghost function GroupId(t: GroupTable, source: Source, externalId: string): int
    requires HasGroup(t, source, externalId)
  {
    var i :| i in t.rows && IsGroup(t.rows[i], source, externalId); i
  }

  /** INSERT ... ON CONFLICT (source, external_id) DO UPDATE, for one row; the sequence advances either way. */
  ghost function UpsertUser(t: UserTable, source: Source, u: ProviderUser): UserTable {
    if HasUser(t, source, u.externalId) then
      var id := UserId(t, source, u.externalId);
      UserTable(t.rows[id := t.rows[id].(attributes := Staged(u), deleted := !u.enabled)], t.next + 1)
    else
      UserTable(t.rows[t.next := UserRow(source, Some(u.externalId), Staged(u), None, None, !u.enabled)], t.next + 1)
  }

  ghost function UpsertGroup(t: GroupTable, source: Source, g: ProviderGroup): GroupTable {
    if HasGroup(t, source, g.externalId) then
      var id := GroupId(t, source, g.externalId);
      GroupTable(t.rows[id := t.rows[id].(displayName := g.displayName, mailNickname := NullString(g.mailNickname))],
                 t.next + 1)
    else
      GroupTable(t.rows[t.next := GroupRow(source, g.externalId, g.displayName, NullString(g.mailNickname))], t.next + 1)
  }

  ghost function UpsertUsers(t: UserTable, source: Source, current: map<string, ProviderUser>, order: seq<string>): UserTable
    requires forall e :: e in order ==> e in current
  {
    if order == [] then t
    else UpsertUser(UpsertUsers(t, source, current, order[..|order| - 1]), source, current[order[|order| - 1]])
  }

  ghost function UpsertGroups(t: GroupTable, source: Source, current: map<string, ProviderGroup>, order: seq<string>): GroupTable
    requires forall e :: e in order ==> e in current
  {
    if order == [] then t
    else UpsertGroup(UpsertGroups(t, source, current, order[..|order| - 1]), source, current[order[|order| - 1]])
  }

  /** DELETE FROM directory_groups; the foreign keys cascade to memberships, group roles and location groups. */
  function DeleteMissingGroups(d: Directory, source: Source, present: set<string>): Directory {
    var kept := map i | i in d.groups.rows && !(d.groups.rows[i].source == source && d.groups.rows[i].externalId !in present)
                :: d.groups.rows[i];
    d.(groups := GroupTable(kept, d.groups.next),
       memberships := (set m | m in d.memberships && m.1 in kept),
       groupRoles := (set m | m in d.groupRoles && m.0 in kept),
       locationGroups := (set m | m in d.locationGroups && m.1 in kept))
  }

  predicate Internal(d: Directory, source: Source, m: (int, int)) {
    m.0 in d.users.rows && m.1 in d.groups.rows
    && d.users.rows[m.0].source == source && d.groups.rows[m.1].source == source
  }

  /** The INSERT ... SELECT DISTINCT over staged users joined to users and groups. */
  predicate StagedMember(d: Directory, source: Source, current: map<string, ProviderUser>, m: (int, int)) {
    Internal(d, source, m)
    && d.users.rows[m.0].externalId.Some? && d.users.rows[m.0].externalId.value in current
    && d.groups.rows[m.1].externalId in current[d.users.rows[m.0].externalId.value].groupExternalIds
  }

  function StagedMembers(d: Directory, source: Source, current: map<string, ProviderUser>): set<(int, int)> {
    set u, g | u in d.users.rows && g in d.groups.rows && StagedMember(d, source, current, (u, g)) :: (u, g)
  }

  function RebuildMemberships(d: Directory, source: Source, current: map<string, ProviderUser>): Directory {
    d.(memberships :=
         (set m | m in d.memberships && !Internal(d, source, m)) + StagedMembers(d, source, current))
  }

  /** The rows of a staged table, each visited once. */
  ghost predicate IsOrder(order: seq<string>, keys: set<string>) {
    && (forall i, j :: 0 <= i < j < |order| ==> order[i] != order[j])
    && (forall e :: e in order <==> e in keys)
  }

  /** The whole transaction, for the orders in which the two upserts visit their rows. */
  ghost function Reconciled(d: Directory, source: Source, snapshot: Snapshot, groupOrder: seq<string>, userOrder: seq<string>)
    : Directory
    requires IsOrder(groupOrder, CurrentGroups(snapshot.groups).Keys)
    requires IsOrder(userOrder, CurrentUsers(snapshot.users).Keys)
  {
    var groups := CurrentGroups(snapshot.groups);
    var users := CurrentUsers(snapshot.users);
    var d1 := DeleteMissingGroups(d.(groups := UpsertGroups(d.groups, source, groups, groupOrder)), source, groups.Keys);
    var d2 := d1.(users := UpsertUsers(Tombstone(d1.users, source), source, users, userOrder));
    RebuildMemberships(d2, source, users)
  }
}
