/** What one reconciliation does, whatever the tables held before and whatever order its upserts visit rows in. */
module ProviderSync {
  import opened DirectoryTables
  import opened Text
  import opened Wrappers

  // ---------------------------------------------------------------- staging is last-wins

  /** The last staged row of an external id wins. */
  lemma {:induction false} CurrentUsersLast(users: seq<ProviderUser>, i: nat)
    requires i < |users| && forall j :: i < j < |users| ==> users[j].externalId != users[i].externalId
    ensures users[i].externalId in CurrentUsers(users)
    ensures CurrentUsers(users)[users[i].externalId] == users[i]
  {
    var n := |users| - 1;
    if i < n {
      CurrentUsersLast(users[..n], i);
      assert users[n].externalId != users[i].externalId;
    }
  }

  lemma {:induction false} CurrentUsersFrom(users: seq<ProviderUser>, e: string)
    requires e in CurrentUsers(users)
    ensures CurrentUsers(users)[e].externalId == e && CurrentUsers(users)[e] in users
  {
    var n := |users| - 1;
    if users[n].externalId != e {
      CurrentUsersFrom(users[..n], e);
    }
  }

  lemma {:induction false} CurrentGroupsLast(groups: seq<ProviderGroup>, i: nat)
    requires i < |groups| && forall j :: i < j < |groups| ==> groups[j].externalId != groups[i].externalId
    ensures groups[i].externalId in CurrentGroups(groups)
    ensures CurrentGroups(groups)[groups[i].externalId] == groups[i]
  {
    var n := |groups| - 1;
    if i < n {
      CurrentGroupsLast(groups[..n], i);
      assert groups[n].externalId != groups[i].externalId;
    }
  }

  lemma {:induction false} CurrentGroupsFrom(groups: seq<ProviderGroup>, e: string)
    requires e in CurrentGroups(groups)
    ensures CurrentGroups(groups)[e].externalId == e && CurrentGroups(groups)[e] in groups
  {
    var n := |groups| - 1;
    if groups[n].externalId != e {
      CurrentGroupsFrom(groups[..n], e);
    }
  }

  function Elems(order: seq<string>): set<string> {
    set e | e in order
  }

  lemma ElemsLast(order: seq<string>)
    requires order != []
    ensures Elems(order) == Elems(order[..|order| - 1]) + {order[|order| - 1]}
  {
    assert order == order[..|order| - 1] + [order[|order| - 1]];
  }

  // ---------------------------------------------------------------- the user upsert, row by row

  /** No statement of the reconciliation touches identity, password or API key, or another source's row at all. */
  predicate Kept(before: UserRow, now: UserRow, source: Source) {
    && now.source == before.source && now.externalId == before.externalId
    && now.passwordHash == before.passwordHash && now.apiKey == before.apiKey
    && (before.source != source ==> now == before)
  }

  predicate Written(row: UserRow, u: ProviderUser) {
    row.attributes == Staged(u) && row.deleted == !u.enabled
  }

  /** A row not in the table before: it takes a fresh id and belongs to the source. */
  predicate Added(before: UserTable, id: int, row: UserRow, source: Source) {
    before.next <= id && row.source == source && row.externalId.Some? && row.passwordHash.None? && row.apiKey.None?
  }

  ghost predicate RowsKept(before: UserTable, now: UserTable, source: Source) {
    forall i :: i in before.rows ==> i in now.rows && Kept(before.rows[i], now.rows[i], source)
  }

  ghost predicate RowsAdded(before: UserTable, now: UserTable, source: Source, done: set<string>) {
    forall i :: i in now.rows && i !in before.rows ==>
      Added(before, i, now.rows[i], source) && now.rows[i].externalId.value in done
  }

  ghost predicate RowsWritten(
    before: UserTable, now: UserTable, source: Source, current: map<string, ProviderUser>, done: set<string>)
  {
    forall i :: i in now.rows && now.rows[i].source == source && now.rows[i].externalId.Some? ==>
      var e := now.rows[i].externalId.value;
      if e in done then e in current && Written(now.rows[i], current[e])
      else i in before.rows && now.rows[i] == before.rows[i]
  }

  /** The table once the rows in `done` have been upserted. */
  ghost predicate Progress(
    before: UserTable, now: UserTable, source: Source, current: map<string, ProviderUser>, done: set<string>)
  {
    && UsersOk(now) && before.next <= now.next
    && RowsKept(before, now, source) && RowsAdded(before, now, source, done)
    && RowsWritten(before, now, source, current, done)
    && (forall e :: e in done ==> HasUser(now, source, e))
  }

  /** The keys of the staging map are the external ids of its rows. */
  predicate Keyed(current: map<string, ProviderUser>) {
    forall e :: e in current ==> current[e].externalId == e
  }

  /** Where the upsert of an external id lands: its row if it has one, otherwise a fresh id. */
  ghost predicate Lands(t: UserTable, source: Source, e: string, id: int) {
    if HasUser(t, source, e) then id in t.rows && IsRow(t.rows[id], source, e) else id == t.next
  }

  lemma SetUserOk(now: UserTable, id: int, source: Source, row: UserRow, e: string)
    requires source != Local && UsersOk(now) && Lands(now, source, e, id) && IsRow(row, source, e)
    ensures UsersOk(UserTable(now.rows[id := row], now.next + 1))
  {
    var after := UserTable(now.rows[id := row], now.next + 1);
    forall i | i in after.rows && i != id ensures !IsRow(after.rows[i], source, e) {
      assert IsRow(now.rows[i], source, e) ==> HasUser(now, source, e);
    }
  }

  lemma SetUserFound(now: UserTable, id: int, source: Source, row: UserRow, e: string, done: set<string>)
    requires UsersOk(now) && Lands(now, source, e, id) && IsRow(row, source, e)
    requires forall f :: f in done ==> HasUser(now, source, f)
    ensures forall f :: f in done + {e} ==> HasUser(UserTable(now.rows[id := row], now.next + 1), source, f)
  {
    var after := UserTable(now.rows[id := row], now.next + 1);
    forall f | f in done + {e} ensures HasUser(after, source, f) {
      if f == e {
        assert IsRow(after.rows[id], source, f);
      } else {
        var i := UserId(now, source, f);
        assert IsRow(after.rows[i], source, f);
      }
    }
  }

  lemma SetUserKept(before: UserTable, now: UserTable, id: int, row: UserRow, source: Source, e: string, done: set<string>)
    requires RowsKept(before, now, source) && RowsAdded(before, now, source, done)
    requires (forall i :: i in now.rows ==> i < now.next) && before.next <= now.next
    requires Lands(now, source, e, id) && IsRow(row, source, e)
    requires if id in now.rows then Kept(now.rows[id], row, source) else row.passwordHash.None? && row.apiKey.None?
    ensures RowsKept(before, UserTable(now.rows[id := row], now.next + 1), source)
    ensures RowsAdded(before, UserTable(now.rows[id := row], now.next + 1), source, done + {e})
  {
  }

  lemma SetUserWritten(
    before: UserTable, now: UserTable, id: int, row: UserRow, source: Source, current: map<string, ProviderUser>,
    done: set<string>, e: string)
    requires RowsWritten(before, now, source, current, done) && e in current
    requires Lands(now, source, e, id) && IsRow(row, source, e) && Written(row, current[e])
    requires forall i :: i in now.rows && i != id ==> !IsRow(now.rows[i], source, e)
    ensures RowsWritten(before, UserTable(now.rows[id := row], now.next + 1), source, current, done + {e})
  {
  }

  lemma OnlyRow(now: UserTable, source: Source, e: string, id: int)
    requires UsersOk(now) && source != Local && Lands(now, source, e, id)
    ensures forall i :: i in now.rows && i != id ==> !IsRow(now.rows[i], source, e)
  {
    forall i | i in now.rows && i != id ensures !IsRow(now.rows[i], source, e) {
      assert IsRow(now.rows[i], source, e) ==> HasUser(now, source, e);
    }
  }

  lemma SetUserProgress(
    before: UserTable, now: UserTable, id: int, row: UserRow, source: Source, current: map<string, ProviderUser>,
    done: set<string>, e: string)
    requires source != Local && e in current && e !in done
    requires Progress(before, now, source, current, done) && Lands(now, source, e, id)
    requires IsRow(row, source, e) && Written(row, current[e])
    requires if id in now.rows then Kept(now.rows[id], row, source) else row.passwordHash.None? && row.apiKey.None?
    ensures Progress(before, UserTable(now.rows[id := row], now.next + 1), source, current, done + {e})
  {
    OnlyRow(now, source, e, id);
    SetUserOk(now, id, source, row, e);
    SetUserKept(before, now, id, row, source, e, done);
    SetUserWritten(before, now, id, row, source, current, done, e);
    SetUserFound(now, id, source, row, e, done);
  }

  /** The upsert sets one row: the one it lands on. */
  lemma UpsertSets(now: UserTable, source: Source, u: ProviderUser) returns (id: int, row: UserRow)
    requires UsersOk(now) && source != Local
    ensures Lands(now, source, u.externalId, id) && IsRow(row, source, u.externalId) && Written(row, u)
    ensures if id in now.rows then Kept(now.rows[id], row, source) else row.passwordHash.None? && row.apiKey.None?
    ensures UpsertUser(now, source, u) == UserTable(now.rows[id := row], now.next + 1)
  {
    id := if HasUser(now, source, u.externalId) then UserId(now, source, u.externalId) else now.next;
    row := UpsertUser(now, source, u).rows[id];
  }

  lemma UpsertProgress(
    before: UserTable, now: UserTable, source: Source, current: map<string, ProviderUser>, done: set<string>, e: string)
    requires source != Local && Keyed(current) && e in current && e !in done
    requires Progress(before, now, source, current, done)
    ensures Progress(before, UpsertUser(now, source, current[e]), source, current, done + {e})
  {
    var id, row := UpsertSets(now, source, current[e]);
    SetUserProgress(before, now, id, row, source, current, done, e);
  }

  lemma {:induction false} UpsertsProgress(
    before: UserTable, source: Source, current: map<string, ProviderUser>, order: seq<string>)
    requires source != Local && UsersOk(before) && Keyed(current)
    requires forall e :: e in order ==> e in current
    requires forall i, j :: 0 <= i < j < |order| ==> order[i] != order[j]
    ensures Progress(before, UpsertUsers(before, source, current, order), source, current, Elems(order))
  {
    if order != [] {
      var n := |order| - 1;
      UpsertsProgress(before, source, current, order[..n]);
      UpsertProgress(before, UpsertUsers(before, source, current, order[..n]), source, current, Elems(order[..n]), order[n]);
      ElemsLast(order);
    }
  }

  // ---------------------------------------------------------------- unique emails

  /** Two staged rows that cannot be active together. */
  predicate StagedClash(u: ProviderUser, v: ProviderUser) {
    && u.enabled && v.enabled
    && ((Staged(u).email == Staged(v).email && Staged(u).email != "")
        || (Staged(u).userPrincipalName == Staged(v).userPrincipalName && Staged(u).userPrincipalName != Some("")))
  }

  ghost predicate Distinct(current: map<string, ProviderUser>, done: set<string>) {
    forall e, f :: e in done && f in done && e in current && f in current && e != f ==> !StagedClash(current[e], current[f])
  }

  /** Every row of the source is a tombstone. */
  predicate Tombstoned(t: UserTable, source: Source) {
    forall i :: i in t.rows && t.rows[i].source == source ==> t.rows[i].deleted
  }

  /**
   Because the whole generation is tombstoned first, the rows upserted so far
   clash exactly when their staged users do, whatever the table held before.
   */
  lemma ClashOnlyWithinSnapshot(
    before: UserTable, now: UserTable, source: Source, current: map<string, ProviderUser>, done: set<string>)
    requires source == Entra && Tombstoned(before, source) && Progress(before, now, source, current, done)
    requires done <= current.Keys
    ensures NoClash(now) <==> Distinct(current, done)
  {
    if NoClash(now) {
      forall e, f | e in done && f in done && e != f ensures !StagedClash(current[e], current[f]) {
        var i, j := UserId(now, source, e), UserId(now, source, f);
        assert !Clash(now.rows[i], now.rows[j]);
      }
    }
    if Distinct(current, done) {
      forall i, j | i in now.rows && j in now.rows && i != j ensures !Clash(now.rows[i], now.rows[j]) {
        if Clash(now.rows[i], now.rows[j]) {
          ActiveRowIsDone(before, now, source, current, done, i);
          ActiveRowIsDone(before, now, source, current, done, j);
        }
      }
    }
  }

  lemma ActiveRowIsDone(
    before: UserTable, now: UserTable, source: Source, current: map<string, ProviderUser>, done: set<string>, i: int)
    requires source == Entra && Tombstoned(before, source) && Progress(before, now, source, current, done)
    requires i in now.rows && now.rows[i].source != Local && !now.rows[i].deleted
    ensures now.rows[i].externalId.Some? && now.rows[i].externalId.value in done
    ensures now.rows[i].externalId.value in current && Written(now.rows[i], current[now.rows[i].externalId.value])
    ensures current[now.rows[i].externalId.value].enabled
  {
  }

  lemma TombstoneOk(t: UserTable, source: Source)
    requires UsersOk(t)
    ensures UsersOk(Tombstone(t, source)) && Tombstoned(Tombstone(t, source), source)
  {
  }

  /**
   At every intermediate point of the upsert, in any order and from any prior
   table, no two active provider rows share an email or a principal name,
   exactly when the enabled rows staged so far are pairwise distinct. Emails
   may swap or rotate between objects.
   */
  lemma NoIntermediateClash(
    t: UserTable, source: Source, current: map<string, ProviderUser>, order: seq<string>, k: nat)
    requires source == Entra && UsersOk(t) && Keyed(current) && IsOrder(order, current.Keys) && k <= |order|
    ensures NoClash(UpsertUsers(Tombstone(t, source), source, current, order[..k]))
      <==> Distinct(current, Elems(order[..k]))
    ensures Distinct(current, current.Keys) ==> NoClash(UpsertUsers(Tombstone(t, source), source, current, order[..k]))
  {
    var before := Tombstone(t, source);
    TombstoneOk(t, source);
    UpsertsProgress(before, source, current, order[..k]);
    var done := Elems(order[..k]);
    assert done <= current.Keys;
    ClashOnlyWithinSnapshot(before, UpsertUsers(before, source, current, order[..k]), source, current, done);
  }

  // ---------------------------------------------------------------- the group upsert

  predicate GroupWritten(row: GroupRow, g: ProviderGroup) {
    row.displayName == g.displayName && row.mailNickname == NullString(g.mailNickname)
  }

  ghost predicate GroupsKept(before: GroupTable, now: GroupTable, source: Source, done: set<string>) {
    forall i :: i in before.rows ==>
      i in now.rows && now.rows[i].source == before.rows[i].source && now.rows[i].externalId == before.rows[i].externalId
      && (before.rows[i].source != source || before.rows[i].externalId !in done ==> now.rows[i] == before.rows[i])
  }

  ghost predicate GroupsAdded(before: GroupTable, now: GroupTable, source: Source, done: set<string>) {
    forall i :: i in now.rows && i !in before.rows ==>
      before.next <= i && now.rows[i].source == source && now.rows[i].externalId in done
  }

  ghost predicate GroupsWritten(now: GroupTable, source: Source, current: map<string, ProviderGroup>, done: set<string>) {
    forall i :: i in now.rows && now.rows[i].source == source && now.rows[i].externalId in done ==>
      now.rows[i].externalId in current && GroupWritten(now.rows[i], current[now.rows[i].externalId])
  }

  ghost predicate GroupProgress(
    before: GroupTable, now: GroupTable, source: Source, current: map<string, ProviderGroup>, done: set<string>)
  {
    && GroupsOk(now) && before.next <= now.next
    && GroupsKept(before, now, source, done) && GroupsAdded(before, now, source, done)
    && GroupsWritten(now, source, current, done)
    && (forall e :: e in done ==> HasGroup(now, source, e))
  }

  predicate GroupsKeyed(current: map<string, ProviderGroup>) {
    forall e :: e in current ==> current[e].externalId == e
  }

  ghost predicate GroupLands(t: GroupTable, source: Source, e: string, id: int) {
    if HasGroup(t, source, e) then id in t.rows && IsGroup(t.rows[id], source, e) else id == t.next
  }

  lemma SetGroupOk(now: GroupTable, id: int, source: Source, row: GroupRow, e: string)
    requires source != Local && GroupsOk(now) && GroupLands(now, source, e, id) && IsGroup(row, source, e)
    ensures GroupsOk(GroupTable(now.rows[id := row], now.next + 1))
  {
    var after := GroupTable(now.rows[id := row], now.next + 1);
    forall i | i in after.rows && i != id ensures !IsGroup(after.rows[i], source, e) {
      assert IsGroup(now.rows[i], source, e) ==> HasGroup(now, source, e);
    }
  }

  lemma SetGroupFound(now: GroupTable, id: int, source: Source, row: GroupRow, e: string, done: set<string>)
    requires GroupsOk(now) && GroupLands(now, source, e, id) && IsGroup(row, source, e)
    requires forall f :: f in done ==> HasGroup(now, source, f)
    ensures forall f :: f in done + {e} ==> HasGroup(GroupTable(now.rows[id := row], now.next + 1), source, f)
  {
    var after := GroupTable(now.rows[id := row], now.next + 1);
    forall f | f in done + {e} ensures HasGroup(after, source, f) {
      if f == e {
        assert IsGroup(after.rows[id], source, f);
      } else {
        var i := GroupId(now, source, f);
        assert IsGroup(after.rows[i], source, f);
      }
    }
  }

  lemma SetGroupKept(before: GroupTable, now: GroupTable, id: int, row: GroupRow, source: Source, e: string, done: set<string>)
    requires GroupsKept(before, now, source, done) && GroupsAdded(before, now, source, done)
    requires (forall i :: i in now.rows ==> i < now.next) && before.next <= now.next
    requires GroupLands(now, source, e, id) && IsGroup(row, source, e)
    ensures GroupsKept(before, GroupTable(now.rows[id := row], now.next + 1), source, done + {e})
    ensures GroupsAdded(before, GroupTable(now.rows[id := row], now.next + 1), source, done + {e})
  {
  }

  lemma SetGroupWritten(
    now: GroupTable, id: int, row: GroupRow, source: Source, current: map<string, ProviderGroup>, done: set<string>, e: string)
    requires GroupsWritten(now, source, current, done) && e in current
    requires GroupLands(now, source, e, id) && IsGroup(row, source, e) && GroupWritten(row, current[e])
    requires forall i :: i in now.rows && i != id ==> !IsGroup(now.rows[i], source, e)
    ensures GroupsWritten(GroupTable(now.rows[id := row], now.next + 1), source, current, done + {e})
  {
  }

  lemma OnlyGroup(now: GroupTable, source: Source, e: string, id: int)
    requires GroupsOk(now) && GroupLands(now, source, e, id)
    ensures forall i :: i in now.rows && i != id ==> !IsGroup(now.rows[i], source, e)
  {
    forall i | i in now.rows && i != id ensures !IsGroup(now.rows[i], source, e) {
      assert IsGroup(now.rows[i], source, e) ==> HasGroup(now, source, e);
    }
  }

  lemma SetGroupProgress(
    before: GroupTable, now: GroupTable, id: int, row: GroupRow, source: Source, current: map<string, ProviderGroup>,
    done: set<string>, e: string)
    requires source != Local && e in current && e !in done
    requires GroupProgress(before, now, source, current, done) && GroupLands(now, source, e, id)
    requires IsGroup(row, source, e) && GroupWritten(row, current[e])
    ensures GroupProgress(before, GroupTable(now.rows[id := row], now.next + 1), source, current, done + {e})
  {
    OnlyGroup(now, source, e, id);
    SetGroupOk(now, id, source, row, e);
    SetGroupKept(before, now, id, row, source, e, done);
    SetGroupWritten(now, id, row, source, current, done, e);
    SetGroupFound(now, id, source, row, e, done);
  }

  lemma UpsertSetsGroup(now: GroupTable, source: Source, g: ProviderGroup) returns (id: int, row: GroupRow)
    requires GroupsOk(now)
    ensures GroupLands(now, source, g.externalId, id) && IsGroup(row, source, g.externalId) && GroupWritten(row, g)
    ensures UpsertGroup(now, source, g) == GroupTable(now.rows[id := row], now.next + 1)
  {
    id := if HasGroup(now, source, g.externalId) then GroupId(now, source, g.externalId) else now.next;
    row := UpsertGroup(now, source, g).rows[id];
  }

  lemma UpsertGroupProgress(
    before: GroupTable, now: GroupTable, source: Source, current: map<string, ProviderGroup>, done: set<string>, e: string)
    requires source != Local && GroupsKeyed(current) && e in current && e !in done
    requires GroupProgress(before, now, source, current, done)
    ensures GroupProgress(before, UpsertGroup(now, source, current[e]), source, current, done + {e})
  {
    var id, row := UpsertSetsGroup(now, source, current[e]);
    SetGroupProgress(before, now, id, row, source, current, done, e);
  }

  lemma {:induction false} UpsertGroupsProgress(
    before: GroupTable, source: Source, current: map<string, ProviderGroup>, order: seq<string>)
    requires source != Local && GroupsOk(before) && GroupsKeyed(current)
    requires forall e :: e in order ==> e in current
    requires forall i, j :: 0 <= i < j < |order| ==> order[i] != order[j]
    ensures GroupProgress(before, UpsertGroups(before, source, current, order), source, current, Elems(order))
  {
    if order != [] {
      var n := |order| - 1;
      UpsertGroupsProgress(before, source, current, order[..n]);
      UpsertGroupProgress(before, UpsertGroups(before, source, current, order[..n]), source, current, Elems(order[..n]), order[n]);
      ElemsLast(order);
    }
  }

  // ---------------------------------------------------------------- columns, field by field

  /** An empty value is stored as NULL. */
  predicate Holds(column: Option<string>, value: string) {
    (value == "" ==> column.None?) && (value != "" ==> column == Some(value))
  }

  /** The trimmed mail address, or the trimmed principal name when there is none. */
  predicate IsEmailOf(email: string, u: ProviderUser) {
    (Trim(u.mail) != "" ==> email == Trim(u.mail)) && (Trim(u.mail) == "" ==> email == Trim(u.userPrincipalName))
  }

  /** Every field of the provider user is in its own column. */
  predicate Shows(row: UserRow, u: ProviderUser) {
    var a := row.attributes;
    && IsEmailOf(a.email, u)
    && a.userPrincipalName == Some(Trim(u.userPrincipalName))
    && a.name == u.displayName
    && Holds(a.mailNickname, u.mailNickname) && Holds(a.givenName, u.givenName)
    && Holds(a.familyName, u.familyName) && Holds(a.department, u.department)
    && (u.enabled <==> !row.deleted)
  }

  predicate ShowsGroup(row: GroupRow, g: ProviderGroup) {
    row.displayName == g.displayName && Holds(row.mailNickname, g.mailNickname)
  }

  lemma WrittenShows(row: UserRow, u: ProviderUser)
    ensures Written(row, u) ==> Shows(row, u)
  {
  }

  /** Two enabled users cannot be active together exactly when they share an email or a principal name that is not empty. */
  lemma StagedClashIff(u: ProviderUser, v: ProviderUser, mail: string, otherMail: string)
    requires IsEmailOf(mail, u) && IsEmailOf(otherMail, v)
    ensures StagedClash(u, v) <==>
      u.enabled && v.enabled
      && ((mail == otherMail && mail != "")
          || (Trim(u.userPrincipalName) == Trim(v.userPrincipalName) && Trim(u.userPrincipalName) != ""))
  {
  }

  /** The source's rows show the staged users and groups, each external id in one row, and rows of no staged user are tombstones. */
  ghost predicate SourceShows(
    d: Directory, source: Source, users: map<string, ProviderUser>, groups: map<string, ProviderGroup>)
  {
    && (forall e :: e in users ==> HasUser(d.users, source, e))
    && (forall i :: i in d.users.rows && d.users.rows[i].source == source && d.users.rows[i].externalId.Some? ==>
          var e := d.users.rows[i].externalId.value;
          if e in users then Shows(d.users.rows[i], users[e]) else d.users.rows[i].deleted)
    && (forall e :: e in groups ==> HasGroup(d.groups, source, e))
    && (forall i :: i in d.groups.rows && d.groups.rows[i].source == source ==>
          d.groups.rows[i].externalId in groups && ShowsGroup(d.groups.rows[i], groups[d.groups.rows[i].externalId]))
  }

  // ---------------------------------------------------------------- the specification: replace

  /** What the source's own part of the directory shows: active users, groups, and memberships between them. */
  datatype SourceView = SourceView(
    users: set<(string, Attributes)>, groups: set<(string, string, Option<string>)>, memberships: set<(string, string)>)

  function IdOf(row: UserRow): string {
    if row.externalId.Some? then row.externalId.value else ""
  }

  ghost function UsersView(t: UserTable, source: Source): set<(string, Attributes)> {
    set i | i in t.rows && t.rows[i].source == source && !t.rows[i].deleted :: (IdOf(t.rows[i]), t.rows[i].attributes)
  }

  ghost function GroupsView(t: GroupTable, source: Source): set<(string, string, Option<string>)> {
    set i | i in t.rows && t.rows[i].source == source
      :: (t.rows[i].externalId, t.rows[i].displayName, t.rows[i].mailNickname)
  }

  ghost function MembershipView(d: Directory, source: Source): set<(string, string)> {
    set m | m in d.memberships && Internal(d, source, m)
      :: (IdOf(d.users.rows[m.0]), d.groups.rows[m.1].externalId)
  }

  ghost function ViewOf(d: Directory, source: Source): SourceView {
    SourceView(UsersView(d.users, source), GroupsView(d.groups, source), MembershipView(d, source))
  }

  ghost function SnapshotUsers(users: map<string, ProviderUser>): set<(string, Attributes)> {
    set e | e in users && users[e].enabled :: (e, Staged(users[e]))
  }

  ghost function SnapshotGroups(groups: map<string, ProviderGroup>): set<(string, string, Option<string>)> {
    set e | e in groups :: (e, groups[e].displayName, NullString(groups[e].mailNickname))
  }

  ghost function SnapshotMemberships(users: map<string, ProviderUser>, groups: map<string, ProviderGroup>)
    : set<(string, string)>
  {
    set e, g | e in users && g in groups && g in users[e].groupExternalIds :: (e, g)
  }

  /** The last-wins enabled users, the distinct groups, and the last-wins memberships that name snapshot groups. */
  ghost function ViewOfSnapshot(snapshot: Snapshot): SourceView {
    var users := CurrentUsers(snapshot.users);
    var groups := CurrentGroups(snapshot.groups);
    SourceView(SnapshotUsers(users), SnapshotGroups(groups), SnapshotMemberships(users, groups))
  }

  /** Rows keep identity and credentials; new rows take fresh ids; other sources' rows do not change. */
  ghost predicate UsersFramed(before: UserTable, after: UserTable, source: Source) {
    && (forall i :: i in before.rows ==> i in after.rows && Kept(before.rows[i], after.rows[i], source))
    && (forall i :: i in after.rows && i !in before.rows ==> Added(before, i, after.rows[i], source))
  }

  ghost predicate GroupsFramed(before: GroupTable, after: GroupTable, source: Source) {
    && (forall i :: i in before.rows && before.rows[i].source != source ==>
          i in after.rows && after.rows[i] == before.rows[i])
    && (forall i :: i in after.rows && i in before.rows ==>
          after.rows[i].source == before.rows[i].source && after.rows[i].externalId == before.rows[i].externalId)
    && (forall i :: i in after.rows && i !in before.rows ==> before.next <= i && after.rows[i].source == source)
  }

  /** Direct roles stay; links of deleted groups go; other memberships are decided by their group alone. */
  ghost predicate LinksFramed(d: Directory, after: Directory, source: Source) {
    && after.roles == d.roles && after.userRoles == d.userRoles
    && (forall m :: m in after.groupRoles <==> m in d.groupRoles && m.0 in after.groups.rows)
    && (forall m :: m in after.locationGroups <==> m in d.locationGroups && m.1 in after.groups.rows)
    && (forall m :: !Internal(after, source, m) ==>
          (m in after.memberships <==> m in d.memberships && m.1 in after.groups.rows))
  }

  /** The group table after the upsert and the delete. */
  ghost predicate GroupsReplaced(before: GroupTable, now: GroupTable, source: Source, current: map<string, ProviderGroup>) {
    && GroupsOk(now) && before.next <= now.next
    && (forall i :: i in before.rows && (before.rows[i].source != source || before.rows[i].externalId in current) ==>
          i in now.rows && (before.rows[i].source != source ==> now.rows[i] == before.rows[i]))
    && (forall i :: i in now.rows && i in before.rows ==>
          now.rows[i].source == before.rows[i].source && now.rows[i].externalId == before.rows[i].externalId)
    && (forall i :: i in now.rows && now.rows[i].source == source ==>
          now.rows[i].externalId in current && GroupWritten(now.rows[i], current[now.rows[i].externalId]))
    && (forall i :: i in now.rows && i !in before.rows ==> before.next <= i && now.rows[i].source == source)
    && (forall e :: e in current ==> HasGroup(now, source, e))
  }

  lemma GroupsAreReplaced(d: Directory, source: Source, current: map<string, ProviderGroup>, order: seq<string>)
    requires Valid(d) && source != Local && GroupsKeyed(current) && IsOrder(order, current.Keys)
    ensures var d0 := d.(groups := UpsertGroups(d.groups, source, current, order));
      GroupsReplaced(d.groups, DeleteMissingGroups(d0, source, current.Keys).groups, source, current)
  {
    UpsertGroupsProgress(d.groups, source, current, order);
    assert Elems(order) == current.Keys;
    var d0 := d.(groups := UpsertGroups(d.groups, source, current, order));
    var now := DeleteMissingGroups(d0, source, current.Keys).groups;
    forall e | e in current ensures HasGroup(now, source, e) {
      var i := GroupId(d0.groups, source, e);
      assert IsGroup(now.rows[i], source, e);
    }
  }

  /** The tables after the reconciliation, and the facts about each of them that the theorems need. */
  lemma ReconciledParts(d: Directory, source: Source, snapshot: Snapshot, groupOrder: seq<string>, userOrder: seq<string>)
    requires Valid(d) && source == Entra
    requires IsOrder(groupOrder, CurrentGroups(snapshot.groups).Keys)
    requires IsOrder(userOrder, CurrentUsers(snapshot.users).Keys)
    ensures Keyed(CurrentUsers(snapshot.users)) && GroupsKeyed(CurrentGroups(snapshot.groups))
    ensures var after := Reconciled(d, source, snapshot, groupOrder, userOrder);
      && GroupsReplaced(d.groups, after.groups, source, CurrentGroups(snapshot.groups))
      && Progress(Tombstone(d.users, source), after.users, source, CurrentUsers(snapshot.users),
                  CurrentUsers(snapshot.users).Keys)
  {
    var users, groups := CurrentUsers(snapshot.users), CurrentGroups(snapshot.groups);
    forall e | e in users ensures users[e].externalId == e {
      CurrentUsersFrom(snapshot.users, e);
    }
    forall e | e in groups ensures groups[e].externalId == e {
      CurrentGroupsFrom(snapshot.groups, e);
    }
    GroupsAreReplaced(d, source, groups, groupOrder);
    TombstoneOk(d.users, source);
    UpsertsProgress(Tombstone(d.users, source), source, users, userOrder);
    assert Elems(userOrder) == users.Keys;
  }

  lemma ViewUsers(d: Directory, now: UserTable, source: Source, current: map<string, ProviderUser>)
    requires source == Entra && UsersOk(d.users)
    requires Progress(Tombstone(d.users, source), now, source, current, current.Keys)
    ensures UsersView(now, source) == SnapshotUsers(current)
  {
    TombstoneOk(d.users, source);
    forall pair | pair in SnapshotUsers(current) ensures pair in UsersView(now, source) {
      var i := UserId(now, source, pair.0);
      assert IdOf(now.rows[i]) in current.Keys;
    }
  }

  lemma ViewGroups(before: GroupTable, now: GroupTable, source: Source, current: map<string, ProviderGroup>)
    requires GroupsReplaced(before, now, source, current)
    ensures GroupsView(now, source) == SnapshotGroups(current)
  {
    forall entry | entry in SnapshotGroups(current) ensures entry in GroupsView(now, source) {
      var i := GroupId(now, source, entry.0);
    }
  }

  lemma ViewMemberships(
    d: Directory, after: Directory, source: Source, users: map<string, ProviderUser>, groups: map<string, ProviderGroup>)
    requires source == Entra && UsersOk(d.users)
    requires Progress(Tombstone(d.users, source), after.users, source, users, users.Keys)
    requires GroupsReplaced(d.groups, after.groups, source, groups)
    requires forall m :: Internal(after, source, m) ==> (m in after.memberships <==> StagedMember(after, source, users, m))
    ensures MembershipView(after, source) == SnapshotMemberships(users, groups)
  {
    forall pair | pair in SnapshotMemberships(users, groups) ensures pair in MembershipView(after, source) {
      var m := (UserId(after.users, source, pair.0), GroupId(after.groups, source, pair.1));
      assert Internal(after, source, m) && StagedMember(after, source, users, m);
    }
    forall pair | pair in MembershipView(after, source) ensures pair in SnapshotMemberships(users, groups) {
      var m :| m in after.memberships && Internal(after, source, m)
        && pair == (IdOf(after.users.rows[m.0]), after.groups.rows[m.1].externalId);
      assert StagedMember(after, source, users, m);
      var (u, g) := m;
      assert Internal(after, source, (u, g)) && after.groups.rows[g].externalId in groups;
      assert pair.0 in users && pair.1 in groups && pair.1 in users[pair.0].groupExternalIds;
    }
  }

  /** Between a source's own users and groups exactly the staged memberships remain. */
  lemma RebuiltMemberships(d: Directory, source: Source, current: map<string, ProviderUser>, m: (int, int))
    ensures var after := RebuildMemberships(d, source, current);
      if Internal(after, source, m) then m in after.memberships <==> StagedMember(after, source, current, m)
      else m in after.memberships <==> m in d.memberships
  {
    var (u, g) := m;
    assert StagedMember(d, source, current, (u, g)) ==> (u, g) in StagedMembers(d, source, current);
  }

  /**
   The reconciliation refines "replace": from every prior directory and in every
   visiting order, the source's view afterwards is the snapshot's view.
   */
  lemma SyncReplacesView(d: Directory, source: Source, snapshot: Snapshot, groupOrder: seq<string>, userOrder: seq<string>)
    requires Valid(d) && source == Entra
    requires IsOrder(groupOrder, CurrentGroups(snapshot.groups).Keys)
    requires IsOrder(userOrder, CurrentUsers(snapshot.users).Keys)
    ensures UsersOk(Reconciled(d, source, snapshot, groupOrder, userOrder).users)
    ensures ViewOf(Reconciled(d, source, snapshot, groupOrder, userOrder), source) == ViewOfSnapshot(snapshot)
  {
    var users, groups := CurrentUsers(snapshot.users), CurrentGroups(snapshot.groups);
    var after := Reconciled(d, source, snapshot, groupOrder, userOrder);
    ReconciledParts(d, source, snapshot, groupOrder, userOrder);
    ViewUsers(d, after.users, source, users);
    ViewGroups(d.groups, after.groups, source, groups);
    var d2 := after.(memberships := set m | m in d.memberships && m.1 in after.groups.rows);
    forall m | Internal(after, source, m)
      ensures m in after.memberships <==> StagedMember(after, source, users, m)
    {
      RebuiltMemberships(d2, source, users, m);
    }
    ViewMemberships(d, after, source, users, groups);
  }

  /** After the reconciliation every column of the source's rows holds what the snapshot says, field by field. */
  lemma SyncShowsFields(d: Directory, source: Source, snapshot: Snapshot, groupOrder: seq<string>, userOrder: seq<string>)
    requires Valid(d) && source == Entra
    requires IsOrder(groupOrder, CurrentGroups(snapshot.groups).Keys)
    requires IsOrder(userOrder, CurrentUsers(snapshot.users).Keys)
    ensures SourceShows(Reconciled(d, source, snapshot, groupOrder, userOrder), source,
                        CurrentUsers(snapshot.users), CurrentGroups(snapshot.groups))
  {
    var users := CurrentUsers(snapshot.users);
    var after := Reconciled(d, source, snapshot, groupOrder, userOrder);
    ReconciledParts(d, source, snapshot, groupOrder, userOrder);
    TombstoneOk(d.users, source);
    RowsShow(Tombstone(d.users, source), after.users, source, users);
  }

  lemma RowsShow(before: UserTable, now: UserTable, source: Source, users: map<string, ProviderUser>)
    requires Tombstoned(before, source) && Progress(before, now, source, users, users.Keys)
    ensures forall i :: i in now.rows && now.rows[i].source == source && now.rows[i].externalId.Some? ==>
      var e := now.rows[i].externalId.value;
      if e in users then Shows(now.rows[i], users[e]) else now.rows[i].deleted
  {
    forall i | i in now.rows && now.rows[i].source == source && now.rows[i].externalId.Some?
      ensures var e := now.rows[i].externalId.value;
        if e in users then Shows(now.rows[i], users[e]) else now.rows[i].deleted
    {
      var e := now.rows[i].externalId.value;
      if e in users.Keys {
        WrittenShows(now.rows[i], users[e]);
      }
    }
  }

  /** The frame: identity, credentials, other sources, direct roles, and exactly the cascades of deleted groups. */
  lemma SyncFrames(d: Directory, source: Source, snapshot: Snapshot, groupOrder: seq<string>, userOrder: seq<string>)
    requires Valid(d) && source == Entra
    requires IsOrder(groupOrder, CurrentGroups(snapshot.groups).Keys)
    requires IsOrder(userOrder, CurrentUsers(snapshot.users).Keys)
    ensures var after := Reconciled(d, source, snapshot, groupOrder, userOrder);
      && UsersFramed(d.users, after.users, source)
      && GroupsFramed(d.groups, after.groups, source)
      && LinksFramed(d, after, source)
  {
    var users, groups := CurrentUsers(snapshot.users), CurrentGroups(snapshot.groups);
    var after := Reconciled(d, source, snapshot, groupOrder, userOrder);
    ReconciledParts(d, source, snapshot, groupOrder, userOrder);
    FrameUsers(d.users, after.users, source, users);
    FrameGroups(d.groups, after.groups, source, groups);
    var d2 := after.(memberships := set m | m in d.memberships && m.1 in after.groups.rows);
    forall m | !Internal(after, source, m)
      ensures m in after.memberships <==> m in d.memberships && m.1 in after.groups.rows
    {
      RebuiltMemberships(d2, source, users, m);
    }
  }

  lemma FrameUsers(before: UserTable, now: UserTable, source: Source, current: map<string, ProviderUser>)
    requires Progress(Tombstone(before, source), now, source, current, current.Keys)
    ensures UsersFramed(before, now, source)
  {
    var middle := Tombstone(before, source);
    forall i | i in before.rows ensures i in now.rows && Kept(before.rows[i], now.rows[i], source) {
      assert i in middle.rows && Kept(middle.rows[i], now.rows[i], source);
    }
  }

  lemma FrameGroups(before: GroupTable, now: GroupTable, source: Source, current: map<string, ProviderGroup>)
    requires GroupsOk(before) && GroupsReplaced(before, now, source, current)
    ensures GroupsFramed(before, now, source)
  {
  }
}
