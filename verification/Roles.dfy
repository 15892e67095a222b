/**
 The readers of effective roles: the role lists attached to users, the role
 filter of the user list, and the grants handed to authorization. Each has its
 own query over direct and group-inherited roles.
 */
module Roles {
  import opened DirectoryTables
  import opened Listing
  import opened QueryBuilder
  import opened Wrappers

  // ---------------------------------------------------------------- assigned roles

  predicate Direct(d: Directory, user: int, role: int) {
    (user, role) in d.userRoles
  }

  predicate Inherited(d: Directory, user: int, role: int) {
    exists m, n :: m in d.memberships && n in d.groupRoles && m.0 == user && n == (m.1, role)
  }

  // ---------------------------------------------------------------- attachUserRoles

  /** One row of the attach query: GROUP BY user and role, `direct` by bool_or. */
  datatype RoleRow = RoleRow(user: int, role: RoleSummary, direct: bool)

  /** The query's rows for the given users, in whatever order it lists them. */
  ghost predicate IsRoleQuery(d: Directory, users: set<int>, rows: seq<RoleRow>) {
    && (forall i, j :: 0 <= i < j < |rows| ==> rows[i].user != rows[j].user || rows[i].role.id != rows[j].role.id)
    && (forall i :: 0 <= i < |rows| ==>
          && rows[i].user in users && rows[i].role.id in d.roles && rows[i].role == d.roles[rows[i].role.id]
          && (Direct(d, rows[i].user, rows[i].role.id) || Inherited(d, rows[i].user, rows[i].role.id))
          && rows[i].direct == Direct(d, rows[i].user, rows[i].role.id))
    && (forall user, role :: user in users && role in d.roles && (Direct(d, user, role) || Inherited(d, user, role)) ==>
          exists i :: 0 <= i < |rows| && rows[i].user == user && rows[i].role.id == role)
  }

  datatype User = User(id: int, roles: seq<RoleSummary>, effectiveRoles: seq<RoleSummary>)

  function EffectiveOf(rows: seq<RoleRow>, user: int): seq<RoleSummary> {
    if rows == [] then []
    else
      var last := rows[|rows| - 1];
      EffectiveOf(rows[..|rows| - 1], user) + (if last.user == user then [last.role] else [])
  }

  function DirectOf(rows: seq<RoleRow>, user: int): seq<RoleSummary> {
    if rows == [] then []
    else
      var last := rows[|rows| - 1];
      DirectOf(rows[..|rows| - 1], user) + (if last.user == user && last.direct then [last.role] else [])
  }

  /** The last position of a user id in the slice: where the id-to-pointer map points. */
  predicate LastOf(users: seq<User>, i: int) {
    0 <= i < |users| && forall j :: i < j < |users| ==> users[j].id != users[i].id
  }

  /** The slice once `rows` have been read: each id's last element has its lists, other copies of the id stay empty. */
  function Attached(was: seq<User>, rows: seq<RoleRow>): seq<User> {
    seq(|was|, i requires 0 <= i < |was| =>
      if LastOf(was, i) then User(was[i].id, DirectOf(rows, was[i].id), EffectiveOf(rows, was[i].id))
      else User(was[i].id, [], []))
  }

  /** The id-to-pointer map points at the last element with each id among the first `n`. */
  ghost predicate PointsAtLast(byId: map<int, int>, was: seq<User>, n: nat)
    requires n <= |was|
  {
    && (forall k :: 0 <= k < n ==> was[k].id in byId)
    && (forall id :: id in byId ==> 0 <= byId[id] < n && was[byId[id]].id == id)
    && (forall id, j :: id in byId && byId[id] < j < n ==> was[j].id != id)
  }

  method IndexUsers(users: array<User>) returns (byId: map<int, int>)
    modifies users
    ensures PointsAtLast(byId, old(users[..]), users.Length)
    ensures users[..] == Attached(old(users[..]), [])
  {
    ghost var was := users[..];
    byId := map[];
    for i := 0 to users.Length
      invariant forall k :: i <= k < users.Length ==> users[k] == was[k]
      invariant forall k :: 0 <= k < i ==> users[k] == User(was[k].id, [], [])
      invariant PointsAtLast(byId, was, i)
    {
      users[i] := users[i].(roles := [], effectiveRoles := []);
      byId := byId[users[i].id := i];
    }
  }

  /** One row lands on the element the map points at, and nowhere else. */
  lemma AttachStep(was: seq<User>, rows: seq<RoleRow>, row: RoleRow, at: int)
    requires 0 <= at < |was| && LastOf(was, at) && was[at].id == row.user
    ensures var u := Attached(was, rows)[at];
      Attached(was, rows + [row]) == Attached(was, rows)[at := User(
        u.id, if row.direct then u.roles + [row.role] else u.roles, u.effectiveRoles + [row.role])]
  {
    var more := rows + [row];
    assert more[..|rows|] == rows;
    forall i | 0 <= i < |was| && i != at ensures Attached(was, more)[i] == Attached(was, rows)[i] {
      if LastOf(was, i) {
        assert was[i].id != row.user;
      }
    }
    assert more[|more| - 1] == row;
    assert EffectiveOf(more, row.user) == EffectiveOf(rows, row.user) + [row.role];
    assert DirectOf(more, row.user) == DirectOf(rows, row.user) + (if row.direct then [row.role] else []);
    assert DirectOf(rows, row.user) + [] == DirectOf(rows, row.user);
  }

  /** One pass of the row loop. */
  method AppendRole(users: array<User>, at: int, row: RoleRow)
    requires 0 <= at < users.Length
    modifies users
    ensures users[..] == old(users[..])[at := User(
      old(users[at]).id, if row.direct then old(users[at]).roles + [row.role] else old(users[at]).roles,
      old(users[at]).effectiveRoles + [row.role])]
  {
    users[at] := users[at].(effectiveRoles := users[at].effectiveRoles + [row.role]);
    if row.direct {
      users[at] := users[at].(roles := users[at].roles + [row.role]);
    }
  }

  ghost function Ids(users: seq<User>): set<int> {
    set i | 0 <= i < |users| :: users[i].id
  }

  lemma PointsAtRow(byId: map<int, int>, was: seq<User>, user: int)
    requires PointsAtLast(byId, was, |was|) && user in Ids(was)
    ensures user in byId && LastOf(was, byId[user]) && was[byId[user]].id == user
  {
  }

  /** One pass of the row loop, through the map. */
  method AttachRow(users: array<User>, byId: map<int, int>, ghost was: seq<User>, ghost done: seq<RoleRow>, row: RoleRow)
    requires PointsAtLast(byId, was, |was|) && row.user in Ids(was)
    requires users[..] == Attached(was, done)
    modifies users
    ensures users[..] == Attached(was, done + [row])
  {
    PointsAtRow(byId, was, row.user);
    var at := byId[row.user];
    AttachStep(was, done, row, at);
    assert users[at] == users[..][at];
    AppendRole(users, at, row);
  }

  /** The query only returns rows of the users it was asked about. */
  ghost predicate RowsOf(rows: seq<RoleRow>, users: set<int>) {
    forall i :: 0 <= i < |rows| ==> rows[i].user in users
  }

  lemma AllRows(rows: seq<RoleRow>)
    ensures rows[..|rows|] == rows && rows[..0] == []
    ensures forall n :: 0 <= n < |rows| ==> rows[..n + 1] == rows[..n] + [rows[n]]
  {
  }

  /** The row loop, appending through the map in place. */
  method AttachRows(users: array<User>, byId: map<int, int>, ghost was: seq<User>, rows: seq<RoleRow>)
    requires PointsAtLast(byId, was, |was|) && RowsOf(rows, Ids(was))
    requires users[..] == Attached(was, [])
    modifies users
    ensures users[..] == Attached(was, rows)
  {
    AllRows(rows);
    for n := 0 to |rows|
      invariant users[..] == Attached(was, rows[..n])
    {
      AttachRow(users, byId, was, rows[..n], rows[n]);
    }
  }

  method AttachUserRoles(users: array<User>, rows: seq<RoleRow>)
    requires RowsOf(rows, Ids(users[..]))
    modifies users
    ensures users[..] == Attached(old(users[..]), rows)
  {
    ghost var was := users[..];
    var byId := IndexUsers(users);
    AttachRows(users, byId, was, rows);
  }

  lemma {:induction false} EffectiveInOrder(some: seq<RoleRow>, row: RoleRow, rest: seq<RoleRow>, user: int)
    ensures EffectiveOf(some + [row] + rest, user) ==
      EffectiveOf(some, user) + (if row.user == user then [row.role] else []) + EffectiveOf(rest, user)
    decreases |rest|
  {
    var all := some + [row] + rest;
    if rest == [] {
      assert all[..|all| - 1] == some && all[|all| - 1] == row;
    } else {
      var n := |rest| - 1;
      assert all[..|all| - 1] == some + [row] + rest[..n] && all[|all| - 1] == rest[n];
      EffectiveInOrder(some, row, rest[..n], user);
    }
  }

  lemma {:induction false} DirectInOrder(some: seq<RoleRow>, row: RoleRow, rest: seq<RoleRow>, user: int)
    ensures DirectOf(some + [row] + rest, user) ==
      DirectOf(some, user) + (if row.user == user && row.direct then [row.role] else []) + DirectOf(rest, user)
    decreases |rest|
  {
    var all := some + [row] + rest;
    if rest == [] {
      assert all[..|all| - 1] == some && all[|all| - 1] == row;
    } else {
      var n := |rest| - 1;
      assert all[..|all| - 1] == some + [row] + rest[..n] && all[|all| - 1] == rest[n];
      DirectInOrder(some, row, rest[..n], user);
    }
  }

  /** The lists are in row order: a row adds its role for its user, directly if it is direct, behind those of the rows before. */
  lemma ListsInOrder(some: seq<RoleRow>, row: RoleRow, rest: seq<RoleRow>, user: int)
    ensures EffectiveOf(some + [row] + rest, user) ==
      EffectiveOf(some, user) + (if row.user == user then [row.role] else []) + EffectiveOf(rest, user)
    ensures DirectOf(some + [row] + rest, user) ==
      DirectOf(some, user) + (if row.user == user && row.direct then [row.role] else []) + DirectOf(rest, user)
  {
    EffectiveInOrder(some, row, rest, user);
    DirectInOrder(some, row, rest, user);
  }

  // ---------------------------------------------------------------- what the lists contain

  predicate HasRole(list: seq<RoleSummary>, role: int) {
    exists i :: 0 <= i < |list| && list[i].id == role
  }

  predicate NoRoleTwice(list: seq<RoleSummary>) {
    forall i, j :: 0 <= i < j < |list| ==> list[i].id != list[j].id
  }

  lemma HasRoleAppend(list: seq<RoleSummary>, last: RoleSummary, role: int)
    ensures HasRole(list + [last], role) <==> HasRole(list, role) || last.id == role
  {
    if HasRole(list, role) {
      var i :| 0 <= i < |list| && list[i].id == role;
      assert (list + [last])[i].id == role;
    }
    assert (list + [last])[|list|] == last;
  }

  predicate RowFor(rows: seq<RoleRow>, user: int, role: int, directOnly: bool) {
    exists i :: 0 <= i < |rows| && rows[i].user == user && rows[i].role.id == role && (directOnly ==> rows[i].direct)
  }

  predicate RowsDistinct(rows: seq<RoleRow>) {
    forall i, j :: 0 <= i < j < |rows| ==> rows[i].user != rows[j].user || rows[i].role.id != rows[j].role.id
  }

  lemma RowForPrefix(rows: seq<RoleRow>, user: int, role: int, directOnly: bool)
    requires rows != []
    ensures var last := rows[|rows| - 1];
      RowFor(rows, user, role, directOnly) <==>
        RowFor(rows[..|rows| - 1], user, role, directOnly)
        || (last.user == user && last.role.id == role && (directOnly ==> last.direct))
  {
    var n := |rows| - 1;
    if RowFor(rows[..n], user, role, directOnly) {
      var i :| 0 <= i < n && rows[..n][i].user == user && rows[..n][i].role.id == role && (directOnly ==> rows[..n][i].direct);
      assert rows[i] == rows[..n][i];
    }
    if RowFor(rows, user, role, directOnly) {
      var i :| 0 <= i < |rows| && rows[i].user == user && rows[i].role.id == role && (directOnly ==> rows[i].direct);
      if i < n {
        assert rows[..n][i] == rows[i];
      }
    }
  }

  /** Each list holds exactly the roles of the user's rows. */
  lemma {:induction false} ListsHoldRows(rows: seq<RoleRow>, user: int, role: int)
    ensures HasRole(EffectiveOf(rows, user), role) <==> RowFor(rows, user, role, false)
    ensures HasRole(DirectOf(rows, user), role) <==> RowFor(rows, user, role, true)
  {
    if rows != [] {
      var n := |rows| - 1;
      ListsHoldRows(rows[..n], user, role);
      RowForPrefix(rows, user, role, false);
      RowForPrefix(rows, user, role, true);
      HasRoleAppend(EffectiveOf(rows[..n], user), rows[n].role, role);
      HasRoleAppend(DirectOf(rows[..n], user), rows[n].role, role);
      assert EffectiveOf(rows[..n], user) + [] == EffectiveOf(rows[..n], user);
      assert DirectOf(rows[..n], user) + [] == DirectOf(rows[..n], user);
    }
  }

  lemma {:induction false} ListsNoDuplicates(rows: seq<RoleRow>, user: int)
    requires RowsDistinct(rows)
    ensures NoRoleTwice(EffectiveOf(rows, user)) && NoRoleTwice(DirectOf(rows, user))
  {
    if rows != [] {
      var n := |rows| - 1;
      ListsNoDuplicates(rows[..n], user);
      ListsHoldRows(rows[..n], user, rows[n].role.id);
    }
  }

  ghost predicate RolesExist(d: Directory) {
    (forall r :: r in d.roles ==> d.roles[r].id == r)
    && (forall m :: m in d.userRoles ==> m.1 in d.roles)
    && (forall m :: m in d.groupRoles ==> m.1 in d.roles)
  }

  /** EffectiveRoles are the direct and inherited roles, each once; Roles are exactly the direct part of them. */
  lemma AttachedRoles(d: Directory, users: set<int>, rows: seq<RoleRow>, user: int, role: int)
    requires RolesExist(d) && IsRoleQuery(d, users, rows) && user in users
    ensures NoRoleTwice(EffectiveOf(rows, user)) && NoRoleTwice(DirectOf(rows, user))
    ensures HasRole(EffectiveOf(rows, user), role) <==> Direct(d, user, role) || Inherited(d, user, role)
    ensures HasRole(DirectOf(rows, user), role) <==> HasRole(EffectiveOf(rows, user), role) && Direct(d, user, role)
  {
    ListsNoDuplicates(rows, user);
    ListsHoldRows(rows, user, role);
  }

  // ---------------------------------------------------------------- the role filter of the user list

  const DIRECT_IN := "EXISTS (SELECT 1 FROM authz_user_roles AS direct_role WHERE direct_role.role_id = ANY("
  const INHERITED_IN := ") UNION ALL SELECT 1 FROM memberships JOIN group_role WHERE group_role.role_id = ANY("
  const END_IN := "))"
  const NO_ROLE := "NOT EXISTS (direct UNION ALL inherited)"
  const OPEN := "("
  const OR := " OR "
  const CLOSE := ")"

  const NONE_VALUE := "none"

  function InRoles(roles: Piece): Clause {
    [Sql(DIRECT_IN), roles, Sql(INHERITED_IN), roles, Sql(END_IN)]
  }

  /** The numeric values, in order; "none" is not one of them. `parse` is strconv.ParseInt, 0 on failure. */
  function RoleIds(values: seq<string>, parse: string -> int): seq<int> {
    if values == [] then []
    else RoleIds(values[..|values| - 1], parse)
         + (if values[|values| - 1] == NONE_VALUE then [] else [parse(values[|values| - 1])])
  }

  /** The filter says: some direct or inherited role among the ids, or, if asked for, no role at all. */
  function SaidFilter(ids: seq<int>, none: bool): seq<Bound<Value>> {
    [Text(OPEN)]
    + (if ids != [] then [Text(DIRECT_IN), Val(Ints(ids)), Text(INHERITED_IN), Val(Ints(ids)), Text(END_IN)] else [])
    + (if ids != [] && none then [Text(OR)] else [])
    + (if none then [Text(NO_ROLE)] else [])
    + [Text(CLOSE)]
  }

  method ReadRoleValues(values: seq<string>, parse: string -> int) returns (ids: seq<int>, includeNone: bool)
    ensures ids == RoleIds(values, parse) && includeNone == (NONE_VALUE in values)
  {
    ids := [];
    includeNone := false;
    var i := 0;
    while i < |values|
      invariant 0 <= i <= |values|
      invariant ids == RoleIds(values[..i], parse) && includeNone == (NONE_VALUE in values[..i])
    {
      assert values[..i + 1][..i] == values[..i];
      if values[i] == NONE_VALUE {
        includeNone := true;
      } else {
        ids := ids + [parse(values[i])];
      }
      i := i + 1;
    }
    assert values[..i] == values;
  }

  lemma InRolesSays(args: seq<Value>, ids: seq<int>)
    requires args != [] && args[|args| - 1] == Ints(ids)
    ensures InRange(InRoles(Placeholder(|args|)), |args|)
    ensures Bind(InRoles(Placeholder(|args|)), args) ==
      [Text(DIRECT_IN), Val(Ints(ids)), Text(INHERITED_IN), Val(Ints(ids)), Text(END_IN)]
  {
  }

  lemma SqlSays(text: string, args: seq<Value>)
    ensures InRange([Sql(text)], |args|) && Bind([Sql(text)], args) == [Text(text)]
  {
  }

  /** One array argument, used twice in the clause, then the two conditions joined. */
  method RoleFilterSql(where: WhereBuilder<Value>, values: seq<string>, parse: string -> int) returns (clause: Clause)
    requires where.Valid()
    modifies where`args
    ensures where.Valid() && where.meant == old(where.meant) && where.clauses == old(where.clauses)
    ensures InRange(clause, |where.args|)
    ensures Bind(clause, where.args) == SaidFilter(RoleIds(values, parse), NONE_VALUE in values)
  {
    var ids, includeNone := ReadRoleValues(values, parse);
    var inRoles: Clause, or: Clause, noRole: Clause := [], [], [];
    if ids != [] {
      var roles := where.Arg(Ints(ids));
      inRoles := InRoles(roles);
      InRolesSays(where.args, ids);
      if includeNone {
        or := [Sql(OR)];
      }
    }
    if includeNone {
      noRole := [Sql(NO_ROLE)];
    }
    ghost var args := where.args;
    SqlSays(OPEN, args);
    SqlSays(OR, args);
    SqlSays(NO_ROLE, args);
    SqlSays(CLOSE, args);
    BindAppend([Sql(OPEN)], inRoles, args);
    BindAppend([Sql(OPEN)] + inRoles, or, args);
    BindAppend([Sql(OPEN)] + inRoles + or, noRole, args);
    BindAppend([Sql(OPEN)] + inRoles + or + noRole, [Sql(CLOSE)], args);
    clause := [Sql(OPEN)] + inRoles + or + noRole + [Sql(CLOSE)];
  }

  /** EXISTS over direct rows in one id array UNION ALL inherited rows in another: the two placeholders of the clause. */
  ghost predicate SomeRole(d: Directory, direct: seq<int>, inherited: seq<int>, user: int) {
    (exists role :: role in direct && Direct(d, user, role)) || (exists role :: role in inherited && Inherited(d, user, role))
  }

  ghost predicate NoRole(d: Directory, user: int) {
    forall role :: !Direct(d, user, role) && !Inherited(d, user, role)
  }

  /** Five pieces that read as the EXISTS over two id arrays. */
  predicate SaysInRoles(said: seq<Bound<Value>>) {
    |said| == 5 && said[0] == Text(DIRECT_IN) && said[2] == Text(INHERITED_IN) && said[4] == Text(END_IN)
    && said[1].Val? && said[1].value.Ints? && said[3].Val? && said[3].value.Ints?
  }

  /** The bound filter, read as SQL on one user: the conditions between the parentheses, joined by OR; none is no SQL. */
  ghost predicate FilterHolds(d: Directory, said: seq<Bound<Value>>, user: int) {
    |said| >= 2 && said[0] == Text(OPEN) && said[|said| - 1] == Text(CLOSE) &&
    var inside := said[1..|said| - 1];
    if inside == [Text(NO_ROLE)] then NoRole(d, user)
    else if SaysInRoles(inside) then SomeRole(d, inside[1].value.ns, inside[3].value.ns, user)
    else if |inside| == 7 && SaysInRoles(inside[..5]) && inside[5..] == [Text(OR), Text(NO_ROLE)] then
      SomeRole(d, inside[1].value.ns, inside[3].value.ns, user) || NoRole(d, user)
    else false
  }

  lemma FilterReads(d: Directory, ids: seq<int>, none: bool, user: int)
    ensures FilterHolds(d, SaidFilter(ids, none), user) <==>
      (ids != [] && SomeRole(d, ids, ids, user)) || (none && NoRole(d, user))
  {
    var said := SaidFilter(ids, none);
    var inside := said[1..|said| - 1];
    var found := [Text(DIRECT_IN), Val(Ints(ids)), Text(INHERITED_IN), Val(Ints(ids)), Text(END_IN)];
    if ids != [] && none {
      assert inside == found + [Text(OR), Text(NO_ROLE)];
      assert inside[..5] == found && inside[5..] == [Text(OR), Text(NO_ROLE)];
      assert inside[0] == Text(DIRECT_IN);
    } else if ids != [] {
      assert inside == found;
      assert inside[0] == Text(DIRECT_IN);
    } else if none {
      assert inside == [Text(NO_ROLE)];
    } else {
      assert inside == [];
    }
  }

  lemma FilterIsReadable(ids: seq<int>, none: bool, otherIds: seq<int>, otherNone: bool)
    requires SaidFilter(ids, none) == SaidFilter(otherIds, otherNone)
    ensures ids == otherIds && none == otherNone
  {
    var a, b := SaidFilter(ids, none), SaidFilter(otherIds, otherNone);
    assert |a| == |b|;
    if ids != [] && otherIds != [] {
      assert a[2] == Val(Ints(ids)) && b[2] == Val(Ints(otherIds));
    }
  }

  /** Some role of the list is among the ids. */
  predicate Names(list: seq<RoleSummary>, ids: seq<int>) {
    exists i :: 0 <= i < |list| && list[i].id in ids
  }

  /** The list filter and the attached lists agree: a listed id is among EffectiveRoles, or "none" meets an empty list. */
  lemma FilterAgreesWithLists(
    d: Directory, users: set<int>, rows: seq<RoleRow>, user: int, ids: seq<int>, none: bool)
    requires RolesExist(d) && IsRoleQuery(d, users, rows) && user in users
    ensures FilterHolds(d, SaidFilter(ids, none), user) <==>
      Names(EffectiveOf(rows, user), ids) || (none && EffectiveOf(rows, user) == [])
  {
    var list := EffectiveOf(rows, user);
    FilterReads(d, ids, none, user);
    forall role ensures HasRole(list, role) <==> Direct(d, user, role) || Inherited(d, user, role) {
      AttachedRoles(d, users, rows, user, role);
    }
    if Names(list, ids) {
      var i :| 0 <= i < |list| && list[i].id in ids;
      assert HasRole(list, list[i].id);
    }
    if list != [] {
      assert HasRole(list, list[0].id);
    }
  }

  /** The values asked for: a number that is the id of a role in the list, or "none" and the list is empty. */
  predicate Asked(list: seq<RoleSummary>, values: seq<string>, parse: string -> int) {
    (exists i :: 0 <= i < |values| && values[i] != "none" && HasRole(list, parse(values[i])))
    || ("none" in values && list == [])
  }

  /** Some value other than "none" is the number. */
  predicate Requests(values: seq<string>, parse: string -> int, id: int) {
    exists i :: 0 <= i < |values| && values[i] != NONE_VALUE && parse(values[i]) == id
  }

  lemma RequestsAppend(values: seq<string>, last: string, parse: string -> int, id: int)
    ensures Requests(values + [last], parse, id) <==>
      Requests(values, parse, id) || (last != NONE_VALUE && parse(last) == id)
  {
    var all := values + [last];
    if Requests(values, parse, id) {
      var i :| 0 <= i < |values| && values[i] != NONE_VALUE && parse(values[i]) == id;
      assert all[i] == values[i];
    }
    assert all[|values|] == last;
  }

  lemma {:induction false} RoleIdsFrom(values: seq<string>, parse: string -> int, id: int)
    ensures id in RoleIds(values, parse) <==> Requests(values, parse, id)
  {
    if values != [] {
      var n := |values| - 1;
      RoleIdsFrom(values[..n], parse, id);
      RequestsAppend(values[..n], values[n], parse, id);
      assert values[..n] + [values[n]] == values;
    }
  }

  /** From the requested values to the rows: the clause roleFilterSQL builds matches a user exactly when its lists say so. */
  lemma FilterSelects(
    d: Directory, users: set<int>, rows: seq<RoleRow>, user: int, values: seq<string>, parse: string -> int)
    requires RolesExist(d) && IsRoleQuery(d, users, rows) && user in users
    ensures FilterHolds(d, SaidFilter(RoleIds(values, parse), NONE_VALUE in values), user) <==>
      Asked(EffectiveOf(rows, user), values, parse)
  {
    var list, ids := EffectiveOf(rows, user), RoleIds(values, parse);
    FilterAgreesWithLists(d, users, rows, user, ids, NONE_VALUE in values);
    if Names(list, ids) {
      var i :| 0 <= i < |list| && list[i].id in ids;
      RoleIdsFrom(values, parse, list[i].id);
      assert HasRole(list, list[i].id);
    }
    forall i | 0 <= i < |values| && values[i] != NONE_VALUE && HasRole(list, parse(values[i])) ensures Names(list, ids) {
      RoleIdsFrom(values, parse, parse(values[i]));
    }
  }

  // ---------------------------------------------------------------- permissions and grants

  /** View and Edit are stored as 1 and 2; None is not stored. */
  datatype Access = NoAccess | View | Edit | Unknown(name: string)

  datatype Grant = Grant(resource: string, access: Access)

  /** (role, resource) to level, the primary key of authz_role_permissions. */
  type Permissions = map<(int, string), int>

  function AccessFromLevel(level: int): Result<Access, Fault> {
    if level == 1 then Success(View) else if level == 2 then Success(Edit) else Failure(InvalidAccess)
  }

  function AccessLevel(access: Access): Result<int, Fault> {
    match access
    case NoAccess => Success(0)
    case View => Success(1)
    case Edit => Success(2)
    case Unknown(_) => Failure(InvalidAccess)
  }

  predicate AllKnown(permissions: map<string, Access>) {
    forall r :: r in permissions ==> !permissions[r].Unknown?
  }

  /** The table with the role's rows replaced by those of the resources in `done`. */
  predicate Replaced(p: Permissions, role: int, permissions: map<string, Access>, done: set<string>, table: Permissions) {
    && (forall k :: k in table && k.0 != role ==> k in p && table[k] == p[k])
    && (forall k :: k in p && k.0 != role ==> k in table)
    && (forall k :: k in table && k.0 == role ==>
          k.1 in done && k.1 in permissions && permissions[k.1] != NoAccess
          && table[k] == if permissions[k.1] == View then 1 else 2)
    && (forall r :: r in done && r in permissions && permissions[r] != NoAccess ==> (role, r) in table)
  }

  lemma ReplaceOne(p: Permissions, role: int, permissions: map<string, Access>, done: set<string>, table: Permissions, r: string)
    requires Replaced(p, role, permissions, done, table) && r in permissions && r !in done && !permissions[r].Unknown?
    ensures Replaced(p, role, permissions, done + {r},
      if permissions[r] == NoAccess then table else table[(role, r) := if permissions[r] == View then 1 else 2])
  {
  }

  /** DELETE the role's permissions, then INSERT one row per resource, the map visited in any order. */
  method ReplacePermissions(p: Permissions, role: int, permissions: map<string, Access>)
    returns (r: Result<Permissions, Fault>)
    ensures r.Success? <==> AllKnown(permissions)
    ensures r.Success? ==> Replaced(p, role, permissions, permissions.Keys, r.value)
  {
    var table: Permissions := map k | k in p && k.0 != role :: p[k];
    var done: set<string> := {};
    while done != permissions.Keys
      invariant done <= permissions.Keys
      invariant forall x :: x in done ==> !permissions[x].Unknown?
      invariant Replaced(p, role, permissions, done, table)
      decreases permissions.Keys - done
    {
      var resource :| resource in permissions && resource !in done;
      var access := permissions[resource];
      if access.Unknown? {
        return Failure(InvalidAccess);
      }
      ReplaceOne(p, role, permissions, done, table, resource);
      if access != NoAccess {
        var level := AccessLevel(access);
        table := table[(role, resource) := level.value];
      }
      done := done + {resource};
    }
    r := Success(table);
  }

  /** The permissions read back for one role. */
  function Attach(p: Permissions, role: int): map<string, Access> {
    map k | k in p && k.0 == role :: k.1 := if p[k] == 1 then View else Edit
  }

  lemma AttachReads(p: Permissions, role: int, resource: string)
    ensures resource in Attach(p, role) <==> (role, resource) in p
    ensures (role, resource) in p ==> Attach(p, role)[resource] == if p[(role, resource)] == 1 then View else Edit
  {
  }

  /** Reading a role back gives the permissions that were written, without the None entries; other roles are as before. */
  lemma ReplacedReadsBack(
    p: Permissions, role: int, permissions: map<string, Access>, table: Permissions, owner: int, r: string)
    requires AllKnown(permissions) && Replaced(p, role, permissions, permissions.Keys, table)
    ensures var after := Attach(table, owner);
      if owner == role
      then (r in after <==> r in permissions && permissions[r] != NoAccess) && (r in after ==> after[r] == permissions[r])
      else (r in after <==> r in Attach(p, owner)) && (r in after ==> after[r] == Attach(p, owner)[r])
  {
    AttachReads(table, owner, r);
    AttachReads(p, owner, r);
    if (owner, r) in table && owner == role {
      assert (owner, r).1 in permissions;
    }
    if (owner, r) in p && owner != role {
      assert (owner, r).0 != role;
    }
  }

  /** One row of assigned_roles: UNION ALL keeps a row for every way a role reaches the user. */
  datatype Assignment = DirectRole(role: int) | Through(group: int, role: int)

  predicate Assigned(d: Directory, user: int, a: Assignment) {
    match a
    case DirectRole(role) => (user, role) in d.userRoles
    case Through(group, role) => (group, role) in d.groupRoles && (user, group) in d.memberships
  }

  /** The rows of the grants query: every assignment joined to every permission of its role, in any order. */
  ghost predicate IsGrantQuery(d: Directory, p: Permissions, user: int, rows: seq<(Assignment, string)>) {
    forall row :: row in rows <==> Assigned(d, user, row.0) && (row.0.role, row.1) in p
  }

  /** The role's permissions, read back, hold the grant. */
  predicate Carries(p: Permissions, role: int, g: Grant) {
    g.resource in Attach(p, role) && Attach(p, role)[g.resource] == g.access
  }

  /** A stored permission of a direct or inherited role. */
  ghost predicate EffectiveGrant(d: Directory, p: Permissions, user: int, g: Grant) {
    exists role :: (Direct(d, user, role) || Inherited(d, user, role)) && Carries(p, role, g)
  }

  /** Some role of the list carries the grant. */
  predicate ListCarries(list: seq<RoleSummary>, p: Permissions, g: Grant) {
    exists i :: 0 <= i < |list| && Carries(p, list[i].id, g)
  }

  lemma ListCarriesRole(list: seq<RoleSummary>, p: Permissions, g: Grant)
    ensures ListCarries(list, p, g) <==> exists role :: HasRole(list, role) && Carries(p, role, g)
  {
    if ListCarries(list, p, g) {
      var i :| 0 <= i < |list| && Carries(p, list[i].id, g);
      assert HasRole(list, list[i].id);
    }
  }

  /** The grants and the attached lists agree: a grant is effective exactly when a role in EffectiveRoles carries it. */
  lemma GrantsAgreeWithLists(d: Directory, p: Permissions, users: set<int>, rows: seq<RoleRow>, user: int, g: Grant)
    requires RolesExist(d) && IsRoleQuery(d, users, rows) && user in users
    ensures EffectiveGrant(d, p, user, g) <==> ListCarries(EffectiveOf(rows, user), p, g)
  {
    ListCarriesRole(EffectiveOf(rows, user), p, g);
    forall role | Carries(p, role, g)
      ensures HasRole(EffectiveOf(rows, user), role) <==> Direct(d, user, role) || Inherited(d, user, role)
    {
      AttachedRoles(d, users, rows, user, role);
    }
  }

  lemma AssignmentsAreEffective(d: Directory, user: int, role: int) returns (a: Assignment)
    requires Direct(d, user, role) || Inherited(d, user, role)
    ensures Assigned(d, user, a) && a.role == role
  {
    if Direct(d, user, role) {
      a := DirectRole(role);
    } else {
      var m, n :| m in d.memberships && n in d.groupRoles && m.0 == user && n == (m.1, role);
      assert m == (user, m.1);
      a := Through(m.1, role);
    }
  }

  lemma EffectiveFromAssigned(d: Directory, user: int, a: Assignment)
    requires Assigned(d, user, a)
    ensures Direct(d, user, a.role) || Inherited(d, user, a.role)
  {
    if a.Through? {
      assert (user, a.group) in d.memberships && (a.group, a.role) == ((user, a.group).1, a.role);
    }
  }

  lemma GrantsAreEffective(d: Directory, p: Permissions, user: int, rows: seq<(Assignment, string)>, grants: seq<Grant>)
    requires IsGrantQuery(d, p, user, rows) && |grants| == |rows|
    requires forall j :: 0 <= j < |rows| ==> (rows[j].0.role, rows[j].1) in p && grants[j] == GrantOf(p, rows[j])
    ensures forall g :: g in grants <==> EffectiveGrant(d, p, user, g)
  {
    forall g | g in grants ensures EffectiveGrant(d, p, user, g) {
      var j :| 0 <= j < |grants| && grants[j] == g;
      assert rows[j] in rows;
      EffectiveFromAssigned(d, user, rows[j].0);
      AttachReads(p, rows[j].0.role, rows[j].1);
    }
    forall g | EffectiveGrant(d, p, user, g) ensures g in grants {
      var role :| (Direct(d, user, role) || Inherited(d, user, role)) && Carries(p, role, g);
      var a := AssignmentsAreEffective(d, user, role);
      AttachReads(p, role, g.resource);
      assert (a, g.resource) in rows;
      var j :| 0 <= j < |rows| && rows[j] == (a, g.resource);
      assert grants[j] == g;
    }
  }

  /** The levels the access column's CHECK constraint allows. */
  predicate Decodes(p: Permissions, row: (Assignment, string))
    requires (row.0.role, row.1) in p
  {
    p[(row.0.role, row.1)] == 1 || p[(row.0.role, row.1)] == 2
  }

  /** The scan loop over the grants query; it fails on a level outside the CHECK constraint. */
  method Grants(ghost d: Directory, p: Permissions, ghost user: int, rows: seq<(Assignment, string)>)
    returns (r: Result<seq<Grant>, Fault>)
    requires IsGrantQuery(d, p, user, rows)
    ensures r.Success? <==> forall row :: row in rows ==> Decodes(p, row)
    ensures r.Success? ==> forall g :: g in r.value <==> EffectiveGrant(d, p, user, g)
  {
    var grants: seq<Grant> := [];
    for i := 0 to |rows|
      invariant |grants| == i
      invariant forall j :: 0 <= j < i ==>
        (rows[j].0.role, rows[j].1) in p && Decodes(p, rows[j]) && grants[j] == GrantOf(p, rows[j])
    {
      assert rows[i] in rows;
      var access := AccessFromLevel(p[(rows[i].0.role, rows[i].1)]);
      if access.Failure? {
        return Failure(InvalidAccess);
      }
      grants := grants + [Grant(rows[i].1, access.value)];
    }
    GrantsAreEffective(d, p, user, rows, grants);
    r := Success(grants);
  }

  function GrantOf(p: Permissions, row: (Assignment, string)): Grant
    requires (row.0.role, row.1) in p
  {
    Grant(row.1, if p[(row.0.role, row.1)] == 1 then View else Edit)
  }
}
