/**
 The three readers of roster eligibility, each building its own query: the check
 on one person, the station roster, and the searchable picker.
 */
module Eligibility {
  import opened DirectoryTables
  import opened Listing
  import opened QueryBuilder
  import opened SyncRuns

  const ACTIVE := "u.deleted_at IS NULL"
  const UNLISTED := "(NOT EXISTS (SELECT 1 FROM location_directory_groups WHERE location_id="
  const LISTED := ") OR EXISTS (SELECT 1 FROM lg JOIN gm ON gm.group_id=lg.group_id WHERE lg.location_id="
  const MEMBER := " AND gm.user_id=u.id))"
  const SAME_ID := "u.id="
  const NAME_LIKE := "(u.name ILIKE "
  const EMAIL_LIKE := " OR u.email ILIKE "
  const DEPARTMENT_LIKE := " OR u.department ILIKE "
  const CLOSE := ")"

  function LocationClause(location: Piece): Clause {
    [Sql(UNLISTED), location, Sql(LISTED), location, Sql(MEMBER)]
  }

  const BY_ID: seq<FormatPiece> := [Literal(SAME_ID), Verb]

  const SEARCH: seq<FormatPiece> :=
    [Literal(NAME_LIKE), Verb, Literal(EMAIL_LIKE), Verb, Literal(DEPARTMENT_LIKE), Verb, Literal(CLOSE)]

  /** No group listed at the one location, or membership of a group listed at the other: the two placeholders of the clause. */
  predicate OpenOrMember(d: Directory, open: int, listed: int, user: int) {
    (forall m :: m in d.locationGroups ==> m.0 != open)
    || (exists m, n :: m in d.locationGroups && n in d.memberships && m.0 == listed && n.1 == m.1 && n.0 == user)
  }

  predicate Holds(d: Directory, like: (int, string) -> bool, said: seq<Bound<Value>>, user: int) {
    if said == [Text(ACTIVE)] then Active(d, user)
    else if |said| == 2 && said[0] == Text(SAME_ID) && said[1].Val? && said[1].value.Int? then user == said[1].value.n
    else if |said| == 5 && said[0] == Text(UNLISTED) && said[2] == Text(LISTED) && said[4] == Text(MEMBER)
            && said[1].Val? && said[1].value.Int? && said[3].Val? && said[3].value.Int?
    then OpenOrMember(d, said[1].value.n, said[3].value.n, user)
    else if |said| == 7 && said[0] == Text(NAME_LIKE) && said[1].Val? && said[1].value.Str? then like(user, said[1].value.s)
    else false
  }

  function SaidLocation(location: int): seq<Bound<Value>> {
    [Text(UNLISTED), Val(Int(location)), Text(LISTED), Val(Int(location)), Text(MEMBER)]
  }

  /** The clause, read back, is eligibility at the location. */
  lemma LocationMeansEligible(d: Directory, like: (int, string) -> bool, location: int, user: int)
    ensures Holds(d, like, [Text(ACTIVE)], user) && Holds(d, like, SaidLocation(location), user)
      <==> Eligible(d, location, user)
  {
    assert Open(d, location) <==> forall m :: m in d.locationGroups ==> m.0 != location by {
      forall m | m in d.locationGroups && Open(d, location) ensures m.0 != location {
        assert !Listed(d, location, m.1);
      }
    }
    if m, n :| m in d.locationGroups && n in d.memberships && m.0 == location && n.1 == m.1 && n.0 == user {
      assert Listed(d, location, m.1) && (user, m.1) in d.memberships;
    }
    if group :| Listed(d, location, group) && (user, group) in d.memberships {
      assert (location, group) in d.locationGroups && (location, group).1 == (user, group).1;
    }
  }

  lemma LocationSays(location: int)
    ensures InRange(LocationClause(Placeholder(1)), 1)
    ensures Bind(LocationClause(Placeholder(1)), [Int(location)]) == SaidLocation(location)
  {
  }

  lemma ActiveSays()
    ensures InRange([Sql(ACTIVE)], 0) && Bind<Value>([Sql(ACTIVE)], []) == [Text(ACTIVE)]
  {
  }

  method EligiblePeopleWhere(location: int) returns (where: WhereBuilder<Value>)
    ensures fresh(where) && where.Valid()
    ensures where.meant == [[Text(ACTIVE)], SaidLocation(location)]
  {
    where := new WhereBuilder();
    ActiveSays();
    where.Add([Sql(ACTIVE)]);
    var placeholder := where.Arg(Int(location));
    assert where.args == [Int(location)] && placeholder == Placeholder(1);
    LocationSays(location);
    where.Add(LocationClause(placeholder));
  }

  /** SELECT ... FROM users u WHERE ...: the users whose row passes. */
  method Select(d: Directory, like: (int, string) -> bool, where: WhereBuilder<Value>) returns (people: set<int>)
    requires where.Valid()
    ensures forall u :: u in people <==> u in d.users.rows && HoldsAll(d, like, where.meant, u)
  {
    var clauses, args := where.Build();
    people := set u | u in d.users.rows && Passes((said, user) => Holds(d, like, said, user), clauses, args, u);
  }

  predicate HoldsAll(d: Directory, like: (int, string) -> bool, said: seq<seq<Bound<Value>>>, user: int) {
    forall i :: 0 <= i < |said| ==> Holds(d, like, said[i], user)
  }

  /** The shared conditions, with any further ones, select the eligible users that satisfy the further ones. */
  lemma SharedConditions(
    d: Directory, like: (int, string) -> bool, location: int, more: seq<seq<Bound<Value>>>, user: int)
    ensures HoldsAll(d, like, [[Text(ACTIVE)], SaidLocation(location)] + more, user)
      <==> Eligible(d, location, user) && HoldsAll(d, like, more, user)
  {
    var said := [[Text(ACTIVE)], SaidLocation(location)] + more;
    LocationMeansEligible(d, like, location, user);
    if HoldsAll(d, like, said, user) {
      assert Holds(d, like, said[0], user) && Holds(d, like, said[1], user);
      forall i | 0 <= i < |more| ensures Holds(d, like, more[i], user) {
        assert said[i + 2] == more[i];
      }
    }
  }

  method PersonEligible(d: Directory, location: int, user: int) returns (ok: bool)
    ensures ok <==> Eligible(d, location, user)
  {
    var none := (_: int, _: string) => false;
    var where := EligiblePeopleWhere(location);
    SaysId(user);
    where.Addf(BY_ID, [Int(user)]);
    ghost var more := [[Text(SAME_ID), Val(Int(user))]];
    assert where.meant == [[Text(ACTIVE)], SaidLocation(location)] + more;
    var people := Select(d, none, where);
    ok := exists u :: u in people;
    forall u ensures u in people <==> Eligible(d, location, u) && u == user {
      SharedConditions(d, none, location, more, u);
      assert HoldsAll(d, none, more, u) <==> Holds(d, none, more[0], u);
    }
    assert user in people <==> Eligible(d, location, user);
  }

  method ListPeople(d: Directory, location: int) returns (people: set<int>)
    ensures forall u :: u in people <==> Eligible(d, location, u)
  {
    var none := (_: int, _: string) => false;
    var where := EligiblePeopleWhere(location);
    people := Select(d, none, where);
    assert where.meant == [[Text(ACTIVE)], SaidLocation(location)] + [];
    forall u ensures u in people <==> Eligible(d, location, u) {
      SharedConditions(d, none, location, [], u);
    }
  }

  /** The picker: without a search it selects exactly the roster, with one it selects the matching part of it. */
  method ListEligiblePeople(d: Directory, location: int, q: string, like: (int, string) -> bool) returns (people: set<int>)
    ensures forall u :: u in people <==> Eligible(d, location, u) && (q == "" || like(u, q))
  {
    var where := EligiblePeopleWhere(location);
    ghost var more: seq<seq<Bound<Value>>> := [];
    if q != "" {
      SearchSays(q);
      where.Addf(SEARCH, [Str(q), Str(q), Str(q)]);
      more := [SaidSearch(q)];
    }
    assert where.meant == [[Text(ACTIVE)], SaidLocation(location)] + more;
    people := Select(d, like, where);
    forall u ensures u in people <==> Eligible(d, location, u) && (q == "" || like(u, q)) {
      SharedConditions(d, like, location, more, u);
      assert q != "" ==> (HoldsAll(d, like, more, u) <==> Holds(d, like, more[0], u));
    }
  }

  function SaidSearch(q: string): seq<Bound<Value>> {
    [Text(NAME_LIKE), Val(Str(q)), Text(EMAIL_LIKE), Val(Str(q)), Text(DEPARTMENT_LIKE), Val(Str(q)), Text(CLOSE)]
  }

  lemma FillPair<V>(text: string, value: V, format: seq<FormatPiece>, values: seq<V>)
    requires Verbs(format) == |values|
    ensures Verbs([Literal(text), Verb] + format) == 1 + |values|
    ensures Fill([Literal(text), Verb] + format, [value] + values) == [Text(text), Val(value)] + Fill(format, values)
  {
    var all := [Literal(text), Verb] + format;
    assert all[1..] == [Verb] + format;
    assert all[1..][1..] == format;
    assert ([value] + values)[1..] == values;
  }

  lemma SaysId(user: int)
    ensures Verbs(BY_ID) == 1 && Fill(BY_ID, [Int(user)]) == [Text(SAME_ID), Val(Int(user))]
  {
    FillPair(SAME_ID, Int(user), [], []);
    assert BY_ID == [Literal(SAME_ID), Verb] + [];
    assert [Int(user)] + [] == [Int(user)];
    assert Fill<Value>([], []) == [];
  }

  lemma SearchSays(q: string)
    ensures Verbs(SEARCH) == 3
    ensures Fill(SEARCH, [Str(q), Str(q), Str(q)]) == SaidSearch(q)
  {
    var end := [Literal(CLOSE)];
    assert end[1..] == [];
    FillPair(DEPARTMENT_LIKE, Str(q), end, []);
    var two := [Literal(DEPARTMENT_LIKE), Verb] + end;
    FillPair(EMAIL_LIKE, Str(q), two, [Str(q)]);
    FillPair(NAME_LIKE, Str(q), [Literal(EMAIL_LIKE), Verb] + two, [Str(q)] + [Str(q)]);
    assert SEARCH == [Literal(NAME_LIKE), Verb] + ([Literal(EMAIL_LIKE), Verb] + two);
    assert [Str(q)] + ([Str(q)] + [Str(q)]) == [Str(q), Str(q), Str(q)];
  }
}
