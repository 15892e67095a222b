/**
 ORDER BY: how the requested sort is completed by the default order, and what
 the resulting list of terms means as an order on rows. The value of an order
 expression on a row is an integer rank, or None for NULL.
 */
module Ordering {
  import opened SortTokens
  import opened Text
  import opened Wrappers

  datatype NullOrder = NullsDefault | NullsFirst | NullsLast

  datatype OrderExpr = OrderExpr(sql: string, descending: bool, nulls: NullOrder)

  /** One printed part of the clause: expression, direction, null placement. */
  datatype Term = Term(sql: string, desc: bool, nulls: NullOrder)

  function OrderPart(expr: OrderExpr, desc: bool): Term {
    Term(expr.sql, desc, expr.nulls)
  }

  predicate Uses(terms: seq<Term>, sql: string) {
    exists i :: 0 <= i < |terms| && terms[i].sql == sql
  }

  predicate NoRepeats(terms: seq<Term>) {
    forall i, j :: 0 <= i < j < |terms| ==> terms[i].sql != terms[j].sql
  }

  // ---------------------------------------------------------------- building the clause

  /** The requested column, looked up in the allow list. */
  function Requested(sort: string, keys: map<string, OrderExpr>): Result<seq<Term>, Fault> {
    match ParseSortColumn(sort)
    case NoSort => Success([])
    case Rejected => Failure(InvalidInput)
    case Column(item) =>
      if item.id in keys then Success([OrderPart(keys[item.id], item.desc)]) else Failure(InvalidInput)
  }

  /** The default columns the parts do not already pin, appended in turn. */
  function Complete(parts: seq<Term>, defaults: seq<OrderExpr>): seq<Term>
    decreases |defaults|
  {
    if defaults == [] then parts
    else
      Complete(if Uses(parts, defaults[0].sql) then parts else parts + [OrderPart(defaults[0], defaults[0].descending)],
               defaults[1..])
  }

  /** `used` lists the expressions of the parts. */
  predicate Tracks(used: seq<string>, parts: seq<Term>) {
    |used| == |parts| && forall j :: 0 <= j < |parts| ==> used[j] == parts[j].sql
  }

  lemma TracksUses(used: seq<string>, parts: seq<Term>, sql: string)
    requires Tracks(used, parts)
    ensures sql in used <==> Uses(parts, sql)
  {
    if Uses(parts, sql) {
      var i :| 0 <= i < |parts| && parts[i].sql == sql;
      assert used[i] == sql;
    }
  }

  lemma PinNext(used: seq<string>, parts: seq<Term>, next: Term)
    requires Tracks(used, parts) && NoRepeats(parts) && !Uses(parts, next.sql)
    ensures Tracks(used + [next.sql], parts + [next]) && NoRepeats(parts + [next])
  {
  }

  lemma CompleteNext(parts: seq<Term>, defaults: seq<OrderExpr>, i: nat)
    requires i < |defaults|
    ensures Complete(parts, defaults[i..]) ==
      Complete(if Uses(parts, defaults[i].sql) then parts else parts + [OrderPart(defaults[i], defaults[i].descending)],
               defaults[i + 1..])
  {
    assert defaults[i..][0] == defaults[i] && defaults[i..][1..] == defaults[i + 1..];
  }

  /** The loop over the default order. */
  method AppendDefaults(pinned: seq<Term>, pinnedSql: seq<string>, defaults: seq<OrderExpr>) returns (parts: seq<Term>)
    requires Tracks(pinnedSql, pinned) && NoRepeats(pinned)
    ensures parts == Complete(pinned, defaults) && NoRepeats(parts)
  {
    parts := pinned;
    var used := pinnedSql;
    assert defaults[0..] == defaults;
    for i := 0 to |defaults|
      invariant Tracks(used, parts) && NoRepeats(parts)
      invariant Complete(parts, defaults[i..]) == Complete(pinned, defaults)
    {
      CompleteNext(parts, defaults, i);
      TracksUses(used, parts, defaults[i].sql);
      if defaults[i].sql !in used {
        PinNext(used, parts, OrderPart(defaults[i], defaults[i].descending));
        used := used + [defaults[i].sql];
        parts := parts + [OrderPart(defaults[i], defaults[i].descending)];
      }
    }
  }

  /**
   A blank sort is accepted and a comma refused; a token that names a column is
   accepted exactly when the column is allowed.
   */
  lemma AcceptedIff(sort: string, keys: map<string, OrderExpr>, id: string, desc: bool)
    ensures Trim(sort) == "" ==> Requested(sort, keys) == Success([])
    ensures ',' in Trim(sort) ==> Requested(sort, keys).Failure?
    ensures Names(sort, id, desc) ==> (Requested(sort, keys).Success? <==> id in keys)
    ensures Names(sort, id, desc) && id in keys ==>
      Requested(sort, keys) == Success([Term(keys[id].sql, desc, keys[id].nulls)])
  {
    ServerReads(sort, id, desc);
  }

  /** The first term of a clause stays where it is when the default order is appended. */
  lemma {:induction false} CompleteKeepsHead(parts: seq<Term>, defaults: seq<OrderExpr>)
    ensures |parts| <= |Complete(parts, defaults)| && Complete(parts, defaults)[..|parts|] == parts
    decreases |defaults|
  {
    if defaults != [] {
      var t := OrderPart(defaults[0], defaults[0].descending);
      if Uses(parts, t.sql) {
        CompleteKeepsHead(parts, defaults[1..]);
      } else {
        CompleteKeepsHead(parts + [t], defaults[1..]);
        assert Complete(parts, defaults)[..|parts|] == Complete(parts, defaults)[..|parts| + 1][..|parts|];
      }
    }
  }

  /** The column asked for leads the clause, in the direction asked for and with its own null placement. */
  lemma NamedColumnLeads(sort: string, keys: map<string, OrderExpr>, defaults: seq<OrderExpr>, id: string, desc: bool)
    requires Names(sort, id, desc) && id in keys
    ensures Requested(sort, keys).Success?
    ensures var clause := Complete(Requested(sort, keys).value, defaults);
      clause != [] && clause[0] == Term(keys[id].sql, desc, keys[id].nulls)
  {
    AcceptedIff(sort, keys, id, desc);
    CompleteKeepsHead(Requested(sort, keys).value, defaults);
  }

  method OrderBy(sort: string, keys: map<string, OrderExpr>, defaults: seq<OrderExpr>)
    returns (r: Result<seq<Term>, Fault>)
    ensures r.Success? <==> Requested(sort, keys).Success?
    ensures r.Failure? ==> r.error == InvalidInput
    ensures r.Success? ==> r.value == Complete(Requested(sort, keys).value, defaults) && NoRepeats(r.value)
    ensures Trim(sort) == "" ==> r == Success(Complete([], defaults))
    ensures ',' in Trim(sort) ==> r.Failure?
    ensures forall id, desc :: Names(sort, id, desc) ==>
      (r.Success? <==> id in keys)
      && (r.Success? ==> r.value != [] && r.value[0] == Term(keys[id].sql, desc, keys[id].nulls))
  {
    AcceptedIff(sort, keys, "", false);
    forall id, desc | Names(sort, id, desc)
      ensures Requested(sort, keys).Success? <==> id in keys
      ensures id in keys ==>
        var clause := Complete(Requested(sort, keys).value, defaults);
        clause != [] && clause[0] == Term(keys[id].sql, desc, keys[id].nulls)
    {
      AcceptedIff(sort, keys, id, desc);
      if id in keys {
        NamedColumnLeads(sort, keys, defaults, id, desc);
      }
    }
    var column := ParseSortColumn(sort);
    if column.Rejected? {
      return Failure(InvalidInput);
    }
    var parts: seq<Term> := [];
    var used: seq<string> := [];
    if column.Column? {
      if column.item.id !in keys {
        return Failure(InvalidInput);
      }
      var expr := keys[column.item.id];
      used := used + [expr.sql];
      parts := parts + [OrderPart(expr, column.item.desc)];
    }
    assert parts == Requested(sort, keys).value;
    var completed := AppendDefaults(parts, used, defaults);
    r := Success(completed);
  }

  // ---------------------------------------------------------------- what a list of terms means

  /** NULL sorts last ascending and first descending unless the term says otherwise. */
  predicate NullsLead(t: Term) {
    match t.nulls
    case NullsFirst => true
    case NullsLast => false
    case NullsDefault => t.desc
  }

  predicate KeyBefore(t: Term, x: Option<int>, y: Option<int>) {
    match (x, y)
    case (None, None) => false
    case (None, Some(_)) => NullsLead(t)
    case (Some(_), None) => !NullsLead(t)
    case (Some(a), Some(b)) => if t.desc then b < a else a < b
  }

  /** Lexicographic comparison, term by term. */
  predicate Before<R>(terms: seq<Term>, key: (string, R) -> Option<int>, a: R, b: R) {
    terms != [] &&
    var x, y := key(terms[0].sql, a), key(terms[0].sql, b);
    KeyBefore(terms[0], x, y) || (x == y && Before(terms[1..], key, a, b))
  }

  predicate Tied<R>(terms: seq<Term>, key: (string, R) -> Option<int>, a: R, b: R) {
    forall i :: 0 <= i < |terms| ==> key(terms[i].sql, a) == key(terms[i].sql, b)
  }

  lemma {:induction false} BeforeAppend<R>(p: seq<Term>, q: seq<Term>, key: (string, R) -> Option<int>, a: R, b: R)
    ensures Before(p + q, key, a, b) <==> Before(p, key, a, b) || (Tied(p, key, a, b) && Before(q, key, a, b))
  {
    if p == [] {
      assert p + q == q;
    } else {
      assert (p + q)[0] == p[0] && (p + q)[1..] == p[1..] + q;
      BeforeAppend(p[1..], q, key, a, b);
      assert Tied(p, key, a, b) <==> key(p[0].sql, a) == key(p[0].sql, b) && Tied(p[1..], key, a, b) by {
        assert forall i :: 1 <= i < |p| ==> p[i] == p[1..][i - 1];
      }
    }
  }

  function Parts(defaults: seq<OrderExpr>): seq<Term> {
    if defaults == [] then [] else [OrderPart(defaults[0], defaults[0].descending)] + Parts(defaults[1..])
  }

  /** The default order is each default expression in turn, in its own direction and null placement. */
  lemma {:induction false} PartsAre(defaults: seq<OrderExpr>)
    ensures |Parts(defaults)| == |defaults|
    ensures forall i :: 0 <= i < |defaults| ==>
      Parts(defaults)[i] == Term(defaults[i].sql, defaults[i].descending, defaults[i].nulls)
  {
    if defaults != [] {
      PartsAre(defaults[1..]);
    }
  }

  /** Dropping a column whose expression is already used does not change the order: it can only repeat a tie. */
  lemma DropUsed<R>(parts: seq<Term>, t: Term, rest: seq<Term>, key: (string, R) -> Option<int>, a: R, b: R)
    requires Uses(parts, t.sql)
    ensures Before(parts + ([t] + rest), key, a, b) <==> Before(parts + rest, key, a, b)
  {
    BeforeAppend(parts, [t] + rest, key, a, b);
    BeforeAppend(parts, rest, key, a, b);
    assert ([t] + rest)[1..] == rest;
    if Tied(parts, key, a, b) {
      var i :| 0 <= i < |parts| && parts[i].sql == t.sql;
    }
  }

  /** The completed clause orders rows exactly as the requested column followed by the whole default order. */
  lemma {:induction false} CompleteKeepsOrder<R>(
    parts: seq<Term>, defaults: seq<OrderExpr>, key: (string, R) -> Option<int>, a: R, b: R)
    ensures Before(Complete(parts, defaults), key, a, b) <==> Before(parts + Parts(defaults), key, a, b)
    decreases |defaults|
  {
    if defaults == [] {
      assert parts + [] == parts;
    } else {
      var t := OrderPart(defaults[0], defaults[0].descending);
      var rest := Parts(defaults[1..]);
      if Uses(parts, t.sql) {
        DropUsed(parts, t, rest, key, a, b);
        CompleteKeepsOrder(parts, defaults[1..], key, a, b);
      } else {
        CompleteKeepsOrder(parts + [t], defaults[1..], key, a, b);
        assert parts + [t] + rest == parts + ([t] + rest);
      }
    }
  }

  lemma {:induction false} CompleteUses(parts: seq<Term>, defaults: seq<OrderExpr>, sql: string)
    ensures Uses(Complete(parts, defaults), sql) <==> Uses(parts + Parts(defaults), sql)
    decreases |defaults|
  {
    if defaults == [] {
      assert parts + [] == parts;
    } else {
      var t := OrderPart(defaults[0], defaults[0].descending);
      var rest := Parts(defaults[1..]);
      if Uses(parts, t.sql) {
        UsedAgain(parts, t, rest, sql);
        CompleteUses(parts, defaults[1..], sql);
      } else {
        CompleteUses(parts + [t], defaults[1..], sql);
        assert parts + [t] + rest == parts + ([t] + rest);
      }
    }
  }

  lemma UsedAgain(parts: seq<Term>, t: Term, rest: seq<Term>, sql: string)
    requires Uses(parts, t.sql)
    ensures Uses(parts + ([t] + rest), sql) <==> Uses(parts + rest, sql)
  {
    UsesAppend(parts, rest, sql);
    UsesAppend(parts, [t] + rest, sql);
    UsesAppend([t], rest, sql);
  }

  lemma UsesAppend(p: seq<Term>, q: seq<Term>, sql: string)
    ensures Uses(p + q, sql) <==> Uses(p, sql) || Uses(q, sql)
  {
    if Uses(p, sql) {
      var i :| 0 <= i < |p| && p[i].sql == sql;
      assert (p + q)[i].sql == sql;
    }
    if Uses(q, sql) {
      var i :| 0 <= i < |q| && q[i].sql == sql;
      assert (p + q)[|p| + i].sql == sql;
    }
  }

  // ---------------------------------------------------------------- total order

  /** Some expression of the clause, such as the id, tells any two rows apart. */
  ghost predicate Distinguishes<R>(terms: seq<Term>, key: (string, R) -> Option<int>, rows: set<R>) {
    exists sql :: Uses(terms, sql) && forall a, b :: a in rows && b in rows && a != b ==> key(sql, a) != key(sql, b)
  }

  lemma {:induction false} BeforeTransitive<R>(terms: seq<Term>, key: (string, R) -> Option<int>, a: R, b: R, c: R)
    requires Before(terms, key, a, b) && Before(terms, key, b, c)
    ensures Before(terms, key, a, c)
    decreases |terms|
  {
    if key(terms[0].sql, a) == key(terms[0].sql, b) == key(terms[0].sql, c) {
      BeforeTransitive(terms[1..], key, a, b, c);
    }
  }

  lemma {:induction false} BeforeAsymmetric<R>(terms: seq<Term>, key: (string, R) -> Option<int>, a: R, b: R)
    requires Before(terms, key, a, b)
    ensures !Before(terms, key, b, a)
    decreases |terms|
  {
    if key(terms[0].sql, a) == key(terms[0].sql, b) {
      BeforeAsymmetric(terms[1..], key, a, b);
    }
  }

  lemma {:induction false} BeforeOrTied<R>(terms: seq<Term>, key: (string, R) -> Option<int>, a: R, b: R)
    ensures Before(terms, key, a, b) || Before(terms, key, b, a) || Tied(terms, key, a, b)
    decreases |terms|
  {
    if terms != [] && key(terms[0].sql, a) == key(terms[0].sql, b) {
      BeforeOrTied(terms[1..], key, a, b);
      if Tied(terms[1..], key, a, b) {
        forall i | 0 <= i < |terms| ensures key(terms[i].sql, a) == key(terms[i].sql, b) {
          if 0 < i {
            assert terms[i] == terms[1..][i - 1];
          }
        }
      }
    }
  }

  /** With a distinguishing expression, any two rows are ordered one way or the other. */
  lemma BeforeTotal<R>(terms: seq<Term>, key: (string, R) -> Option<int>, rows: set<R>, a: R, b: R)
    requires Distinguishes(terms, key, rows) && a in rows && b in rows && a != b
    ensures Before(terms, key, a, b) || Before(terms, key, b, a)
  {
    BeforeOrTied(terms, key, a, b);
  }

  /** If the default order has a key that tells rows apart, so has the clause built for any accepted sort token. */
  lemma CompletedDistinguishes<R>(
    sort: string, keys: map<string, OrderExpr>, defaults: seq<OrderExpr>, key: (string, R) -> Option<int>, rows: set<R>)
    requires Requested(sort, keys).Success? && Distinguishes(Parts(defaults), key, rows)
    ensures Distinguishes(Complete(Requested(sort, keys).value, defaults), key, rows)
  {
    var sql :| Uses(Parts(defaults), sql) && forall a, b :: a in rows && b in rows && a != b ==> key(sql, a) != key(sql, b);
    var requested := Requested(sort, keys).value;
    UsesAppend(requested, Parts(defaults), sql);
    CompleteUses(requested, defaults, sql);
  }
}
