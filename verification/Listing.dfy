/**
 Paginated lists end to end: the list query's parameters and placeholders, what
 PostgreSQL may answer, and the client that reassembles every page.
 */
module Listing {
  import opened Ordering
  import opened QueryBuilder
  import opened SortTokens
  import opened Text
  import opened Wrappers

  const DEFAULT_PAGE_SIZE := 50
  const MAX_PAGE_SIZE := 1000
  const INT32_MAX := 0x7fff_ffff
  const INT64_MAX := 0x7fff_ffff_ffff_ffff

  type int32 = n: int | -0x8000_0000 <= n <= 0x7fff_ffff

  datatype Params = Params(pageIndex: int32, pageSize: int32, sort: string)

  /** Arguments of the queries in this model. */
  datatype Value = Int(n: int) | Ints(ns: seq<int>) | Str(s: string)

  datatype ListQuery = ListQuery(
    where: seq<Clause>, args: seq<Value>, keys: map<string, OrderExpr>, defaults: seq<OrderExpr>, params: Params)

  datatype BuiltQuery = BuiltQuery(where: seq<Clause>, order: seq<Term>, limit: Piece, offset: Piece, args: seq<Value>)

  function Normalize(params: Params): Params {
    params.(sort := Trim(params.sort), pageSize := if params.pageSize == 0 then DEFAULT_PAGE_SIZE else params.pageSize)
  }

  predicate Validated(params: Params) {
    0 <= params.pageIndex && 1 <= params.pageSize <= MAX_PAGE_SIZE
  }

  predicate WhereOk(where: seq<Clause>, args: seq<Value>) {
    forall i :: 0 <= i < |where| ==> InRange(where[i], |args|)
  }

  /** The query would be built: its page bounds are valid and its sort token is accepted. */
  predicate Accepted(q: ListQuery) {
    Validated(Normalize(q.params)) && Requested(Normalize(q.params).sort, q.keys).Success?
  }

  /** The clause order of an accepted query. */
  function OrderOf(q: ListQuery): seq<Term>
    requires Accepted(q)
  {
    Complete(Requested(Normalize(q.params).sort, q.keys).value, q.defaults)
  }

  /** What a built query says: every clause of the list query, its completed order, its page size and page offset. */
  ghost predicate Implements(q: ListQuery, b: BuiltQuery)
    requires WhereOk(q.where, q.args)
  {
    var params := Normalize(q.params);
    && Accepted(q)
    && WhereOk(b.where, b.args) && |b.where| == |q.where|
    && (forall i :: 0 <= i < |b.where| ==> Bind(b.where[i], b.args) == Bind(q.where[i], q.args))
    && b.order == OrderOf(q) && NoRepeats(b.order)
    && InRange([b.limit, b.offset], |b.args|)
    && Bind([b.limit, b.offset], b.args) == [Val(Int(params.pageSize)), Val(Int(params.pageIndex * params.pageSize))]
  }

  /**
   Two more arguments are appended, so the limit and offset placeholders denote
   the page size and the page offset, every earlier clause keeps its meaning,
   and the 64-bit product cannot overflow.
   */
  method Build(q: ListQuery) returns (r: Result<BuiltQuery, Fault>)
    requires WhereOk(q.where, q.args)
    ensures r.Failure? ==> r.error == InvalidInput
    ensures r.Success? <==> Accepted(q)
    ensures r.Success? ==> Implements(q, r.value)
    ensures ',' in Trim(q.params.sort) ==> r.Failure?
    ensures forall id, desc :: Names(q.params.sort, id, desc) ==>
      (r.Success? <==> Validated(Normalize(q.params)) && id in q.keys)
      && (r.Success? ==> r.value.order != [] && r.value.order[0] == Term(q.keys[id].sql, desc, q.keys[id].nulls))
    ensures r.Success? ==>
      0 <= Normalize(q.params).pageIndex * Normalize(q.params).pageSize <= INT64_MAX
  {
    TrimCharacterised(q.params.sort);
    TrimCharacterised(Trim(q.params.sort));
    assert forall id, desc :: Names(q.params.sort, id, desc) <==> Names(Normalize(q.params).sort, id, desc);
    AcceptedIff(Normalize(q.params).sort, q.keys, "", false);
    forall id, desc | Names(Normalize(q.params).sort, id, desc)
      ensures Requested(Normalize(q.params).sort, q.keys).Success? <==> id in q.keys
    {
      AcceptedIff(Normalize(q.params).sort, q.keys, id, desc);
    }
    var params := Normalize(q.params);
    if !Validated(params) {
      return Failure(InvalidInput);
    }
    var order := OrderBy(params.sort, q.keys, q.defaults);
    if order.Failure? {
      return Failure(InvalidInput);
    }
    var limitIndex := |q.args| + 1;
    var offset := params.pageIndex * params.pageSize;
    OffsetFits(params.pageIndex, params.pageSize);
    var appended := [Int(params.pageSize), Int(offset)];
    forall i | 0 <= i < |q.where|
      ensures InRange(q.where[i], |q.args + appended|) && Bind(q.where[i], q.args + appended) == Bind(q.where[i], q.args)
    {
      BindStable(q.where[i], q.args, appended);
    }
    r := Success(BuiltQuery(
      q.where, order.value, Placeholder(limitIndex), Placeholder(limitIndex + 1), q.args + appended));
  }

  lemma {:induction false} TimesGrows(a: nat, b: nat, size: nat)
    requires a <= b
    ensures 0 <= a * size <= b * size
  {
    if size > 0 {
      TimesGrows(a, b, size - 1);
      assert a * size == a * (size - 1) + a && b * size == b * (size - 1) + b;
    }
  }

  lemma OffsetFits(index: int, size: int)
    requires 0 <= index <= INT32_MAX && 0 <= size <= MAX_PAGE_SIZE
    ensures 0 <= index * size <= INT64_MAX
  {
    TimesGrows(index, INT32_MAX, size);
  }

  datatype CountQuery = CountQuery(where: seq<Clause>, args: seq<Value>)

  /** count(*) over the WHERE and its arguments, without ORDER BY, LIMIT or OFFSET. */
  function BuildCount(q: ListQuery): CountQuery {
    CountQuery(q.where, q.args)
  }

  /** The wire's 1-based page becomes a zero-based index; zero and negative numbers mean the first page. */
  function RequestParams(page: int32, perPage: int32, sort: string): Params {
    Normalize(Params(if page > 1 then page - 1 else 0, perPage, sort))
  }

  // ---------------------------------------------------------------- what the database may answer

  predicate NoDuplicates<R(==)>(result: seq<R>) {
    forall i, j :: 0 <= i < j < |result| ==> result[i] != result[j]
  }

  /** The rows in some order consistent with the clause; rows the clause ties may come either way round. */
  ghost predicate IsAnswer<R(!new)>(rows: set<R>, terms: seq<Term>, key: (string, R) -> Option<int>, answer: seq<R>) {
    && NoDuplicates(answer)
    && (forall r :: r in answer <==> r in rows)
    && (forall i, j :: 0 <= i < j < |answer| ==> !Before(terms, key, answer[j], answer[i]))
  }

  lemma {:induction false} AnswerStrict<R(!new)>(rows: set<R>, terms: seq<Term>, key: (string, R) -> Option<int>, answer: seq<R>, i: nat, j: nat)
    requires IsAnswer(rows, terms, key, answer) && Distinguishes(terms, key, rows) && i < j < |answer|
    ensures Before(terms, key, answer[i], answer[j])
  {
    BeforeTotal(terms, key, rows, answer[i], answer[j]);
  }

  lemma TailAnswers<R(!new)>(rows: set<R>, terms: seq<Term>, key: (string, R) -> Option<int>, answer: seq<R>)
    requires IsAnswer(rows, terms, key, answer) && answer != []
    ensures answer[0] in rows && IsAnswer(rows - {answer[0]}, terms, key, answer[1..])
  {
    forall r ensures r in answer[1..] <==> r in rows - {answer[0]} {
      if r in rows - {answer[0]} {
        var i :| 0 <= i < |answer| && answer[i] == r;
        assert answer[1..][i - 1] == r;
      }
    }
  }

  /** Every answer has as many rows as the count query reports. */
  lemma {:induction false} AnswerLength<R(!new)>(
    rows: set<R>, terms: seq<Term>, key: (string, R) -> Option<int>, answer: seq<R>)
    requires IsAnswer(rows, terms, key, answer)
    ensures |answer| == |rows|
    decreases |answer|
  {
    if answer == [] {
      assert forall r :: r in rows ==> r in answer;
    } else {
      TailAnswers(rows, terms, key, answer);
      AnswerLength(rows - {answer[0]}, terms, key, answer[1..]);
    }
  }

  lemma HeadComesFirst<R(!new)>(
    rows: set<R>, terms: seq<Term>, key: (string, R) -> Option<int>, answer: seq<R>, r: R)
    requires IsAnswer(rows, terms, key, answer) && Distinguishes(terms, key, rows) && answer != []
    requires r in rows && r != answer[0]
    ensures Before(terms, key, answer[0], r)
  {
    assert r in answer;
    var i :| 0 <= i < |answer| && answer[i] == r;
    AnswerStrict(rows, terms, key, answer, 0, i);
  }

  lemma SameHead<R(!new)>(rows: set<R>, terms: seq<Term>, key: (string, R) -> Option<int>, a: seq<R>, b: seq<R>)
    requires Distinguishes(terms, key, rows) && IsAnswer(rows, terms, key, a) && IsAnswer(rows, terms, key, b)
    requires a != [] && b != []
    ensures a[0] == b[0]
  {
    TailAnswers(rows, terms, key, a);
    TailAnswers(rows, terms, key, b);
    if a[0] != b[0] {
      assert a[0] in b;
      HeadComesFirst(rows, terms, key, a, b[0]);
    }
  }

  lemma FewerRowsDistinguished<R>(rows: set<R>, terms: seq<Term>, key: (string, R) -> Option<int>, some: set<R>)
    requires Distinguishes(terms, key, rows) && some <= rows
    ensures Distinguishes(terms, key, some)
  {
    var sql :| Uses(terms, sql) && forall a, b :: a in rows && b in rows && a != b ==> key(sql, a) != key(sql, b);
  }

  /** When the order tells rows apart, the answer is unique. */
  lemma {:induction false} AnswerUnique<R(!new)>(
    rows: set<R>, terms: seq<Term>, key: (string, R) -> Option<int>, a: seq<R>, b: seq<R>)
    requires Distinguishes(terms, key, rows) && IsAnswer(rows, terms, key, a) && IsAnswer(rows, terms, key, b)
    ensures a == b
    decreases |a|
  {
    AnswerLength(rows, terms, key, a);
    AnswerLength(rows, terms, key, b);
    if a != [] {
      SameHead(rows, terms, key, a, b);
      TailAnswers(rows, terms, key, a);
      TailAnswers(rows, terms, key, b);
      FewerRowsDistinguished(rows, terms, key, rows - {a[0]});
      AnswerUnique(rows - {a[0]}, terms, key, a[1..], b[1..]);
      assert a == [a[0]] + a[1..] && b == [b[0]] + b[1..];
    }
  }

  // ---------------------------------------------------------------- pages

  datatype Page<T> = Page(count: int, items: seq<T>)

  function Min(a: int, b: int): int {
    if a < b then a else b
  }

  /** LIMIT and OFFSET. */
  function Slice<T>(answer: seq<T>, offset: nat, limit: nat): seq<T> {
    var from := Min(offset, |answer|);
    answer[from..Min(from + limit, |answer|)]
  }

  /** Page numbers are 1-based on the wire. */
  function PageOf<T>(answer: seq<T>, page: int, size: nat): Page<T>
    requires 1 <= page
  {
    Page(|answer|, Slice(answer, Offset(page, size), size))
  }

  function Offset(page: int, size: nat): nat
    requires 1 <= page
  {
    (page - 1) * size
  }

  /** What Build appends for a wire request is the page the client asked for; no page is the first, no size the default. */
  lemma RequestedPage(page: int32, perPage: int32, sort: string)
    ensures Validated(RequestParams(page, perPage, sort)) <==> 0 <= perPage <= 1000
    ensures 0 <= perPage ==>
      var params := RequestParams(page, perPage, sort);
      && params.pageSize == (if perPage == 0 then 50 else perPage)
      && params.pageIndex * params.pageSize == Offset(if page > 1 then page else 1, params.pageSize)
  {
  }

  /** The first `k` pages, one after the other. */
  function Pages<T>(answer: seq<T>, k: nat, size: nat): seq<T> {
    if k == 0 then [] else Pages(answer, k - 1, size) + PageOf(answer, k, size).items
  }

  lemma NextPage<T>(answer: seq<T>, page: int, size: nat)
    requires 1 <= page
    ensures Offset(page + 1, size) == Offset(page, size) + size
    ensures answer[..Min(Offset(page, size), |answer|)] + PageOf(answer, page, size).items
      == answer[..Min(Offset(page + 1, size), |answer|)]
  {
  }

  /** Pages are consecutive pieces: the first k of them are the first k times `size` rows, in order. */
  lemma {:induction false} PagesArePrefix<T>(answer: seq<T>, k: nat, size: nat)
    ensures Pages(answer, k, size) == answer[..Min(Offset(k + 1, size), |answer|)]
  {
    if k > 0 {
      PagesArePrefix(answer, k - 1, size);
      NextPage(answer, k, size);
    }
  }

  /** Enough pages cover the answer: nothing is lost, repeated or reordered, and the page sizes add up to the count. */
  lemma PagesCover<T>(answer: seq<T>, k: nat, size: nat)
    requires |answer| <= Offset(k + 1, size)
    ensures Pages(answer, k, size) == answer
    ensures |Pages(answer, k, size)| == PageOf(answer, k + 1, size).count
  {
    PagesArePrefix(answer, k, size);
  }

  lemma PlaceOnPage<T>(answer: seq<T>, page: int, size: nat, r: T) returns (i: nat)
    requires 1 <= page && r in PageOf(answer, page, size).items
    ensures Offset(page, size) <= i < Offset(page, size) + size && i < |answer| && answer[i] == r
  {
    var items := PageOf(answer, page, size).items;
    var j :| 0 <= j < |items| && items[j] == r;
    i := Offset(page, size) + j;
  }

  lemma {:induction false} OffsetsGrow(p: int, q: int, size: nat)
    requires 1 <= p < q
    ensures Offset(p, size) + size <= Offset(q, size)
    decreases q
  {
    assert Offset(q, size) == Offset(q - 1, size) + size;
    if p < q - 1 {
      OffsetsGrow(p, q - 1, size);
    }
  }

  /** No row is on two pages. */
  lemma PagesDisjoint<T>(answer: seq<T>, size: nat, p: int, q: int, r: T)
    requires NoDuplicates(answer) && 1 <= p < q && r in PageOf(answer, p, size).items
    ensures r !in PageOf(answer, q, size).items
  {
    var i := PlaceOnPage(answer, p, size, r);
    OffsetsGrow(p, q, size);
    if r in PageOf(answer, q, size).items {
      var j := PlaceOnPage(answer, q, size, r);
    }
  }

  // ---------------------------------------------------------------- what the server answers

  /** The rows of the FROM clause that pass a WHERE. */
  ghost function Selected<R>(
    table: set<R>, holds: (seq<Bound<Value>>, R) -> bool, where: seq<Clause>, args: seq<Value>): set<R>
    requires WhereOk(where, args)
  {
    set r | r in table && Passes(holds, where, args, r)
  }

  /** The list query answered in some order its clause allows, cut by its limit and offset. */
  ghost predicate AnswersItems<R(!new)>(
    table: set<R>, holds: (seq<Bound<Value>>, R) -> bool, key: (string, R) -> Option<int>, b: BuiltQuery, items: seq<R>,
    answer: seq<R>)
    requires WhereOk(b.where, b.args) && InRange([b.limit, b.offset], |b.args|)
  {
    var said := Bind([b.limit, b.offset], b.args);
    && IsAnswer(Selected(table, holds, b.where, b.args), b.order, key, answer)
    && said[0].Val? && said[0].value.Int? && 0 <= said[0].value.n
    && said[1].Val? && said[1].value.Int? && 0 <= said[1].value.n
    && items == Slice(answer, said[1].value.n, said[0].value.n)
  }

  /** The count query, whose result is cast to a 32-bit integer. */
  ghost predicate AnswersCount<R>(
    table: set<R>, holds: (seq<Bound<Value>>, R) -> bool, c: CountQuery, count: int)
    requires WhereOk(c.where, c.args)
  {
    count == |Selected(table, holds, c.where, c.args)| && count <= INT32_MAX
  }

  /** ListWithCount: two separate queries over the same rows. */
  ghost predicate ListsWithCount<R(!new)>(
    table: set<R>, holds: (seq<Bound<Value>>, R) -> bool, key: (string, R) -> Option<int>, q: ListQuery, page: Page<R>)
    requires WhereOk(q.where, q.args)
  {
    && AnswersCount(table, holds, BuildCount(q), page.count)
    && exists b, answer :: Implements(q, b) && AnswersItems(table, holds, key, b, page.items, answer)
  }

  /** The built query selects the rows of the list query. */
  lemma BuiltSelects<R>(table: set<R>, holds: (seq<Bound<Value>>, R) -> bool, q: ListQuery, b: BuiltQuery)
    requires WhereOk(q.where, q.args) && Implements(q, b)
    ensures Selected(table, holds, b.where, b.args) == Selected(table, holds, q.where, q.args)
  {
    forall r | r in table ensures Passes(holds, b.where, b.args, r) <==> Passes(holds, q.where, q.args, r) {
      if Passes(holds, b.where, b.args, r) {
        forall i | 0 <= i < |q.where| ensures holds(Bind(q.where[i], q.args), r) {
          assert holds(Bind(b.where[i], b.args), r);
        }
      }
      if Passes(holds, q.where, q.args, r) {
        forall i | 0 <= i < |b.where| ensures holds(Bind(b.where[i], b.args), r) {
          assert holds(Bind(q.where[i], q.args), r);
        }
      }
    }
  }

  /** What the server answers is a page of one answer over the selected rows, and the count query counts that answer. */
  lemma ServedPage<R(!new)>(
    table: set<R>, holds: (seq<Bound<Value>>, R) -> bool, key: (string, R) -> Option<int>, q: ListQuery, page: Page<R>)
    returns (answer: seq<R>)
    requires WhereOk(q.where, q.args) && ListsWithCount(table, holds, key, q, page)
    ensures Accepted(q) && |answer| <= INT32_MAX
    ensures IsAnswer(Selected(table, holds, q.where, q.args), OrderOf(q), key, answer)
    ensures var params := Normalize(q.params);
      page == Page(|answer|, Slice(answer, params.pageIndex * params.pageSize, params.pageSize))
  {
    var b, given :| Implements(q, b) && AnswersItems(table, holds, key, b, page.items, given);
    answer := given;
    BuiltSelects(table, holds, q, b);
    AnswerLength(Selected(table, holds, q.where, q.args), b.order, key, answer);
  }

  /** The list query of one request from the client. */
  function RequestFor(q: ListQuery, page: int32, perPage: int32, sort: string): ListQuery {
    q.(params := RequestParams(page, perPage, sort))
  }

  lemma NormalizedOnce(page: int32, perPage: int32, sort: string)
    ensures Normalize(RequestParams(page, perPage, sort)) == RequestParams(page, perPage, sort)
    ensures RequestParams(page, perPage, sort).sort == Trim(sort)
  {
    TrimCharacterised(sort);
    TrimCharacterised(Trim(sort));
  }

  // ---------------------------------------------------------------- collectAllPages

  /** ceil(count / MAX_PAGE_SIZE). */
  function PageCount(count: int): int {
    (count + MAX_PAGE_SIZE - 1) / MAX_PAGE_SIZE
  }

  /** Every request the client makes is answered by the server over the same table. */
  ghost predicate Serves<R(!new)>(
    loadPage: (int, int) -> Page<R>, table: set<R>, holds: (seq<Bound<Value>>, R) -> bool,
    key: (string, R) -> Option<int>, q: ListQuery, sort: string)
    requires WhereOk(q.where, q.args)
  {
    forall page: int32 :: 1 <= page ==> ServesPage(loadPage, table, holds, key, q, sort, page)
  }

  ghost predicate ServesPage<R(!new)>(
    loadPage: (int, int) -> Page<R>, table: set<R>, holds: (seq<Bound<Value>>, R) -> bool,
    key: (string, R) -> Option<int>, q: ListQuery, sort: string, page: int32)
    requires WhereOk(q.where, q.args)
  {
    ListsWithCount(table, holds, key, RequestFor(q, page, MAX_PAGE_SIZE, sort), loadPage(page, MAX_PAGE_SIZE))
  }

  /** The order a sort token gives the list, when it is accepted. */
  function SortedBy(q: ListQuery, sort: string): seq<Term>
    requires Requested(Trim(sort), q.keys).Success?
  {
    Complete(Requested(Trim(sort), q.keys).value, q.defaults)
  }

  /** Of two ranks, the earlier is no larger when ascending and no smaller when descending; NULLs stand where the term puts them. */
  predicate InOrder(t: Term, earlier: Option<int>, later: Option<int>) {
    && (earlier.Some? && later.Some? ==> if t.desc then later.value <= earlier.value else earlier.value <= later.value)
    && (t.nulls == NullsFirst || (t.nulls == NullsDefault && t.desc) ==> later.None? ==> earlier.None?)
    && (t.nulls == NullsLast || (t.nulls == NullsDefault && !t.desc) ==> earlier.None? ==> later.None?)
  }

  /** The items in the order of one term. */
  ghost predicate Sorted<R>(items: seq<R>, key: (string, R) -> Option<int>, t: Term) {
    forall i, j :: 0 <= i < j < |items| ==> InOrder(t, key(t.sql, items[i]), key(t.sql, items[j]))
  }

  /** An answer is sorted by the leading term of its clause. */
  lemma LeadingTermSorts<R(!new)>(rows: set<R>, terms: seq<Term>, key: (string, R) -> Option<int>, answer: seq<R>)
    requires IsAnswer(rows, terms, key, answer) && terms != []
    ensures Sorted(answer, key, terms[0])
  {
    forall i, j | 0 <= i < j < |answer|
      ensures InOrder(terms[0], key(terms[0].sql, answer[i]), key(terms[0].sql, answer[j]))
    {
      assert !Before(terms, key, answer[j], answer[i]);
    }
  }

  /** The items are in the order the sort token asks for; without one, in the default order. */
  ghost predicate AsAsked<R(!new)>(items: seq<R>, key: (string, R) -> Option<int>, q: ListQuery, sort: string) {
    && (forall id, desc :: Names(sort, id, desc) ==>
          id in q.keys && Sorted(items, key, Term(q.keys[id].sql, desc, q.keys[id].nulls)))
    && (Trim(sort) == "" && q.defaults != [] ==>
          Sorted(items, key, Term(q.defaults[0].sql, q.defaults[0].descending, q.defaults[0].nulls)))
  }

  lemma AnswerAsAsked<R(!new)>(
    rows: set<R>, key: (string, R) -> Option<int>, answer: seq<R>, q: ListQuery, sort: string)
    requires Requested(Trim(sort), q.keys).Success? && IsAnswer(rows, SortedBy(q, sort), key, answer)
    ensures AsAsked(answer, key, q, sort)
  {
    TrimCharacterised(sort);
    TrimCharacterised(Trim(sort));
    forall id, desc | Names(sort, id, desc)
      ensures id in q.keys && Sorted(answer, key, Term(q.keys[id].sql, desc, q.keys[id].nulls))
    {
      assert Names(Trim(sort), id, desc);
      AcceptedIff(Trim(sort), q.keys, id, desc);
      NamedColumnLeads(Trim(sort), q.keys, q.defaults, id, desc);
      LeadingTermSorts(rows, SortedBy(q, sort), key, answer);
    }
    if Trim(sort) == "" && q.defaults != [] {
      AcceptedIff(Trim(sort), q.keys, "", false);
      DefaultLeads(q.defaults);
      LeadingTermSorts(rows, SortedBy(q, sort), key, answer);
    }
  }

  lemma DefaultLeads(defaults: seq<OrderExpr>)
    requires defaults != []
    ensures var clause := Complete([], defaults);
      clause != [] && clause[0] == Term(defaults[0].sql, defaults[0].descending, defaults[0].nulls)
  {
    var first := [OrderPart(defaults[0], defaults[0].descending)];
    assert [] + first == first;
    CompleteKeepsHead(first, defaults[1..]);
  }

  /** One request: the answer it was cut from, in the order its sort token gives. */
  lemma RequestServed<R(!new)>(
    loadPage: (int, int) -> Page<R>, table: set<R>, holds: (seq<Bound<Value>>, R) -> bool,
    key: (string, R) -> Option<int>, q: ListQuery, sort: string, page: int32) returns (answer: seq<R>)
    requires WhereOk(q.where, q.args) && 1 <= page && ServesPage(loadPage, table, holds, key, q, sort, page)
    ensures Requested(Trim(sort), q.keys).Success? && |answer| <= INT32_MAX
    ensures IsAnswer(Selected(table, holds, q.where, q.args), SortedBy(q, sort), key, answer)
    ensures loadPage(page, MAX_PAGE_SIZE) == PageOf(answer, page, MAX_PAGE_SIZE)
  {
    var request := RequestFor(q, page, MAX_PAGE_SIZE, sort);
    NormalizedOnce(page, MAX_PAGE_SIZE, sort);
    RequestedPage(page, MAX_PAGE_SIZE, sort);
    answer := ServedPage(table, holds, key, request, loadPage(page, MAX_PAGE_SIZE));
  }

  /** Under an order that tells rows apart, all the separately answered pages come from one and the same answer. */
  lemma OneAnswer<R(!new)>(
    loadPage: (int, int) -> Page<R>, table: set<R>, holds: (seq<Bound<Value>>, R) -> bool,
    key: (string, R) -> Option<int>, q: ListQuery, sort: string) returns (full: seq<R>)
    requires WhereOk(q.where, q.args) && Serves(loadPage, table, holds, key, q, sort)
    requires Distinguishes(Parts(q.defaults), key, Selected(table, holds, q.where, q.args))
    ensures Requested(Trim(sort), q.keys).Success? && |full| <= INT32_MAX
    ensures IsAnswer(Selected(table, holds, q.where, q.args), SortedBy(q, sort), key, full)
    ensures forall page: int32 :: 1 <= page ==> loadPage(page, MAX_PAGE_SIZE) == PageOf(full, page, MAX_PAGE_SIZE)
  {
    assert ServesPage(loadPage, table, holds, key, q, sort, 1);
    full := RequestServed(loadPage, table, holds, key, q, sort, 1);
    CompletedDistinguishes(Trim(sort), q.keys, q.defaults, key, Selected(table, holds, q.where, q.args));
    forall page: int32 | 1 <= page ensures loadPage(page, MAX_PAGE_SIZE) == PageOf(full, page, MAX_PAGE_SIZE) {
      assert ServesPage(loadPage, table, holds, key, q, sort, page);
      var answer := RequestServed(loadPage, table, holds, key, q, sort, page);
      AnswerUnique(Selected(table, holds, q.where, q.args), SortedBy(q, sort), key, answer, full);
    }
  }

  /**
   From the list query to the client: for every sort token the server accepts, if
   the default order tells the selected rows apart and the table does not change,
   the reassembled list is exactly the selected rows, in the order asked for.
   */
  method CollectAllPages<R(!new)>(
    loadPage: (int, int) -> Page<R>, ghost table: set<R>, ghost holds: (seq<Bound<Value>>, R) -> bool,
    ghost key: (string, R) -> Option<int>, ghost q: ListQuery, ghost sort: string)
    returns (items: seq<R>)
    requires WhereOk(q.where, q.args) && Serves(loadPage, table, holds, key, q, sort)
    requires Distinguishes(Parts(q.defaults), key, Selected(table, holds, q.where, q.args))
    ensures Requested(Trim(sort), q.keys).Success?
    ensures IsAnswer(Selected(table, holds, q.where, q.args), SortedBy(q, sort), key, items)
    ensures AsAsked(items, key, q, sort)
  {
    ghost var full := OneAnswer(loadPage, table, holds, key, q, sort);
    items := CollectPages(loadPage, full);
    AnswerAsAsked(Selected(table, holds, q.where, q.args), key, items, q, sort);
  }

  method CollectPages<R>(loadPage: (int, int) -> Page<R>, ghost full: seq<R>) returns (items: seq<R>)
    requires |full| <= INT32_MAX
    requires forall page: int32 :: 1 <= page ==> loadPage(page, MAX_PAGE_SIZE) == PageOf(full, page, MAX_PAGE_SIZE)
    ensures items == full
  {
    LastPage(full);
    var firstPage := loadPage(1, MAX_PAGE_SIZE);
    var pageCount := PageCount(firstPage.count);
    if pageCount <= 1 {
      return firstPage.items;
    }
    items := firstPage.items;
    var page := 2;
    while page <= pageCount
      invariant 2 <= page <= pageCount + 1
      invariant items == Pages(full, page - 1, MAX_PAGE_SIZE)
    {
      var response := loadPage(page, MAX_PAGE_SIZE);
      items := items + response.items;
      page := page + 1;
    }
  }

  /** The rounded-up page count reaches the end with no page too many, and the first page alone is enough when it is at most one. */
  lemma LastPage<R>(full: seq<R>)
    ensures Pages(full, 1, MAX_PAGE_SIZE) == PageOf(full, 1, MAX_PAGE_SIZE).items
    ensures PageCount(|full|) <= 1 ==> Pages(full, 1, MAX_PAGE_SIZE) == full
    ensures 1 <= PageCount(|full|) ==> Pages(full, PageCount(|full|), MAX_PAGE_SIZE) == full
    ensures (PageCount(|full|) - 1) * 1000 < |full| <= PageCount(|full|) * 1000
  {
    assert Pages(full, 0, MAX_PAGE_SIZE) == [];
    var k := if PageCount(|full|) <= 1 then 1 else PageCount(|full|);
    assert |full| <= k * MAX_PAGE_SIZE;
    PagesCover(full, k, MAX_PAGE_SIZE);
  }
}
