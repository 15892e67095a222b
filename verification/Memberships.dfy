/**
 Resolving group memberships from Microsoft Graph: a worklist of page requests,
 sent in batches whose responses are visited in any order. Graph is abstracted
 to a finite, non-empty chain of pages per user.
 */
module Memberships {
  import opened Wrappers

  /** Page 0 is the request without a next link. */
  datatype Request = Request(user: string, page: nat)

  type Chains = map<string, seq<seq<string>>>

  type Groups = map<string, seq<string>>

  predicate Valid(chains: Chains, r: Request) {
    r.user in chains && r.page < |chains[r.user]|
  }

  predicate AllValid(chains: Chains, requests: seq<Request>) {
    forall i :: 0 <= i < |requests| ==> Valid(chains, requests[i])
  }

  predicate Known(out: Groups, requests: seq<Request>) {
    forall i :: 0 <= i < |requests| ==> requests[i].user in out
  }

  // ---------------------------------------------------------------- one batch

  /** The result map after the responses of `visited`, in that order. */
  function Collected(chains: Chains, out: Groups, visited: seq<Request>): (r: Groups)
    requires AllValid(chains, visited) && Known(out, visited)
    ensures r.Keys == out.Keys
  {
    if visited == [] then out
    else
      var last := visited[|visited| - 1];
      var before := Collected(chains, out, visited[..|visited| - 1]);
      before[last.user := before[last.user] + chains[last.user][last.page]]
  }

  /** The next-link requests of `visited`, in that order. */
  function Followups(chains: Chains, visited: seq<Request>): seq<Request>
    requires AllValid(chains, visited)
  {
    if visited == [] then []
    else
      var last := visited[|visited| - 1];
      Followups(chains, visited[..|visited| - 1])
      + (if last.page + 1 < |chains[last.user]| then [Request(last.user, last.page + 1)] else [])
  }

  lemma {:induction false} SameElements(a: seq<Request>, b: seq<Request>)
    requires multiset(a) == multiset(b)
    ensures forall r :: r in a <==> r in b
  {
    forall r ensures r in a <==> r in b {
      assert r in a <==> r in multiset(a);
      assert r in b <==> r in multiset(b);
    }
  }

  lemma ValidNext(chains: Chains, out: Groups, visited: seq<Request>, next: Request)
    requires AllValid(chains, visited) && Known(out, visited) && Valid(chains, next) && next.user in out
    ensures AllValid(chains, visited + [next]) && Known(out, visited + [next])
  {
  }

  lemma CollectedNext(chains: Chains, out: Groups, visited: seq<Request>, next: Request)
    requires AllValid(chains, visited) && Known(out, visited) && Valid(chains, next) && next.user in out
    requires AllValid(chains, visited + [next]) && Known(out, visited + [next])
    ensures var before := Collected(chains, out, visited);
      Collected(chains, out, visited + [next]) == before[next.user := before[next.user] + chains[next.user][next.page]]
  {
    var all := visited + [next];
    assert all[..|all| - 1] == visited && all[|all| - 1] == next;
  }

  lemma FollowupsNext(chains: Chains, visited: seq<Request>, next: Request)
    requires AllValid(chains, visited) && Valid(chains, next) && AllValid(chains, visited + [next])
    ensures Followups(chains, visited + [next]) == Followups(chains, visited)
      + (if next.page + 1 < |chains[next.user]| then [Request(next.user, next.page + 1)] else [])
  {
    var all := visited + [next];
    assert all[..|all| - 1] == visited && all[|all| - 1] == next;
  }

  /** The page of one response: its groups join the user's, and its next link becomes a request. */
  method VisitResponse(
    chains: Chains, request: Request, out: Groups, followups: seq<Request>, ghost before: Groups, ghost visited: seq<Request>)
    returns (collected: Groups, nextLinks: seq<Request>)
    requires AllValid(chains, visited) && Known(before, visited) && Valid(chains, request) && request.user in before
    requires out == Collected(chains, before, visited) && followups == Followups(chains, visited)
    ensures AllValid(chains, visited + [request]) && Known(before, visited + [request])
    ensures collected == Collected(chains, before, visited + [request])
    ensures nextLinks == Followups(chains, visited + [request])
  {
    collected, nextLinks := out, followups;
    collected := collected[request.user := collected[request.user] + chains[request.user][request.page]];
    if request.page + 1 < |chains[request.user]| {
      nextLinks := nextLinks + [Request(request.user, request.page + 1)];
    }
    ValidNext(chains, before, visited, request);
    CollectedNext(chains, before, visited, request);
    FollowupsNext(chains, visited, request);
  }

  /** What has been visited and what is left make up the batch. */
  ghost predicate Visiting(requests: seq<Request>, visited: seq<Request>, bag: multiset<Request>) {
    multiset(visited) + bag == multiset(requests)
  }

  lemma BagMember(
    chains: Chains, out: Groups, requests: seq<Request>, bag: multiset<Request>, visited: seq<Request>, request: Request)
    requires AllValid(chains, requests) && Known(out, requests)
    requires Visiting(requests, visited, bag) && request in bag
    ensures request in requests && Valid(chains, request) && request.user in out
    ensures Visiting(requests, visited + [request], bag - multiset{request})
  {
    assert request in multiset(requests);
  }

  lemma FailureInBatch(requests: seq<Request>, fails: Request -> bool, request: Request)
    requires request in requests && fails(request)
    ensures !NoneFails(requests, fails)
  {
  }

  predicate NoneFails(requests: seq<Request>, fails: Request -> bool) {
    forall i :: 0 <= i < |requests| ==> !fails(requests[i])
  }

  lemma VisitedAll(requests: seq<Request>, visited: seq<Request>, fails: Request -> bool)
    requires Visiting(requests, visited, multiset{}) && NoneFails(visited, fails)
    ensures multiset(visited) == multiset(requests) && NoneFails(requests, fails)
  {
    SameElements(visited, requests);
    forall i | 0 <= i < |requests| ensures !fails(requests[i]) {
      assert requests[i] in visited;
    }
  }

  /** The loop over the responses: those visited, in that order, and those left. */
  datatype Batch = Batch(left: multiset<Request>, collected: Groups, followups: seq<Request>)

  /** The state after the responses in `visited`, none of which failed. */
  ghost predicate BatchOk(
    chains: Chains, fails: Request -> bool, requests: seq<Request>, out: Groups, visited: seq<Request>, b: Batch)
  {
    && Visiting(requests, visited, b.left) && NoneFails(visited, fails)
    && AllValid(chains, visited) && Known(out, visited)
    && b.collected == Collected(chains, out, visited) && b.followups == Followups(chains, visited)
  }

  lemma BatchNext(
    chains: Chains, fails: Request -> bool, requests: seq<Request>, out: Groups, visited: seq<Request>, b: Batch,
    request: Request)
    requires AllValid(chains, requests) && Known(out, requests)
    requires BatchOk(chains, fails, requests, out, visited, b) && request in b.left
    ensures Valid(chains, request) && request.user in out
    ensures fails(request) ==> !NoneFails(requests, fails)
    ensures !fails(request) ==> NoneFails(visited + [request], fails)
    ensures Visiting(requests, visited + [request], b.left - multiset{request})
  {
    BagMember(chains, out, requests, b.left, visited, request);
    if fails(request) {
      FailureInBatch(requests, fails, request);
    }
  }

  /** One response of the batch, whichever comes next; an error fails the whole fetch. */
  method VisitAny(
    chains: Chains, fails: Request -> bool, ghost requests: seq<Request>, ghost out: Groups, ghost visited: seq<Request>,
    b: Batch)
    returns (failed: bool, next: Batch, ghost longer: seq<Request>)
    requires AllValid(chains, requests) && Known(out, requests)
    requires BatchOk(chains, fails, requests, out, visited, b) && b.left != multiset{}
    ensures failed ==> !NoneFails(requests, fails)
    ensures !failed ==> BatchOk(chains, fails, requests, out, longer, next) && |next.left| < |b.left|
  {
    var request :| request in b.left;
    longer := visited + [request];
    next := b;
    BatchNext(chains, fails, requests, out, visited, b, request);
    failed := fails(request);
    if !failed {
      var collected, followups := VisitResponse(chains, request, b.collected, b.followups, out, visited);
      next := Batch(b.left - multiset{request}, collected, followups);
    }
  }

  lemma BatchBegins(chains: Chains, fails: Request -> bool, requests: seq<Request>, out: Groups)
    ensures BatchOk(chains, fails, requests, out, [], Batch(multiset(requests), out, []))
  {
  }

  /**
   One batch: responses keyed by request id are visited in map order, that is,
   any order. A request Graph answers with an error fails the whole fetch.
   */
  method ApplyMembershipBatch(chains: Chains, fails: Request -> bool, requests: seq<Request>, out: Groups)
    returns (r: Result<(Groups, seq<Request>), Fault>, ghost visited: seq<Request>)
    requires AllValid(chains, requests) && Known(out, requests)
    ensures r.Success? <==> NoneFails(requests, fails)
    ensures r.Success? ==> multiset(visited) == multiset(requests) && AllValid(chains, visited) && Known(out, visited)
    ensures r.Success? ==> r.value == (Collected(chains, out, visited), Followups(chains, visited))
  {
    var b := Batch(multiset(requests), out, []);
    visited := [];
    BatchBegins(chains, fails, requests, out);
    while b.left != multiset{}
      invariant BatchOk(chains, fails, requests, out, visited, b)
      decreases |b.left|
    {
      var failed;
      failed, b, visited := VisitAny(chains, fails, requests, out, visited, b);
      if failed {
        return Failure(Upstream), visited;
      }
    }
    VisitedAll(requests, visited, fails);
    r := Success((b.collected, b.followups));
  }

  // ---------------------------------------------------------------- what a round does, in any order

  function Flatten(pages: seq<seq<string>>): seq<string> {
    if pages == [] then [] else Flatten(pages[..|pages| - 1]) + pages[|pages| - 1]
  }

  /** Pages follow one another in order. */
  lemma {:induction false} FlattenInOrder(some: seq<seq<string>>, page: seq<string>, rest: seq<seq<string>>)
    ensures Flatten(some + [page] + rest) == Flatten(some) + page + Flatten(rest)
    decreases |rest|
  {
    var all := some + [page] + rest;
    if rest == [] {
      assert all[..|all| - 1] == some && all[|all| - 1] == page;
    } else {
      var n := |rest| - 1;
      assert all[..|all| - 1] == some + [page] + rest[..n] && all[|all| - 1] == rest[n];
      FlattenInOrder(some, page, rest[..n]);
    }
  }

  /** The user's pages before page `k`, one after the other. */
  function FirstPages(chains: Chains, user: string, k: nat): seq<string>
    requires user in chains
  {
    Flatten(chains[user][..if k < |chains[user]| then k else |chains[user]|])
  }

  predicate SameRound(requests: seq<Request>, k: nat) {
    forall i :: 0 <= i < |requests| ==> requests[i].page == k
  }

  predicate NoRepeat(requests: seq<Request>) {
    forall i, j :: 0 <= i < j < |requests| ==> requests[i] != requests[j]
  }

  lemma {:induction false} FollowupsNextRound(chains: Chains, visited: seq<Request>, k: nat)
    requires AllValid(chains, visited) && SameRound(visited, k)
    ensures SameRound(Followups(chains, visited), k + 1) && AllValid(chains, Followups(chains, visited))
  {
    if visited != [] {
      FollowupsNextRound(chains, visited[..|visited| - 1], k);
    }
  }

  predicate HasNext(chains: Chains, user: string, k: nat) {
    user in chains && k + 1 < |chains[user]|
  }

  /** How many of the requests are for the user. */
  function Count(requests: seq<Request>, user: string): nat {
    if requests == [] then 0
    else Count(requests[..|requests| - 1], user) + if requests[|requests| - 1].user == user then 1 else 0
  }

  lemma CountAppend(requests: seq<Request>, last: Request, user: string)
    ensures Count(requests + [last], user) == Count(requests, user) + if last.user == user then 1 else 0
  {
    assert (requests + [last])[..|requests|] == requests;
  }

  lemma {:induction false} CountInRound(requests: seq<Request>, k: nat, user: string)
    requires SameRound(requests, k)
    ensures multiset(requests)[Request(user, k)] == Count(requests, user)
  {
    if requests != [] {
      var n := |requests| - 1;
      CountInRound(requests[..n], k, user);
      assert requests == requests[..n] + [requests[n]];
    }
  }

  lemma {:induction false} FollowupCount(chains: Chains, visited: seq<Request>, k: nat, user: string)
    requires AllValid(chains, visited) && SameRound(visited, k)
    ensures Count(Followups(chains, visited), user) == if HasNext(chains, user, k) then Count(visited, user) else 0
  {
    if visited != [] {
      var n := |visited| - 1;
      FollowupCount(chains, visited[..n], k, user);
      if HasNext(chains, visited[n].user, k) {
        CountAppend(Followups(chains, visited[..n]), Request(visited[n].user, k + 1), user);
      } else {
        assert Followups(chains, visited) == Followups(chains, visited[..n]);
      }
    }
  }

  /** A follow-up is asked for exactly as often as the page before it was visited. */
  lemma FollowupCounts(chains: Chains, visited: seq<Request>, k: nat, user: string)
    requires AllValid(chains, visited) && SameRound(visited, k)
    ensures multiset(Followups(chains, visited))[Request(user, k + 1)] ==
      if HasNext(chains, user, k) then multiset(visited)[Request(user, k)] else 0
  {
    FollowupsNextRound(chains, visited, k);
    FollowupCount(chains, visited, k, user);
    CountInRound(visited, k, user);
    CountInRound(Followups(chains, visited), k + 1, user);
  }

  lemma {:induction false} CollectedOther(chains: Chains, out: Groups, visited: seq<Request>, user: string)
    requires AllValid(chains, visited) && Known(out, visited) && user in out
    requires forall i :: 0 <= i < |visited| ==> visited[i].user != user
    ensures Collected(chains, out, visited)[user] == out[user]
  {
    if visited != [] {
      CollectedOther(chains, out, visited[..|visited| - 1], user);
    }
  }

  /** Visited once in its round, a user gains its page once, wherever in the order it comes. */
  lemma {:induction false} CollectedOnce(chains: Chains, out: Groups, visited: seq<Request>, k: nat, user: string)
    requires AllValid(chains, visited) && Known(out, visited) && SameRound(visited, k) && user in out
    requires NoRepeat(visited)
    ensures Collected(chains, out, visited)[user] ==
      if Request(user, k) in visited then out[user] + chains[user][k] else out[user]
  {
    if visited != [] {
      var n := |visited| - 1;
      CollectedOnce(chains, out, visited[..n], k, user);
      if visited[n].user == user {
        assert visited[n] == Request(user, k);
        CollectedOther(chains, out, visited[..n], user);
      }
      assert Request(user, k) in visited <==> Request(user, k) in visited[..n] || visited[n] == Request(user, k);
    }
  }

  /** However often it is visited, a user gains as a set the elements of its page. */
  lemma {:induction false} CollectedElements(chains: Chains, out: Groups, visited: seq<Request>, k: nat, user: string, g: string)
    requires AllValid(chains, visited) && Known(out, visited) && SameRound(visited, k) && user in out
    ensures g in Collected(chains, out, visited)[user] <==>
      g in out[user] || (Request(user, k) in visited && g in chains[user][k])
  {
    if visited != [] {
      var n := |visited| - 1;
      CollectedElements(chains, out, visited[..n], k, user, g);
      assert Request(user, k) in visited <==> Request(user, k) in visited[..n] || visited[n] == Request(user, k);
    }
  }

  // ---------------------------------------------------------------- the whole fetch

  function Longest(chains: Chains, users: seq<string>): nat
    requires forall u :: u in users ==> u in chains
  {
    if users == [] then 0
    else
      var rest := Longest(chains, users[1..]);
      if |chains[users[0]]| > rest then |chains[users[0]]| else rest
  }

  lemma {:induction false} LongestIsBound(chains: Chains, users: seq<string>, u: string)
    requires (forall v :: v in users ==> v in chains) && u in users
    ensures |chains[u]| <= Longest(chains, users)
  {
    if users[0] != u {
      LongestIsBound(chains, users[1..], u);
    }
  }

  predicate DistinctUsers(users: seq<string>) {
    forall i, j :: 0 <= i < j < |users| ==> users[i] != users[j]
  }

  /** Pending before round `k`: each user with a page `k`, as often as it is listed. */
  ghost predicate PendingOk(chains: Chains, users: seq<string>, k: nat, pending: seq<Request>, out: Groups) {
    && AllValid(chains, pending) && SameRound(pending, k) && Known(out, pending)
    && forall u :: multiset(pending)[Request(u, k)] ==
         if u in chains && k < |chains[u]| then multiset(users)[u] else 0
  }

  /** Fetched before round `k`: each earlier page of each user, as often as the user is listed. */
  ghost predicate FetchedOk(chains: Chains, users: seq<string>, k: nat, fetched: multiset<Request>) {
    forall r: Request :: fetched[r] == if r.page < k && Valid(chains, r) then multiset(users)[r.user] else 0
  }

  /** Collected before round `k`: each user's earlier pages, as a set always, in order when users are distinct. */
  ghost predicate OutOk(chains: Chains, users: seq<string>, k: nat, out: Groups)
    requires forall u :: u in users ==> u in chains
  {
    && (forall u :: u in out <==> u in users)
    && (forall u, g :: u in users ==> (g in out[u] <==> g in FirstPages(chains, u, k)))
    && (DistinctUsers(users) ==> forall u :: u in users ==> out[u] == FirstPages(chains, u, k))
  }

  ghost predicate RoundOk(
    chains: Chains, users: seq<string>, k: nat, pending: seq<Request>, out: Groups, fetched: multiset<Request>)
  {
    && (forall u :: u in users ==> u in chains)
    && PendingOk(chains, users, k, pending, out) && FetchedOk(chains, users, k, fetched) && OutOk(chains, users, k, out)
  }

  lemma {:induction false} DistinctCounts(users: seq<string>, u: string)
    requires DistinctUsers(users)
    ensures multiset(users)[u] <= 1
  {
    if users != [] {
      assert users == [users[0]] + users[1..];
      DistinctCounts(users[1..], u);
    }
  }

  lemma {:induction false} CountsNoRepeat(requests: seq<Request>)
    requires forall r :: multiset(requests)[r] <= 1
    ensures NoRepeat(requests)
  {
    forall i, j | 0 <= i < j < |requests| ensures requests[i] != requests[j] {
      assert requests == requests[..i] + [requests[i]] + requests[i + 1..];
      assert requests[i + 1..][j - i - 1] == requests[j];
      assert multiset(requests)[requests[i]] == multiset(requests[..i])[requests[i]] + 1 + multiset(requests[i + 1..])[requests[i]];
    }
  }

  lemma NextPages(chains: Chains, user: string, k: nat)
    requires user in chains
    ensures FirstPages(chains, user, k + 1) ==
      if k < |chains[user]| then FirstPages(chains, user, k) + chains[user][k] else FirstPages(chains, user, k)
  {
    if k < |chains[user]| {
      assert chains[user][..k + 1][..k] == chains[user][..k];
    }
  }

  lemma RoundStep(
    chains: Chains, users: seq<string>, k: nat, pending: seq<Request>, out: Groups, fetched: multiset<Request>, visited: seq<Request>)
    requires RoundOk(chains, users, k, pending, out, fetched) && multiset(visited) == multiset(pending)
    requires AllValid(chains, visited) && Known(out, visited)
    ensures RoundOk(chains, users, k + 1, Followups(chains, visited), Collected(chains, out, visited),
                    fetched + multiset(visited))
  {
    SameElements(visited, pending);
    forall i | 0 <= i < |visited| ensures visited[i].page == k {
      assert visited[i] in pending;
    }
    FollowupsRound(chains, users, k, pending, out, visited);
    CollectedRound(chains, users, k, pending, out, visited);
    FetchedRound(chains, users, k, pending, out, fetched, visited);
  }

  lemma FetchedRound(
    chains: Chains, users: seq<string>, k: nat, pending: seq<Request>, out: Groups, fetched: multiset<Request>,
    visited: seq<Request>)
    requires PendingOk(chains, users, k, pending, out) && FetchedOk(chains, users, k, fetched)
    requires multiset(visited) == multiset(pending) && SameRound(visited, k)
    ensures FetchedOk(chains, users, k + 1, fetched + multiset(visited))
  {
    forall r: Request
      ensures (fetched + multiset(visited))[r] == if r.page < k + 1 && Valid(chains, r) then multiset(users)[r.user] else 0
    {
      if r.page == k {
        assert r == Request(r.user, k);
      } else {
        assert r !in visited;
        assert multiset(visited)[r] == 0;
      }
    }
  }

  lemma FollowupsRound(
    chains: Chains, users: seq<string>, k: nat, pending: seq<Request>, out: Groups, visited: seq<Request>)
    requires forall u :: u in users ==> u in chains
    requires PendingOk(chains, users, k, pending, out) && OutOk(chains, users, k, out)
    requires multiset(visited) == multiset(pending)
    requires AllValid(chains, visited) && Known(out, visited) && SameRound(visited, k)
    ensures PendingOk(chains, users, k + 1, Followups(chains, visited), Collected(chains, out, visited))
  {
    var next := Followups(chains, visited);
    forall u
      ensures multiset(next)[Request(u, k + 1)] == if u in chains && k + 1 < |chains[u]| then multiset(users)[u] else 0
    {
      FollowupCounts(chains, visited, k, u);
    }
    FollowupsNextRound(chains, visited, k);
    forall i | 0 <= i < |next| ensures next[i].user in out {
      assert next[i] == Request(next[i].user, k + 1) && next[i] in multiset(next);
      assert next[i].user in multiset(users);
    }
  }

  lemma CollectedRound(
    chains: Chains, users: seq<string>, k: nat, pending: seq<Request>, out: Groups, visited: seq<Request>)
    requires forall u :: u in users ==> u in chains
    requires PendingOk(chains, users, k, pending, out) && OutOk(chains, users, k, out)
    requires multiset(visited) == multiset(pending)
    requires AllValid(chains, visited) && Known(out, visited) && SameRound(visited, k)
    ensures OutOk(chains, users, k + 1, Collected(chains, out, visited))
  {
    var collected := Collected(chains, out, visited);
    forall u | u in users ensures Request(u, k) in visited <==> k < |chains[u]| {
      assert u in multiset(users);
      assert Request(u, k) in visited <==> multiset(visited)[Request(u, k)] > 0;
    }
    forall u, g | u in users ensures g in collected[u] <==> g in FirstPages(chains, u, k + 1) {
      CollectedElements(chains, out, visited, k, u, g);
      NextPages(chains, u, k);
    }
    if DistinctUsers(users) {
      VisitedOnce(chains, users, k, pending, out, visited);
      forall u | u in users ensures collected[u] == FirstPages(chains, u, k + 1) {
        CollectedOnce(chains, out, visited, k, u);
        NextPages(chains, u, k);
      }
    }
  }

  lemma VisitedOnce(
    chains: Chains, users: seq<string>, k: nat, pending: seq<Request>, out: Groups, visited: seq<Request>)
    requires DistinctUsers(users) && PendingOk(chains, users, k, pending, out)
    requires multiset(visited) == multiset(pending) && SameRound(visited, k)
    ensures NoRepeat(visited)
  {
    forall r ensures multiset(visited)[r] <= 1 {
      DistinctCounts(users, r.user);
      if r in visited {
        assert r == Request(r.user, k);
      }
    }
    CountsNoRepeat(visited);
  }

  /** The groups and requests of the users looked at so far. */
  ghost predicate Starting(users: seq<string>, pending: seq<Request>, out: Groups) {
    && |pending| == |users| && (forall j :: 0 <= j < |users| ==> pending[j] == Request(users[j], 0))
    && (forall u :: u in out <==> u in users)
    && (forall u :: u in out ==> out[u] == [])
  }

  lemma StartingNext(users: seq<string>, pending: seq<Request>, out: Groups, user: string)
    requires Starting(users, pending, out)
    ensures Starting(users + [user], pending + [Request(user, 0)], out[user := []])
  {
  }

  lemma {:induction false} StartingCounts(users: seq<string>, pending: seq<Request>, u: string)
    requires |pending| == |users| && forall j :: 0 <= j < |users| ==> pending[j] == Request(users[j], 0)
    ensures multiset(pending)[Request(u, 0)] == multiset(users)[u]
  {
    if users != [] {
      var n := |users| - 1;
      StartingCounts(users[..n], pending[..n], u);
      assert users == users[..n] + [users[n]] && pending == pending[..n] + [pending[n]];
    }
  }

  /** Every user starts with no groups and one request. */
  method FirstRequests(chains: Chains, users: seq<string>) returns (pending: seq<Request>, out: Groups)
    requires forall u :: u in users ==> u in chains && chains[u] != []
    ensures RoundOk(chains, users, 0, pending, out, multiset{})
  {
    out := map[];
    pending := [];
    for i := 0 to |users|
      invariant Starting(users[..i], pending, out)
    {
      StartingNext(users[..i], pending, out, users[i]);
      assert users[..i + 1] == users[..i] + [users[i]];
      out := out[users[i] := []];
      pending := pending + [Request(users[i], 0)];
    }
    assert users[..|users|] == users;
    FirstRound(chains, users, pending, out);
  }

  /** No request before round `k` failed. */
  ghost predicate PassedBefore(chains: Chains, users: seq<string>, k: nat, fails: Request -> bool) {
    forall q: Request :: q.user in users && Valid(chains, q) && q.page < k ==> !fails(q)
  }

  ghost predicate SomeFails(chains: Chains, users: seq<string>, fails: Request -> bool) {
    exists q: Request :: q.user in users && Valid(chains, q) && fails(q)
  }

  /** Each page of each chain once per listed user; each user's pages, in chain order when users are distinct. */
  ghost predicate Complete(chains: Chains, users: seq<string>, out: Groups, fetched: multiset<Request>)
    requires forall u :: u in users ==> u in chains
  {
    && (forall q: Request :: fetched[q] == if Valid(chains, q) then multiset(users)[q.user] else 0)
    && (forall u :: u in out <==> u in users)
    && (forall u, g :: u in users ==> (g in out[u] <==> g in Flatten(chains[u])))
    && (DistinctUsers(users) ==> forall u :: u in users ==> out[u] == Flatten(chains[u]))
  }

  /** One round of the worklist loop. */
  method FetchRound(
    chains: Chains, fails: Request -> bool, ghost users: seq<string>, ghost k: nat, pending: seq<Request>, out: Groups,
    ghost fetched: multiset<Request>)
    returns (batch: Result<(Groups, seq<Request>), Fault>, ghost visited: seq<Request>)
    requires RoundOk(chains, users, k, pending, out, fetched)
    ensures batch.Failure? ==> SomeFails(chains, users, fails)
    ensures batch.Success? && PassedBefore(chains, users, k, fails) ==> PassedBefore(chains, users, k + 1, fails)
    ensures batch.Success? ==>
      RoundOk(chains, users, k + 1, batch.value.1, batch.value.0, fetched + multiset(visited))
  {
    batch, visited := ApplyMembershipBatch(chains, fails, pending, out);
    if batch.Failure? {
      WitnessFailure(chains, users, k, pending, out, fetched, fails);
    } else {
      RoundPassed(chains, users, k, pending, out, fetched, fails);
      RoundStep(chains, users, k, pending, out, fetched, visited);
    }
  }

  /**
   The worklist terminates, fetches each page of each chain once per listed user,
   and returns each user's pages in chain order, whatever order the responses
   were visited in; a user listed twice still gets the right set of groups.
   */
  method FetchUsersGroupIds(chains: Chains, fails: Request -> bool, users: seq<string>)
    returns (r: Result<Groups, Fault>, ghost fetched: multiset<Request>)
    requires forall u :: u in users ==> u in chains && chains[u] != []
    ensures r.Failure? <==> SomeFails(chains, users, fails)
    ensures r.Failure? ==> r.error == Upstream
    ensures r.Success? ==> Complete(chains, users, r.value, fetched)
  {
    var pending, out := FirstRequests(chains, users);
    fetched := multiset{};
    ghost var k := 0;
    while pending != []
      invariant RoundOk(chains, users, k, pending, out, fetched)
      invariant PassedBefore(chains, users, k, fails)
      decreases Longest(chains, users) - k
    {
      PendingIsShort(chains, users, k, pending, out, fetched);
      ghost var visited;
      var batch;
      batch, visited := FetchRound(chains, fails, users, k, pending, out, fetched);
      if batch.Failure? {
        return Failure(Upstream), fetched;
      }
      fetched := fetched + multiset(visited);
      out, pending := batch.value.0, batch.value.1;
      k := k + 1;
    }
    AllPagesDone(chains, users, k, out, fetched, fails);
    r := Success(out);
  }

  lemma FirstRound(chains: Chains, users: seq<string>, pending: seq<Request>, out: Groups)
    requires forall u :: u in users ==> u in chains && chains[u] != []
    requires Starting(users, pending, out)
    ensures RoundOk(chains, users, 0, pending, out, multiset{})
  {
    forall u ensures multiset(pending)[Request(u, 0)] ==
      if u in chains && 0 < |chains[u]| then multiset(users)[u] else 0
    {
      StartingCounts(users, pending, u);
      assert multiset(users)[u] > 0 ==> u in users;
    }
  }

  lemma PendingUser(
    chains: Chains, users: seq<string>, k: nat, pending: seq<Request>, out: Groups, fetched: multiset<Request>, i: nat)
    requires RoundOk(chains, users, k, pending, out, fetched) && i < |pending|
    ensures pending[i].user in users && pending[i] == Request(pending[i].user, k)
  {
    assert pending[i] in multiset(pending);
  }

  lemma PendingIsShort(
    chains: Chains, users: seq<string>, k: nat, pending: seq<Request>, out: Groups, fetched: multiset<Request>)
    requires RoundOk(chains, users, k, pending, out, fetched) && pending != []
    ensures k < Longest(chains, users)
  {
    PendingUser(chains, users, k, pending, out, fetched, 0);
    LongestIsBound(chains, users, pending[0].user);
  }

  lemma WitnessFailure(
    chains: Chains, users: seq<string>, k: nat, pending: seq<Request>, out: Groups, fetched: multiset<Request>,
    fails: Request -> bool)
    requires RoundOk(chains, users, k, pending, out, fetched)
    requires exists i :: 0 <= i < |pending| && fails(pending[i])
    ensures SomeFails(chains, users, fails)
  {
    var i :| 0 <= i < |pending| && fails(pending[i]);
    PendingUser(chains, users, k, pending, out, fetched, i);
  }

  lemma RoundPassed(
    chains: Chains, users: seq<string>, k: nat, pending: seq<Request>, out: Groups, fetched: multiset<Request>,
    fails: Request -> bool)
    requires RoundOk(chains, users, k, pending, out, fetched)
    requires forall i :: 0 <= i < |pending| ==> !fails(pending[i])
    ensures PassedBefore(chains, users, k, fails) ==> PassedBefore(chains, users, k + 1, fails)
  {
    forall q: Request | q.user in users && Valid(chains, q) && q.page == k ensures !fails(q) {
      assert q == Request(q.user, k) && q.user in multiset(users);
      assert q in multiset(pending);
      var i :| 0 <= i < |pending| && pending[i] == q;
    }
  }

  lemma AllPagesDone(
    chains: Chains, users: seq<string>, k: nat, out: Groups, fetched: multiset<Request>, fails: Request -> bool)
    requires RoundOk(chains, users, k, [], out, fetched) && PassedBefore(chains, users, k, fails)
    ensures Complete(chains, users, out, fetched)
    ensures !SomeFails(chains, users, fails)
  {
    forall u | u in users ensures |chains[u]| <= k && FirstPages(chains, u, k) == Flatten(chains[u]) {
      NothingPending(chains, users, k, out, u);
      assert chains[u][..|chains[u]|] == chains[u];
    }
    forall q: Request ensures fetched[q] == if Valid(chains, q) then multiset(users)[q.user] else 0 {
      if Valid(chains, q) && k <= q.page {
        assert q.user !in users;
      }
    }
  }

  lemma NothingPending(chains: Chains, users: seq<string>, k: nat, out: Groups, u: string)
    requires PendingOk(chains, users, k, [], out) && u in users && u in chains
    ensures |chains[u]| <= k
  {
    assert u in multiset(users);
    var none: seq<Request> := [];
    assert multiset(none)[Request(u, k)] == 0;
  }
}
