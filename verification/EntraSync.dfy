/**
 One Entra sync from end to end: users and groups as Graph lists them, every
 user's membership chain fetched, and the snapshot applied to the directory.
 */
module EntraSync {
  import opened DirectoryTables
  import opened Memberships
  import opened ProviderSync
  import opened Wrappers
  import DirectoryStore
  import SyncRuns

  function UserIds(users: seq<ProviderUser>): seq<string> {
    seq(|users|, i requires 0 <= i < |users| => users[i].externalId)
  }

  /** Graph has a chain of pages for every listed user. */
  predicate HasChains(chains: Chains, users: seq<ProviderUser>) {
    forall i :: 0 <= i < |users| ==> users[i].externalId in chains && chains[users[i].externalId] != []
  }

  /** The user with some list of its groups in Graph. */
  ghost predicate Resolved(chains: Chains, user: ProviderUser, got: ProviderUser)
    requires user.externalId in chains
  {
    && got == user.(groupExternalIds := got.groupExternalIds)
    && forall g :: g in got.groupExternalIds <==> g in Flatten(chains[user.externalId])
  }

  ghost predicate AllResolved(chains: Chains, users: seq<ProviderUser>, got: seq<ProviderUser>)
    requires HasChains(chains, users)
  {
    |got| == |users| && forall i :: 0 <= i < |users| ==> Resolved(chains, users[i], got[i])
  }

  /** Resolve the memberships of the listed users and put them into the snapshot. */
  method Fetch(users: seq<ProviderUser>, groups: seq<ProviderGroup>, chains: Chains, fails: Request -> bool)
    returns (r: Result<Snapshot, Fault>)
    requires HasChains(chains, users)
    ensures r.Failure? <==> SomeFails(chains, UserIds(users), fails)
    ensures r.Failure? ==> r.error == Upstream
    ensures r.Success? ==> AllResolved(chains, users, r.value.users) && r.value.groups == groups
  {
    var ids := UserIds(users);
    ghost var fetched;
    var groupIdsByUser;
    groupIdsByUser, fetched := FetchUsersGroupIds(chains, fails, ids);
    if groupIdsByUser.Failure? {
      return Failure(Upstream);
    }
    var got := users;
    for i := 0 to |users|
      invariant |got| == |users| && got[i..] == users[i..]
      invariant forall j :: 0 <= j < i ==> Resolved(chains, users[j], got[j])
    {
      assert ids[i] in ids && got[i..][0] == got[i] == users[i];
      got := got[i := got[i].(groupExternalIds := groupIdsByUser.value[got[i].externalId])];
    }
    r := Success(Snapshot(got, groups));
  }

  /** Resolving memberships changes nothing else about the last-wins users. */
  lemma {:induction false} CurrentResolved(chains: Chains, users: seq<ProviderUser>, got: seq<ProviderUser>)
    requires HasChains(chains, users) && AllResolved(chains, users, got)
    ensures CurrentUsers(got).Keys == CurrentUsers(users).Keys
    ensures forall e :: e in CurrentUsers(users) ==>
      CurrentUsers(users)[e].externalId == e && e in chains && Resolved(chains, CurrentUsers(users)[e], CurrentUsers(got)[e])
  {
    if users != [] {
      var n := |users| - 1;
      CurrentResolved(chains, users[..n], got[..n]);
      assert Resolved(chains, users[n], got[n]);
    }
  }

  /** The last-wins users' Graph chains, as sets, restricted to the listed groups. */
  ghost function GraphMemberships(users: seq<ProviderUser>, groups: seq<ProviderGroup>, chains: Chains): set<(string, string)>
    requires forall e :: e in CurrentUsers(users) ==> e in chains
  {
    set e, g | e in CurrentUsers(users) && g in CurrentGroups(groups) && g in Flatten(chains[e]) :: (e, g)
  }

  /** What Graph says the source's part of the directory is. */
  ghost function GraphView(users: seq<ProviderUser>, groups: seq<ProviderGroup>, chains: Chains): SourceView
    requires forall e :: e in CurrentUsers(users) ==> e in chains
  {
    SourceView(SnapshotUsers(CurrentUsers(users)), SnapshotGroups(CurrentGroups(groups)),
               GraphMemberships(users, groups, chains))
  }

  lemma ChainsOfCurrent(chains: Chains, users: seq<ProviderUser>)
    requires HasChains(chains, users)
    ensures forall e :: e in CurrentUsers(users) ==> e in chains
  {
    forall e | e in CurrentUsers(users) ensures e in chains {
      CurrentUsersFrom(users, e);
    }
  }

  /** Which users can be active together does not depend on their groups. */
  lemma InsertableAsListed(chains: Chains, users: seq<ProviderUser>, snapshot: Snapshot)
    requires HasChains(chains, users) && AllResolved(chains, users, snapshot.users)
    ensures SyncRuns.Insertable(snapshot) <==> Distinct(CurrentUsers(users), CurrentUsers(users).Keys)
  {
    var listed, got := CurrentUsers(users), CurrentUsers(snapshot.users);
    CurrentResolved(chains, users, snapshot.users);
    forall e, f | e in got && f in got ensures StagedClash(got[e], got[f]) <==> StagedClash(listed[e], listed[f]) {
      assert Staged(got[e]) == Staged(listed[e]) && Staged(got[f]) == Staged(listed[f]);
    }
  }

  /** The snapshot built from the fetched chains shows what Graph says, whatever order they were fetched in. */
  lemma SnapshotIsGraph(chains: Chains, users: seq<ProviderUser>, snapshot: Snapshot)
    requires HasChains(chains, users) && AllResolved(chains, users, snapshot.users)
    requires forall e :: e in CurrentUsers(users) ==> e in chains
    ensures ViewOfSnapshot(snapshot) == GraphView(users, snapshot.groups, chains)
  {
    var listed, got := CurrentUsers(users), CurrentUsers(snapshot.users);
    CurrentResolved(chains, users, snapshot.users);
    forall e | e in got ensures Staged(got[e]) == Staged(listed[e]) {
    }
    assert SnapshotUsers(got) == SnapshotUsers(listed);
  }

  /** Resolving memberships leaves every column as listed. */
  lemma FieldsAsListed(d: Directory, chains: Chains, users: seq<ProviderUser>, snapshot: Snapshot)
    requires HasChains(chains, users) && AllResolved(chains, users, snapshot.users)
    requires SourceShows(d, Entra, CurrentUsers(snapshot.users), CurrentGroups(snapshot.groups))
    ensures SourceShows(d, Entra, CurrentUsers(users), CurrentGroups(snapshot.groups))
  {
    var listed, got := CurrentUsers(users), CurrentUsers(snapshot.users);
    CurrentResolved(chains, users, snapshot.users);
    forall i | i in d.users.rows && d.users.rows[i].source == Entra && d.users.rows[i].externalId.Some?
      ensures var e := d.users.rows[i].externalId.value;
        if e in listed then Shows(d.users.rows[i], listed[e]) else d.users.rows[i].deleted
    {
      var e := d.users.rows[i].externalId.value;
      assert e in listed <==> e in got.Keys;
      if e in listed {
        assert Resolved(chains, listed[e], got[e]);
      }
    }
    forall e | e in listed ensures HasUser(d.users, Entra, e) {
      assert e in got.Keys;
    }
  }

  /**
   A sync succeeds exactly when every request is answered and the listed users can
   be active together. Then the source's users, groups and memberships are what
   Graph says; otherwise the directory is as it was.
   */
  method Sync(
    store: DirectoryStore.Store, users: seq<ProviderUser>, groups: seq<ProviderGroup>, chains: Chains, fails: Request -> bool)
    returns (r: Result<(int, int), Fault>)
    requires DirectoryTables.Valid(store.Value()) && HasChains(chains, users)
    modifies store
    ensures DirectoryTables.Valid(store.Value())
    ensures r.Success? <==>
      !SomeFails(chains, UserIds(users), fails) && Distinct(CurrentUsers(users), CurrentUsers(users).Keys)
    ensures r.Failure? ==> store.Value() == old(store.Value())
    ensures forall e :: e in CurrentUsers(users) ==> e in chains
    ensures r.Success? ==>
      r.value == (|users|, |groups|) && ViewOf(store.Value(), Entra) == GraphView(users, groups, chains)
      && SourceShows(store.Value(), Entra, CurrentUsers(users), CurrentGroups(groups))
  {
    ChainsOfCurrent(chains, users);
    var snapshot := Fetch(users, groups, chains, fails);
    if snapshot.Failure? {
      return Failure(snapshot.error);
    }
    InsertableAsListed(chains, users, snapshot.value);
    SnapshotIsGraph(chains, users, snapshot.value);
    ghost var groupOrder, userOrder;
    var applied;
    applied, groupOrder, userOrder := store.ApplyProviderSnapshot(Entra, snapshot.value);
    if applied.Failure? {
      return Failure(applied.error);
    }
    FieldsAsListed(store.Value(), chains, users, snapshot.value);
    r := Success((|snapshot.value.users|, |snapshot.value.groups|));
  }
}
