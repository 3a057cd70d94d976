/** Revision a7b8c9d0e1f2: the source provider moves from groups to repositories, and back to
    groups as the least provider among their repositories. */
module ProviderDetachment {
  import opened Wrappers
  import opened ProviderSchema

  datatype SourceGroup = SourceGroup(id: nat, providerId: Option<nat>)

  datatype GroupedRepository = GroupedRepository(id: nat, groupId: Option<nat>, providerId: Option<nat>)

  function GroupsWithId(groups: seq<SourceGroup>, id: nat): set<nat> {
    set j | 0 <= j < |groups| && groups[j].id == id
  }

  function PushToRepository(groups: seq<SourceGroup>, row: GroupedRepository): GroupedRepository {
    if row.groupId.None? || GroupsWithId(groups, row.groupId.value) == {} then row
    else row.(providerId := groups[LeastOf(GroupsWithId(groups, row.groupId.value))].providerId)
  }

  /** The provider ids aggregated by `MIN ... GROUP BY source_group_id`. */
  function ProvidersInGroup(repositories: seq<GroupedRepository>, groupId: nat): set<nat> {
    set k | 0 <= k < |repositories| && repositories[k].groupId == Some(groupId) && repositories[k].providerId.Some?
      :: repositories[k].providerId.value
  }

  function PullToGroup(repositories: seq<GroupedRepository>, providers: set<nat>, row: SourceGroup): SourceGroup {
    var found := ProvidersInGroup(repositories, row.id);
    if found != {} then row.(providerId := Some(LeastOf(found)))
    else if row.providerId.None? && providers != {} then row.(providerId := Some(LeastOf(providers)))
    else row
  }

  function Pushed(groups: seq<SourceGroup>, repositories: seq<GroupedRepository>): (r: seq<GroupedRepository>) {
    seq(|repositories|, k requires 0 <= k < |repositories| => PushToRepository(groups, repositories[k]))
  }

  function Pulled(repositories: seq<GroupedRepository>, providers: set<nat>,
                  groups: seq<SourceGroup>): seq<SourceGroup>
  {
    seq(|groups|, k requires 0 <= k < |groups| => PullToGroup(repositories, providers, groups[k]))
  }

  function Detached(groups: seq<SourceGroup>): seq<SourceGroup> {
    seq(|groups|, k requires 0 <= k < |groups| => groups[k].(providerId := None))
  }

  function WithoutProviders(repositories: seq<GroupedRepository>): seq<GroupedRepository> {
    seq(|repositories|, k requires 0 <= k < |repositories| => repositories[k].(providerId := None))
  }

  ghost predicate InGroup(group: SourceGroup, row: GroupedRepository) {
    row.groupId == Some(group.id)
  }

  ghost predicate InSomeGroup(groups: seq<SourceGroup>, row: GroupedRepository) {
    exists j :: 0 <= j < |groups| && InGroup(groups[j], row)
  }

  /** The row is in the group and has taken over the group's provider. */
  ghost predicate FollowsGroup(group: SourceGroup, before: GroupedRepository, after: GroupedRepository) {
    InGroup(group, before) && after == before.(providerId := group.providerId)
  }

  lemma GroupFound(groups: seq<SourceGroup>, row: GroupedRepository)
    requires InSomeGroup(groups, row)
    ensures exists j :: 0 <= j < |groups| && FollowsGroup(groups[j], row, PushToRepository(groups, row))
  {
    var j :| 0 <= j < |groups| && InGroup(groups[j], row);
    assert j in GroupsWithId(groups, groups[j].id);
    var least := LeastOf(GroupsWithId(groups, groups[j].id));
    assert FollowsGroup(groups[least], row, PushToRepository(groups, row));
  }

  class SourceDatabase {
    var sourceProviders: set<nat>
    var sourceGroups: seq<SourceGroup>
    var sourceRepositories: seq<GroupedRepository>

    /** A repository whose group exists gets that group's provider, any other one keeps its row,
        and every group loses its provider. */
    method Upgrade()
      requires forall k :: 0 <= k < |sourceRepositories| ==> sourceRepositories[k].providerId.None?
      modifies this`sourceGroups, this`sourceRepositories
      ensures |sourceRepositories| == |old(sourceRepositories)| && |sourceGroups| == |old(sourceGroups)|
      ensures forall k :: 0 <= k < |sourceRepositories| ==>
        if InSomeGroup(old(sourceGroups), old(sourceRepositories)[k]) then
          exists j :: 0 <= j < |old(sourceGroups)|
                      && FollowsGroup(old(sourceGroups)[j], old(sourceRepositories)[k], sourceRepositories[k])
        else sourceRepositories[k] == old(sourceRepositories)[k]
      ensures forall j :: 0 <= j < |sourceGroups| ==> sourceGroups[j] == SourceGroup(old(sourceGroups)[j].id, None)
      ensures sourceRepositories == Pushed(old(sourceGroups), old(sourceRepositories))
      ensures sourceGroups == Detached(old(sourceGroups))
    {
      sourceRepositories := Pushed(sourceGroups, sourceRepositories);
      forall k | 0 <= k < |sourceRepositories| && InSomeGroup(sourceGroups, old(sourceRepositories)[k])
        ensures exists j :: 0 <= j < |sourceGroups|
                      && FollowsGroup(sourceGroups[j], old(sourceRepositories)[k], sourceRepositories[k])
      {
        GroupFound(sourceGroups, old(sourceRepositories)[k]);
      }
      sourceGroups := Detached(sourceGroups);
    }

    /** False, and nothing changed, when ALTER ... NOT NULL meets a group without provider. */
    method Downgrade() returns (ok: bool)
      requires forall k :: 0 <= k < |sourceGroups| ==> sourceGroups[k].providerId.None?
      modifies this`sourceGroups, this`sourceRepositories
      ensures ok <==> forall k :: 0 <= k < |old(sourceGroups)| ==>
        sourceProviders != {} || HasProvider(old(sourceRepositories), old(sourceGroups)[k].id)
      ensures ok ==> sourceGroups == Pulled(old(sourceRepositories), sourceProviders, old(sourceGroups))
      ensures ok ==> sourceRepositories == WithoutProviders(old(sourceRepositories))
      ensures !ok ==> sourceGroups == old(sourceGroups) && sourceRepositories == old(sourceRepositories)
    {
      var before := sourceGroups;
      forall k | 0 <= k < |before|
        ensures HasProvider(sourceRepositories, before[k].id)
          <==> ProvidersInGroup(sourceRepositories, before[k].id) != {}
      {
        ProvidersFound(sourceRepositories, before[k].id);
      }
      sourceGroups := Pulled(sourceRepositories, sourceProviders, sourceGroups);
      assert forall k :: 0 <= k < |before| ==>
        (sourceGroups[k].providerId.Some? <==>
           sourceProviders != {} || ProvidersInGroup(sourceRepositories, before[k].id) != {});
      ok := forall k :: 0 <= k < |sourceGroups| ==> sourceGroups[k].providerId.Some?;
      if ok {
        sourceRepositories := WithoutProviders(sourceRepositories);
      } else {
        sourceGroups := before;
      }
    }
  }

  // ----- Properties

  ghost predicate UniqueGroups(groups: seq<SourceGroup>) {
    forall j, k :: 0 <= j < k < |groups| ==> groups[j].id != groups[k].id
  }

  lemma GroupById(groups: seq<SourceGroup>, j: nat)
    requires UniqueGroups(groups) && j < |groups|
    ensures GroupsWithId(groups, groups[j].id) == {j}
  {
  }

  ghost predicate HasRepository(repositories: seq<GroupedRepository>, groupId: nat) {
    exists k :: 0 <= k < |repositories| && repositories[k].groupId == Some(groupId)
  }

  /** Some repository of the group has a provider. */
  ghost predicate HasProvider(repositories: seq<GroupedRepository>, groupId: nat) {
    exists k :: 0 <= k < |repositories| && repositories[k].groupId == Some(groupId) && repositories[k].providerId.Some?
  }

  ghost predicate LeastProvider(repositories: seq<GroupedRepository>, groupId: nat, provider: nat) {
    && (exists k :: 0 <= k < |repositories|
                    && repositories[k].groupId == Some(groupId) && repositories[k].providerId == Some(provider))
    && (forall k :: 0 <= k < |repositories|
                    && repositories[k].groupId == Some(groupId) && repositories[k].providerId.Some? ==>
          provider <= repositories[k].providerId.value)
  }

  /** What a successful reattachment leaves: every group with the least provider among its
      repositories, or with the least of all where they have none, and no repository with one. */
  lemma {:induction false} ReattachedExactly(providers: set<nat>, groups: seq<SourceGroup>,
                                             repositories: seq<GroupedRepository>)
    requires forall j :: 0 <= j < |groups| ==> groups[j].providerId.None?
    requires forall j :: 0 <= j < |groups| ==> providers != {} || HasProvider(repositories, groups[j].id)
    ensures var after, bare := Pulled(repositories, providers, groups), WithoutProviders(repositories);
      && |after| == |groups| && |bare| == |repositories|
      && (forall j :: 0 <= j < |groups| ==>
            && after[j].id == groups[j].id && after[j].providerId.Some?
            && if HasProvider(repositories, groups[j].id)
               then LeastProvider(repositories, groups[j].id, after[j].providerId.value)
               else after[j].providerId.value in providers && forall p ::
                   p in providers ==> after[j].providerId.value <= p)
      && (forall k :: 0 <= k < |repositories| ==>
            bare[k] == GroupedRepository(repositories[k].id, repositories[k].groupId, None))
  {
    forall j | 0 <= j < |groups|
      ensures HasProvider(repositories, groups[j].id) <==> ProvidersInGroup(repositories, groups[j].id) != {}
    {
      ProvidersFound(repositories, groups[j].id);
    }
    forall j | 0 <= j < |groups| && HasProvider(repositories, groups[j].id)
      ensures var p := PullToGroup(repositories, providers, groups[j]).providerId;
        p.Some? && LeastProvider(repositories, groups[j].id, p.value)
    {
      PulledIsLeast(providers, groups[j], repositories);
    }
  }

  lemma ProvidersFound(repositories: seq<GroupedRepository>, groupId: nat)
    ensures HasProvider(repositories, groupId) <==> ProvidersInGroup(repositories, groupId) != {}
  {
    if k :| 0 <= k < |repositories| && repositories[k].groupId == Some(groupId) && repositories[k].providerId.Some? {
      assert repositories[k].providerId.value in ProvidersInGroup(repositories, groupId);
    }
  }

  /** Detaching then reattaching: every group with a repository gets its provider back, every
      empty group gets the least provider. */
  lemma {:induction false} GroupsRoundTrip(providers: set<nat>, groups: seq<SourceGroup>,
                                           repositories: seq<GroupedRepository>, j: nat)
    requires UniqueGroups(groups) && j < |groups|
    requires forall k :: 0 <= k < |groups| ==> groups[k].providerId.Some? && groups[k].providerId.value in providers
    requires forall k :: 0 <= k < |repositories| ==> repositories[k].providerId.None?
    ensures Pulled(Pushed(groups, repositories), providers, Detached(groups))[j] ==
      if HasRepository(repositories, groups[j].id) then groups[j]
      else groups[j].(providerId := Some(LeastOf(providers)))
  {
    GroupById(groups, j);
    var pushed := Pushed(groups, repositories);
    var found := ProvidersInGroup(pushed, groups[j].id);
    forall k | 0 <= k < |repositories| && repositories[k].groupId == Some(groups[j].id)
      ensures pushed[k].providerId == groups[j].providerId
    {
    }
    if k :| 0 <= k < |repositories| && repositories[k].groupId == Some(groups[j].id) {
      assert pushed[k].providerId.value in found;
      assert found == {groups[j].providerId.value};
    } else {
      assert found == {};
    }
  }

  /** After any edits of the repositories, a reattached group has the least provider among its
      repositories: one of theirs, and below all the others. */
  lemma {:induction false} PulledIsLeast(providers: set<nat>, group: SourceGroup, repositories: seq<GroupedRepository>)
    requires ProvidersInGroup(repositories, group.id) != {}
    ensures var p := PullToGroup(repositories, providers, group).providerId;
      && p.Some?
      && (exists k :: 0 <= k < |repositories|
                      && repositories[k].groupId == Some(group.id) && repositories[k].providerId == p)
      && (forall k :: 0 <= k < |repositories| && repositories[k].groupId == Some(group.id) ==>
            (repositories[k].providerId.Some? ==> p.value <= repositories[k].providerId.value))
  {
    var found := ProvidersInGroup(repositories, group.id);
    assert LeastOf(found) in found;
    forall k | 0 <= k < |repositories| && repositories[k].groupId == Some(group.id) && repositories[k].providerId.Some?
      ensures LeastOf(found) <= repositories[k].providerId.value
    {
      assert repositories[k].providerId.value in found;
    }
  }

  /** Reattaching then detaching loses what groups cannot hold: a repository keeps its provider
      exactly when it is in a group and no other provider of that group is smaller, or when it
      has neither a group nor a provider. */
  lemma {:induction false} RepositoriesRoundTrip(providers: set<nat>, groups: seq<SourceGroup>,
                                                 repositories: seq<GroupedRepository>, k: nat)
    requires UniqueGroups(groups) && k < |repositories| && providers != {}
    requires forall j :: 0 <= j < |groups| ==> groups[j].providerId.None?
    requires repositories[k].groupId.Some? ==>
      exists j :: 0 <= j < |groups| && groups[j].id == repositories[k].groupId.value
    ensures Pushed(Pulled(repositories, providers, groups), WithoutProviders(repositories))[k] == repositories[k] <==>
      match repositories[k].groupId
      case None => repositories[k].providerId.None?
      case Some(g) =>
        && repositories[k].providerId.Some?
        && forall i :: 0 <= i < |repositories| && repositories[i].groupId == Some(g) && repositories[i].providerId.Some?
             ==> repositories[k].providerId.value <= repositories[i].providerId.value
  {
    if repositories[k].groupId.Some? {
      var g := repositories[k].groupId.value;
      var j :| 0 <= j < |groups| && groups[j].id == g;
      var pulled := Pulled(repositories, providers, groups);
      assert UniqueGroups(pulled);
      GroupById(pulled, j);
      if repositories[k].providerId.Some? {
        assert repositories[k].providerId.value in ProvidersInGroup(repositories, g);
        PulledIsLeast(providers, groups[j], repositories);
      }
    }
  }
}
