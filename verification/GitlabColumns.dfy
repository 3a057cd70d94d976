/** Revision ab12cd34ef56: the legacy `gitlab_instance_id` columns are dropped, and come back on
    downgrade through the provider slug `legacy-gitlab-{name}`. */
module GitlabColumns {
  import opened Wrappers
  import opened Strings
  import opened Secrets
  import opened ProviderSchema
  import opened LegacySchema
  import opened MigrationRun
  import opened MigrationImages
  import opened LegacyMigration
  import opened LegacyTheorems

  /** The three tables the revision rewrites. */
  datatype GitlabTables = GitlabTables(
    components: seq<GitlabConsumer>, pipelines: seq<GitlabConsumer>, runs: seq<GitlabConsumer>)

  datatype ColumnError = NotNullViolated

  // ----- The join gitlab_instances x resource_providers on the slug

  function InstancesWithId(instances: seq<GitlabRow>, id: nat): set<nat> {
    set j | 0 <= j < |instances| && instances[j].id == id
  }

  function InstancesWithSlug(instances: seq<GitlabRow>, slug: string): set<nat> {
    set j | 0 <= j < |instances| && GitlabSlug(instances[j].name) == slug
  }

  /** The provider joined to the instance, if any. */
  function ProviderOfInstance(providers: map<nat, Provider>, instances: seq<GitlabRow>, instanceId: nat): Option<nat> {
    var found := InstancesWithId(instances, instanceId);
    if found == {} then None
    else
      var named := IdsNamed(providers, GitlabSlug(instances[LeastOf(found)].name));
      if named == {} then None else Some(LeastOf(named))
  }

  /** The instance joined to the provider, if any. */
  function InstanceOfProvider(providers: map<nat, Provider>, instances: seq<GitlabRow>, providerId: nat): Option<nat> {
    if providerId !in providers then None
    else
      var found := InstancesWithSlug(instances, providers[providerId].name);
      if found == {} then None else Some(instances[LeastOf(found)].id)
  }

  function BackfillProvider(providers: map<nat, Provider>, instances: seq<GitlabRow>,
                            row: GitlabConsumer): GitlabConsumer
  {
    if row.gitlabInstanceId.Some? && row.providerId.None?
    then row.(providerId := ProviderOfInstance(providers, instances, row.gitlabInstanceId.value)) else row
  }

  function BackfillInstance(providers: map<nat, Provider>, instances: seq<GitlabRow>,
                            row: GitlabConsumer): GitlabConsumer
  {
    if row.providerId.Some? && row.gitlabInstanceId.None?
    then row.(gitlabInstanceId := InstanceOfProvider(providers, instances, row.providerId.value)) else row
  }

  function DropInstance(row: GitlabConsumer): GitlabConsumer { row.(gitlabInstanceId := None) }

  function DropProvider(row: GitlabConsumer): GitlabConsumer { row.(providerId := None) }

  function Each(rows: seq<GitlabConsumer>, f: GitlabConsumer -> GitlabConsumer): (r: seq<GitlabConsumer>)
    ensures |r| == |rows| && forall k :: 0 <= k < |rows| ==> r[k] == f(rows[k])
  {
    seq(|rows|, k requires 0 <= k < |rows| => f(rows[k]))
  }

  predicate NoNull(rows: seq<GitlabConsumer>, column: GitlabConsumer -> Option<nat>) {
    forall k :: 0 <= k < |rows| ==> column(rows[k]).Some?
  }

  function UpgradeTables(providers: map<nat, Provider>, instances: seq<GitlabRow>,
                         t: GitlabTables): Result<GitlabTables, ColumnError>
  {
    var components := Each(t.components, row => BackfillProvider(providers, instances, row));
    if !NoNull(components, (row: GitlabConsumer) => row.providerId) then Failure(NotNullViolated)
    else Success(GitlabTables(Each(components, DropInstance), Each(t.pipelines, DropInstance),
                              Each(t.runs, DropInstance)))
  }

  function DowngradeTables(providers: map<nat, Provider>, instances: seq<GitlabRow>,
                           t: GitlabTables): Result<GitlabTables, ColumnError>
  {
    var back := row => BackfillInstance(providers, instances, row);
    var components := Each(t.components, back);
    if !NoNull(components, (row: GitlabConsumer) => row.gitlabInstanceId) then Failure(NotNullViolated)
    else Success(GitlabTables(Each(components, DropProvider), Each(t.pipelines, back), Each(t.runs, back)))
  }

  class GitlabColumnDatabase {
    var resourceProviders: map<nat, Provider>
    var gitlabInstances: seq<GitlabRow>
    var gitlabComponents: seq<GitlabConsumer>
    var pipelines: seq<GitlabConsumer>
    var pipelineRuns: seq<GitlabConsumer>

    function Tables(): GitlabTables
      reads this
    {
      GitlabTables(gitlabComponents, pipelines, pipelineRuns)
    }

    /** A failing ALTER ... NOT NULL rolls the transaction back. */
    method Upgrade() returns (ok: bool)
      modifies this`gitlabComponents, this`pipelines, this`pipelineRuns
      ensures match UpgradeTables(resourceProviders, gitlabInstances, old(Tables()))
        case Failure(_) => !ok && Tables() == old(Tables())
        case Success(t) => ok && Tables() == t
    {
      var before := gitlabComponents;
      var providers, instances := resourceProviders, gitlabInstances;
      gitlabComponents := Each(gitlabComponents, row => BackfillProvider(providers, instances, row));
      if !NoNull(gitlabComponents, (row: GitlabConsumer) => row.providerId) {
        gitlabComponents := before;
        return false;
      }
      gitlabComponents := Each(gitlabComponents, DropInstance);
      pipelines := Each(pipelines, DropInstance);
      pipelineRuns := Each(pipelineRuns, DropInstance);
      ok := true;
    }

    method Downgrade() returns (ok: bool)
      modifies this`gitlabComponents, this`pipelines, this`pipelineRuns
      ensures match DowngradeTables(resourceProviders, gitlabInstances, old(Tables()))
        case Failure(_) => !ok && Tables() == old(Tables())
        case Success(t) => ok && Tables() == t
    {
      var components, lines, runs := gitlabComponents, pipelines, pipelineRuns;
      var providers, instances := resourceProviders, gitlabInstances;
      gitlabComponents := Each(gitlabComponents, row => BackfillInstance(providers, instances, row));
      pipelines := Each(pipelines, row => BackfillInstance(providers, instances, row));
      pipelineRuns := Each(pipelineRuns, row => BackfillInstance(providers, instances, row));
      if !NoNull(gitlabComponents, (row: GitlabConsumer) => row.gitlabInstanceId) {
        gitlabComponents, pipelines, pipelineRuns := components, lines, runs;
        return false;
      }
      gitlabComponents := Each(gitlabComponents, DropProvider);
      ok := true;
    }
  }

  // ----- The slug is a two-way key

  ghost predicate UniqueInstances(instances: seq<GitlabRow>) {
    forall j, k :: 0 <= j < k < |instances| ==>
        instances[j].id != instances[k].id && instances[j].name != instances[k].name
  }

  ghost predicate EveryInstanceMigrated(providers: map<nat, Provider>, instances: seq<GitlabRow>) {
    forall j :: 0 <= j < |instances| ==> IdsNamed(providers, GitlabSlug(instances[j].name)) != {}
  }

  lemma InstanceById(instances: seq<GitlabRow>, j: nat)
    requires UniqueInstances(instances) && j < |instances|
    ensures InstancesWithId(instances, instances[j].id) == {j}
    ensures InstancesWithSlug(instances, GitlabSlug(instances[j].name)) == {j}
  {
    assert j in InstancesWithId(instances, instances[j].id)
      && j in InstancesWithSlug(instances, GitlabSlug(instances[j].name));
    forall k | k in InstancesWithSlug(instances, GitlabSlug(instances[j].name)) ensures k == j {
      CancelLeft("legacy-gitlab-", instances[k].name, instances[j].name);
    }
  }

  /** A provider bearing an instance's slug leads back to exactly that instance. */
  lemma InstanceBySlug(providers: map<nat, Provider>, instances: seq<GitlabRow>, j: nat, providerId: nat)
    requires UniqueInstances(instances) && j < |instances|
    requires providerId in providers && providers[providerId].name == GitlabSlug(instances[j].name)
    ensures InstanceOfProvider(providers, instances, providerId) == Some(instances[j].id)
  {
    InstanceById(instances, j);
  }

  /** Instance to provider to instance is the identity. */
  lemma SlugRoundTrip(providers: map<nat, Provider>, instances: seq<GitlabRow>, j: nat)
    requires UniqueInstances(instances) && j < |instances|
    requires IdsNamed(providers, GitlabSlug(instances[j].name)) != {}
    ensures var p := ProviderOfInstance(providers, instances, instances[j].id);
      p.Some? && InstanceOfProvider(providers, instances, p.value) == Some(instances[j].id)
  {
    InstanceById(instances, j);
    var named := IdsNamed(providers, GitlabSlug(instances[j].name));
    assert LeastOf(named) in named;
    InstanceBySlug(providers, instances, j, LeastOf(named));
  }

  // ----- Upgrade then downgrade

  /** The row's provider bears the slug of the row's instance; neither is set without the other. */
  ghost predicate SlugLinked(providers: map<nat, Provider>, instances: seq<GitlabRow>, row: GitlabConsumer) {
    && (row.gitlabInstanceId.None? ==> row.providerId.None?)
    && (row.gitlabInstanceId.Some? ==>
          exists j :: 0 <= j < |instances| && instances[j].id == row.gitlabInstanceId.value
            && row.providerId.Some? && row.providerId.value in providers
            && providers[row.providerId.value].name == GitlabSlug(instances[j].name))
  }

  ghost predicate HasInstance(instances: seq<GitlabRow>, row: GitlabConsumer) {
    && row.providerId.None? && row.gitlabInstanceId.Some?
    && exists j :: 0 <= j < |instances| && instances[j].id == row.gitlabInstanceId.value
  }

  /** The component names an instance, and some provider bears that instance's slug. */
  ghost predicate ComponentMigrated(providers: map<nat, Provider>, instances: seq<GitlabRow>, row: GitlabConsumer) {
    && row.gitlabInstanceId.Some?
    && exists j :: 0 <= j < |instances| && instances[j].id == row.gitlabInstanceId.value
                   && IdsNamed(providers, GitlabSlug(instances[j].name)) != {}
  }

  lemma {:induction false} ComponentBackfilled(providers: map<nat, Provider>, instances: seq<GitlabRow>,
                                               row: GitlabConsumer)
    requires UniqueInstances(instances) && row.providerId.None?
    ensures BackfillProvider(providers, instances, row).providerId.Some?
      <==> ComponentMigrated(providers, instances, row)
  {
    if row.gitlabInstanceId.Some? && InstancesWithId(instances, row.gitlabInstanceId.value) != {} {
      InstanceById(instances, LeastOf(InstancesWithId(instances, row.gitlabInstanceId.value)));
      assert forall j :: 0 <= j < |instances| && instances[j].id == row.gitlabInstanceId.value ==>
        j in InstancesWithId(instances, row.gitlabInstanceId.value);
    } else if row.gitlabInstanceId.Some? {
      assert forall j :: 0 <= j < |instances| && instances[j].id == row.gitlabInstanceId.value ==>
        j in InstancesWithId(instances, row.gitlabInstanceId.value);
    }
  }

  /** The backfill satisfies NOT NULL, and the upgrade goes through, exactly when every component's
      own instance has a provider under its slug. */
  lemma {:induction false} UpgradeAccepted(providers: map<nat, Provider>, instances: seq<GitlabRow>, t: GitlabTables)
    requires UniqueInstances(instances)
    requires forall k :: 0 <= k < |t.components| ==> t.components[k].providerId.None?
    ensures UpgradeTables(providers, instances, t).Success? <==>
      forall k :: 0 <= k < |t.components| ==> ComponentMigrated(providers, instances, t.components[k])
  {
    hide BackfillProvider, ComponentMigrated;
    forall k | 0 <= k < |t.components|
      ensures BackfillProvider(providers, instances, t.components[k]).providerId.Some?
        <==> ComponentMigrated(providers, instances, t.components[k])
    {
      ComponentBackfilled(providers, instances, t.components[k]);
    }
    var components := Each(t.components, row => BackfillProvider(providers, instances, row));
    assert NoNull(components, (row: GitlabConsumer) => row.providerId) <==>
      forall k :: 0 <= k < |t.components| ==> BackfillProvider(providers, instances, t.components[k]).providerId.Some?;
  }

  lemma ComponentOfMigrated(providers: map<nat, Provider>, instances: seq<GitlabRow>, row: GitlabConsumer)
    requires EveryInstanceMigrated(providers, instances) && HasInstance(instances, row)
    ensures ComponentMigrated(providers, instances, row)
  {
    var j :| 0 <= j < |instances| && instances[j].id == row.gitlabInstanceId.value;
    assert IdsNamed(providers, GitlabSlug(instances[j].name)) != {};
  }

  lemma ComponentRoundTrip(providers: map<nat, Provider>, instances: seq<GitlabRow>, row: GitlabConsumer)
    requires UniqueInstances(instances) && row.providerId.None? && ComponentMigrated(providers, instances, row)
    ensures var up := BackfillProvider(providers, instances, row);
      var down := BackfillInstance(providers, instances, DropInstance(up));
      up.providerId.Some? && down.gitlabInstanceId.Some? && DropProvider(down) == row
  {
    var j :| 0 <= j < |instances| && instances[j].id == row.gitlabInstanceId.value
      && IdsNamed(providers, GitlabSlug(instances[j].name)) != {};
    SlugRoundTrip(providers, instances, j);
  }

  lemma PipelineRoundTrip(providers: map<nat, Provider>, instances: seq<GitlabRow>, row: GitlabConsumer)
    requires UniqueInstances(instances) && SlugLinked(providers, instances, row)
    ensures Recovered(providers, instances, row) == row
  {
    if row.gitlabInstanceId.Some? {
      var j :| 0 <= j < |instances| && instances[j].id == row.gitlabInstanceId.value
        && row.providerId.Some? && row.providerId.value in providers
        && providers[row.providerId.value].name == GitlabSlug(instances[j].name);
      InstanceBySlug(providers, instances, j, row.providerId.value);
    }
  }

  /** The instance that both revisions leave a row with. */
  function Recovered(providers: map<nat, Provider>, instances: seq<GitlabRow>, row: GitlabConsumer): GitlabConsumer {
    row.(gitlabInstanceId :=
           if row.providerId.None? then None else InstanceOfProvider(providers, instances, row.providerId.value))
  }

  /** The upgrade goes through exactly when every component's instance was migrated. The downgrade
      then does, too: components come back as they were, and a pipeline or a run comes back with
      the instance its provider names by slug, or with none. */
  lemma {:induction false} ColumnsRoundTrip(providers: map<nat, Provider>, instances: seq<GitlabRow>, t: GitlabTables)
    requires UniqueInstances(instances)
    requires forall k :: 0 <= k < |t.components| ==> t.components[k].providerId.None?
    ensures UpgradeTables(providers, instances, t).Success? <==>
      forall k :: 0 <= k < |t.components| ==> ComponentMigrated(providers, instances, t.components[k])
    ensures UpgradeTables(providers, instances, t).Success? ==>
      var up := UpgradeTables(providers, instances, t).value;
      && DowngradeTables(providers, instances, up).Success?
      && var down := DowngradeTables(providers, instances, up).value;
         && down.components == t.components
         && |down.pipelines| == |t.pipelines| && |down.runs| == |t.runs|
         && (forall k :: 0 <= k < |t.pipelines| ==>
             down.pipelines[k] == Recovered(providers, instances, t.pipelines[k]))
         && (forall k :: 0 <= k < |t.runs| ==> down.runs[k] == Recovered(providers, instances, t.runs[k]))
  {
    UpgradeAccepted(providers, instances, t);
    if UpgradeTables(providers, instances, t).Success? {
      DowngradeFollows(providers, instances, t);
    }
  }

  lemma {:induction false} DowngradeFollows(providers: map<nat, Provider>, instances: seq<GitlabRow>, t: GitlabTables)
    requires UniqueInstances(instances) && UpgradeTables(providers, instances, t).Success?
    requires forall k :: 0 <= k < |t.components| ==>
      t.components[k].providerId.None? && ComponentMigrated(providers, instances, t.components[k])
    ensures var up := UpgradeTables(providers, instances, t).value;
      && DowngradeTables(providers, instances, up).Success?
      && var down := DowngradeTables(providers, instances, up).value;
         && down.components == t.components
         && |down.pipelines| == |t.pipelines| && |down.runs| == |t.runs|
         && (forall k :: 0 <= k < |t.pipelines| ==>
             down.pipelines[k] == Recovered(providers, instances, t.pipelines[k]))
         && (forall k :: 0 <= k < |t.runs| ==> down.runs[k] == Recovered(providers, instances, t.runs[k]))
  {
    hide ComponentMigrated, UniqueInstances;
    forall k | 0 <= k < |t.components|
      ensures var up := BackfillProvider(providers, instances, t.components[k]);
        var down := BackfillInstance(providers, instances, DropInstance(up));
        up.providerId.Some? && down.gitlabInstanceId.Some? && DropProvider(down) == t.components[k]
    {
      ComponentRoundTrip(providers, instances, t.components[k]);
    }
  }

  /** What a successful upgrade leaves: no instance column anywhere, every component with a provider
      named after its instance, pipelines and runs with the provider they had. */
  lemma {:induction false} UpgradeExactly(providers: map<nat, Provider>, instances: seq<GitlabRow>, t: GitlabTables)
    requires UniqueInstances(instances)
    requires forall k :: 0 <= k < |t.components| ==> t.components[k].providerId.None?
    requires UpgradeTables(providers, instances, t).Success?
    ensures var u := UpgradeTables(providers, instances, t).value;
      && |u.components| == |t.components| && |u.pipelines| == |t.pipelines| && |u.runs| == |t.runs|
      && (forall k :: 0 <= k < |t.components| ==>
          ComponentMoved(providers, instances, t.components[k], u.components[k]))
      && (forall k :: 0 <= k < |t.pipelines| ==>
            u.pipelines[k] == GitlabConsumer(t.pipelines[k].id, None, t.pipelines[k].providerId))
      && (forall k :: 0 <= k < |t.runs| ==> u.runs[k] == GitlabConsumer(t.runs[k].id, None, t.runs[k].providerId))
  {
    hide ComponentMigrated, ComponentMoved, UniqueInstances;
    UpgradeAccepted(providers, instances, t);
    forall k | 0 <= k < |t.components|
      ensures ComponentMoved(providers, instances, t.components[k],
                             DropInstance(BackfillProvider(providers, instances, t.components[k])))
    {
      ComponentFollows(providers, instances, t.components[k]);
    }
  }

  /** The component without its instance, under a provider named after that instance. */
  ghost predicate ComponentMoved(providers: map<nat, Provider>, instances: seq<GitlabRow>, before: GitlabConsumer,
                                 after: GitlabConsumer)
  {
    && after.id == before.id && after.gitlabInstanceId == None && before.gitlabInstanceId.Some?
    && after.providerId.Some? && after.providerId.value in providers
    && exists j :: 0 <= j < |instances| && instances[j].id == before.gitlabInstanceId.value
                   && providers[after.providerId.value].name == "legacy-gitlab-" + instances[j].name
  }

  lemma ComponentFollows(providers: map<nat, Provider>, instances: seq<GitlabRow>, row: GitlabConsumer)
    requires UniqueInstances(instances) && row.providerId.None? && ComponentMigrated(providers, instances, row)
    ensures ComponentMoved(providers, instances, row, DropInstance(BackfillProvider(providers, instances, row)))
  {
    var j :| 0 <= j < |instances| && instances[j].id == row.gitlabInstanceId.value
      && IdsNamed(providers, GitlabSlug(instances[j].name)) != {};
    InstanceById(instances, j);
  }

  /** The row has the instance its provider is named after, and none when there is no such one. */
  ghost predicate Traced(providers: map<nat, Provider>, instances: seq<GitlabRow>, providerId: Option<nat>,
                         instanceId: Option<nat>)
  {
    && (instanceId.None? <==>
          providerId.Some? && providerId.value in providers ==>
            forall j :: 0 <= j < |instances| ==>
                providers[providerId.value].name != "legacy-gitlab-" + instances[j].name)
    && (instanceId.Some? ==>
          && providerId.Some? && providerId.value in providers
          && exists j :: 0 <= j < |instances| && instances[j].id == instanceId.value
                         && providers[providerId.value].name == "legacy-gitlab-" + instances[j].name)
  }

  /** What a successful downgrade leaves of any tables: every row with the instance its provider is
      named after, components without provider, pipelines and runs with theirs. */
  lemma {:induction false} DowngradeExactly(providers: map<nat, Provider>, instances: seq<GitlabRow>, t: GitlabTables)
    requires NoInstances(t.components) && NoInstances(t.pipelines) && NoInstances(t.runs)
    requires DowngradeTables(providers, instances, t).Success?
    ensures var d := DowngradeTables(providers, instances, t).value;
      && |d.components| == |t.components| && |d.pipelines| == |t.pipelines| && |d.runs| == |t.runs|
      && (forall k :: 0 <= k < |t.components| ==>
            && d.components[k] == GitlabConsumer(t.components[k].id, d.components[k].gitlabInstanceId, None)
            && d.components[k].gitlabInstanceId.Some?
            && Traced(providers, instances, t.components[k].providerId, d.components[k].gitlabInstanceId))
      && (forall k :: 0 <= k < |t.pipelines| ==> RowTraced(providers, instances, t.pipelines[k], d.pipelines[k]))
      && (forall k :: 0 <= k < |t.runs| ==> RowTraced(providers, instances, t.runs[k], d.runs[k]))
  {
    hide BackfillInstance, Traced;
    forall row: GitlabConsumer | row.gitlabInstanceId.None?
      ensures RowTraced(providers, instances, row, BackfillInstance(providers, instances, row))
    {
      RowFollows(providers, instances, row);
    }
    assert NoNull(Each(t.components, row => BackfillInstance(providers, instances, row)),
                  (row: GitlabConsumer) => row.gitlabInstanceId);
  }

  ghost predicate NoInstances(rows: seq<GitlabConsumer>) {
    forall k :: 0 <= k < |rows| ==> rows[k].gitlabInstanceId.None?
  }

  ghost predicate RowTraced(providers: map<nat, Provider>, instances: seq<GitlabRow>, before: GitlabConsumer,
                            after: GitlabConsumer)
  {
    && after == GitlabConsumer(before.id, after.gitlabInstanceId, before.providerId)
    && Traced(providers, instances, before.providerId, after.gitlabInstanceId)
  }

  lemma RowFollows(providers: map<nat, Provider>, instances: seq<GitlabRow>, row: GitlabConsumer)
    requires row.gitlabInstanceId.None?
    ensures RowTraced(providers, instances, row, BackfillInstance(providers, instances, row))
  {
    if row.providerId.Some? && row.providerId.value in providers {
      var name := providers[row.providerId.value].name;
      var found := InstancesWithSlug(instances, name);
      assert forall j :: 0 <= j < |instances| && GitlabSlug(instances[j].name) == name ==> j in found;
      if found != {} {
        assert LeastOf(found) in found;
      }
    }
  }

  /** The provider bears the slug of the instance with this id. */
  ghost predicate BearsSlug(providers: map<nat, Provider>, instances: seq<GitlabRow>, providerId: nat, instanceId: nat)
    requires providerId in providers
  {
    exists j :: 0 <= j < |instances| && instances[j].id == instanceId
        && providers[providerId].name == GitlabSlug(instances[j].name)
  }

  /** The row's two links say the same: its provider bears the slug of its instance, or it has no
      instance and its provider, if any, bears no instance's slug. */
  ghost predicate LinksAgree(providers: map<nat, Provider>, instances: seq<GitlabRow>, row: GitlabConsumer) {
    if row.gitlabInstanceId.Some? then
      && row.providerId.Some? && row.providerId.value in providers
      && BearsSlug(providers, instances, row.providerId.value, row.gitlabInstanceId.value)
    else
      row.providerId.Some? && row.providerId.value in providers ==>
        forall j :: 0 <= j < |instances| ==> GitlabSlug(instances[j].name) != providers[row.providerId.value].name
  }

  /** A pipeline or a run keeps its instance through both revisions exactly when its provider link
      says the same. */
  lemma {:induction false} RunKeepsInstance(providers: map<nat, Provider>, instances: seq<GitlabRow>,
                                            row: GitlabConsumer)
    requires UniqueInstances(instances)
    ensures Recovered(providers, instances, row) == row <==> LinksAgree(providers, instances, row)
  {
    if row.providerId.Some? && row.providerId.value in providers {
      var name := providers[row.providerId.value].name;
      var found := InstancesWithSlug(instances, name);
      if found != {} {
        var j := LeastOf(found);
        InstanceBySlug(providers, instances, j, row.providerId.value);
        InstanceById(instances, j);
        forall k | 0 <= k < |instances| && GitlabSlug(instances[k].name) == name ensures k == j {
          assert k in found && GitlabSlug(instances[j].name) == name;
        }
      }
      assert forall k :: 0 <= k < |instances| && GitlabSlug(instances[k].name) == name ==> k in found;
    }
  }

  /** The component's provider exists and bears some instance's slug. */
  ghost predicate ComponentTraceable(providers: map<nat, Provider>, instances: seq<GitlabRow>, row: GitlabConsumer) {
    && row.providerId.Some? && row.providerId.value in providers
    && exists j :: 0 <= j < |instances| && GitlabSlug(instances[j].name) == providers[row.providerId.value].name
  }

  lemma ComponentTraced(providers: map<nat, Provider>, instances: seq<GitlabRow>, row: GitlabConsumer)
    requires row.gitlabInstanceId.None?
    ensures BackfillInstance(providers, instances, row).gitlabInstanceId.Some?
      <==> ComponentTraceable(providers, instances, row)
  {
    if row.providerId.Some? && row.providerId.value in providers {
      var name := providers[row.providerId.value].name;
      assert forall j :: 0 <= j < |instances| && GitlabSlug(instances[j].name) == name ==>
        j in InstancesWithSlug(instances, name);
    }
  }

  /** From any state, the downgrade goes through exactly when every component's provider exists and
      bears some instance's slug. */
  lemma {:induction false} DowngradeAccepted(providers: map<nat, Provider>, instances: seq<GitlabRow>, t: GitlabTables)
    requires forall k :: 0 <= k < |t.components| ==> t.components[k].gitlabInstanceId.None?
    ensures DowngradeTables(providers, instances, t).Success? <==>
      forall k :: 0 <= k < |t.components| ==> ComponentTraceable(providers, instances, t.components[k])
  {
    hide BackfillInstance, ComponentTraceable;
    forall k | 0 <= k < |t.components|
      ensures BackfillInstance(providers, instances, t.components[k]).gitlabInstanceId.Some?
        <==> ComponentTraceable(providers, instances, t.components[k])
    {
      ComponentTraced(providers, instances, t.components[k]);
    }
    var components := Each(t.components, row => BackfillInstance(providers, instances, row));
    assert NoNull(components, (row: GitlabConsumer) => row.gitlabInstanceId) <==>
      forall k :: 0 <= k < |t.components| ==>
        BackfillInstance(providers, instances, t.components[k]).gitlabInstanceId.Some?;
  }

  /** A component registered after the upgrade, with a provider of its own: the downgrade aborts. */
  lemma LateComponentBlocks(instance: GitlabRow, provider: Provider, component: nat)
    requires provider.name != GitlabSlug(instance.name)
    ensures DowngradeTables(map[0 := provider], [instance],
                            GitlabTables([GitlabConsumer(component, None, Some(0))], [], [])).Failure?
  {
    hide DowngradeTables;
    var row := GitlabConsumer(component, None, Some(0));
    assert !ComponentTraceable(map[0 := provider], [instance], row);
    var t := GitlabTables([row], [], []);
    assert t.components[0] == row;
    DowngradeAccepted(map[0 := provider], [instance], t);
  }

  /** A run that names its instance but no provider: the upgrade drops the only column that knew
      it, and the downgrade has nothing to restore it from. */
  lemma RunLosesInstance(instance: GitlabRow, run: nat)
    ensures var row := GitlabConsumer(run, Some(instance.id), None);
      && UpgradeTables(map[], [instance], GitlabTables([], [], [row])).Success?
      && var up := UpgradeTables(map[], [instance], GitlabTables([], [], [row])).value;
         && DowngradeTables(map[], [instance], up).Success?
         && DowngradeTables(map[], [instance], up).value.runs == [GitlabConsumer(run, None, None)]
  {
  }

  // ----- Together with the data migration

  lemma ImageBearsSlug(cipher: Cipher, t: Store, ctx: Context, row: GitlabRow, id: nat)
    requires IsImage(cipher, t, PlanOf(ctx, Gitlab(row)), id)
    ensures id in IdsNamed(t.providers, GitlabSlug(row.name))
  {
  }

  lemma {:induction false} MigratedInstances(cipher: Cipher, admin: Option<nat>, l: LegacyTables, s: Store,
                                             c: Consumers)
    requires Lawful(cipher) && UniqueKeys(l) && IdsBounded(s) && NoReservedNames(s)
    requires MigrateData(cipher, admin, l, s, c).Success?
    ensures EveryInstanceMigrated(MigrateData(cipher, admin, l, s, c).value.0.providers, l.gitlabs)
  {
    var ctx := Context(admin, TargetUrls(c.images));
    MigratedImages(cipher, admin, l, s, c);
    var t := MigrateData(cipher, admin, l, s, c).value.0;
    var ids :| |ids| == RowCount(l) && TableImages(cipher, t, ctx, AllRows(l), ids);
    RowPositions(l);
    forall j | 0 <= j < |l.gitlabs| ensures IdsNamed(t.providers, GitlabSlug(l.gitlabs[j].name)) != {} {
      assert AllRows(l)[|l.sources| + j] == Gitlab(l.gitlabs[j]);
      ImageBearsSlug(cipher, t, ctx, l.gitlabs[j], ids[|l.sources| + j]);
    }
  }

  /** The data migration, any further growth of the provider table, then this revision up and
      down: every pipeline and every component has the instance it started with. */
  lemma {:induction false} InstancesSurviveAllRevisions(cipher: Cipher, admin: Option<nat>, l: LegacyTables, s: Store,
                                                        c: Consumers, later: Store,
                                                        components: seq<GitlabConsumer>, runs: seq<GitlabConsumer>)
    requires Lawful(cipher) && UniqueKeys(l) && IdsBounded(s) && NoReservedNames(s)
    requires ForeignKeysValid(l, c) && ColumnsNew(c)
    requires MigrateData(cipher, admin, l, s, c).Success?
    requires Grown(MigrateData(cipher, admin, l, s, c).value.0, later)
    requires forall k :: 0 <= k < |components| ==> HasInstance(l.gitlabs, components[k])
    ensures var t := GitlabTables(components, MigrateData(cipher, admin, l, s, c).value.1.pipelines, runs);
      && UpgradeTables(later.providers, l.gitlabs, t).Success?
      && var up := UpgradeTables(later.providers, l.gitlabs, t).value;
         && DowngradeTables(later.providers, l.gitlabs, up).Success?
         && var down := DowngradeTables(later.providers, l.gitlabs, up).value;
            && down.components == components
            && |down.pipelines| == |c.pipelines|
            && forall k :: 0 <= k < |c.pipelines| ==>
                down.pipelines[k].gitlabInstanceId == c.pipelines[k].gitlabInstanceId
  {
    hide MigrateData, TargetUrls, UpgradeTables, DowngradeTables, RepositoryMeans, ImageMeans, ChartMeans;
    var ctx := Context(admin, TargetUrls(c.images));
    MigratedInstances(cipher, admin, l, s, c);
    RelinkingKeepsMeaning(cipher, admin, l, s, c);
    var (t, linked) := MigrateData(cipher, admin, l, s, c).value;
    forall j | 0 <= j < |l.gitlabs| ensures IdsNamed(later.providers, GitlabSlug(l.gitlabs[j].name)) != {} {
      var i :| i in IdsNamed(t.providers, GitlabSlug(l.gitlabs[j].name));
      assert i in IdsNamed(later.providers, GitlabSlug(l.gitlabs[j].name));
    }
    forall k | 0 <= k < |components| ensures ComponentMigrated(later.providers, l.gitlabs, components[k]) {
      assert HasInstance(l.gitlabs, components[k]);
      ComponentOfMigrated(later.providers, l.gitlabs, components[k]);
    }
    forall k | 0 <= k < |linked.pipelines| ensures SlugLinked(later.providers, l.gitlabs, linked.pipelines[k]) {
      PipelineSlugLinked(cipher, t, ctx, l, later, c.pipelines[k], linked.pipelines[k]);
    }
    ColumnsRoundTrip(later.providers, l.gitlabs, GitlabTables(components, linked.pipelines, runs));
    forall k | 0 <= k < |linked.pipelines|
      ensures Recovered(later.providers, l.gitlabs, linked.pipelines[k]) == linked.pipelines[k]
    {
      PipelineRoundTrip(later.providers, l.gitlabs, linked.pipelines[k]);
    }
  }

  lemma {:induction false} PipelineSlugLinked(cipher: Cipher, t: Store, ctx: Context, l: LegacyTables, later: Store,
                                              before: GitlabConsumer, after: GitlabConsumer)
    requires PipelineMeans(cipher, t, ctx, l, before, after) && Grown(t, later)
    requires before.gitlabInstanceId.Some? ==> before.gitlabInstanceId.value in GitlabIds(l.gitlabs)
    ensures SlugLinked(later.providers, l.gitlabs, after)
  {
    if before.gitlabInstanceId.Some? {
      var j :| 0 <= j < |l.gitlabs| && GitlabIds(l.gitlabs)[j] == before.gitlabInstanceId.value;
      assert Names(cipher, t, ctx, after.providerId, Gitlab(l.gitlabs[j]));
      ImageBearsSlug(cipher, t, ctx, l.gitlabs[j], after.providerId.value);
    }
  }
}
