/** The two halves of an installation: the legacy migration, then the provider seed over the tables
    it leaves. */
module MigrateThenSeed {
  import opened Wrappers
  import opened Strings
  import opened Secrets
  import opened ProviderSchema
  import opened LegacySchema
  import opened MigrationRun
  import opened MigrationImages
  import opened LegacyMigration
  import opened LegacyTheorems
  import opened LegacyRerun
  import SeederModel
  import SeederTheorems
  import SeederAcceptance

  function DbOf(s: Store): SeederModel.Db {
    SeederModel.Db(s.providers, s.nextProvider, s.credentials, s.nextCredential, s.clock)
  }

  /** The rows of a migrated database, besides the older ones: the images of the legacy rows. */
  ghost predicate Migrated(s: Store, t: Store, plans: seq<Plan>, ids: seq<nat>) {
    Grown(s, t) && AddedReserved(s, t) && Holds(s, t, plans, ids) && NoneNamed(s, plans)
  }

  lemma {:induction false} MigrationLeaves(cipher: Cipher, admin: Option<nat>, l: LegacyTables, s: Store, c: Consumers)
    returns (ids: seq<nat>)
    requires UniqueKeys(l) && IdsBounded(s) && NoReservedNames(s) && MigrateData(cipher, admin, l, s, c).Success?
    ensures Migrated(s, MigrateData(cipher, admin, l, s, c).value.0,
                     Plans(Context(admin, TargetUrls(c.images)), AllRows(l)), ids)
  {
    hide AddedReserved, Grown, Holds, UniqueKeys, NoReservedNames, PlanOf, References, Relink;
    var ctx := Context(admin, TargetUrls(c.images));
    var plans := Plans(ctx, AllRows(l));
    ids := Run(cipher, s, plans).value.1;
    ImagesDistinct(ctx, l);
    StartsClean(ctx, l, s);
    RunAccepted(cipher, s, plans);
    AddedRowsReserved(cipher, ctx, l, s);
  }

  // ----- What the seed looks for is not touched by the migration

  lemma SeedNamesUnreserved(env: SeederModel.Env)
    ensures forall k :: 0 <= k < |SeederAcceptance.WantedBy(env)| ==>
      !StartsWith(SeederAcceptance.WantedBy(env)[k].name, "legacy-")
    ensures forall k :: 0 <= k < |SeederModel.Systems(env)| ==>
      && !StartsWith(SeederModel.Systems(env)[k].provider.name, "legacy-")
      && !StartsWith(SeederModel.Systems(env)[k].credential.name, "migrated-")
  {
    assert "github-anonymous"[0] == 'g' && "gitlab-anonymous"[0] == 'g' && "generic-anonymous"[0] == 'g';
    assert "dockerhub-anonymous"[0] == 'd' && "harbor-system"[0] == 'h' && "gitlab-system"[0] == 'g';
    assert "harbor-system-credential"[0] == 'h' && "gitlab-system-credential"[0] == 'g';
    assert "legacy-"[0] == 'l' && "migrated-"[0] == 'm';
  }

  lemma SameLiveNamed(s: Store, t: Store, name: string)
    requires Grown(s, t) && AddedReserved(s, t) && !StartsWith(name, "legacy-")
    ensures SeederTheorems.AgreeProvider(DbOf(s), DbOf(t), name)
  {
    hide StartsWith;
    assert SeederModel.LiveNamed(s.providers, name) == SeederModel.LiveNamed(t.providers, name);
  }

  lemma SameCredentialNamed(s: Store, t: Store, name: string)
    requires Grown(s, t) && AddedReserved(s, t) && !StartsWith(name, "migrated-")
    ensures SeederTheorems.AgreeCredential(DbOf(s), DbOf(t), name)
  {
    hide StartsWith;
    assert CredentialIdsNamed(s.credentials, name) == CredentialIdsNamed(t.credentials, name);
  }

  lemma SameEndScope(s: Store, t: Store, wanted: Provider)
    requires Grown(s, t) && AddedReserved(s, t) && !StartsWith(wanted.name, "legacy-")
    ensures SeederAcceptance.EndScope(DbOf(s), wanted) == SeederAcceptance.EndScope(DbOf(t), wanted)
  {
    SameLiveNamed(s, t, wanted.name);
  }

  lemma {:induction false} SameReadable(cipher: Cipher, s: Store, t: Store, env: SeederModel.Env)
    requires Grown(s, t) && AddedReserved(s, t)
    ensures SeederAcceptance.AllReadable(cipher, DbOf(s), SeederModel.Systems(env))
      <==> SeederAcceptance.AllReadable(cipher, DbOf(t), SeederModel.Systems(env))
  {
    hide SeederModel.Systems, Grown, AddedReserved, StartsWith;
    SeedNamesUnreserved(env);
    var systems := SeederModel.Systems(env);
    forall k | 0 <= k < |systems|
      ensures SeederAcceptance.Readable(cipher, DbOf(s), systems[k])
        <==> SeederAcceptance.Readable(cipher, DbOf(t), systems[k])
    {
      SameCredentialNamed(s, t, systems[k].credential.name);
    }
  }

  // ----- The defaults the migration adds

  /** Some legacy default takes the scope a wanted row of the seed ends up in. */
  ghost predicate LegacyTakesScope(ctx: Context, rows: seq<LegacyRow>, db: SeederModel.Db, wanted: seq<Provider>) {
    exists j, k :: 0 <= j < |rows| && 0 <= k < |wanted| && IsDefaultRow(rows[j])
                   && WantedScope(ctx, rows[j]) == SeederAcceptance.EndScope(db, wanted[k])
  }

  /** A live default of the migrated table is an older one or the image of a legacy default. */
  lemma {:induction false} DefaultOf(s: Store, t: Store, ctx: Context, rows: seq<LegacyRow>, ids: seq<nat>, i: nat)
    requires Migrated(s, t, Plans(ctx, rows), ids) && i in t.providers && LiveDefault(t.providers[i])
    ensures (i in s.providers && t.providers[i] == s.providers[i])
      || (exists j :: 0 <= j < |rows| && IsDefaultRow(rows[j]) && ScopeOf(t.providers[i]) == WantedScope(ctx, rows[j]))
  {
    hide PlanOf, WantedScope, IsDefaultRow, Fresh;
    if i !in s.providers {
      var j :| 0 <= j < |rows| && Fresh(s, Plans(ctx, rows)[j]) && ids[j] == i;
      assert Carries(t.providers[ids[j]], Plans(ctx, rows)[j]);
      ImageScope(ctx, rows[j]);
      ScopesByLegacyColumns(ctx, rows[j], rows[j]);
    }
  }

  /** The image of a legacy default is a live default of the migrated table, under a reserved name. */
  lemma {:induction false} DefaultImage(s: Store, t: Store, ctx: Context, rows: seq<LegacyRow>, ids: seq<nat>, j: nat)
    requires Migrated(s, t, Plans(ctx, rows), ids) && j < |rows| && IsDefaultRow(rows[j])
    ensures |ids| == |rows| && ids[j] in t.providers && LiveDefault(t.providers[ids[j]])
    ensures ScopeOf(t.providers[ids[j]]) == WantedScope(ctx, rows[j])
    ensures StartsWith(t.providers[ids[j]].name, "legacy-")
  {
    hide PlanOf, WantedScope, IsDefaultRow, StartsWith;
    assert Fresh(s, Plans(ctx, rows)[j]);
    assert Carries(t.providers[ids[j]], Plans(ctx, rows)[j]);
    ImageScope(ctx, rows[j]);
    ScopesByLegacyColumns(ctx, rows[j], rows[j]);
  }

  lemma {:induction false} ScopesAfterMigration(s: Store, t: Store, ctx: Context, rows: seq<LegacyRow>, ids: seq<nat>,
                                                wanted: seq<Provider>)
    requires Migrated(s, t, Plans(ctx, rows), ids)
    requires forall k :: 0 <= k < |wanted| ==> !StartsWith(wanted[k].name, "legacy-")
    ensures SeederAcceptance.ScopesFree(DbOf(t), wanted) <==>
      SeederAcceptance.ScopesFree(DbOf(s), wanted) && !LegacyTakesScope(ctx, rows, DbOf(s), wanted)
  {
    hide SeederAcceptance.EndScope, WantedScope, IsDefaultRow, StartsWith, ScopeOf, Holds, NoneNamed;
    forall k | 0 <= k < |wanted|
      ensures SeederAcceptance.EndScope(DbOf(t), wanted[k]) == SeederAcceptance.EndScope(DbOf(s), wanted[k])
    {
      SameEndScope(s, t, wanted[k]);
    }
    if SeederAcceptance.ScopesFree(DbOf(t), wanted) {
      FreeBefore(s, t, ctx, rows, ids, wanted);
    }
    if SeederAcceptance.ScopesFree(DbOf(s), wanted) && !LegacyTakesScope(ctx, rows, DbOf(s), wanted) {
      forall i, k | i in t.providers && LiveDefault(t.providers[i]) && 0 <= k < |wanted|
        && t.providers[i].name != wanted[k].name
        ensures ScopeOf(t.providers[i]) != SeederAcceptance.EndScope(DbOf(t), wanted[k])
      {
        DefaultOf(s, t, ctx, rows, ids, i);
      }
    }
  }

  lemma {:induction false} FreeBefore(s: Store, t: Store, ctx: Context, rows: seq<LegacyRow>, ids: seq<nat>,
                                      wanted: seq<Provider>)
    requires Migrated(s, t, Plans(ctx, rows), ids) && SeederAcceptance.ScopesFree(DbOf(t), wanted)
    requires forall k :: 0 <= k < |wanted| ==>
      && !StartsWith(wanted[k].name, "legacy-")
      && SeederAcceptance.EndScope(DbOf(t), wanted[k]) == SeederAcceptance.EndScope(DbOf(s), wanted[k])
    ensures SeederAcceptance.ScopesFree(DbOf(s), wanted) && !LegacyTakesScope(ctx, rows, DbOf(s), wanted)
  {
    hide SeederAcceptance.EndScope, WantedScope, IsDefaultRow, StartsWith, ScopeOf, Holds, NoneNamed;
    forall j, k | 0 <= j < |rows| && 0 <= k < |wanted| && IsDefaultRow(rows[j])
      ensures WantedScope(ctx, rows[j]) != SeederAcceptance.EndScope(DbOf(s), wanted[k])
    {
      DefaultImage(s, t, ctx, rows, ids, j);
      assert t.providers[ids[j]].name != wanted[k].name;
    }
  }

  /** After the migration of a clean database the seed succeeds exactly when it would have succeeded
      before it, and no legacy default takes a scope the seed wants. */
  lemma {:induction false} SeedAfterMigration(cipher: Cipher, admin: Option<nat>, l: LegacyTables, s: Store,
                                              c: Consumers, env: SeederModel.Env)
    requires UniqueKeys(l) && IdsBounded(s) && NoReservedNames(s)
    requires ProvidersWellFormed(s.providers) && UniqueCredentialNames(s.credentials)
    requires MigrateData(cipher, admin, l, s, c).Success?
    ensures SeederModel.Seed(cipher, DbOf(MigrateData(cipher, admin, l, s, c).value.0), env, false).Success? <==>
      && SeederModel.Seed(cipher, DbOf(s), env, false).Success?
      && !LegacyTakesScope(Context(admin, TargetUrls(c.images)), AllRows(l), DbOf(s), SeederAcceptance.WantedBy(env))
  {
    hide SeederModel.Seed, SeederAcceptance.AllReadable, SeederAcceptance.ScopesFree, SeederAcceptance.WantedBy;
    hide LegacyTakesScope, ProvidersWellFormed, UniqueCredentialNames, UniqueKeys, NoReservedNames, AllRows;
    var ctx := Context(admin, TargetUrls(c.images));
    var plans := Plans(ctx, AllRows(l));
    var t := MigrateData(cipher, admin, l, s, c).value.0;
    var ids := MigrationLeaves(cipher, admin, l, s, c);
    RunKeepsConstraints(cipher, s, plans);
    RunGrows(cipher, s, plans);
    SeederAcceptance.ApplyAccepted(cipher, DbOf(s), env);
    SeederAcceptance.ApplyAccepted(cipher, DbOf(t), env);
    SameReadable(cipher, s, t, env);
    SeedNamesUnreserved(env);
    ScopesAfterMigration(s, t, ctx, AllRows(l), ids, SeederAcceptance.WantedBy(env));
  }

  // ----- In columns

  /** The default rows that take a scope of the seed, from the columns alone: a GitLab instance or a
      Harbor against the system provider of the environment, and without an administrator a GitHub
      instance or an external Docker Hub registry against the public provider. */
  predicate MeetsSeed(ctx: Context, env: SeederModel.Env, row: LegacyRow) {
    match row
    case Source(_) => false
    case Gitlab(r) => r.isDefault && env.gitlab.Some?
    case Github(r) => r.isDefault && ctx.admin.None?
    case Harbor(r) => r.isDefault && env.harbor.Some?
    case Docker(r) =>
      && r.isDefault
      && (|| (HarborTarget(ctx, row) && env.harbor.Some?)
          || (r.registryProvider == "docker_hub" && r.registryType != "internal" && !IsTarget(ctx.targets, r)
              && ctx.admin.None?))
    case Helm(_) => false
  }

  /** The scopes of the seed, when it finds none of its rows. */
  lemma {:induction false} WantedScopes(env: SeederModel.Env, scope: Scope)
    ensures (exists k :: 0 <= k < |SeederAcceptance.WantedBy(env)|
                         && ScopeOf(SeederAcceptance.WantedBy(env)[k]) == scope) <==>
      || scope == Scope(GitDomain, GithubGit, PublicCategory, External)
      || scope == Scope(GitDomain, GitlabGit, PublicCategory, External)
      || scope == Scope(GitDomain, GenericGit, PublicCategory, External)
      || scope == Scope(DockerDomain, DockerHub, PublicCategory, External)
      || (env.harbor.Some? && scope == Scope(DockerDomain, HarborRegistry, SystemCategory, Internal))
      || (env.gitlab.Some? && scope == Scope(GitDomain, GitlabGit, SystemCategory, Internal))
  {
    var wanted := SeederAcceptance.WantedBy(env);
    var n := |SeederModel.DEFAULT_PROVIDERS|;
    assert n == 4;
    assert ScopeOf(wanted[0]) == Scope(GitDomain, GithubGit, PublicCategory, External);
    assert ScopeOf(wanted[1]) == Scope(GitDomain, GitlabGit, PublicCategory, External);
    assert ScopeOf(wanted[2]) == Scope(GitDomain, GenericGit, PublicCategory, External);
    assert ScopeOf(wanted[3]) == Scope(DockerDomain, DockerHub, PublicCategory, External);
    if env.harbor.Some? {
      assert ScopeOf(wanted[4]) == Scope(DockerDomain, HarborRegistry, SystemCategory, Internal);
    }
    if env.gitlab.Some? {
      assert ScopeOf(wanted[|wanted| - 1]) == Scope(GitDomain, GitlabGit, SystemCategory, Internal);
    }
  }

  /** On a database that has none of the seed's rows yet. */
  ghost predicate Unseeded(s: Store, env: SeederModel.Env) {
    forall k :: 0 <= k < |SeederAcceptance.WantedBy(env)| ==>
      SeederModel.LiveNamed(s.providers, SeederAcceptance.WantedBy(env)[k].name) == {}
  }

  lemma {:induction false} MeetsSeedExactly(ctx: Context, env: SeederModel.Env, row: LegacyRow)
    ensures MeetsSeed(ctx, env, row) <==>
      IsDefaultRow(row)
      && exists k :: 0 <= k < |SeederAcceptance.WantedBy(env)|
                     && ScopeOf(SeederAcceptance.WantedBy(env)[k]) == WantedScope(ctx, row)
  {
    hide SeederAcceptance.WantedBy;
    WantedScopes(env, WantedScope(ctx, row));
  }

  /** The same for a database the seed has not visited: it succeeds after the migration exactly
      when it would have before, and no legacy row meets it. */
  lemma {:induction false} FirstSeedAfterMigration(cipher: Cipher, admin: Option<nat>, l: LegacyTables, s: Store,
                                                   c: Consumers, env: SeederModel.Env)
    requires UniqueKeys(l) && IdsBounded(s) && NoReservedNames(s) && Unseeded(s, env)
    requires ProvidersWellFormed(s.providers) && UniqueCredentialNames(s.credentials)
    requires MigrateData(cipher, admin, l, s, c).Success?
    ensures SeederModel.Seed(cipher, DbOf(MigrateData(cipher, admin, l, s, c).value.0), env, false).Success? <==>
      && SeederModel.Seed(cipher, DbOf(s), env, false).Success?
      && forall j :: 0 <= j < |AllRows(l)| ==> !MeetsSeed(Context(admin, TargetUrls(c.images)), env, AllRows(l)[j])
  {
    hide SeederModel.Seed, MigrateData, SeederAcceptance.WantedBy, MeetsSeed, WantedScope, IsDefaultRow, AllRows,
        TargetUrls;
    var ctx := Context(admin, TargetUrls(c.images));
    var wanted := SeederAcceptance.WantedBy(env);
    SeedAfterMigration(cipher, admin, l, s, c, env);
    forall j | 0 <= j < |AllRows(l)|
      ensures MeetsSeed(ctx, env, AllRows(l)[j]) <==>
        IsDefaultRow(AllRows(l)[j])
        && exists k :: 0 <= k < |wanted|
            && SeederAcceptance.EndScope(DbOf(s), wanted[k]) == WantedScope(ctx, AllRows(l)[j])
    {
      MeetsSeedExactly(ctx, env, AllRows(l)[j]);
      assert forall k :: 0 <= k < |wanted| ==> SeederAcceptance.EndScope(DbOf(s), wanted[k]) == ScopeOf(wanted[k]);
    }
  }

  /** One default GitLab instance and a GitLab environment: from empty tables the migration goes
      through and the seed after it aborts. */
  lemma {:induction false} DefaultGitlabBlocksSeed(cipher: Cipher, admin: Option<nat>, instance: GitlabRow,
                                                   gitlab: SeederModel.GitlabEnv)
    requires Lawful(cipher) && instance.isDefault && !Truthy(instance.token)
    ensures var l := LegacyTables([], [instance], [], [], [], []);
      var migrated := MigrateData(cipher, admin, l, Store(map[], 1, map[], 1, 0), Consumers([], [], [], []));
      && migrated.Success?
      && SeederModel.Seed(cipher, DbOf(migrated.value.0), SeederModel.Env(None, Some(gitlab)), false).Failure?
  {
    hide MigrateData, SeederModel.Seed, SeederAcceptance.WantedBy, TargetUrls;
    var l := LegacyTables([], [instance], [], [], [], []);
    var s, c := Store(map[], 1, map[], 1, 0), Consumers([], [], [], []);
    assert AllRows(l) == [Gitlab(instance)];
    CleanUpgradeAccepted(cipher, admin, l, s, c);
    FirstSeedAfterMigration(cipher, admin, l, s, c, SeederModel.Env(None, Some(gitlab)));
    assert MeetsSeed(Context(admin, TargetUrls(c.images)), SeederModel.Env(None, Some(gitlab)), AllRows(l)[0]);
  }
}
