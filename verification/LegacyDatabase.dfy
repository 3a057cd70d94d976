/** Revision 00932f2a02d5 as it runs: statements and loops over a database, proved against the
    functions of LegacyMigration. */
module LegacyDatabases {
  import opened Wrappers
  import opened Strings
  import opened Secrets
  import opened ProviderSchema
  import opened UrlNormalization
  import opened LegacySchema
  import opened MigrationRun
  import opened LegacyMigration

  class LegacyDatabase {
    const cipher: Cipher

    var users: set<nat>
    var userRoles: set<(nat, nat)>
    var roles: map<nat, string>

    var sourceProviders: seq<SourceRow>
    var gitlabInstances: seq<GitlabRow>
    var githubInstances: seq<GithubRow>
    var harborInstances: seq<HarborRow>
    var dockerRegistryInstances: seq<DockerRow>
    var helmRepositoryInstances: seq<HelmRow>

    var resourceProviders: map<nat, Provider>
    var nextProvider: nat
    var credentials: map<nat, Credential>
    var nextCredential: nat
    var clock: nat

    var sourceRepositories: seq<SourceRepository>
    var pipelines: seq<GitlabConsumer>
    var dockerImageSources: seq<ImageSource>
    var helmChartSources: seq<ChartSource>

    constructor (cipher: Cipher)
      ensures this.cipher == cipher
    {
      this.cipher := cipher;
    }

    function Target(): Store
      reads this
    {
      Store(resourceProviders, nextProvider, credentials, nextCredential, clock)
    }

    function Tables(): LegacyTables
      reads this
    {
      LegacyTables(sourceProviders, gitlabInstances, githubInstances,
                   harborInstances, dockerRegistryInstances, helmRepositoryInstances)
    }

    function Links(): Consumers
      reads this
    {
      Consumers(sourceRepositories, pipelines, dockerImageSources, helmChartSources)
    }

    function Admin(): Option<nat>
      reads this
    {
      AdminUserId(users, userRoles, roles)
    }

    // ----- Helpers of the revision

    method InsertCredentialRow(row: Credential) returns (id: nat)
      modifies this`credentials, this`nextCredential
      ensures (Target(), id) == InsertCredential(old(Target()), row)
    {
      var existing := CredentialIdsNamed(credentials, row.name);
      if existing != {} {
        return LeastOf(existing);
      }
      id := nextCredential;
      credentials := credentials[id := row];
      nextCredential := nextCredential + 1;
    }

    method InsertProviderRow(row: Provider) returns (r: Result<nat, MigrationError>)
      modifies this`resourceProviders, this`nextProvider
      ensures match InsertProvider(old(Target()), row)
        case Failure(e) => r == Failure(e) && Target() == old(Target())
        case Success((t, id)) => r == Success(id) && Target() == t
    {
      var existing := IdsNamed(resourceProviders, row.name);
      if existing != {} {
        return Success(LeastOf(existing));
      }
      if !Insertable(resourceProviders, row) {
        return Failure(ConstraintViolated);
      }
      r := Success(nextProvider);
      resourceProviders := resourceProviders[nextProvider := row];
      nextProvider := nextProvider + 1;
    }

    /** The secret-handling statements shared by the five instance loops. */
    method MigrateCredential(secret: Option<string>, row: Credential) returns (r: Result<Option<nat>, MigrationError>)
      modifies this`credentials, this`nextCredential, this`clock
      ensures match StoreCredential(cipher, old(Target()), Migrate(secret, row))
        case Failure(e) => r == Failure(e)
        case Success((t, id)) => r == Success(id) && Target() == t
    {
      var ciphertext := MigrateSecret(cipher, secret, clock);
      clock := clock + 1;
      match ciphertext {
        case Failure(_) => r := Failure(SecretRaised);
        case Success(None) => r := Success(None);
        case Success(Some(_)) =>
          var id := InsertCredentialRow(row.(encryptedSecret := ciphertext.value));
          r := Success(Some(id));
      }
    }

    /** One legacy row: its credential, then its provider. */
    method InsertImage(credential: CredentialPlan, row: Provider) returns (r: Result<nat, MigrationError>)
      modifies this`resourceProviders, this`nextProvider, this`credentials, this`nextCredential, this`clock
      ensures match Apply(cipher, old(Target()), Plan(credential, row))
        case Failure(e) => r == Failure(e)
        case Success((t, id)) => r == Success(id) && Target() == t
    {
      var credentialId: Option<nat> := None;
      match credential {
        case Reuse(id) => credentialId := id;
        case Migrate(secret, template) =>
          var stored := MigrateCredential(secret, template);
          if stored.Failure? {
            return Failure(stored.error);
          }
          credentialId := stored.value;
      }
      r := InsertProviderRow(row.(credentialId := credentialId));
    }

    // ----- The six table loops

    method MigrateSourceProviders(admin: Option<nat>, ghost ctx: Context)
      returns (r: Result<map<nat, nat>, MigrationError>, ghost ids: seq<nat>)
      requires ctx.admin == admin
      modifies this`resourceProviders, this`nextProvider, this`credentials, this`nextCredential, this`clock
      ensures match Run(cipher, old(Target()), Plans(ctx, SourceRows(sourceProviders)))
        case Failure(e) => r == Failure(e)
        case Success((t, found)) =>
          Target() == t && ids == found && r == Success(Assoc(SourceIds(sourceProviders), ids))
    {
      hide Apply;
      ghost var start, plans := Target(), Plans(ctx, SourceRows(sourceProviders));
      ghost var keys := SourceIds(sourceProviders);
      var sourceMap: map<nat, nat> := map[];
      ids := [];
      for k := 0 to |sourceProviders|
        invariant Run(cipher, start, plans[..k]) == Success((Target(), ids))
        invariant |ids| == k && sourceMap == Assoc(keys[..k], ids)
      {
        var row := sourceProviders[k];
        var subtype := SourceSubtype(row.providerType);
        var (category, visibility, owner) := PrivateOrPublic(admin, !row.isAnon);
        var inserted := InsertImage(Reuse(row.credentialId),
          Provider("legacy-source-" + Decimal(row.id), GitDomain, subtype, category, visibility, External,
                   row.caption, None, map[], None, owner, None,
                   true, false, row.isBuiltin, true, 0, 0, None, None,
                   row.isDeleted, row.deletedAt, row.createdAt, row.updatedAt));
        RunStep(cipher, start, plans, k);
        match inserted {
          case Failure(e) =>
            RunFails(cipher, start, plans, k + 1);
            return Failure(e), [];
          case Success(id) =>
            AssocStep(keys, ids, k, id);
            sourceMap := sourceMap[row.id := id];
            ids := ids + [id];
        }
      }
      assert plans[..|plans|] == plans && keys[..|keys|] == keys;
      r := Success(sourceMap);
    }

    method MigrateGitlabInstances(admin: Option<nat>, ghost ctx: Context)
      returns (r: Result<map<nat, nat>, MigrationError>, ghost ids: seq<nat>)
      requires ctx.admin == admin
      modifies this`resourceProviders, this`nextProvider, this`credentials, this`nextCredential, this`clock
      ensures match Run(cipher, old(Target()), Plans(ctx, GitlabRows(gitlabInstances)))
        case Failure(e) => r == Failure(e)
        case Success((t, found)) =>
          Target() == t && ids == found && r == Success(Assoc(GitlabIds(gitlabInstances), ids))
    {
      hide Apply;
      ghost var start, plans := Target(), Plans(ctx, GitlabRows(gitlabInstances));
      ghost var keys := GitlabIds(gitlabInstances);
      var gitlabMap: map<nat, nat> := map[];
      ids := [];
      for k := 0 to |gitlabInstances|
        invariant Run(cipher, start, plans[..k]) == Success((Target(), ids))
        invariant |ids| == k && gitlabMap == Assoc(keys[..k], ids)
      {
        var row := gitlabInstances[k];
        var category, direction := PrivateCategory, External;
        if row.isDefault {
          category, direction := SystemCategory, Internal;
        }
        var visibility := OwnerVisible;
        var owner := if category == PrivateCategory then admin else None;
        if category == PrivateCategory && owner == None {
          category, visibility, owner := PublicCategory, PublicVisible, None;
        }
        RunStep(cipher, start, plans, k);
        var credential := Migrate(row.token,
          LegacyCredential("migrated-gitlab-" + row.name, GitlabToken, "gitlab", None, row.createdAt, row.updatedAt));
        var config: map<string, Json> := map[];
        if row.defaultGroupId.Some? {
          config := config["default_group_id" := JsonInt(row.defaultGroupId.value)];
        }
        var inserted := InsertImage(credential,
          Provider("legacy-gitlab-" + row.name, GitDomain, GitlabGit, category, visibility, direction,
                   row.name, Some(row.url), config, None, owner, None,
                   row.isActive, row.isDefault, category == SystemCategory, row.verifySsl, 0,
                   row.statusFlag, row.statusText, row.lastCheckedAt, false, None, row.createdAt, row.updatedAt));
        match inserted {
          case Failure(e) =>
            RunFails(cipher, start, plans, k + 1);
            return Failure(e), [];
          case Success(id) =>
            AssocStep(keys, ids, k, id);
            gitlabMap := gitlabMap[row.id := id];
            ids := ids + [id];
        }
      }
      assert plans[..|plans|] == plans && keys[..|keys|] == keys;
      r := Success(gitlabMap);
    }

    method MigrateGithubInstances(admin: Option<nat>, ghost ctx: Context)
      returns (r: Result<(), MigrationError>, ghost ids: seq<nat>)
      requires ctx.admin == admin
      modifies this`resourceProviders, this`nextProvider, this`credentials, this`nextCredential, this`clock
      ensures match Run(cipher, old(Target()), Plans(ctx, GithubRows(githubInstances)))
        case Failure(e) => r == Failure(e)
        case Success((t, found)) => Target() == t && ids == found && r == Success(())
    {
      hide Apply;
      ghost var start, plans := Target(), Plans(ctx, GithubRows(githubInstances));
      ids := [];
      for k := 0 to |githubInstances|
        invariant Run(cipher, start, plans[..k]) == Success((Target(), ids))
      {
        var row := githubInstances[k];
        var (category, visibility, owner) := PrivateOrPublic(admin, true);
        RunStep(cipher, start, plans, k);
        var credential := Migrate(row.token,
          LegacyCredential("migrated-github-" + row.name, GithubToken, "github", None, row.createdAt, row.updatedAt));
        var inserted := InsertImage(credential,
          Provider("legacy-github-" + row.name, GitDomain, GithubGit, category, visibility, External,
                   row.name, None, map[], None, owner, None,
                   row.isActive, row.isDefault, false, true, 0,
                   row.statusFlag, row.statusText, row.lastCheckedAt, false, None, row.createdAt, row.updatedAt));
        match inserted {
          case Failure(e) =>
            RunFails(cipher, start, plans, k + 1);
            return Failure(e), [];
          case Success(id) => ids := ids + [id];
        }
      }
      assert plans[..|plans|] == plans;
      r := Success(());
    }

    method MigrateHarborInstances(ghost ctx: Context) returns (r: Result<(), MigrationError>, ghost ids: seq<nat>)
      modifies this`resourceProviders, this`nextProvider, this`credentials, this`nextCredential, this`clock
      ensures match Run(cipher, old(Target()), Plans(ctx, HarborRows(harborInstances)))
        case Failure(e) => r == Failure(e)
        case Success((t, found)) => Target() == t && ids == found && r == Success(())
    {
      hide Apply;
      ghost var start, plans := Target(), Plans(ctx, HarborRows(harborInstances));
      ids := [];
      for k := 0 to |harborInstances|
        invariant Run(cipher, start, plans[..k]) == Success((Target(), ids))
      {
        var row := harborInstances[k];
        RunStep(cipher, start, plans, k);
        var credential := Migrate(row.password,
          LegacyCredential("migrated-harbor-" + row.name, HttpsBasic, "harbor", row.username, row.createdAt,
                           row.updatedAt));
        var config: map<string, Json> := map[];
        if row.defaultProject.Some? {
          config := config["default_project" := JsonText(row.defaultProject.value)];
        }
        var inserted := InsertImage(credential,
          Provider("legacy-harbor-" + row.name, DockerDomain, HarborRegistry, SystemCategory, OwnerVisible, Internal,
                   row.name, Some(row.url), config, None, None, None,
                   row.isActive, row.isDefault, true, row.verifySsl, 0,
                   row.statusFlag, row.statusText, row.lastCheckedAt, false, None, row.createdAt, row.updatedAt));
        match inserted {
          case Failure(e) =>
            RunFails(cipher, start, plans, k + 1);
            return Failure(e), [];
          case Success(id) => ids := ids + [id];
        }
      }
      assert plans[..|plans|] == plans;
      r := Success(());
    }

    /** The body of the docker registry loop. */
    method MigrateDockerRegistry(row: DockerRow, admin: Option<nat>, targetUrls: set<string>, ghost plan: Plan,
                                 ghost key: string)
      returns (r: Result<nat, MigrationError>, url: string)
      requires plan == DockerPlan(admin, targetUrls, row) && key == NormUrl(Some(row.url))
      modifies this`resourceProviders, this`nextProvider, this`credentials, this`nextCredential, this`clock
      ensures url == key
      ensures match Apply(cipher, old(Target()), plan)
        case Failure(e) => r == Failure(e)
        case Success((t, id)) => r == Success(id) && Target() == t
    {
      var subtype := RegistrySubtype(row.registryProvider);
      var direction := if row.registryType == "internal" then Internal else External;
      url := NormalizeUrl(Some(row.url));
      var isTarget := url in targetUrls;
      var category := if isTarget then SystemCategory else PrivateCategory;
      var visibility := OwnerVisible;
      var owner := if category == SystemCategory then None else admin;
      if category == PrivateCategory && owner == None {
        category, visibility, owner := PublicCategory, PublicVisible, None;
      }
      var credential := Migrate(row.password,
        LegacyCredential("migrated-docker-" + row.name, HttpsBasic, "docker", row.username, row.createdAt,
                         row.updatedAt));
      var config: map<string, Json> := map[];
      if subtype == GenericRegistry {
        config := config["api_style" := JsonText("registry_v2")];
      }
      r := InsertImage(credential,
        Provider("legacy-docker-" + row.name, DockerDomain, subtype, category, visibility, direction,
                 row.name, Some(row.url), config, None, owner, None,
                 row.isActive, row.isDefault, category == SystemCategory, row.verifySsl, row.priority,
                 row.statusFlag, row.statusText, row.lastCheckedAt, false, None, row.createdAt, row.updatedAt));
    }

    method MigrateDockerRegistries(admin: Option<nat>, targetUrls: set<string>)
      returns (r: Result<(map<nat, nat>, map<string, nat>), MigrationError>, ghost ids: seq<nat>)
      modifies this`resourceProviders, this`nextProvider, this`credentials, this`nextCredential, this`clock
      ensures match Run(cipher, old(Target()), Plans(Context(admin, targetUrls), DockerRows(dockerRegistryInstances)))
        case Failure(e) => r == Failure(e)
        case Success((t, found)) =>
          && Target() == t && ids == found
          && r == Success((Assoc(DockerIds(dockerRegistryInstances), ids),
                           Assoc(DockerUrls(dockerRegistryInstances), ids)))
    {
      hide Apply, NormUrl, DockerPlan;
      ghost var start, plans := Target(), Plans(Context(admin, targetUrls), DockerRows(dockerRegistryInstances));
      ghost var keys, urls := DockerIds(dockerRegistryInstances), DockerUrls(dockerRegistryInstances);
      var dockerMap: map<nat, nat>, dockerByUrl: map<string, nat> := map[], map[];
      ids := [];
      for k := 0 to |dockerRegistryInstances|
        invariant Run(cipher, start, plans[..k]) == Success((Target(), ids))
        invariant |ids| == k && dockerMap == Assoc(keys[..k], ids) && dockerByUrl == Assoc(urls[..k], ids)
      {
        assert plans[k] == DockerPlan(admin, targetUrls, dockerRegistryInstances[k]);
        RunStep(cipher, start, plans, k);
        var inserted, url := MigrateDockerRegistry(dockerRegistryInstances[k], admin, targetUrls, plans[k], urls[k]);
        match inserted {
          case Failure(e) =>
            RunFails(cipher, start, plans, k + 1);
            return Failure(e), [];
          case Success(id) =>
            AssocStep(keys, ids, k, id);
            AssocStep(urls, ids, k, id);
            dockerMap := dockerMap[dockerRegistryInstances[k].id := id];
            dockerByUrl := dockerByUrl[url := id];
            ids := ids + [id];
        }
      }
      assert plans[..|plans|] == plans && keys[..|keys|] == keys && urls[..|urls|] == urls;
      r := Success((dockerMap, dockerByUrl));
    }

    /** The body of the helm repository loop. */
    method MigrateHelmRepository(row: HelmRow, admin: Option<nat>, ghost plan: Plan, ghost key: string)
      returns (r: Result<nat, MigrationError>, url: string)
      requires plan == HelmPlan(admin, row) && key == NormHelmUrl(Some(row.url))
      modifies this`resourceProviders, this`nextProvider, this`credentials, this`nextCredential, this`clock
      ensures url == key
      ensures match Apply(cipher, old(Target()), plan)
        case Failure(e) => r == Failure(e)
        case Success((t, id)) => r == Success(id) && Target() == t
    {
      url := NormalizeHelmUrl(Some(row.url));
      var hasSecret := Truthy(row.password) || Truthy(row.username);
      var (category, visibility, owner) := PrivateOrPublic(admin, hasSecret);
      var credential := Migrate(row.password,
        LegacyCredential("migrated-helm-" + row.name, HttpsBasic, "helm", row.username, row.createdAt, row.updatedAt));
      r := InsertImage(credential,
        Provider("legacy-helm-" + row.name, HelmDomain, HelmRepo, category, visibility, External,
                 row.name, Some(row.url), map[], None, owner, None,
                 row.isActive, row.isDefault, false, row.verifySsl, 0,
                 row.statusFlag, row.statusText, row.lastCheckedAt, false, None, row.createdAt, row.updatedAt));
    }

    method MigrateHelmRepositories(admin: Option<nat>, ghost ctx: Context)
      returns (r: Result<map<string, nat>, MigrationError>, ghost ids: seq<nat>)
      requires ctx.admin == admin
      modifies this`resourceProviders, this`nextProvider, this`credentials, this`nextCredential, this`clock
      ensures match Run(cipher, old(Target()), Plans(ctx, HelmRows(helmRepositoryInstances)))
        case Failure(e) => r == Failure(e)
        case Success((t, found)) =>
          Target() == t && ids == found && r == Success(Assoc(HelmUrls(helmRepositoryInstances), ids))
    {
      hide Apply;
      ghost var start, plans := Target(), Plans(ctx, HelmRows(helmRepositoryInstances));
      ghost var keys := HelmUrls(helmRepositoryInstances);
      var helmByUrl: map<string, nat> := map[];
      ids := [];
      for k := 0 to |helmRepositoryInstances|
        invariant Run(cipher, start, plans[..k]) == Success((Target(), ids))
        invariant |ids| == k && helmByUrl == Assoc(keys[..k], ids)
      {
        assert plans[k] == HelmPlan(admin, helmRepositoryInstances[k]);
        RunStep(cipher, start, plans, k);
        var inserted, url := MigrateHelmRepository(helmRepositoryInstances[k], admin, plans[k], keys[k]);
        match inserted {
          case Failure(e) =>
            RunFails(cipher, start, plans, k + 1);
            return Failure(e), [];
          case Success(id) =>
            AssocStep(keys, ids, k, id);
            helmByUrl := helmByUrl[url := id];
            ids := ids + [id];
        }
      }
      assert plans[..|plans|] == plans && keys[..|keys|] == keys;
      r := Success(helmByUrl);
    }

    // ----- Target addresses and relinking

    method CollectTargetUrls() returns (targetUrls: set<string>)
      ensures targetUrls == TargetUrls(dockerImageSources)
    {
      targetUrls := {};
      for k := 0 to |dockerImageSources|
        invariant targetUrls == TargetUrls(dockerImageSources[..k])
      {
        var row := dockerImageSources[k];
        TargetUrlsStep(dockerImageSources, k);
        if Truthy(row.targetRegistryUrl) {
          var url := NormalizeUrl(row.targetRegistryUrl);
          targetUrls := targetUrls + {url};
        }
      }
      assert dockerImageSources[..|dockerImageSources|] == dockerImageSources;
    }

    method RelinkRepositories(sourceMap: map<nat, nat>)
      modifies this`sourceRepositories
      ensures sourceRepositories == LegacyMigration.RelinkRepositories(sourceMap, old(sourceRepositories))
    {
      for k := 0 to |sourceRepositories|
        invariant |sourceRepositories| == |old(sourceRepositories)|
        invariant forall j ::
          0 <= j < k ==> sourceRepositories[j] == RelinkRepository(sourceMap, old(sourceRepositories)[j])
        invariant forall j :: k <= j < |sourceRepositories| ==> sourceRepositories[j] == old(sourceRepositories)[j]
      {
        var row := sourceRepositories[k];
        if row.sourceProviderId.Some? && row.sourceProviderId.value in sourceMap {
          var linked := row.(providerId := Some(sourceMap[row.sourceProviderId.value]));
          sourceRepositories := sourceRepositories[k := linked];
        }
      }
    }

    method RelinkPipelines(gitlabMap: map<nat, nat>)
      modifies this`pipelines
      ensures pipelines == LegacyMigration.RelinkPipelines(gitlabMap, old(pipelines))
    {
      for k := 0 to |pipelines|
        invariant |pipelines| == |old(pipelines)|
        invariant forall j :: 0 <= j < k ==> pipelines[j] == RelinkPipeline(gitlabMap, old(pipelines)[j])
        invariant forall j :: k <= j < |pipelines| ==> pipelines[j] == old(pipelines)[j]
      {
        var row := pipelines[k];
        if row.gitlabInstanceId.Some? && row.gitlabInstanceId.value in gitlabMap {
          pipelines := pipelines[k := row.(providerId := Some(gitlabMap[row.gitlabInstanceId.value]))];
        }
      }
    }

    method RelinkImages(dockerMap: map<nat, nat>, dockerByUrl: map<string, nat>)
      modifies this`dockerImageSources
      ensures dockerImageSources == LegacyMigration.RelinkImages(dockerMap, dockerByUrl, old(dockerImageSources))
    {
      for k := 0 to |dockerImageSources|
        invariant |dockerImageSources| == |old(dockerImageSources)|
        invariant forall j :: 0 <= j < k ==>
          dockerImageSources[j] == RelinkImage(dockerMap, dockerByUrl, old(dockerImageSources)[j])
        invariant forall j :: k <= j < |dockerImageSources| ==> dockerImageSources[j] == old(dockerImageSources)[j]
      {
        var row := dockerImageSources[k];
        if row.registryInstanceId.Some? && row.registryInstanceId.value in dockerMap {
          row := row.(providerId := Some(dockerMap[row.registryInstanceId.value]));
          dockerImageSources := dockerImageSources[k := row];
        }
        if Truthy(row.targetRegistryUrl) {
          var url := NormalizeUrl(row.targetRegistryUrl);
          if url in dockerByUrl {
            row := row.(targetProviderId := Some(dockerByUrl[url]));
            dockerImageSources := dockerImageSources[k := row];
          }
        }
      }
    }

    method RelinkCharts(helmByUrl: map<string, nat>)
      modifies this`helmChartSources
      ensures helmChartSources == LegacyMigration.RelinkCharts(helmByUrl, old(helmChartSources))
    {
      for k := 0 to |helmChartSources|
        invariant |helmChartSources| == |old(helmChartSources)|
        invariant forall j :: 0 <= j < k ==> helmChartSources[j] == RelinkChart(helmByUrl, old(helmChartSources)[j])
        invariant forall j :: k <= j < |helmChartSources| ==> helmChartSources[j] == old(helmChartSources)[j]
      {
        var row := helmChartSources[k];
        var url := NormalizeHelmUrl(Some(row.repoUrl));
        if url in helmByUrl {
          helmChartSources := helmChartSources[k := row.(providerId := Some(helmByUrl[url]))];
        }
      }
    }

    // ----- The revision

    /** The six loops in order, as one run over all legacy rows. */
    method MigrateTables(admin: Option<nat>, targetUrls: set<string>)
      returns (r: Result<CrossReferences, MigrationError>)
      modifies this`resourceProviders, this`nextProvider, this`credentials, this`nextCredential, this`clock
      ensures match Run(cipher, old(Target()), Plans(Context(admin, targetUrls), AllRows(Tables())))
        case Failure(e) => r == Failure(e)
        case Success((t, ids)) => Target() == t && r == Success(References(Tables(), ids))
    {
      hide Run, Plans, PlanOf, Assoc;
      ghost var ctx, start := Context(admin, targetUrls), Target();
      ghost var rows := SourceRows(sourceProviders);
      Prefixes(Tables());
      var source, ids1 := MigrateSourceProviders(admin, ctx);
      RunTables(cipher, start, ctx, rows, GitlabRows(gitlabInstances), Tables());
      if source.Failure? { return Failure(source.error); }

      rows := rows + GitlabRows(gitlabInstances);
      var gitlab, ids2 := MigrateGitlabInstances(admin, ctx);
      RunTables(cipher, start, ctx, rows, GithubRows(githubInstances), Tables());
      if gitlab.Failure? { return Failure(gitlab.error); }

      rows := rows + GithubRows(githubInstances);
      var github, ids3 := MigrateGithubInstances(admin, ctx);
      RunTables(cipher, start, ctx, rows, HarborRows(harborInstances), Tables());
      if github.Failure? { return Failure(github.error); }

      rows := rows + HarborRows(harborInstances);
      var harbor, ids4 := MigrateHarborInstances(ctx);
      RunTables(cipher, start, ctx, rows, DockerRows(dockerRegistryInstances), Tables());
      if harbor.Failure? { return Failure(harbor.error); }

      rows := rows + DockerRows(dockerRegistryInstances);
      var docker, ids5 := MigrateDockerRegistries(admin, targetUrls);
      RunTables(cipher, start, ctx, rows, HelmRows(helmRepositoryInstances), Tables());
      if docker.Failure? { return Failure(docker.error); }

      rows := rows + HelmRows(helmRepositoryInstances);
      var helm, ids6 := MigrateHelmRepositories(admin, ctx);
      if helm.Failure? { return Failure(helm.error); }

      ReferencesOf(Tables(), ids1, ids2, ids3, ids4, ids5, ids6);
      r := Success(CrossReferences(source.value, gitlab.value, docker.value.0, docker.value.1, helm.value));
    }

    method RelinkConsumers(maps: CrossReferences)
      modifies this`sourceRepositories, this`pipelines, this`dockerImageSources, this`helmChartSources
      ensures Links() == Relink(maps, old(Links()))
    {
      RelinkRepositories(maps.source);
      RelinkPipelines(maps.gitlab);
      RelinkImages(maps.docker, maps.dockerByUrl);
      RelinkCharts(maps.helmByUrl);
    }

    method MigrateAllData() returns (r: Result<(), MigrationError>)
      modifies this
      ensures Tables() == old(Tables()) && Admin() == old(Admin())
      ensures match MigrateData(cipher, Admin(), Tables(), old(Target()), old(Links()))
        case Failure(e) => r == Failure(e) && Links() == old(Links())
        case Success((t, c)) => r == Success(()) && Target() == t && Links() == c
    {
      hide Run, Plans, AllRows, References, Relink, TargetUrls, AdminUserId;
      var admin := AdminUserId(users, userRoles, roles);
      var targetUrls := CollectTargetUrls();
      var refs := MigrateTables(admin, targetUrls);
      match refs {
        case Failure(e) => r := Failure(e);
        case Success(maps) =>
          RelinkConsumers(maps);
          r := Success(());
      }
    }

    /** The upgrade inside the transaction Alembic opens: a failure rolls every row back, while
        the id sequences and the clock stay advanced. */
    method Upgrade() returns (r: Result<(), MigrationError>)
      modifies this
      ensures Tables() == old(Tables()) && Admin() == old(Admin())
      ensures match MigrateData(cipher, Admin(), Tables(), old(Target()), old(Links()))
        case Failure(e) =>
          && r == Failure(e) && Links() == old(Links())
          && resourceProviders == old(resourceProviders) && credentials == old(credentials)
        case Success((t, c)) => r == Success(()) && Target() == t && Links() == c
    {
      var providers, stored := resourceProviders, credentials;
      r := MigrateAllData();
      if r.Failure? {
        resourceProviders, credentials := providers, stored;
      }
    }

    method RevertAllData()
      modifies this`resourceProviders, this`credentials, this`sourceProviders
      ensures Target() == RevertData(old(Target()))
      ensures sourceProviders == RevertSources(old(Target()), old(sourceProviders))
    {
      resourceProviders := map i | i in resourceProviders && !StartsWith(resourceProviders[i].name, "legacy-") ::
          resourceProviders[i];
      var kept := map i | i in credentials && !StartsWith(credentials[i].name, "migrated-") :: credentials[i];
      var deleted := credentials.Keys - kept.Keys;
      credentials := kept;
      resourceProviders := map i | i in resourceProviders :: DetachCredential(resourceProviders[i], deleted);
      var rows := sourceProviders;
      sourceProviders := seq(|rows|, k requires 0 <= k < |rows| => DetachSource(rows[k], deleted));
    }
  }

  // ----- Proof steps of the loops

  lemma Prefixes(l: LegacyTables)
    ensures var a := SourceRows(l.sources);
      var b := a + GitlabRows(l.gitlabs);
      var c := b + GithubRows(l.githubs);
      var d := c + HarborRows(l.harbors);
      var e := d + DockerRows(l.dockers);
      a <= b <= c <= d <= e <= AllRows(l) && a <= AllRows(l) && b <= AllRows(l) && c <= AllRows(l) && d <= AllRows(l)
  {
  }

  lemma ReferencesOf(l: LegacyTables, a: seq<nat>, b: seq<nat>, c: seq<nat>, d: seq<nat>, e: seq<nat>, f: seq<nat>)
    requires |a| == |l.sources| && |b| == |l.gitlabs| && |c| == |l.githubs|
    requires |d| == |l.harbors| && |e| == |l.dockers| && |f| == |l.helms|
    ensures References(l, a + b + c + d + e + f) == ReferencesFrom(l, a, b, e, f)
  {
    hide Assoc, ReferencesFrom;
    Slices(a, b, c + d, e, f);
    assert a + b + c + d + e + f == a + b + (c + d) + e + f;
    assert |AllRows(l)| == |a| + |b| + |c| + |d| + |e| + |f|;
  }

  lemma {:induction false} Slices(a: seq<nat>, b: seq<nat>, c: seq<nat>, e: seq<nat>, f: seq<nat>)
    ensures var ids := a + b + c + e + f;
      var n := |a| + |b| + |c|;
      && ids[..|a|] == a && ids[|a|..|a| + |b|] == b
      && ids[n..n + |e|] == e && ids[n + |e|..] == f
  {
  }

  lemma {:induction false} AssocStep<K>(keys: seq<K>, ids: seq<nat>, k: nat, id: nat)
    requires k < |keys| && |ids| == k
    ensures Assoc(keys[..k + 1], ids + [id]) == Assoc(keys[..k], ids)[keys[k] := id]
  {
    assert keys[..k + 1][..k] == keys[..k];
    assert (ids + [id])[..k] == ids;
  }

  lemma TargetUrlsStep(images: seq<ImageSource>, k: nat)
    requires k < |images|
    ensures TargetUrls(images[..k + 1]) == TargetUrls(images[..k])
      + (if Truthy(images[k].targetRegistryUrl) then {NormUrl(images[k].targetRegistryUrl)} else {})
  {
    var a, b := images[..k], images[..k + 1];
    assert forall j :: 0 <= j < k ==> a[j] == b[j];
    forall u | u in TargetUrls(b)
      ensures u in TargetUrls(a) || (Truthy(images[k].targetRegistryUrl) && u == NormUrl(images[k].targetRegistryUrl))
    {
      var j :| 0 <= j < |b| && Truthy(b[j].targetRegistryUrl) && NormUrl(b[j].targetRegistryUrl) == u;
      if j < k { assert Truthy(a[j].targetRegistryUrl) && NormUrl(a[j].targetRegistryUrl) == u; }
    }
    forall u | u in TargetUrls(a) ensures u in TargetUrls(b) {
      var j :| 0 <= j < |a| && Truthy(a[j].targetRegistryUrl) && NormUrl(a[j].targetRegistryUrl) == u;
      assert Truthy(b[j].targetRegistryUrl) && NormUrl(b[j].targetRegistryUrl) == u;
    }
    if Truthy(images[k].targetRegistryUrl) { assert b[k] == images[k]; }
  }

  /** One more table: its run continues the run over the tables before it, and a failure so far
      is the failure of the whole. */
  lemma {:induction false} RunTables(cipher: Cipher, s: Store, ctx: Context, done: seq<LegacyRow>,
                                     next: seq<LegacyRow>, l: LegacyTables)
    requires done <= AllRows(l)
    ensures Run(cipher, s, Plans(ctx, done + next)) ==
      match Run(cipher, s, Plans(ctx, done))
      case Failure(e) => Failure(e)
      case Success((t, ids)) =>
        match Run(cipher, t, Plans(ctx, next))
        case Failure(e) => Failure(e)
        case Success((u, more)) => Success((u, ids + more))
    ensures Run(cipher, s, Plans(ctx, done)).Failure? ==>
      Run(cipher, s, Plans(ctx, AllRows(l))) == Failure(Run(cipher, s, Plans(ctx, done)).error)
  {
    assert Plans(ctx, done + next) == Plans(ctx, done) + Plans(ctx, next);
    RunAppend(cipher, s, Plans(ctx, done), Plans(ctx, next));
    assert Plans(ctx, AllRows(l))[..|done|] == Plans(ctx, done);
    if Run(cipher, s, Plans(ctx, done)).Failure? {
      RunFails(cipher, s, Plans(ctx, AllRows(l)), |done|);
    }
  }
}
