/** `_migrate_data` and `_revert_data` as functions of the database: the six table scans, the
    cross-reference maps, and the four relink passes. */
module LegacyMigration {
  import opened Wrappers
  import opened Strings
  import opened Secrets
  import opened ProviderSchema
  import opened UrlNormalization
  import opened LegacySchema
  import opened MigrationRun

  /** The six legacy tables in scan order. */
  datatype LegacyTables = LegacyTables(
    sources: seq<SourceRow>, gitlabs: seq<GitlabRow>, githubs: seq<GithubRow>,
    harbors: seq<HarborRow>, dockers: seq<DockerRow>, helms: seq<HelmRow>)

  // ----- Consumers

  datatype SourceRepository = SourceRepository(id: nat, sourceProviderId: Option<nat>, providerId: Option<nat>)

  /** A row of `pipelines`, and later of `pipeline_runs` and `gitlab_components`. */
  datatype GitlabConsumer = GitlabConsumer(id: nat, gitlabInstanceId: Option<nat>, providerId: Option<nat>)

  datatype ImageSource = ImageSource(
    id: nat, registryInstanceId: Option<nat>, targetRegistryUrl: Option<string>,
    providerId: Option<nat>, targetProviderId: Option<nat>)

  datatype ChartSource = ChartSource(id: nat, repoUrl: string, providerId: Option<nat>)

  datatype Consumers = Consumers(
    repositories: seq<SourceRepository>, pipelines: seq<GitlabConsumer>,
    images: seq<ImageSource>, charts: seq<ChartSource>)

  // ----- Table scans

  function SourceRows(rows: seq<SourceRow>): seq<LegacyRow> {
    seq(|rows|, k requires 0 <= k < |rows| => Source(rows[k]))
  }

  function GitlabRows(rows: seq<GitlabRow>): seq<LegacyRow> {
    seq(|rows|, k requires 0 <= k < |rows| => Gitlab(rows[k]))
  }

  function GithubRows(rows: seq<GithubRow>): seq<LegacyRow> {
    seq(|rows|, k requires 0 <= k < |rows| => Github(rows[k]))
  }

  function HarborRows(rows: seq<HarborRow>): seq<LegacyRow> {
    seq(|rows|, k requires 0 <= k < |rows| => Harbor(rows[k]))
  }

  function DockerRows(rows: seq<DockerRow>): seq<LegacyRow> {
    seq(|rows|, k requires 0 <= k < |rows| => Docker(rows[k]))
  }

  function HelmRows(rows: seq<HelmRow>): seq<LegacyRow> { seq(|rows|, k requires 0 <= k < |rows| => Helm(rows[k])) }

  function AllRows(l: LegacyTables): seq<LegacyRow> {
    SourceRows(l.sources) + GitlabRows(l.gitlabs) + GithubRows(l.githubs)
    + HarborRows(l.harbors) + DockerRows(l.dockers) + HelmRows(l.helms)
  }

  function RowCount(l: LegacyTables): (n: nat)
    ensures n == |AllRows(l)|
  {
    |l.sources| + |l.gitlabs| + |l.githubs| + |l.harbors| + |l.dockers| + |l.helms|
  }

  function Plans(ctx: Context, rows: seq<LegacyRow>): (plans: seq<Plan>)
    ensures |plans| == |rows|
    ensures forall k :: 0 <= k < |rows| ==> plans[k] == PlanOf(ctx, rows[k])
  {
    seq(|rows|, k requires 0 <= k < |rows| => PlanOf(ctx, rows[k]))
  }

  /** Normalised addresses of the registries images are copied to. */
  function TargetUrls(images: seq<ImageSource>): set<string> {
    set k | 0 <= k < |images| && Truthy(images[k].targetRegistryUrl) :: NormUrl(images[k].targetRegistryUrl)
  }

  // ----- Cross-reference maps

  /** The dictionary that a loop over `keys` fills: a later equal key overwrites an earlier one. */
  function Assoc<K>(keys: seq<K>, ids: seq<nat>): map<K, nat>
    requires |keys| == |ids|
  {
    if keys == [] then map[]
    else Assoc(keys[..|keys| - 1], ids[..|ids| - 1])[keys[|keys| - 1] := ids[|ids| - 1]]
  }

  /** `k` is the last position of `key`. */
  ghost predicate LastAt<K>(keys: seq<K>, key: K, k: nat) {
    k < |keys| && keys[k] == key && forall j :: k < j < |keys| ==> keys[j] != key
  }

  lemma {:induction false} AssocLast<K>(keys: seq<K>, ids: seq<nat>, key: K)
    requires |keys| == |ids|
    ensures key in Assoc(keys, ids) <==> key in keys
    ensures forall k: nat :: LastAt(keys, key, k) ==> key in Assoc(keys, ids) && Assoc(keys, ids)[key] == ids[k]
    ensures key in keys ==> exists k: nat :: LastAt(keys, key, k)
  {
    if keys != [] {
      var n := |keys| - 1;
      AssocLast(keys[..n], ids[..n], key);
      assert keys == keys[..n] + [keys[n]];
      if keys[n] == key {
        assert LastAt(keys, key, n);
      } else {
        forall k: nat | k < n ensures LastAt(keys, key, k) <==> LastAt(keys[..n], key, k) {
        }
      }
    }
  }

  function SourceIds(rows: seq<SourceRow>): seq<nat> { seq(|rows|, k requires 0 <= k < |rows| => rows[k].id) }

  function GitlabIds(rows: seq<GitlabRow>): seq<nat> { seq(|rows|, k requires 0 <= k < |rows| => rows[k].id) }

  function DockerIds(rows: seq<DockerRow>): seq<nat> { seq(|rows|, k requires 0 <= k < |rows| => rows[k].id) }

  function DockerUrls(rows: seq<DockerRow>): seq<string> {
    seq(|rows|, k requires 0 <= k < |rows| => NormUrl(Some(rows[k].url)))
  }

  function HelmUrls(rows: seq<HelmRow>): seq<string> {
    seq(|rows|, k requires 0 <= k < |rows| => NormHelmUrl(Some(rows[k].url)))
  }

  datatype CrossReferences = CrossReferences(
    source: map<nat, nat>, gitlab: map<nat, nat>, docker: map<nat, nat>,
    dockerByUrl: map<string, nat>, helmByUrl: map<string, nat>)

  /** The five maps, from the ids that migrating `AllRows` resolved. */
  function References(l: LegacyTables, ids: seq<nat>): CrossReferences
    requires |ids| == RowCount(l)
  {
    var g := |l.sources|;
    var h := g + |l.gitlabs|;
    var d := h + |l.githubs| + |l.harbors|;
    var e := d + |l.dockers|;
    ReferencesFrom(l, ids[..g], ids[g..h], ids[d..e], ids[e..])
  }

  function ReferencesFrom(l: LegacyTables, source: seq<nat>, gitlab: seq<nat>, docker: seq<nat>,
                          helm: seq<nat>): CrossReferences
    requires |source| == |l.sources| && |gitlab| == |l.gitlabs| && |docker| == |l.dockers| && |helm| == |l.helms|
  {
    CrossReferences(
      Assoc(SourceIds(l.sources), source), Assoc(GitlabIds(l.gitlabs), gitlab), Assoc(DockerIds(l.dockers), docker),
      Assoc(DockerUrls(l.dockers), docker), Assoc(HelmUrls(l.helms), helm))
  }

  // ----- Relinking

  function RelinkRepository(refs: map<nat, nat>, row: SourceRepository): SourceRepository {
    if row.sourceProviderId.Some? && row.sourceProviderId.value in refs
    then row.(providerId := Some(refs[row.sourceProviderId.value])) else row
  }

  function RelinkPipeline(refs: map<nat, nat>, row: GitlabConsumer): GitlabConsumer {
    if row.gitlabInstanceId.Some? && row.gitlabInstanceId.value in refs
    then row.(providerId := Some(refs[row.gitlabInstanceId.value])) else row
  }

  function RelinkImage(docker: map<nat, nat>, byUrl: map<string, nat>, row: ImageSource): ImageSource {
    var linked :=
      if row.registryInstanceId.Some? && row.registryInstanceId.value in docker
      then row.(providerId := Some(docker[row.registryInstanceId.value])) else row;
    if Truthy(row.targetRegistryUrl) && NormUrl(row.targetRegistryUrl) in byUrl
    then linked.(targetProviderId := Some(byUrl[NormUrl(row.targetRegistryUrl)])) else linked
  }

  function RelinkChart(byUrl: map<string, nat>, row: ChartSource): ChartSource {
    if NormHelmUrl(Some(row.repoUrl)) in byUrl
    then row.(providerId := Some(byUrl[NormHelmUrl(Some(row.repoUrl))])) else row
  }

  function RelinkRepositories(refs: map<nat, nat>, rows: seq<SourceRepository>): seq<SourceRepository> {
    seq(|rows|, k requires 0 <= k < |rows| => RelinkRepository(refs, rows[k]))
  }

  function RelinkPipelines(refs: map<nat, nat>, rows: seq<GitlabConsumer>): seq<GitlabConsumer> {
    seq(|rows|, k requires 0 <= k < |rows| => RelinkPipeline(refs, rows[k]))
  }

  function RelinkImages(docker: map<nat, nat>, byUrl: map<string, nat>, rows: seq<ImageSource>): seq<ImageSource> {
    seq(|rows|, k requires 0 <= k < |rows| => RelinkImage(docker, byUrl, rows[k]))
  }

  function RelinkCharts(byUrl: map<string, nat>, rows: seq<ChartSource>): seq<ChartSource> {
    seq(|rows|, k requires 0 <= k < |rows| => RelinkChart(byUrl, rows[k]))
  }

  function Relink(refs: CrossReferences, c: Consumers): Consumers {
    Consumers(RelinkRepositories(refs.source, c.repositories), RelinkPipelines(refs.gitlab, c.pipelines),
              RelinkImages(refs.docker, refs.dockerByUrl, c.images), RelinkCharts(refs.helmByUrl, c.charts))
  }

  // ----- The revision

  function MigrateData(cipher: Cipher, admin: Option<nat>, l: LegacyTables, s: Store, c: Consumers)
    : Result<(Store, Consumers), MigrationError>
  {
    match Run(cipher, s, Plans(Context(admin, TargetUrls(c.images)), AllRows(l)))
    case Failure(e) => Failure(e)
    case Success((t, ids)) => Success((t, Relink(References(l, ids), c)))
  }

  /** `_revert_data`: two DELETE ... LIKE 'prefix%', the second one SET NULL on what it orphans. */
  function RevertData(s: Store): Store {
    var providers := map i | i in s.providers && !StartsWith(s.providers[i].name, "legacy-") :: s.providers[i];
    var credentials := map i | i in s.credentials && !StartsWith(s.credentials[i].name, "migrated-") ::
        s.credentials[i];
    s.(providers := map i | i in providers :: DetachCredential(providers[i], s.credentials.Keys - credentials.Keys),
       credentials := credentials)
  }

  /** `source_providers.credential_id` is ON DELETE SET NULL as well. */
  function RevertSources(s: Store, sources: seq<SourceRow>): seq<SourceRow> {
    var deleted := s.credentials.Keys - RevertData(s).credentials.Keys;
    seq(|sources|, k requires 0 <= k < |sources| => DetachSource(sources[k], deleted))
  }

  function DetachSource(row: SourceRow, deleted: set<nat>): SourceRow {
    if row.credentialId.Some? && row.credentialId.value in deleted then row.(credentialId := None) else row
  }

  function DetachCredential(p: Provider, deleted: set<nat>): Provider {
    if p.credentialId.Some? && p.credentialId.value in deleted then p.(credentialId := None) else p
  }

  /** `_admin_user_id`: the least id among the users holding the role named `admin`. */
  function AdminUserId(users: set<nat>, userRoles: set<(nat, nat)>, roles: map<nat, string>): Option<nat> {
    var holders := set ur | ur in userRoles && ur.0 in users && ur.1 in roles && roles[ur.1] == "admin" :: ur.0;
    if holders == {} then None else Some(LeastOf(holders))
  }

  /** The admin the migration assigns private rows to holds the role, and no holder precedes it. */
  lemma AdminIsLeastHolder(users: set<nat>, userRoles: set<(nat, nat)>, roles: map<nat, string>)
    ensures var admin := AdminUserId(users, userRoles, roles);
      && (admin.None? <==> forall u, r :: (u, r) in userRoles && u in users && r in roles ==> roles[r] != "admin")
      && (admin.Some? ==>
            && (exists r :: (admin.value, r) in userRoles && admin.value in users && r in roles && roles[r] == "admin")
            && forall u, r :: (u, r) in userRoles && u in users && r in roles && roles[r] == "admin" ==>
                admin.value <= u)
  {
    var holders := set ur | ur in userRoles && ur.0 in users && ur.1 in roles && roles[ur.1] == "admin" :: ur.0;
    forall u, r | (u, r) in userRoles && u in users && r in roles && roles[r] == "admin" ensures u in holders {
      assert (u, r).0 in users;
    }
    if holders != {} {
      assert LeastOf(holders) in holders;
      var ur :| ur in userRoles && ur.0 in users && ur.1 in roles && roles[ur.1] == "admin" && ur.0 == LeastOf(holders);
      assert (LeastOf(holders), ur.1) in userRoles;
    }
  }
}
