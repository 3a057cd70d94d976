/** Rows of the six legacy tables, and the provider and credential each of them stands for. */
module LegacySchema {
  import opened Wrappers
  import opened Strings
  import opened ProviderSchema
  import opened UrlNormalization

  datatype SourceRow = SourceRow(
    id: nat, providerType: string, caption: string, isAnon: bool, isBuiltin: bool, credentialId: Option<nat>,
    isDeleted: bool, deletedAt: Option<Timestamp>, createdAt: Option<Timestamp>, updatedAt: Option<Timestamp>)

  datatype GitlabRow = GitlabRow(
    id: nat, name: string, url: string, token: Option<string>, isActive: bool, verifySsl: bool, isDefault: bool,
    defaultGroupId: Option<int>, lastCheckedAt: Option<Timestamp>, statusFlag: int, statusText: Option<string>,
    createdAt: Option<Timestamp>, updatedAt: Option<Timestamp>)

  datatype GithubRow = GithubRow(
    id: nat, name: string, token: Option<string>, isActive: bool, isDefault: bool,
    lastCheckedAt: Option<Timestamp>, statusFlag: int, statusText: Option<string>,
    createdAt: Option<Timestamp>, updatedAt: Option<Timestamp>)

  datatype HarborRow = HarborRow(
    id: nat, name: string, url: string, username: Option<string>, password: Option<string>,
    isActive: bool, verifySsl: bool, isDefault: bool, defaultProject: Option<string>,
    lastCheckedAt: Option<Timestamp>, statusFlag: int, statusText: Option<string>,
    createdAt: Option<Timestamp>, updatedAt: Option<Timestamp>)

  datatype DockerRow = DockerRow(
    id: nat, name: string, url: string, username: Option<string>, password: Option<string>,
    registryProvider: string, registryType: string, isActive: bool, isDefault: bool, verifySsl: bool, priority: int,
    lastCheckedAt: Option<Timestamp>, statusFlag: int, statusText: Option<string>,
    createdAt: Option<Timestamp>, updatedAt: Option<Timestamp>)

  datatype HelmRow = HelmRow(
    id: nat, name: string, url: string, username: Option<string>, password: Option<string>,
    isActive: bool, isDefault: bool, verifySsl: bool,
    lastCheckedAt: Option<Timestamp>, statusFlag: int, statusText: Option<string>,
    createdAt: Option<Timestamp>, updatedAt: Option<Timestamp>)

  /** A row of any legacy table. */
  datatype LegacyRow =
    | Source(source: SourceRow)
    | Gitlab(gitlab: GitlabRow)
    | Github(github: GithubRow)
    | Harbor(harbor: HarborRow)
    | Docker(docker: DockerRow)
    | Helm(helm: HelmRow)

  /** Where a migrated provider's credential comes from: the one its legacy row already points
      to, or a new `credentials` row holding the row's own secret. */
  datatype CredentialPlan =
    | Reuse(id: Option<nat>)
    | Migrate(secret: Option<string>, row: Credential)

  /** The provider row to insert, without its credential id, and the credential to give it. */
  datatype Plan = Plan(credential: CredentialPlan, provider: Provider)

  // ----- Vocabulary

  function SourceSubtype(providerType: string): Subtype {
    if providerType == "github" then GithubGit
    else if providerType == "gitlab" then GitlabGit
    else GenericGit
  }

  function RegistrySubtype(registryProvider: string): Subtype {
    match registryProvider
    case "docker_hub" => DockerHub
    case "quay_io" => Quay
    case "gcr" => Gcr
    case "ecr" => Ecr
    case "acr" => Acr
    case "ghcr" => Ghcr
    case "harbor" => HarborRegistry
    case _ => GenericRegistry
  }

  function PrivateOrPublic(admin: Option<nat>, wantPrivate: bool): (Category, Visibility, Option<nat>) {
    if wantPrivate && admin.Some? then (PrivateCategory, OwnerVisible, admin)
    else (PublicCategory, PublicVisible, None)
  }

  /** Python truth of an optional text. */
  predicate Truthy(s: Option<string>) {
    s.Some? && s.value != ""
  }

  function LegacyCredential(name: string, kind: CredentialType, provider: string, username: Option<string>,
                            createdAt: Option<Timestamp>, updatedAt: Option<Timestamp>): Credential
  {
    Credential(name, kind, provider, username, None, None, 0, Some("OK"), createdAt, updatedAt)
  }

  // ----- Slugs

  function GitlabSlug(name: string): string {
    "legacy-gitlab-" + name
  }

  function Slug(row: LegacyRow): string {
    match row
    case Source(r) => "legacy-source-" + Decimal(r.id)
    case Gitlab(r) => GitlabSlug(r.name)
    case Github(r) => "legacy-github-" + r.name
    case Harbor(r) => "legacy-harbor-" + r.name
    case Docker(r) => "legacy-docker-" + r.name
    case Helm(r) => "legacy-helm-" + r.name
  }

  // ----- Images

  function SourcePlan(admin: Option<nat>, r: SourceRow): Plan {
    var (category, visibility, owner) := PrivateOrPublic(admin, !r.isAnon);
    Plan(Reuse(r.credentialId),
         Provider(Slug(Source(r)), GitDomain, SourceSubtype(r.providerType), category, visibility, External,
                  r.caption, None, map[], None, owner, None,
                  true, false, r.isBuiltin, true, 0, 0, None, None,
                  r.isDeleted, r.deletedAt, r.createdAt, r.updatedAt))
  }

  function GitlabPlan(admin: Option<nat>, r: GitlabRow): Plan {
    var (category, visibility, owner) :=
      if r.isDefault then (SystemCategory, OwnerVisible, None) else PrivateOrPublic(admin, true);
    Plan(Migrate(r.token, LegacyCredential("migrated-gitlab-" + r.name, GitlabToken, "gitlab", None,
                                           r.createdAt, r.updatedAt)),
         Provider(Slug(Gitlab(r)), GitDomain, GitlabGit, category, visibility,
                  if r.isDefault then Internal else External,
                  r.name, Some(r.url),
                  if r.defaultGroupId.Some? then map["default_group_id" := JsonInt(r.defaultGroupId.value)] else map[],
                  None, owner, None,
                  r.isActive, r.isDefault, category == SystemCategory, r.verifySsl, 0,
                  r.statusFlag, r.statusText, r.lastCheckedAt, false, None, r.createdAt, r.updatedAt))
  }

  function GithubPlan(admin: Option<nat>, r: GithubRow): Plan {
    var (category, visibility, owner) := PrivateOrPublic(admin, true);
    Plan(Migrate(r.token, LegacyCredential("migrated-github-" + r.name, GithubToken, "github", None,
                                           r.createdAt, r.updatedAt)),
         Provider(Slug(Github(r)), GitDomain, GithubGit, category, visibility, External,
                  r.name, None, map[], None, owner, None,
                  r.isActive, r.isDefault, false, true, 0,
                  r.statusFlag, r.statusText, r.lastCheckedAt, false, None, r.createdAt, r.updatedAt))
  }

  function HarborPlan(r: HarborRow): Plan {
    Plan(Migrate(r.password, LegacyCredential("migrated-harbor-" + r.name, HttpsBasic, "harbor", r.username,
                                              r.createdAt, r.updatedAt)),
         Provider(Slug(Harbor(r)), DockerDomain, HarborRegistry, SystemCategory, OwnerVisible, Internal,
                  r.name, Some(r.url),
                  if r.defaultProject.Some? then map["default_project" := JsonText(r.defaultProject.value)] else map[],
                  None, None, None,
                  r.isActive, r.isDefault, true, r.verifySsl, 0,
                  r.statusFlag, r.statusText, r.lastCheckedAt, false, None, r.createdAt, r.updatedAt))
  }

  predicate IsTarget(targets: set<string>, r: DockerRow) {
    NormUrl(Some(r.url)) in targets
  }

  function DockerPlan(admin: Option<nat>, targets: set<string>, r: DockerRow): Plan {
    var subtype := RegistrySubtype(r.registryProvider);
    var (category, visibility, owner) :=
      if IsTarget(targets, r) then (SystemCategory, OwnerVisible, None) else PrivateOrPublic(admin, true);
    Plan(Migrate(r.password, LegacyCredential("migrated-docker-" + r.name, HttpsBasic, "docker", r.username,
                                              r.createdAt, r.updatedAt)),
         Provider(Slug(Docker(r)), DockerDomain, subtype, category, visibility,
                  if r.registryType == "internal" then Internal else External,
                  r.name, Some(r.url),
                  if subtype == GenericRegistry then map["api_style" := JsonText("registry_v2")] else map[],
                  None, owner, None,
                  r.isActive, r.isDefault, category == SystemCategory, r.verifySsl, r.priority,
                  r.statusFlag, r.statusText, r.lastCheckedAt, false, None, r.createdAt, r.updatedAt))
  }

  function HelmPlan(admin: Option<nat>, r: HelmRow): Plan {
    var (category, visibility, owner) := PrivateOrPublic(admin, Truthy(r.password) || Truthy(r.username));
    Plan(Migrate(r.password, LegacyCredential("migrated-helm-" + r.name, HttpsBasic, "helm", r.username,
                                              r.createdAt, r.updatedAt)),
         Provider(Slug(Helm(r)), HelmDomain, HelmRepo, category, visibility, External,
                  r.name, Some(r.url), map[], None, owner, None,
                  r.isActive, r.isDefault, false, r.verifySsl, 0,
                  r.statusFlag, r.statusText, r.lastCheckedAt, false, None, r.createdAt, r.updatedAt))
  }

  /** The facts besides the row that decide its image. */
  datatype Context = Context(admin: Option<nat>, targets: set<string>)

  function PlanOf(ctx: Context, row: LegacyRow): Plan {
    match row
    case Source(r) => SourcePlan(ctx.admin, r)
    case Gitlab(r) => GitlabPlan(ctx.admin, r)
    case Github(r) => GithubPlan(ctx.admin, r)
    case Harbor(r) => HarborPlan(r)
    case Docker(r) => DockerPlan(ctx.admin, ctx.targets, r)
    case Helm(r) => HelmPlan(ctx.admin, r)
  }

  function CredentialName(row: LegacyRow): Option<string> {
    match row
    case Source(_) => None
    case Gitlab(r) => Some("migrated-gitlab-" + r.name)
    case Github(r) => Some("migrated-github-" + r.name)
    case Harbor(r) => Some("migrated-harbor-" + r.name)
    case Docker(r) => Some("migrated-docker-" + r.name)
    case Helm(r) => Some("migrated-helm-" + r.name)
  }

  // ----- Injective naming

  /** Two rows are the same legacy entity: same table, same unique key. */
  predicate SameEntity(a: LegacyRow, b: LegacyRow) {
    match (a, b)
    case (Source(x), Source(y)) => x.id == y.id
    case (Gitlab(x), Gitlab(y)) => x.name == y.name
    case (Github(x), Github(y)) => x.name == y.name
    case (Harbor(x), Harbor(y)) => x.name == y.name
    case (Docker(x), Docker(y)) => x.name == y.name
    case (Helm(x), Helm(y)) => x.name == y.name
    case _ => false
  }

  function Table(row: LegacyRow): nat {
    match row
    case Source(_) => 0
    case Gitlab(_) => 1
    case Github(_) => 2
    case Harbor(_) => 3
    case Docker(_) => 4
    case Helm(_) => 5
  }

  function Family(table: nat): string
    requires table < 6
  {
    ["source-", "gitlab-", "github-", "harbor-", "docker-", "helm-"][table]
  }

  function Key(row: LegacyRow): string {
    match row
    case Source(r) => Decimal(r.id)
    case Gitlab(r) => r.name
    case Github(r) => r.name
    case Harbor(r) => r.name
    case Docker(r) => r.name
    case Helm(r) => r.name
  }

  /** No family text is a prefix of another one. */
  lemma FamiliesPrefixFree(s: nat, t: nat, x: string, y: string)
    requires s < 6 && t < 6 && Family(s) + x == Family(t) + y
    ensures s == t && x == y
  {
    var f, g := Family(s), Family(t);
    assert |f| >= 5 && |g| >= 5;
    assert f[0] == (f + x)[0] == (g + y)[0] == g[0];
    assert f[1] == (f + x)[1] == (g + y)[1] == g[1];
    assert f[3] == (f + x)[3] == (g + y)[3] == g[3];
    assert f[0] == ['s', 'g', 'g', 'h', 'd', 'h'][s] && g[0] == ['s', 'g', 'g', 'h', 'd', 'h'][t];
    assert f[1] == ['o', 'i', 'i', 'a', 'o', 'e'][s] && g[1] == ['o', 'i', 'i', 'a', 'o', 'e'][t];
    assert f[3] == ['r', 'l', 'h', 'b', 'k', 'm'][s] && g[3] == ['r', 'l', 'h', 'b', 'k', 'm'][t];
    CancelLeft(f, x, y);
  }

  lemma SlugShape(row: LegacyRow)
    ensures Slug(row) == "legacy-" + (Family(Table(row)) + Key(row))
    ensures row.Source? || CredentialName(row) == Some("migrated-" + (Family(Table(row)) + Key(row)))
  {
    ConcatAssociative("legacy-", Family(Table(row)), Key(row));
    ConcatAssociative("migrated-", Family(Table(row)), Key(row));
    match row
    case Source(r) => assert "legacy-source-" == "legacy-" + "source-";
    case Gitlab(r) =>
      assert "legacy-gitlab-" == "legacy-" + "gitlab-";
      assert "migrated-gitlab-" == "migrated-" + "gitlab-";
    case Github(r) =>
      assert "legacy-github-" == "legacy-" + "github-";
      assert "migrated-github-" == "migrated-" + "github-";
    case Harbor(r) =>
      assert "legacy-harbor-" == "legacy-" + "harbor-";
      assert "migrated-harbor-" == "migrated-" + "harbor-";
    case Docker(r) =>
      assert "legacy-docker-" == "legacy-" + "docker-";
      assert "migrated-docker-" == "migrated-" + "docker-";
    case Helm(r) =>
      assert "legacy-helm-" == "legacy-" + "helm-";
      assert "migrated-helm-" == "migrated-" + "helm-";
  }

  /** The six slug families, and the five credential-name families, are jointly injective. */
  lemma SlugInjective(a: LegacyRow, b: LegacyRow)
    ensures Slug(a) == Slug(b) <==> SameEntity(a, b)
    ensures CredentialName(a).Some? ==> (CredentialName(a) == CredentialName(b) <==> SameEntity(a, b))
  {
    SlugShape(a);
    SlugShape(b);
    if Slug(a) == Slug(b) {
      CancelLeft("legacy-", Family(Table(a)) + Key(a), Family(Table(b)) + Key(b));
      FamiliesPrefixFree(Table(a), Table(b), Key(a), Key(b));
      if a.Source? { DecimalInjective(a.source.id, b.source.id); }
    }
    if CredentialName(a).Some? && CredentialName(a) == CredentialName(b) {
      CancelLeft("migrated-", Family(Table(a)) + Key(a), Family(Table(b)) + Key(b));
      FamiliesPrefixFree(Table(a), Table(b), Key(a), Key(b));
    }
  }

  // ----- Constraints met by every image

  /** Whatever the row and the admin lookup, the image satisfies the three CHECKs. */
  lemma ImageMeetsChecks(ctx: Context, row: LegacyRow)
    ensures MeetsChecks(PlanOf(ctx, row).provider)
    ensures PlanOf(ctx, row).provider.name == Slug(row)
  {
  }

  /** The row's image is inserted as a live default. */
  predicate IsDefaultRow(row: LegacyRow) {
    match row
    case Source(_) => false
    case Gitlab(r) => r.isDefault
    case Github(r) => r.isDefault
    case Harbor(r) => r.isDefault
    case Docker(r) => r.isDefault
    case Helm(r) => r.isDefault
  }

  predicate HarborTarget(ctx: Context, row: LegacyRow) {
    row.Docker? && row.docker.registryProvider == "harbor" && row.docker.registryType == "internal"
        && IsTarget(ctx.targets, row.docker)
  }

  predicate HasHelmSecret(row: LegacyRow)
    requires row.Helm?
  {
    Truthy(row.helm.password) || Truthy(row.helm.username)
  }

  /** Two default rows want the same scope, in terms of the legacy columns alone. */
  predicate DefaultsCollide(ctx: Context, a: LegacyRow, b: LegacyRow) {
    if Table(a) != Table(b) then (a.Harbor? && HarborTarget(ctx, b)) || (b.Harbor? && HarborTarget(ctx, a))
    else
      match a
      case Docker(x) =>
        && RegistrySubtype(x.registryProvider) == RegistrySubtype(b.docker.registryProvider)
        && (x.registryType == "internal" <==> b.docker.registryType == "internal")
        && (IsTarget(ctx.targets, x) <==> IsTarget(ctx.targets, b.docker))
      case Helm(_) => ctx.admin.None? || (HasHelmSecret(a) <==> HasHelmSecret(b))
      case _ => true
  }

  /** The scope a row's image takes, written from the legacy columns and the admin lookup. */
  function WantedScope(ctx: Context, row: LegacyRow): Scope {
    match row
    case Source(r) => Scope(GitDomain, SourceSubtype(r.providerType), OwnedCategory(ctx, !r.isAnon), External)
    case Gitlab(r) =>
      Scope(GitDomain, GitlabGit, if r.isDefault then SystemCategory else OwnedCategory(ctx, true),
            if r.isDefault then Internal else External)
    case Github(_) => Scope(GitDomain, GithubGit, OwnedCategory(ctx, true), External)
    case Harbor(_) => Scope(DockerDomain, HarborRegistry, SystemCategory, Internal)
    case Docker(r) =>
      Scope(DockerDomain, RegistrySubtype(r.registryProvider),
            if IsTarget(ctx.targets, r) then SystemCategory else OwnedCategory(ctx, true),
            if r.registryType == "internal" then Internal else External)
    case Helm(_) => Scope(HelmDomain, HelmRepo, OwnedCategory(ctx, HasHelmSecret(row)), External)
  }

  function OwnedCategory(ctx: Context, wantPrivate: bool): Category {
    if wantPrivate && ctx.admin.Some? then PrivateCategory else PublicCategory
  }

  lemma ImageScope(ctx: Context, row: LegacyRow)
    ensures ScopeOf(PlanOf(ctx, row).provider) == WantedScope(ctx, row)
  {
  }

  /** Default images of two different tables meet in one scope in a single case: a Harbor
      instance and an internal docker registry of type harbor that is some image's target. */
  lemma DefaultScopesAcrossTables(ctx: Context, a: LegacyRow, b: LegacyRow)
    requires Table(a) != Table(b) && IsDefaultRow(a) && IsDefaultRow(b)
    ensures WantedScope(ctx, a) == WantedScope(ctx, b) <==> DefaultsCollide(ctx, a, b)
  {
  }

  /** Default images of one table: when two of them share a scope. */
  lemma DefaultScopesWithinTable(ctx: Context, a: LegacyRow, b: LegacyRow)
    requires Table(a) == Table(b) && IsDefaultRow(a) && IsDefaultRow(b)
    ensures WantedScope(ctx, a) == WantedScope(ctx, b) <==> DefaultsCollide(ctx, a, b)
  {
  }

  /** The legacy columns decide which default images meet in one scope: at most one default
      each for GitLab, GitHub and Harbor instances, registries apart by kind, direction and
      being a target, helm repositories apart by having a secret, and a Harbor instance against
      an internal targeted registry of type harbor. */
  lemma ScopesByLegacyColumns(ctx: Context, a: LegacyRow, b: LegacyRow)
    ensures LiveDefault(PlanOf(ctx, a).provider) <==> IsDefaultRow(a)
    ensures IsDefaultRow(a) && IsDefaultRow(b) ==>
      (ScopeOf(PlanOf(ctx, a).provider) == ScopeOf(PlanOf(ctx, b).provider) <==> DefaultsCollide(ctx, a, b))
  {
    hide WantedScope, DefaultsCollide;
    ImageScope(ctx, a);
    ImageScope(ctx, b);
    if IsDefaultRow(a) && IsDefaultRow(b) {
      if Table(a) == Table(b) {
        DefaultScopesWithinTable(ctx, a, b);
      } else {
        DefaultScopesAcrossTables(ctx, a, b);
      }
    }
  }

  /** The secret column of the row; source providers have none of their own. */
  function SecretOf(row: LegacyRow): Option<string> {
    match row
    case Source(_) => None
    case Gitlab(r) => r.token
    case Github(r) => r.token
    case Harbor(r) => r.password
    case Docker(r) => r.password
    case Helm(r) => r.password
  }

  lemma SecretPlanned(ctx: Context, row: LegacyRow)
    ensures PlanOf(ctx, row).credential.Migrate? <==> !row.Source?
    ensures !row.Source? ==> PlanOf(ctx, row).credential.secret == SecretOf(row)
    ensures row.Source? ==> PlanOf(ctx, row).credential.id == row.source.credentialId
  {
  }
}
