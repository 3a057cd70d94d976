/** No column is lost: every legacy row is read back from the provider and the credential it was
    migrated to. The readers and the columns below are written on their own, from what a migrated
    row is for, and name none of the functions that build it. */
module MigratedColumns {
  import opened Wrappers
  import opened Strings
  import opened Secrets
  import opened ProviderSchema
  import opened UrlNormalization
  import opened LegacySchema
  import opened MigrationRun
  import opened MigrationImages
  import opened LegacyMigration
  import opened LegacyTheorems

  // ----- Reading a migrated row back

  /** The row's credential, if it has one. */
  ghost function CredentialRow(t: Store, p: Provider): Option<Credential> {
    if p.credentialId.Some? && p.credentialId.value in t.credentials then Some(t.credentials[p.credentialId.value])
    else None
  }

  ghost function SecretHeld(cipher: Cipher, t: Store, p: Provider): Option<string> {
    match CredentialRow(t, p)
    case Some(c) =>
      if c.encryptedSecret.Some? && cipher.decrypt(c.encryptedSecret.value).Plaintext?
      then Some(cipher.decrypt(c.encryptedSecret.value).text) else None
    case None => None
  }

  ghost function UsernameHeld(t: Store, p: Provider): Option<string> {
    match CredentialRow(t, p)
    case Some(c) => c.username
    case None => None
  }

  function After(text: string, prefix: string): string {
    if prefix <= text then text[|prefix|..] else text
  }

  ghost function ReadSource(id: nat, p: Provider): SourceRow {
    SourceRow(id,
              match p.subtype case GithubGit => "github" case GitlabGit => "gitlab" case _ => "generic",
              p.caption, p.category == PublicCategory, p.isProtected, p.credentialId,
              p.isDeleted, p.deletedAt, p.createdAt, p.updatedAt)
  }

  ghost function ReadGitlab(cipher: Cipher, t: Store, id: nat, p: Provider): GitlabRow {
    GitlabRow(id, After(p.name, "legacy-gitlab-"), p.baseUrl.GetOr(""), SecretHeld(cipher, t, p),
              p.isActive, p.verifySsl, p.isDefault,
              if "default_group_id" in p.config && p.config["default_group_id"].JsonInt?
              then Some(p.config["default_group_id"].number) else None,
              p.lastCheckedAt, p.statusFlag, p.statusText, p.createdAt, p.updatedAt)
  }

  ghost function ReadGithub(cipher: Cipher, t: Store, id: nat, p: Provider): GithubRow {
    GithubRow(id, After(p.name, "legacy-github-"), SecretHeld(cipher, t, p), p.isActive, p.isDefault,
              p.lastCheckedAt, p.statusFlag, p.statusText, p.createdAt, p.updatedAt)
  }

  ghost function ReadHarbor(cipher: Cipher, t: Store, id: nat, p: Provider): HarborRow {
    HarborRow(id, After(p.name, "legacy-harbor-"), p.baseUrl.GetOr(""), UsernameHeld(t, p), SecretHeld(cipher, t, p),
              p.isActive, p.verifySsl, p.isDefault,
              if "default_project" in p.config && p.config["default_project"].JsonText?
              then Some(p.config["default_project"].text) else None,
              p.lastCheckedAt, p.statusFlag, p.statusText, p.createdAt, p.updatedAt)
  }

  ghost function ReadDocker(cipher: Cipher, t: Store, id: nat, p: Provider): DockerRow {
    DockerRow(id, After(p.name, "legacy-docker-"), p.baseUrl.GetOr(""), UsernameHeld(t, p), SecretHeld(cipher, t, p),
              RegistryName(p.subtype), if p.direction == Internal then "internal" else "external",
              p.isActive, p.isDefault, p.verifySsl, p.priority,
              p.lastCheckedAt, p.statusFlag, p.statusText, p.createdAt, p.updatedAt)
  }

  ghost function ReadHelm(cipher: Cipher, t: Store, id: nat, p: Provider): HelmRow {
    HelmRow(id, After(p.name, "legacy-helm-"), p.baseUrl.GetOr(""), UsernameHeld(t, p), SecretHeld(cipher, t, p),
            p.isActive, p.isDefault, p.verifySsl,
            p.lastCheckedAt, p.statusFlag, p.statusText, p.createdAt, p.updatedAt)
  }

  function RegistryName(subtype: Subtype): string {
    match subtype
    case DockerHub => "docker_hub"
    case Quay => "quay_io"
    case Gcr => "gcr"
    case Ecr => "ecr"
    case Acr => "acr"
    case Ghcr => "ghcr"
    case HarborRegistry => "harbor"
    case _ => "generic"
  }

  // ----- What a legacy row amounts to

  const PROVIDER_TYPES := {"github", "gitlab", "generic"}
  const REGISTRIES := {"docker_hub", "quay_io", "gcr", "ecr", "acr", "ghcr", "harbor", "generic"}

  predicate Filled(text: Option<string>) {
    text.Some? && |text.value| > 0
  }

  /** The secret in the clear, none for an empty one. */
  ghost function Clear(cipher: Cipher, secret: Option<string>): Option<string> {
    if !Filled(secret) then None else Some(LegacyPlaintext(cipher, secret.value))
  }

  /** A user name has no place but the credential, and without a secret there is no credential. */
  function WithSecret(username: Option<string>, secret: Option<string>): Option<string> {
    if !Filled(secret) then None else username
  }

  function Known(value: string, vocabulary: set<string>): string {
    if value in vocabulary then value else "generic"
  }

  // ----- The columns besides

  /** Category, visibility and owner: a system row has no owner, a private one belongs to the
      administrator, and where there is none it is public. */
  predicate Owned(p: Provider, admin: Option<nat>, system: bool, private: bool) {
    if system then p.category == SystemCategory && p.visibility == OwnerVisible && p.ownerUserId == None
    else if private && admin.Some? then
      p.category == PrivateCategory && p.visibility == OwnerVisible && p.ownerUserId == admin
    else p.category == PublicCategory && p.visibility == PublicVisible && p.ownerUserId == None
  }

  /** The columns no legacy table fills. */
  predicate Unfilled(p: Provider) {
    p.teamId == None
  }

  /** The credential row of a non-empty secret: named after the legacy row, with its dates. */
  ghost predicate CredentialOf(t: Store, p: Provider, secret: Option<string>, name: string, kind: CredentialType,
                               provider: string, createdAt: Option<Timestamp>, updatedAt: Option<Timestamp>)
  {
    if !Filled(secret) then p.credentialId == None
    else
      && CredentialRow(t, p).Some?
      && var c := CredentialRow(t, p).value;
         && c.name == name && c.credentialType == kind && c.provider == provider && c.baseUrl == None
         && c.statusFlag == 0 && c.statusText == Some("OK") && c.createdAt == createdAt && c.updatedAt == updatedAt
  }

  /** Some image is copied to a registry of this address. */
  ghost predicate Targeted(images: seq<ImageSource>, url: string) {
    exists k :: 0 <= k < |images| && Filled(images[k].targetRegistryUrl)
                && NormUrl(images[k].targetRegistryUrl) == NormUrl(Some(url))
  }

  /** The provider holds every column of the legacy row, and nothing else of its own. */
  ghost predicate Kept(cipher: Cipher, t: Store, admin: Option<nat>, images: seq<ImageSource>, row: LegacyRow,
                       p: Provider)
  {
    Unfilled(p) && match row
      case Source(r) => SourceKept(admin, r, p)
      case Gitlab(r) => GitlabKept(cipher, t, admin, r, p)
      case Github(r) => GithubKept(cipher, t, admin, r, p)
      case Harbor(r) => HarborKept(cipher, t, admin, r, p)
      case Docker(r) => DockerKept(cipher, t, admin, images, r, p)
      case Helm(r) => HelmKept(cipher, t, admin, r, p)
  }

  ghost predicate SourceKept(admin: Option<nat>, r: SourceRow, p: Provider) {
    && ReadSource(r.id, p) == r.(providerType := Known(r.providerType, PROVIDER_TYPES), isAnon := r.isAnon
        || admin.None?)
    && p.name == "legacy-source-" + Decimal(r.id) && p.domain == GitDomain
    && p.subtype in {GithubGit, GitlabGit, GenericGit} && p.direction == External
    && Owned(p, admin, false, !r.isAnon)
    && p.baseUrl == None && p.config == map[] && p.isActive && !p.isDefault && p.verifySsl && p.priority == 0
    && p.statusFlag == 0 && p.statusText == None && p.lastCheckedAt == None
  }

  ghost predicate GitlabKept(cipher: Cipher, t: Store, admin: Option<nat>, r: GitlabRow, p: Provider) {
    && ReadGitlab(cipher, t, r.id, p) == r.(token := Clear(cipher, r.token))
    && "legacy-gitlab-" <= p.name && p.caption == r.name && p.baseUrl.Some?
    && p.domain == GitDomain && p.subtype == GitlabGit
    && (p.direction == Internal <==> r.isDefault) && (p.isProtected <==> r.isDefault)
    && Owned(p, admin, r.isDefault, true)
    && p.config.Keys == (if r.defaultGroupId.Some? then {"default_group_id"} else {})
    && p.priority == 0 && !p.isDeleted && p.deletedAt == None
    && CredentialOf(t, p, r.token, "migrated-gitlab-" + r.name, GitlabToken, "gitlab", r.createdAt, r.updatedAt)
    && UsernameHeld(t, p) == None
  }

  ghost predicate GithubKept(cipher: Cipher, t: Store, admin: Option<nat>, r: GithubRow, p: Provider) {
    && ReadGithub(cipher, t, r.id, p) == r.(token := Clear(cipher, r.token))
    && "legacy-github-" <= p.name && p.caption == r.name && p.baseUrl == None
    && p.domain == GitDomain && p.subtype == GithubGit && p.direction == External && !p.isProtected
    && Owned(p, admin, false, true)
    && p.config == map[] && p.verifySsl && p.priority == 0 && !p.isDeleted && p.deletedAt == None
    && CredentialOf(t, p, r.token, "migrated-github-" + r.name, GithubToken, "github", r.createdAt, r.updatedAt)
    && UsernameHeld(t, p) == None
  }

  ghost predicate HarborKept(cipher: Cipher, t: Store, admin: Option<nat>, r: HarborRow, p: Provider) {
    && ReadHarbor(cipher, t, r.id, p)
       == r.(password := Clear(cipher, r.password), username := WithSecret(r.username, r.password))
    && "legacy-harbor-" <= p.name && p.caption == r.name && p.baseUrl.Some?
    && p.domain == DockerDomain && p.subtype == HarborRegistry && p.direction == Internal && p.isProtected
    && Owned(p, admin, true, false)
    && p.config.Keys == (if r.defaultProject.Some? then {"default_project"} else {})
    && p.priority == 0 && !p.isDeleted && p.deletedAt == None
    && CredentialOf(t, p, r.password, "migrated-harbor-" + r.name, HttpsBasic, "harbor", r.createdAt, r.updatedAt)
  }

  ghost predicate DockerKept(cipher: Cipher, t: Store, admin: Option<nat>, images: seq<ImageSource>, r: DockerRow,
                             p: Provider)
  {
    && ReadDocker(cipher, t, r.id, p)
       == r.(password := Clear(cipher, r.password), username := WithSecret(r.username, r.password),
             registryProvider := Known(r.registryProvider, REGISTRIES),
             registryType := if r.registryType == "internal" then "internal" else "external")
    && "legacy-docker-" <= p.name && p.caption == r.name && p.baseUrl.Some? && p.domain == DockerDomain
    && p.subtype in {DockerHub, Quay, Gcr, Ecr, Acr, Ghcr, HarborRegistry, GenericRegistry}
    && (p.isProtected <==> Targeted(images, r.url))
    && Owned(p, admin, Targeted(images, r.url), true)
    && p.config == (if p.subtype == GenericRegistry then map["api_style" := JsonText("registry_v2")] else map[])
    && !p.isDeleted && p.deletedAt == None
    && CredentialOf(t, p, r.password, "migrated-docker-" + r.name, HttpsBasic, "docker", r.createdAt, r.updatedAt)
  }

  ghost predicate HelmKept(cipher: Cipher, t: Store, admin: Option<nat>, r: HelmRow, p: Provider) {
    && ReadHelm(cipher, t, r.id, p)
       == r.(password := Clear(cipher, r.password), username := WithSecret(r.username, r.password))
    && "legacy-helm-" <= p.name && p.caption == r.name && p.baseUrl.Some?
    && p.domain == HelmDomain && p.subtype == HelmRepo && p.direction == External && !p.isProtected
    && Owned(p, admin, false, Filled(r.password) || Filled(r.username))
    && p.config == map[] && p.priority == 0 && !p.isDeleted && p.deletedAt == None
    && CredentialOf(t, p, r.password, "migrated-helm-" + r.name, HttpsBasic, "helm", r.createdAt, r.updatedAt)
  }

  // ----- Every image keeps its row

  /** What the credential part of an image amounts to. */
  lemma {:induction false} CredentialKept(cipher: Cipher, t: Store, plan: Plan, p: Provider)
    requires plan.credential.Migrate? && CredentialImage(cipher, t.credentials, plan.credential, p.credentialId)
    ensures var secret, row := plan.credential.secret, plan.credential.row;
      && SecretHeld(cipher, t, p) == Clear(cipher, secret)
      && UsernameHeld(t, p) == WithSecret(row.username, secret)
      && (!Truthy(secret) ==> p.credentialId == None)
      && (Truthy(secret) ==>
            && CredentialRow(t, p).Some?
            && CredentialRow(t, p).value == row.(encryptedSecret := CredentialRow(t, p).value.encryptedSecret))
  {
  }

  lemma AfterPrefix(prefix: string, text: string)
    ensures prefix <= prefix + text && After(prefix + text, prefix) == text
  {
  }

  lemma {:induction false} SourceImageKept(cipher: Cipher, t: Store, ctx: Context, r: SourceRow, id: nat)
    requires IsImage(cipher, t, PlanOf(ctx, Source(r)), id)
    ensures Unfilled(t.providers[id]) && SourceKept(ctx.admin, r, t.providers[id])
  {
  }

  lemma {:induction false} GitlabImageKept(cipher: Cipher, t: Store, ctx: Context, r: GitlabRow, id: nat)
    requires IsImage(cipher, t, PlanOf(ctx, Gitlab(r)), id)
    ensures Unfilled(t.providers[id]) && GitlabKept(cipher, t, ctx.admin, r, t.providers[id])
  {
    hide CredentialImage, SecretHeld, UsernameHeld, Clear;
    CredentialKept(cipher, t, PlanOf(ctx, Gitlab(r)), t.providers[id]);
    AfterPrefix("legacy-gitlab-", r.name);
  }

  lemma {:induction false} GithubImageKept(cipher: Cipher, t: Store, ctx: Context, r: GithubRow, id: nat)
    requires IsImage(cipher, t, PlanOf(ctx, Github(r)), id)
    ensures Unfilled(t.providers[id]) && GithubKept(cipher, t, ctx.admin, r, t.providers[id])
  {
    hide CredentialImage, SecretHeld, UsernameHeld, Clear;
    CredentialKept(cipher, t, PlanOf(ctx, Github(r)), t.providers[id]);
    AfterPrefix("legacy-github-", r.name);
  }

  lemma {:induction false} HarborImageKept(cipher: Cipher, t: Store, ctx: Context, r: HarborRow, id: nat)
    requires IsImage(cipher, t, PlanOf(ctx, Harbor(r)), id)
    ensures Unfilled(t.providers[id]) && HarborKept(cipher, t, ctx.admin, r, t.providers[id])
  {
    hide CredentialImage, SecretHeld, UsernameHeld, Clear;
    CredentialKept(cipher, t, PlanOf(ctx, Harbor(r)), t.providers[id]);
    AfterPrefix("legacy-harbor-", r.name);
  }

  lemma RegistryRead(value: string)
    ensures RegistryName(RegistrySubtype(value)) == Known(value, REGISTRIES)
    ensures RegistrySubtype(value) in {DockerHub, Quay, Gcr, Ecr, Acr, Ghcr, HarborRegistry, GenericRegistry}
  {
  }

  lemma TargetRead(images: seq<ImageSource>, r: DockerRow)
    ensures IsTarget(TargetUrls(images), r) <==> Targeted(images, r.url)
  {
  }

  lemma {:induction false} DockerImageKept(cipher: Cipher, t: Store, ctx: Context, images: seq<ImageSource>,
                                           r: DockerRow, id: nat)
    requires IsImage(cipher, t, PlanOf(ctx, Docker(r)), id) && ctx.targets == TargetUrls(images)
    ensures Unfilled(t.providers[id]) && DockerKept(cipher, t, ctx.admin, images, r, t.providers[id])
  {
    hide CredentialImage, SecretHeld, UsernameHeld, Clear, RegistrySubtype, RegistryName, Known, IsTarget, Targeted;
    CredentialKept(cipher, t, PlanOf(ctx, Docker(r)), t.providers[id]);
    AfterPrefix("legacy-docker-", r.name);
    RegistryRead(r.registryProvider);
    TargetRead(images, r);
  }

  lemma {:induction false} HelmImageKept(cipher: Cipher, t: Store, ctx: Context, r: HelmRow, id: nat)
    requires IsImage(cipher, t, PlanOf(ctx, Helm(r)), id)
    ensures Unfilled(t.providers[id]) && HelmKept(cipher, t, ctx.admin, r, t.providers[id])
  {
    hide CredentialImage, SecretHeld, UsernameHeld, Clear;
    CredentialKept(cipher, t, PlanOf(ctx, Helm(r)), t.providers[id]);
    AfterPrefix("legacy-helm-", r.name);
  }

  /** Wherever the migration says that a row is the image of a legacy row, the legacy row can be
      read back from it. */
  lemma {:induction false} ImageKept(cipher: Cipher, t: Store, ctx: Context, images: seq<ImageSource>, row: LegacyRow,
                                     id: nat)
    requires IsImage(cipher, t, PlanOf(ctx, row), id) && ctx.targets == TargetUrls(images)
    ensures Kept(cipher, t, ctx.admin, images, row, t.providers[id])
  {
    hide IsImage, PlanOf, SourceKept, GitlabKept, GithubKept, HarborKept, DockerKept, HelmKept, Unfilled;
    match row {
      case Source(r) => SourceImageKept(cipher, t, ctx, r, id);
      case Gitlab(r) => GitlabImageKept(cipher, t, ctx, r, id);
      case Github(r) => GithubImageKept(cipher, t, ctx, r, id);
      case Harbor(r) => HarborImageKept(cipher, t, ctx, r, id);
      case Docker(r) => DockerImageKept(cipher, t, ctx, images, r, id);
      case Helm(r) => HelmImageKept(cipher, t, ctx, r, id);
    }
  }

  /** The ids of the migrated rows, one for each legacy row, each with that row's columns. */
  ghost predicate AllKept(cipher: Cipher, t: Store, admin: Option<nat>, images: seq<ImageSource>, rows: seq<LegacyRow>,
                          ids: seq<nat>)
  {
    && |ids| == |rows|
    && forall k :: 0 <= k < |rows| ==>
        ids[k] in t.providers && Kept(cipher, t, admin, images, rows[k], t.providers[ids[k]])
  }

  /** After the migration of a clean database every row of the six tables is there, column by
      column, up to the form of its secret and what the migration cannot tell apart: unknown
      provider types, the anonymity of a source when there is no administrator, and the user name
      of a row without secret. */
  lemma {:induction false} NoColumnLost(cipher: Cipher, admin: Option<nat>, l: LegacyTables, s: Store, c: Consumers)
    requires Lawful(cipher) && UniqueKeys(l) && IdsBounded(s) && NoReservedNames(s)
    requires MigrateData(cipher, admin, l, s, c).Success?
    ensures exists ids :: AllKept(cipher, MigrateData(cipher, admin, l, s, c).value.0, admin, c.images, AllRows(l), ids)
  {
    hide PlanOf, Kept, AllRows, References, Relink, ReferencesMean;
    var ctx := Context(admin, TargetUrls(c.images));
    MigratedImages(cipher, admin, l, s, c);
    var t := MigrateData(cipher, admin, l, s, c).value.0;
    var ids :| |ids| == RowCount(l) && TableImages(cipher, t, ctx, AllRows(l), ids);
    forall k | 0 <= k < |AllRows(l)|
      ensures ids[k] in t.providers && Kept(cipher, t, admin, c.images, AllRows(l)[k], t.providers[ids[k]])
    {
      assert IsImage(cipher, t, PlanOf(ctx, AllRows(l)[k]), ids[k]);
      ImageKept(cipher, t, ctx, c.images, AllRows(l)[k], ids[k]);
    }
    assert AllKept(cipher, t, admin, c.images, AllRows(l), ids);
  }

  /** Where a link leads, the legacy row can be read back. */
  lemma {:induction false} LinkKept(cipher: Cipher, t: Store, ctx: Context, images: seq<ImageSource>, ref: Option<nat>,
                                    row: LegacyRow)
    requires Names(cipher, t, ctx, ref, row) && ctx.targets == TargetUrls(images)
    ensures Kept(cipher, t, ctx.admin, images, row, t.providers[ref.value])
  {
    ImageKept(cipher, t, ctx, images, row, ref.value);
  }

  /** The reference is set, to a row from which the legacy row can be read back. */
  ghost predicate LeadsTo(cipher: Cipher, t: Store, admin: Option<nat>, images: seq<ImageSource>, ref: Option<nat>,
                          row: LegacyRow)
  {
    ref.Some? && ref.value in t.providers && Kept(cipher, t, admin, images, row, t.providers[ref.value])
  }

  /** The last registry of this address, as the key compares addresses. */
  ghost predicate LastRegistry(rows: seq<DockerRow>, url: Option<string>, j: nat) {
    && j < |rows| && NormUrl(Some(rows[j].url)) == NormUrl(url)
    && forall i :: j < i < |rows| ==> NormUrl(Some(rows[i].url)) != NormUrl(url)
  }

  ghost predicate LastRepository(rows: seq<HelmRow>, url: string, j: nat) {
    && j < |rows| && NormHelmUrl(Some(rows[j].url)) == NormHelmUrl(Some(url))
    && forall i :: j < i < |rows| ==> NormHelmUrl(Some(rows[i].url)) != NormHelmUrl(Some(url))
  }

  lemma LastByUrl(l: LegacyTables, target: Option<string>, url: string)
    ensures forall j: nat :: LastRegistry(l.dockers, target, j) <==> LastAt(DockerUrls(l.dockers), NormUrl(target), j)
    ensures forall j: nat ::
      LastRepository(l.helms, url, j) <==> LastAt(HelmUrls(l.helms), NormHelmUrl(Some(url)), j)
  {
    hide NormUrl, NormHelmUrl;
    var dockers, helms := l.dockers, l.helms;
    assert forall i {:trigger dockers[i]} ::
      0 <= i < |dockers| ==> DockerUrls(dockers)[i] == NormUrl(Some(dockers[i].url));
    assert forall i {:trigger helms[i]} :: 0 <= i < |helms| ==> HelmUrls(helms)[i] == NormHelmUrl(Some(helms[i].url));
  }

  /** Which links are set: that of a consumer with an old reference, the target link of an image
      whose target address some registry has, and the link of a chart whose address some
      repository has. */
  lemma {:induction false} LinksExactly(cipher: Cipher, admin: Option<nat>, l: LegacyTables, s: Store, c: Consumers)
    requires Lawful(cipher) && UniqueKeys(l) && IdsBounded(s) && NoReservedNames(s)
    requires ForeignKeysValid(l, c) && ColumnsNew(c)
    requires MigrateData(cipher, admin, l, s, c).Success?
    ensures var d := MigrateData(cipher, admin, l, s, c).value.1;
      && |d.repositories| == |c.repositories| && |d.pipelines| == |c.pipelines|
      && |d.images| == |c.images| && |d.charts| == |c.charts|
      && (forall k :: 0 <= k < |c.repositories| ==>
            (d.repositories[k].providerId.Some? <==> c.repositories[k].sourceProviderId.Some?))
      && (forall k :: 0 <= k < |c.pipelines| ==>
            (d.pipelines[k].providerId.Some? <==> c.pipelines[k].gitlabInstanceId.Some?))
      && (forall k :: 0 <= k < |c.images| ==>
            (d.images[k].providerId.Some? <==> c.images[k].registryInstanceId.Some?))
      && (forall k :: 0 <= k < |c.images| ==>
            (d.images[k].targetProviderId.Some? <==>
               Filled(c.images[k].targetRegistryUrl)
               && exists j :: 0 <= j < |l.dockers|
                              && NormUrl(Some(l.dockers[j].url)) == NormUrl(c.images[k].targetRegistryUrl)))
      && (forall k :: 0 <= k < |c.charts| ==>
            (d.charts[k].providerId.Some? <==>
               exists j :: 0 <= j < |l.helms|
                           && NormHelmUrl(Some(l.helms[j].url)) == NormHelmUrl(Some(c.charts[k].repoUrl))))
  {
    hide PlanOf, MigrateData, NormUrl, NormHelmUrl, TargetUrls, Names;
    var ctx := Context(admin, TargetUrls(c.images));
    RelinkingKeepsMeaning(cipher, admin, l, s, c);
    var (t, d) := MigrateData(cipher, admin, l, s, c).value;
    forall ref, row | Names(cipher, t, ctx, ref, row) ensures ref.Some? {
      NamesSome(cipher, t, ctx, ref, row);
    }
    forall k | 0 <= k < |c.repositories|
      ensures d.repositories[k].providerId.Some? <==> c.repositories[k].sourceProviderId.Some?
    {
      assert RepositoryMeans(cipher, t, ctx, l, c.repositories[k], d.repositories[k]);
      if c.repositories[k].sourceProviderId.Some? {
        var j :| 0 <= j < |l.sources| && SourceIds(l.sources)[j] == c.repositories[k].sourceProviderId.value;
      }
    }
    forall k | 0 <= k < |c.pipelines|
      ensures d.pipelines[k].providerId.Some? <==> c.pipelines[k].gitlabInstanceId.Some?
    {
      assert PipelineMeans(cipher, t, ctx, l, c.pipelines[k], d.pipelines[k]);
      if c.pipelines[k].gitlabInstanceId.Some? {
        var j :| 0 <= j < |l.gitlabs| && GitlabIds(l.gitlabs)[j] == c.pipelines[k].gitlabInstanceId.value;
      }
    }
    forall k | 0 <= k < |c.images|
      ensures d.images[k].providerId.Some? <==> c.images[k].registryInstanceId.Some?
    {
      assert ImageMeans(cipher, t, ctx, l, c.images[k], d.images[k]);
      if c.images[k].registryInstanceId.Some? {
        var j :| 0 <= j < |l.dockers| && DockerIds(l.dockers)[j] == c.images[k].registryInstanceId.value;
      }
    }
    assert forall k :: 0 <= k < |c.images| ==> ImageMeans(cipher, t, ctx, l, c.images[k], d.images[k]);
    assert forall k :: 0 <= k < |c.charts| ==> ChartMeans(cipher, t, ctx, l, c.charts[k], d.charts[k]);
    forall key ensures key in DockerUrls(l.dockers) <==> exists j ::
        0 <= j < |l.dockers| && NormUrl(Some(l.dockers[j].url)) == key {
      RegistryAt(l.dockers, key);
    }
    forall key ensures key in HelmUrls(l.helms) <==> exists j ::
        0 <= j < |l.helms| && NormHelmUrl(Some(l.helms[j].url)) == key {
      RepositoryAt(l.helms, key);
    }
  }

  lemma NamesSome(cipher: Cipher, t: Store, ctx: Context, ref: Option<nat>, row: LegacyRow)
    requires Names(cipher, t, ctx, ref, row)
    ensures ref.Some?
  {
  }

  lemma RegistryAt(rows: seq<DockerRow>, key: string)
    ensures key in DockerUrls(rows) <==> exists j :: 0 <= j < |rows| && NormUrl(Some(rows[j].url)) == key
  {
    hide NormUrl;
    assert forall j :: 0 <= j < |rows| ==> DockerUrls(rows)[j] == NormUrl(Some(rows[j].url));
  }

  lemma RepositoryAt(rows: seq<HelmRow>, key: string)
    ensures key in HelmUrls(rows) <==> exists j :: 0 <= j < |rows| && NormHelmUrl(Some(rows[j].url)) == key
  {
    hide NormHelmUrl;
    assert forall j :: 0 <= j < |rows| ==> HelmUrls(rows)[j] == NormHelmUrl(Some(rows[j].url));
  }

  /** The old reference of every consumer, in columns: the row its new link leads to is the row its
      old column named, and the last one of its address for targets and charts. */
  lemma {:induction false} ReferencesKept(cipher: Cipher, admin: Option<nat>, l: LegacyTables, s: Store, c: Consumers)
    requires Lawful(cipher) && UniqueKeys(l) && IdsBounded(s) && NoReservedNames(s)
    requires ForeignKeysValid(l, c) && ColumnsNew(c)
    requires MigrateData(cipher, admin, l, s, c).Success?
    ensures var (t, d) := MigrateData(cipher, admin, l, s, c).value;
      && |d.repositories| == |c.repositories| && |d.pipelines| == |c.pipelines|
      && |d.images| == |c.images| && |d.charts| == |c.charts|
      && (forall k, j :: 0 <= k < |c.repositories| && 0 <= j < |l.sources|
                         && c.repositories[k].sourceProviderId == Some(l.sources[j].id) ==>
            LeadsTo(cipher, t, admin, c.images, d.repositories[k].providerId, Source(l.sources[j])))
      && (forall k, j :: 0 <= k < |c.pipelines| && 0 <= j < |l.gitlabs|
                         && c.pipelines[k].gitlabInstanceId == Some(l.gitlabs[j].id) ==>
            LeadsTo(cipher, t, admin, c.images, d.pipelines[k].providerId, Gitlab(l.gitlabs[j])))
      && (forall k, j :: 0 <= k < |c.images| && 0 <= j < |l.dockers|
                         && c.images[k].registryInstanceId == Some(l.dockers[j].id) ==>
            LeadsTo(cipher, t, admin, c.images, d.images[k].providerId, Docker(l.dockers[j])))
      && (forall k, j: nat :: 0 <= k < |c.images| && Filled(c.images[k].targetRegistryUrl)
                              && LastRegistry(l.dockers, c.images[k].targetRegistryUrl, j) ==>
            LeadsTo(cipher, t, admin, c.images, d.images[k].targetProviderId, Docker(l.dockers[j])))
      && (forall k, j: nat :: 0 <= k < |c.charts|
                              && LastRepository(l.helms, c.charts[k].repoUrl, j) ==>
            LeadsTo(cipher, t, admin, c.images, d.charts[k].providerId, Helm(l.helms[j])))
  {
    hide PlanOf, Kept, MigrateData, NormUrl, NormHelmUrl, TargetUrls;
    var ctx := Context(admin, TargetUrls(c.images));
    RelinkingKeepsMeaning(cipher, admin, l, s, c);
    var (t, d) := MigrateData(cipher, admin, l, s, c).value;
    forall ref, row | Names(cipher, t, ctx, ref, row) ensures LeadsTo(cipher, t, admin, c.images, ref, row) {
      LinkKept(cipher, t, ctx, c.images, ref, row);
    }
    forall k | 0 <= k < |c.repositories|
      ensures RepositoryMeans(cipher, t, ctx, l, c.repositories[k], d.repositories[k])
    {
    }
    forall k | 0 <= k < |c.pipelines| ensures PipelineMeans(cipher, t, ctx, l, c.pipelines[k], d.pipelines[k]) {
    }
    forall k, j: nat | 0 <= k < |c.images| && Filled(c.images[k].targetRegistryUrl)
                       && LastRegistry(l.dockers, c.images[k].targetRegistryUrl, j)
      ensures LeadsTo(cipher, t, admin, c.images, d.images[k].targetProviderId, Docker(l.dockers[j]))
    {
      LastByUrl(l, c.images[k].targetRegistryUrl, "");
      assert ImageMeans(cipher, t, ctx, l, c.images[k], d.images[k]);
    }
    forall k | 0 <= k < |c.images| ensures ImageMeans(cipher, t, ctx, l, c.images[k], d.images[k]) {
    }
    forall k, j: nat | 0 <= k < |c.charts| && LastRepository(l.helms, c.charts[k].repoUrl, j)
      ensures LeadsTo(cipher, t, admin, c.images, d.charts[k].providerId, Helm(l.helms[j]))
    {
      LastByUrl(l, None, c.charts[k].repoUrl);
      assert ChartMeans(cipher, t, ctx, l, c.charts[k], d.charts[k]);
    }
  }

  // ----- The column that is lost

  /** Without a secret the credential part of a plan has no effect but its tick of the clock. */
  lemma {:induction false} SameRun(cipher: Cipher, s: Store, p: seq<Plan>, q: seq<Plan>)
    requires |p| == |q|
    requires forall k :: 0 <= k < |p| ==> p[k] == q[k] || SecretlessTwins(p[k], q[k])
    ensures Run(cipher, s, p) == Run(cipher, s, q)
  {
    if p != [] {
      var n := |p| - 1;
      SameRun(cipher, s, p[..n], q[..n]);
      forall t: Store ensures Apply(cipher, t, p[n]) == Apply(cipher, t, q[n]) {
        SameApply(cipher, t, p[n], q[n]);
      }
    }
  }

  predicate SecretlessTwins(p: Plan, q: Plan) {
    && p.provider == q.provider && p.credential.Migrate? && q.credential.Migrate?
    && p.credential.secret == q.credential.secret && !Filled(p.credential.secret)
  }

  lemma SameApply(cipher: Cipher, s: Store, p: Plan, q: Plan)
    requires p == q || SecretlessTwins(p, q)
    ensures Apply(cipher, s, p) == Apply(cipher, s, q)
  {
    hide InsertProvider;
  }

  function Renamed(l: LegacyTables, k: nat, username: Option<string>): LegacyTables
    requires k < |l.dockers|
  {
    l.(dockers := l.dockers[k := l.dockers[k].(username := username)])
  }

  /** The user name of a registry without a password is lost: databases that differ in nothing else
      are migrated to the same tables, with the same links. */
  lemma {:induction false} UsernameLost(cipher: Cipher, admin: Option<nat>, l: LegacyTables, s: Store, c: Consumers,
                                        k: nat, username: Option<string>)
    requires k < |l.dockers| && !Filled(l.dockers[k].password)
    ensures MigrateData(cipher, admin, Renamed(l, k, username), s, c) == MigrateData(cipher, admin, l, s, c)
  {
    hide Plans, PlanOf, Run, AllRows, TargetUrls, References, Relink, Renamed;
    var m := Renamed(l, k, username);
    var ctx := Context(admin, TargetUrls(c.images));
    SameCount(l, k, username);
    SamePlans(cipher, ctx, l, s, k, username);
    var run := Run(cipher, s, Plans(ctx, AllRows(l)));
    if run.Success? {
      SameReferences(l, k, username, run.value.1);
    }
  }

  lemma SameCount(l: LegacyTables, k: nat, username: Option<string>)
    requires k < |l.dockers|
    ensures RowCount(Renamed(l, k, username)) == RowCount(l)
  {
  }

  lemma {:induction false} SamePlans(cipher: Cipher, ctx: Context, l: LegacyTables, s: Store, k: nat,
                                     username: Option<string>)
    requires k < |l.dockers| && !Filled(l.dockers[k].password)
    ensures Run(cipher, s, Plans(ctx, AllRows(Renamed(l, k, username)))) == Run(cipher, s, Plans(ctx, AllRows(l)))
  {
    hide PlanOf, Run, AllRows, SecretlessTwins;
    var m := Renamed(l, k, username);
    RowsRenamed(l, k, username);
    forall j | 0 <= j < |AllRows(l)|
      ensures PlanOf(ctx, AllRows(m)[j]) == PlanOf(ctx, AllRows(l)[j])
        || SecretlessTwins(PlanOf(ctx, AllRows(m)[j]), PlanOf(ctx, AllRows(l)[j]))
    {
      DockerTwins(ctx, l.dockers[k], username);
    }
    SameRun(cipher, s, Plans(ctx, AllRows(m)), Plans(ctx, AllRows(l)));
  }

  lemma SameReferences(l: LegacyTables, k: nat, username: Option<string>, ids: seq<nat>)
    requires k < |l.dockers| && |ids| == RowCount(l) == RowCount(Renamed(l, k, username))
    ensures References(Renamed(l, k, username), ids) == References(l, ids)
  {
    hide Assoc, RowCount, NormUrl;
    var m := Renamed(l, k, username);
    assert DockerIds(m.dockers) == DockerIds(l.dockers) && DockerUrls(m.dockers) == DockerUrls(l.dockers);
  }

  lemma RowsRenamed(l: LegacyTables, k: nat, username: Option<string>)
    requires k < |l.dockers|
    ensures var m := Renamed(l, k, username);
      && |AllRows(m)| == |AllRows(l)|
      && forall j :: 0 <= j < |AllRows(l)| ==>
           || AllRows(m)[j] == AllRows(l)[j]
           || (AllRows(l)[j] == Docker(l.dockers[k]) && AllRows(m)[j] == Docker(l.dockers[k].(username := username)))
  {
  }

  lemma DockerTwins(ctx: Context, r: DockerRow, username: Option<string>)
    requires !Filled(r.password)
    ensures SecretlessTwins(PlanOf(ctx, Docker(r.(username := username))), PlanOf(ctx, Docker(r)))
  {
  }
}
