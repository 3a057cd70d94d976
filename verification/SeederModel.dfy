/** `bin/seed_providers.py`: upserts of the default public providers and of the two system
    providers the environment describes, with a dry-run mode. */
module SeederModel {
  import opened Wrappers
  import Ordering
  import opened Secrets
  import opened ProviderSchema

  datatype Db = Db(
    providers: map<nat, Provider>, nextProvider: nat,
    credentials: map<nat, Credential>, nextCredential: nat,
    clock: nat)

  /** One planned or applied change, with the changed fields in alphabetical order. */
  datatype Action = Create(name: string) | Update(name: string, fields: seq<string>)

  datatype SeedError = MissingCredentialId | SecretUnreadable | ConstraintViolated

  /** Environment of the Harbor and GitLab sections, after `_harbor_env` and `_gitlab_env`. */
  datatype HarborEnv = HarborEnv(
    baseUrl: string, username: string, password: string, defaultProject: string, verifySsl: bool,
        allowlist: seq<string>)

  datatype GitlabEnv = GitlabEnv(baseUrl: string, username: string, token: string)

  datatype Env = Env(harbor: Option<HarborEnv>, gitlab: Option<GitlabEnv>)

  // ----- What the seed wants

  function NewProvider(name: string, caption: string, domain: Domain, subtype: Subtype, category: Category,
                       visibility: Visibility, direction: Direction, baseUrl: Option<string>,
                       config: map<string, Json>, verifySsl: bool): Provider
  {
    Provider(name, domain, subtype, category, visibility, direction, caption, baseUrl, config,
             None, None, None, true, true, true, verifySsl, 0, 0, None, None, false, None, None, None)
  }

  const DEFAULT_PROVIDERS: seq<Provider> := [
    NewProvider("github-anonymous", "GitHub (anonymous)", GitDomain, GithubGit, PublicCategory, PublicVisible, External,
                Some("https://api.github.com"), map[], true),
    NewProvider("gitlab-anonymous", "GitLab (anonymous)", GitDomain, GitlabGit, PublicCategory, PublicVisible, External,
                Some("https://gitlab.com"), map[], true),
    NewProvider("generic-anonymous", "Generic Git (anonymous)", GitDomain, GenericGit, PublicCategory, PublicVisible,
                External,
                None, map[], true),
    NewProvider("dockerhub-anonymous", "Docker Hub (anonymous)", DockerDomain, DockerHub, PublicCategory,
                PublicVisible, External,
                Some("https://registry-1.docker.io"), map[], true)
  ]

  /** The fields besides label, is_default and is_protected that a section owns. */
  datatype Ownership = Ownership(baseUrl: bool, config: bool, credential: bool, verifySsl: bool)

  const PUBLIC_FIELDS := Ownership(false, false, false, false)
  const GITLAB_FIELDS := Ownership(true, false, true, false)
  const HARBOR_FIELDS := Ownership(true, true, true, true)

  /** A system section: its credential, its secret, its provider and the fields it owns. */
  datatype System = System(credential: Credential, secret: Option<string>, provider: Provider, owned: Ownership)

  function HarborSystem(env: HarborEnv): System {
    System(
      Credential("harbor-system-credential", HttpsBasic, "harbor", Some(env.username), None, Some(env.baseUrl), 0,
                 None, None, None),
      if env.password == "" then None else Some(env.password),
      NewProvider("harbor-system", "Harbor (system)", DockerDomain, HarborRegistry, SystemCategory, PublicVisible,
                  Internal,
                  Some(env.baseUrl),
                  map["default_project" := JsonText(env.defaultProject), "robot_prefix" := JsonText("robot$"),
                      "projects_allowlist" := JsonTexts(env.allowlist)],
                  env.verifySsl),
      HARBOR_FIELDS)
  }

  function GitlabSystem(env: GitlabEnv): System {
    System(
      Credential("gitlab-system-credential", GitlabToken, "gitlab", Some(env.username), None, Some(env.baseUrl), 0,
                 None, None, None),
      Some(env.token),
      NewProvider("gitlab-system", "GitLab (system)", GitDomain, GitlabGit, SystemCategory, OwnerVisible, Internal,
                  Some(env.baseUrl), map["api_version" := JsonText("v4")], true),
      GITLAB_FIELDS)
  }

  // ----- Upserting a provider

  function LiveNamed(providers: map<nat, Provider>, name: string): set<nat> {
    set i | i in providers && providers[i].name == name && !providers[i].isDeleted
  }

  function Merged(owned: Ownership, wanted: Provider, row: Provider): Provider {
    MergedConnection(owned, wanted, row).(caption := wanted.caption, isDefault := true, isProtected := true)
  }

  function MergedConnection(owned: Ownership, wanted: Provider, row: Provider): Provider {
    row.(baseUrl := if owned.baseUrl then wanted.baseUrl else row.baseUrl,
         config := if owned.config then wanted.config else row.config,
         credentialId := if owned.credential then wanted.credentialId else row.credentialId,
         verifySsl := if owned.verifySsl then wanted.verifySsl else row.verifySsl)
  }

  function ChangedFields(owned: Ownership, wanted: Provider, row: Provider): seq<string> {
    (if row.caption != wanted.caption then ["label"] else [])
    + ConnectionFields(owned, wanted, row)
    + (if !row.isProtected then ["is_protected"] else [])
    + (if !row.isDefault then ["is_default"] else [])
  }

  function ConnectionFields(owned: Ownership, wanted: Provider, row: Provider): seq<string> {
    (if owned.baseUrl && row.baseUrl != wanted.baseUrl then ["base_url"] else [])
    + (if owned.config && row.config != wanted.config then ["config"] else [])
    + (if owned.credential && row.credentialId != wanted.credentialId then ["credential_id"] else [])
    + (if owned.verifySsl && row.verifySsl != wanted.verifySsl then ["verify_ssl"] else [])
  }

  function UpdateAction(name: string, fields: seq<string>): seq<Action> {
    if fields == [] then [] else [Update(name, Ordering.Sorted(set f | f in fields))]
  }

  /** `create` and `update` tell whether the mode may insert and may touch an existing row. */
  function UpsertProvider(db: Db, wanted: Provider, owned: Ownership, create: bool, update: bool): (Db, seq<Action>) {
    var found := LiveNamed(db.providers, wanted.name);
    if found == {} then
      (if create then db.(providers := db.providers[db.nextProvider := wanted], nextProvider := db.nextProvider + 1)
          else db,
       [Create(wanted.name)])
    else
      var id := LeastOf(found);
      (if update then db.(providers := db.providers[id := Merged(owned, wanted, db.providers[id])]) else db,
       UpdateAction(wanted.name, ChangedFields(owned, wanted, db.providers[id])))
  }

  // ----- Upserting a credential

  /** `decrypt_secret`, none for an empty text. */
  function ReadSecret(cipher: Cipher, stored: Option<string>): Result<Option<string>, SeedError> {
    if stored.None? || stored.value == "" then Success(None)
    else match cipher.decrypt(stored.value)
      case Plaintext(p) => Success(Some(p))
      case _ => Failure(SecretUnreadable)
  }

  function Encrypted(cipher: Cipher, secret: Option<string>, now: nat): Option<string> {
    if secret.None? then None else Some(cipher.encrypt(secret.value, now))
  }

  function MergedCredential(cipher: Cipher, s: System, plain: Option<string>, now: nat, row: Credential): Credential {
    row.(username := s.credential.username, baseUrl := s.credential.baseUrl,
         encryptedSecret := if plain != s.secret then Encrypted(cipher, s.secret, now) else row.encryptedSecret)
  }

  function ChangedCredential(s: System, plain: Option<string>, row: Credential): seq<string> {
    (if row.username != s.credential.username then ["username"] else [])
    + (if row.baseUrl != s.credential.baseUrl then ["base_url"] else [])
    + (if plain != s.secret then ["encrypted_secret"] else [])
  }

  /** The credential half of a system section; the id is that of the row, none when a dry run
      only planned it. */
  function UpsertCredential(cipher: Cipher, db: Db, s: System, dry: bool)
    : Result<(Db, Option<nat>, seq<Action>), SeedError>
  {
    var found := CredentialIdsNamed(db.credentials, s.credential.name);
    var ticked := db.(clock := db.clock + 1);
    if found == {} then
      if dry then Success((ticked, None, [Create(s.credential.name)]))
      else
        Success((ticked.(credentials := db.credentials[db.nextCredential :=
                           s.credential.(encryptedSecret := Encrypted(cipher, s.secret, db.clock))],
                         nextCredential := db.nextCredential + 1),
                 Some(db.nextCredential), [Create(s.credential.name)]))
    else
      var id := LeastOf(found);
      var row := db.credentials[id];
      match ReadSecret(cipher, row.encryptedSecret)
      case Failure(e) => Failure(e)
      case Success(plain) =>
        Success((ticked.(credentials := db.credentials[id := MergedCredential(cipher, s, plain, db.clock, row)]),
                 Some(id), UpdateAction(s.credential.name, ChangedCredential(s, plain, row))))
  }

  /** `_seed_system_harbor` and `_seed_system_gitlab`. A dry run that planned the credential has
      no id to compare an existing provider's with. */
  function SeedSystem(cipher: Cipher, db: Db, s: System, dry: bool): Result<(Db, seq<Action>), SeedError> {
    match UpsertCredential(cipher, db, s, dry)
    case Failure(e) => Failure(e)
    case Success((u, credentialId, actions)) =>
      if credentialId.None? && LiveNamed(u.providers, s.provider.name) != {} then Failure(MissingCredentialId)
      else
        var (v, more) := UpsertProvider(u, s.provider.(credentialId := credentialId), s.owned, !dry, true);
        Success((v, actions + more))
  }

  // ----- The whole seed

  function SeedPublic(db: Db, specs: seq<Provider>, dry: bool): (Db, seq<Action>) {
    if specs == [] then (db, [])
    else
      var (u, actions) := SeedPublic(db, specs[..|specs| - 1], dry);
      var (v, more) := UpsertProvider(u, specs[|specs| - 1], PUBLIC_FIELDS, !dry, !dry);
      (v, actions + more)
  }

  function Systems(env: Env): seq<System> {
    (if env.harbor.Some? then [HarborSystem(env.harbor.value)] else [])
    + (if env.gitlab.Some? then [GitlabSystem(env.gitlab.value)] else [])
  }

  function SeedSystems(cipher: Cipher, db: Db, systems: seq<System>, dry: bool): Result<(Db, seq<Action>), SeedError> {
    if systems == [] then Success((db, []))
    else
      match SeedSystems(cipher, db, systems[..|systems| - 1], dry)
      case Failure(e) => Failure(e)
      case Success((u, actions)) =>
        match SeedSystem(cipher, u, systems[|systems| - 1], dry)
        case Failure(e) => Failure(e)
        case Success((v, more)) => Success((v, actions + more))
  }

  /** What the commit checks. */
  predicate Committable(db: Db) {
    ProvidersWellFormed(db.providers) && UniqueCredentialNames(db.credentials)
  }

  /** The actions and the database a call ends with; an error or a dry run rolls back. */
  function SeedAll(cipher: Cipher, db: Db, specs: seq<Provider>, systems: seq<System>, dry: bool)
    : Result<(Db, seq<Action>), SeedError>
  {
    var (u, actions) := SeedPublic(db, specs, dry);
    match SeedSystems(cipher, u, systems, dry)
    case Failure(e) => Failure(e)
    case Success((v, more)) =>
      if dry then Success((db, actions + more))
      else if Committable(v) then Success((v, actions + more))
      else Failure(ConstraintViolated)
  }

  function Seed(cipher: Cipher, db: Db, env: Env, dry: bool): Result<(Db, seq<Action>), SeedError> {
    SeedAll(cipher, db, DEFAULT_PROVIDERS, Systems(env), dry)
  }
}
