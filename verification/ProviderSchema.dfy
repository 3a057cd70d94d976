/** Rows of `resource_providers` and `credentials`, and the constraints the database puts on them. */
module ProviderSchema {
  import opened Wrappers

  datatype Domain = GitDomain | DockerDomain | HelmDomain

  datatype Subtype =
    | GithubGit | GitlabGit | GenericGit
    | DockerHub | Quay | Gcr | Ecr | Acr | Ghcr | HarborRegistry | GenericRegistry
    | HelmRepo

  datatype Category = SystemCategory | PublicCategory | PrivateCategory

  datatype Visibility = OwnerVisible | TeamVisible | PublicVisible

  datatype Direction = External | Internal

  datatype Json = JsonInt(number: int) | JsonText(text: string) | JsonTexts(texts: seq<string>)

  type Timestamp = int

  datatype Provider = Provider(
    name: string,
    domain: Domain, subtype: Subtype, category: Category, visibility: Visibility, direction: Direction,
    caption: string, baseUrl: Option<string>, config: map<string, Json>,
    credentialId: Option<nat>, ownerUserId: Option<nat>, teamId: Option<nat>,
    isActive: bool, isDefault: bool, isProtected: bool, verifySsl: bool, priority: int,
    statusFlag: int, statusText: Option<string>, lastCheckedAt: Option<Timestamp>,
    isDeleted: bool, deletedAt: Option<Timestamp>,
    createdAt: Option<Timestamp>, updatedAt: Option<Timestamp>)

  datatype CredentialType = GithubToken | GitlabToken | HttpsBasic | SshKey

  datatype Credential = Credential(
    name: string, credentialType: CredentialType, provider: string,
    username: Option<string>, encryptedSecret: Option<string>, baseUrl: Option<string>,
    statusFlag: int, statusText: Option<string>,
    createdAt: Option<Timestamp>, updatedAt: Option<Timestamp>)

  /** The key of the partial unique index `uq_default_per_scope`. */
  datatype Scope = Scope(domain: Domain, subtype: Subtype, category: Category, direction: Direction)

  function ScopeOf(p: Provider): Scope {
    Scope(p.domain, p.subtype, p.category, p.direction)
  }

  /** The row takes part in `uq_default_per_scope`. */
  predicate LiveDefault(p: Provider) {
    p.isDefault && !p.isDeleted
  }

  /** The three CHECK constraints on a provider row. */
  predicate MeetsChecks(p: Provider) {
    && (p.category == PrivateCategory ==> p.ownerUserId.Some?)
    && (p.visibility == TeamVisible ==> p.teamId.Some? && p.category == PrivateCategory)
    && (p.visibility == TeamVisible ==> p.ownerUserId.Some?)
  }

  /** `uq_default_per_scope`: two live default rows never share a scope. */
  predicate OneDefaultPerScope(providers: map<nat, Provider>) {
    forall i, j :: i in providers && j in providers && i != j
                   && LiveDefault(providers[i]) && LiveDefault(providers[j])
                   ==> ScopeOf(providers[i]) != ScopeOf(providers[j])
  }

  /** `uq_resource_providers_name`: names are unique among live rows. */
  predicate UniqueLiveNames(providers: map<nat, Provider>) {
    forall i, j :: i in providers && j in providers && i != j
                   && !providers[i].isDeleted && !providers[j].isDeleted
                   ==> providers[i].name != providers[j].name
  }

  predicate ProvidersWellFormed(providers: map<nat, Provider>) {
    && (forall i :: i in providers ==> MeetsChecks(providers[i]))
    && OneDefaultPerScope(providers)
    && UniqueLiveNames(providers)
  }

  predicate UniqueCredentialNames(credentials: map<nat, Credential>) {
    forall i, j :: i in credentials && j in credentials && i != j ==> credentials[i].name != credentials[j].name
  }

  /** PostgreSQL accepts the row as a new member of the table. */
  predicate Insertable(providers: map<nat, Provider>, p: Provider) {
    && MeetsChecks(p)
    && (LiveDefault(p) ==>
          forall i :: i in providers && LiveDefault(providers[i]) ==> ScopeOf(providers[i]) != ScopeOf(p))
    && (!p.isDeleted ==>
          forall i :: i in providers && !providers[i].isDeleted ==> providers[i].name != p.name)
  }

  // ----- SELECT id ... WHERE name = :name, first row

  predicate IsLeast(ids: set<nat>, least: nat) {
    least in ids && forall i :: i in ids ==> least <= i
  }

  function LeastOf(ids: set<nat>): (least: nat)
    requires ids != {}
    ensures IsLeast(ids, least)
  {
    LeastExists(ids);
    var least :| IsLeast(ids, least);
    least
  }

  lemma {:induction false} LeastExists(ids: set<nat>)
    requires ids != {}
    ensures exists least :: IsLeast(ids, least)
  {
    var x :| x in ids;
    var rest := ids - {x};
    assert forall i :: i in ids && i != x ==> i in rest;
    if rest == {} {
      assert IsLeast(ids, x);
    } else {
      LeastExists(rest);
      var y :| IsLeast(rest, y);
      assert IsLeast(ids, if x < y then x else y);
    }
  }

  function IdsNamed(providers: map<nat, Provider>, name: string): set<nat> {
    set i | i in providers && providers[i].name == name
  }

  function CredentialIdsNamed(credentials: map<nat, Credential>, name: string): set<nat> {
    set i | i in credentials && credentials[i].name == name
  }
}
