/** What the tables hold after a successful seed, in the columns of the environment, and that the
    reported actions are the differences between the tables before and after. Nothing here names
    the functions that merge or compare rows. */
module SeederColumns {
  import opened Wrappers
  import opened Secrets
  import opened ProviderSchema
  import opened SeederModel
  import opened SeederTheorems
  import opened SeederAcceptance
  import Ordering

  // ----- Rows before and after

  /** The live row of this name. */
  ghost predicate IsLive(db: Db, name: string, i: nat) {
    i in db.providers && db.providers[i].name == name && !db.providers[i].isDeleted
  }

  ghost predicate NoneLive(db: Db, name: string) {
    forall i :: !IsLive(db, name, i)
  }

  ghost predicate IsCredential(db: Db, name: string, i: nat) {
    i in db.credentials && db.credentials[i].name == name
  }

  ghost predicate NoCredential(db: Db, name: string) {
    forall i :: !IsCredential(db, name, i)
  }

  /** The stored text is the secret under the cipher, and there is none for no secret. */
  ghost predicate Holds(cipher: Cipher, stored: Option<string>, secret: string) {
    if secret == "" then stored == None || stored == Some("")
    else stored.Some? && stored.value != "" && cipher.decrypt(stored.value) == Plaintext(secret)
  }

  // ----- The Harbor section

  /** The provider and the credential of the Harbor environment, over what was there before. */
  ghost predicate HarborHeld(cipher: Cipher, db: Db, u: Db, env: HarborEnv, i: nat, c: nat) {
    && IsLive(u, "harbor-system", i) && IsCredential(u, "harbor-system-credential", c)
    && HarborProvider(db, u, env, i, c) && HarborCredential(cipher, db, u, env, c)
  }

  ghost predicate HarborProvider(db: Db, u: Db, env: HarborEnv, i: nat, c: nat)
    requires i in u.providers
  {
    var config := map["default_project" := JsonText(env.defaultProject), "robot_prefix" := JsonText("robot$"),
                      "projects_allowlist" := JsonTexts(env.allowlist)];
    if IsLive(db, "harbor-system", i) then
      u.providers[i] == db.providers[i].(
        caption := "Harbor (system)", baseUrl := Some(env.baseUrl), config := config, verifySsl := env.verifySsl,
        credentialId := Some(c), isDefault := true, isProtected := true)
    else
      && NoneLive(db, "harbor-system")
      && u.providers[i] == Provider("harbor-system", DockerDomain, HarborRegistry, SystemCategory, PublicVisible,
                                    Internal,
                                    "Harbor (system)", Some(env.baseUrl), config, Some(c), None, None,
                                    true, true, true, env.verifySsl, 0, 0, None, None, false, None, None, None)
  }

  ghost predicate HarborCredential(cipher: Cipher, db: Db, u: Db, env: HarborEnv, c: nat)
    requires c in u.credentials
  {
    var row := u.credentials[c];
    && row.username == Some(env.username) && row.baseUrl == Some(env.baseUrl)
    && Holds(cipher, row.encryptedSecret, env.password)
    && if IsCredential(db, "harbor-system-credential", c) then
         && row == db.credentials[c].(username := row.username, baseUrl := row.baseUrl,
                                      encryptedSecret := row.encryptedSecret)
         && (Holds(cipher, db.credentials[c].encryptedSecret, env.password) ==>
               row.encryptedSecret == db.credentials[c].encryptedSecret)
       else
         && NoCredential(db, "harbor-system-credential")
         && row == Credential("harbor-system-credential", HttpsBasic, "harbor", Some(env.username), row.encryptedSecret,
                              Some(env.baseUrl), 0, None, None, None)
  }

  // ----- The GitLab section

  ghost predicate GitlabHeld(cipher: Cipher, db: Db, u: Db, env: GitlabEnv, i: nat, c: nat) {
    && IsLive(u, "gitlab-system", i) && IsCredential(u, "gitlab-system-credential", c)
    && GitlabProvider(db, u, env, i, c) && GitlabCredential(cipher, db, u, env, c)
  }

  /** An existing row keeps its config and its TLS setting. */
  ghost predicate GitlabProvider(db: Db, u: Db, env: GitlabEnv, i: nat, c: nat)
    requires i in u.providers
  {
    if IsLive(db, "gitlab-system", i) then
      u.providers[i] == db.providers[i].(
        caption := "GitLab (system)", baseUrl := Some(env.baseUrl), credentialId := Some(c),
        isDefault := true, isProtected := true)
    else
      && NoneLive(db, "gitlab-system")
      && u.providers[i] == Provider("gitlab-system", GitDomain, GitlabGit, SystemCategory, OwnerVisible, Internal,
                                    "GitLab (system)", Some(env.baseUrl), map["api_version" := JsonText("v4")],
                                    Some(c), None, None, true, true, true, true, 0, 0, None, None,
                                    false, None, None, None)
  }

  ghost predicate GitlabCredential(cipher: Cipher, db: Db, u: Db, env: GitlabEnv, c: nat)
    requires c in u.credentials
  {
    var row := u.credentials[c];
    && row.username == Some(env.username) && row.baseUrl == Some(env.baseUrl)
    && Holds(cipher, row.encryptedSecret, env.token)
    && if IsCredential(db, "gitlab-system-credential", c) then
         && row == db.credentials[c].(username := row.username, baseUrl := row.baseUrl,
                                      encryptedSecret := row.encryptedSecret)
         && (Holds(cipher, db.credentials[c].encryptedSecret, env.token) ==>
               row.encryptedSecret == db.credentials[c].encryptedSecret)
       else
         && NoCredential(db, "gitlab-system-credential")
         && row == Credential("gitlab-system-credential", GitlabToken, "gitlab", Some(env.username),
                              row.encryptedSecret,
                              Some(env.baseUrl), 0, None, None, None)
  }

  // ----- The public section

  /** One of the four public providers: its declared row, or an older one relabelled and flagged. */
  ghost predicate PublicHeld(db: Db, u: Db, name: string, caption: string, domain: Domain, subtype: Subtype,
                             baseUrl: Option<string>, i: nat)
  {
    && IsLive(u, name, i)
    && if IsLive(db, name, i) then
         u.providers[i] == db.providers[i].(caption := caption, isDefault := true, isProtected := true)
       else
         && NoneLive(db, name)
         && u.providers[i] == Provider(name, domain, subtype, PublicCategory, PublicVisible, External, caption,
                                       baseUrl, map[],
                                       None, None, None, true, true, true, true, 0, 0, None, None,
                                       false, None, None, None)
  }

  // ----- What an upsert leaves

  lemma LiveIsNamed(db: Db, name: string)
    ensures forall i :: i in LiveNamed(db.providers, name) <==> IsLive(db, name, i)
    ensures LiveNamed(db.providers, name) == {} <==> NoneLive(db, name)
  {
    assert forall i :: i in LiveNamed(db.providers, name) <==> IsLive(db, name, i);
  }

  lemma CredentialIsNamed(db: Db, name: string)
    ensures forall i :: i in CredentialIdsNamed(db.credentials, name) <==> IsCredential(db, name, i)
    ensures CredentialIdsNamed(db.credentials, name) == {} <==> NoCredential(db, name)
  {
    assert forall i :: i in CredentialIdsNamed(db.credentials, name) <==> IsCredential(db, name, i);
  }

  /** The row an upsert leaves under the name: the wanted one where there was none, else the older
      one with the label, the flags and the owned columns of the wanted one. */
  ghost predicate Upserted(db: Db, u: Db, wanted: Provider, owned: Ownership, i: nat) {
    && IsLive(u, wanted.name, i)
    && if IsLive(db, wanted.name, i) then
         var row := db.providers[i];
         u.providers[i] == row.(
           caption := wanted.caption, isDefault := true, isProtected := true,
           baseUrl := if owned.baseUrl then wanted.baseUrl else row.baseUrl,
           config := if owned.config then wanted.config else row.config,
           credentialId := if owned.credential then wanted.credentialId else row.credentialId,
           verifySsl := if owned.verifySsl then wanted.verifySsl else row.verifySsl)
       else NoneLive(db, wanted.name) && u.providers[i] == wanted
  }

  lemma {:induction false} UpsertLeaves(u: Db, wanted: Provider, owned: Ownership) returns (i: nat)
    requires IdsBounded(u) && Wanted(wanted)
    ensures Upserted(u, UpsertProvider(u, wanted, owned, true, true).0, wanted, owned, i)
    ensures forall j :: IsLive(u, wanted.name, j) ==> i <= j
  {
    LiveIsNamed(u, wanted.name);
    var found := LiveNamed(u.providers, wanted.name);
    i := if found == {} then u.nextProvider else LeastOf(found);
  }

  /** The same, seen from databases that agree on the name before and after. */
  lemma UpsertedAround(db: Db, u: Db, v: Db, w: Db, wanted: Provider, owned: Ownership, i: nat)
    requires AgreeProvider(db, u, wanted.name) && AgreeProvider(v, w, wanted.name) && Upserted(u, v, wanted, owned, i)
    ensures Upserted(db, w, wanted, owned, i)
  {
    LiveIsNamed(db, wanted.name);
    LiveIsNamed(u, wanted.name);
    LiveIsNamed(v, wanted.name);
    LiveIsNamed(w, wanted.name);
    assert i in LiveNamed(v.providers, wanted.name);
    assert i in LiveNamed(u.providers, wanted.name) <==> i in LiveNamed(db.providers, wanted.name);
  }

  /** The credential a section leaves under its name. */
  ghost predicate CredentialUpserted(cipher: Cipher, db: Db, u: Db, s: System, c: nat) {
    && IsCredential(u, s.credential.name, c)
    && var row := u.credentials[c];
       && row.username == s.credential.username && row.baseUrl == s.credential.baseUrl
       && ReadSecret(cipher, row.encryptedSecret) == Success(s.secret)
       && if IsCredential(db, s.credential.name, c) then
            && row == db.credentials[c].(username := row.username, baseUrl := row.baseUrl,
                                         encryptedSecret := row.encryptedSecret)
            && (ReadSecret(cipher, db.credentials[c].encryptedSecret) == Success(s.secret) ==>
                  row.encryptedSecret == db.credentials[c].encryptedSecret)
          else
            NoCredential(db, s.credential.name) && row == s.credential.(encryptedSecret := row.encryptedSecret)
  }

  lemma {:induction false} CredentialLeaves(cipher: Cipher, u: Db, s: System) returns (c: nat)
    requires Lawful(cipher) && IdsBounded(u) && UpsertCredential(cipher, u, s, false).Success?
    ensures var (v, id, _) := UpsertCredential(cipher, u, s, false).value;
      id == Some(c) && CredentialUpserted(cipher, u, v, s, c)
  {
    CredentialIsNamed(u, s.credential.name);
    EncryptedReads(cipher, s.secret, u.clock);
    c := UpsertCredential(cipher, u, s, false).value.1.value;
  }

  lemma CredentialAround(cipher: Cipher, db: Db, u: Db, v: Db, w: Db, s: System, c: nat)
    requires AgreeCredential(db, u, s.credential.name) && AgreeCredential(v, w, s.credential.name)
    requires CredentialUpserted(cipher, u, v, s, c)
    ensures CredentialUpserted(cipher, db, w, s, c)
  {
    CredentialIsNamed(db, s.credential.name);
    CredentialIsNamed(u, s.credential.name);
    CredentialIsNamed(v, s.credential.name);
    CredentialIsNamed(w, s.credential.name);
    assert c in CredentialIdsNamed(v.credentials, s.credential.name);
    assert c in CredentialIdsNamed(u.credentials, s.credential.name)
      <==> c in CredentialIdsNamed(db.credentials, s.credential.name);
  }

  /** Provider and credential of a section together. */
  ghost predicate SectionHeld(cipher: Cipher, db: Db, u: Db, s: System, i: nat, c: nat) {
    Upserted(db, u, s.provider.(credentialId := Some(c)), s.owned, i) && CredentialUpserted(cipher, db, u, s, c)
  }

  lemma {:induction false} SectionLeaves(cipher: Cipher, u: Db, s: System) returns (i: nat, c: nat)
    requires Lawful(cipher) && IdsBounded(u) && Wanted(s.provider) && SeedSystem(cipher, u, s, false).Success?
    ensures SectionHeld(cipher, u, SeedSystem(cipher, u, s, false).value.0, s, i, c)
  {
    hide UpsertProvider, Upserted, CredentialUpserted;
    CredentialSettles(cipher, u, s);
    c := CredentialLeaves(cipher, u, s);
    var t := UpsertCredential(cipher, u, s, false).value.0;
    var wanted := s.provider.(credentialId := Some(c));
    i := UpsertLeaves(t, wanted, s.owned);
    var v := UpsertProvider(t, wanted, s.owned, true, true).0;
    UpsertLeavesCredentials(t, wanted, s.owned);
    UpsertedAround(u, t, v, v, wanted, s.owned, i);
    CredentialAround(cipher, u, u, t, v, s, c);
  }

  lemma SectionAround(cipher: Cipher, db: Db, u: Db, v: Db, w: Db, s: System, i: nat, c: nat)
    requires AgreeSystem(db, u, s) && AgreeSystem(v, w, s) && SectionHeld(cipher, u, v, s, i, c)
    ensures SectionHeld(cipher, db, w, s, i, c)
  {
    hide Upserted, CredentialUpserted;
    UpsertedAround(db, u, v, w, s.provider.(credentialId := Some(c)), s.owned, i);
    CredentialAround(cipher, db, u, v, w, s, c);
  }

  // ----- Over the whole seed

  ghost predicate SystemHeld(cipher: Cipher, db: Db, u: Db, s: System) {
    exists i, c :: SectionHeld(cipher, db, u, s, i, c)
  }

  ghost predicate SpecHeld(db: Db, u: Db, spec: Provider) {
    exists i :: Upserted(db, u, spec, PUBLIC_FIELDS, i)
  }

  lemma {:induction false} PublicLeaves(db: Db, specs: seq<Provider>, k: nat)
    requires IdsBounded(db) && DistinctNames(specs) && AllWanted(specs) && k < |specs|
    ensures SpecHeld(db, SeedPublic(db, specs, false).0, specs[k])
  {
    hide UpsertProvider, Upserted, Wanted;
    var n := |specs| - 1;
    var u := SeedPublic(db, specs[..n], false).0;
    PublicBounded(db, specs[..n], false);
    if k < n {
      PublicLeaves(db, specs[..n], k);
      var i :| Upserted(db, u, specs[k], PUBLIC_FIELDS, i);
      UpsertElsewhere(u, specs[n], PUBLIC_FIELDS, true, true, specs[k].name);
      SameProvider(db, specs[k].name);
      UpsertedAround(db, db, u, SeedPublic(db, specs, false).0, specs[k], PUBLIC_FIELDS, i);
    } else {
      PublicElsewhere(db, specs[..n], false, specs[n].name);
      var i := UpsertLeaves(u, specs[n], PUBLIC_FIELDS);
      var v := SeedPublic(db, specs, false).0;
      SameProvider(v, specs[n].name);
      UpsertedAround(db, u, v, v, specs[n], PUBLIC_FIELDS, i);
    }
  }

  lemma SameProvider(db: Db, name: string)
    ensures AgreeProvider(db, db, name)
  {
  }

  lemma {:induction false} SystemsLeave(cipher: Cipher, db: Db, systems: seq<System>, k: nat)
    requires Lawful(cipher) && IdsBounded(db) && DistinctSystems(systems) && k < |systems|
    requires SeedSystems(cipher, db, systems, false).Success?
    ensures SystemHeld(cipher, db, SeedSystems(cipher, db, systems, false).value.0, systems[k])
  {
    hide SeedSystem, SectionHeld, AgreeProvider, AgreeCredential;
    var n := |systems| - 1;
    var init, last := systems[..n], systems[n];
    var u := SeedSystems(cipher, db, init, false).value.0;
    var v := SeedSystems(cipher, db, systems, false).value.0;
    SystemsElsewhere(cipher, db, init, false, last.provider.name, last.credential.name);
    if k < n {
      SystemsLeave(cipher, db, init, k);
      var i, c :| SectionHeld(cipher, db, u, init[k], i, c);
      SystemElsewhere(cipher, u, last, false, systems[k].provider.name, systems[k].credential.name);
      SameSystem(db, systems[k]);
      SectionAround(cipher, db, db, u, v, systems[k], i, c);
    } else {
      var i, c := SectionLeaves(cipher, u, last);
      SameSystem(v, last);
      SectionAround(cipher, db, u, v, v, last, i, c);
    }
  }

  lemma SameSystem(db: Db, s: System)
    ensures AgreeSystem(db, db, s)
  {
  }

  /** Where the whole seed applied, every section's rows are in the final tables, over the first. */
  lemma {:induction false} SeedLeaves(cipher: Cipher, db: Db, specs: seq<Provider>, systems: seq<System>)
    requires Lawful(cipher) && IdsBounded(db) && DistinctSections(specs, systems)
    requires SeedAll(cipher, db, specs, systems, false).Success?
    ensures var u := SeedAll(cipher, db, specs, systems, false).value.0;
      && (forall k :: 0 <= k < |specs| ==> SpecHeld(db, u, specs[k]))
      && (forall k :: 0 <= k < |systems| ==> SystemHeld(cipher, db, u, systems[k]))
  {
    hide SeedPublic, SeedSystems, SectionHeld, Upserted, AgreeProvider, AgreeCredential, AllWanted;
    var p := SeedPublic(db, specs, false).0;
    var u := SeedAll(cipher, db, specs, systems, false).value.0;
    PublicBounded(db, specs, false);
    PublicLeavesSystems(db, specs, systems);
    forall k | 0 <= k < |specs| ensures SpecHeld(db, u, specs[k]) {
      PublicLeaves(db, specs, k);
      var i :| Upserted(db, p, specs[k], PUBLIC_FIELDS, i);
      forall j | 0 <= j < |systems| ensures systems[j].provider.name != specs[k].name {
        assert NotAmong(systems[j].provider.name, specs);
      }
      SystemsElsewhere(cipher, p, systems, false, specs[k].name, "");
      SameProvider(db, specs[k].name);
      UpsertedAround(db, db, p, u, specs[k], PUBLIC_FIELDS, i);
    }
    forall k | 0 <= k < |systems| ensures SystemHeld(cipher, db, u, systems[k]) {
      SystemsLeave(cipher, p, systems, k);
      var i, c :| SectionHeld(cipher, p, u, systems[k], i, c);
      assert AgreeSystem(db, p, systems[k]);
      SameSystem(u, systems[k]);
      SectionAround(cipher, db, p, u, u, systems[k], i, c);
    }
  }

  lemma HoldsRead(cipher: Cipher, stored: Option<string>, secret: string)
    ensures ReadSecret(cipher, stored) == Success(if secret == "" then None else Some(secret)) <==>
      Holds(cipher, stored, secret)
  {
  }

  lemma {:induction false} HarborRead(cipher: Cipher, db: Db, u: Db, env: HarborEnv, i: nat, c: nat)
    requires SectionHeld(cipher, db, u, HarborSystem(env), i, c)
    ensures HarborHeld(cipher, db, u, env, i, c)
  {
    hide ReadSecret, Holds, IsLive, NoneLive, IsCredential, NoCredential;
    assert IsLive(u, "harbor-system", i) && IsCredential(u, "harbor-system-credential", c);
    InTables(u, "harbor-system", "harbor-system-credential", i, c);
    HoldsRead(cipher, u.credentials[c].encryptedSecret, env.password);
    if IsCredential(db, "harbor-system-credential", c) {
      CredentialInTable(db, "harbor-system-credential", c);
      HoldsRead(cipher, db.credentials[c].encryptedSecret, env.password);
    }
  }

  lemma {:induction false} GitlabRead(cipher: Cipher, db: Db, u: Db, env: GitlabEnv, i: nat, c: nat)
    requires env.token != "" && SectionHeld(cipher, db, u, GitlabSystem(env), i, c)
    ensures GitlabHeld(cipher, db, u, env, i, c)
  {
    hide ReadSecret, Holds, IsLive, NoneLive, IsCredential, NoCredential;
    assert IsLive(u, "gitlab-system", i) && IsCredential(u, "gitlab-system-credential", c);
    InTables(u, "gitlab-system", "gitlab-system-credential", i, c);
    HoldsRead(cipher, u.credentials[c].encryptedSecret, env.token);
    if IsCredential(db, "gitlab-system-credential", c) {
      CredentialInTable(db, "gitlab-system-credential", c);
      HoldsRead(cipher, db.credentials[c].encryptedSecret, env.token);
    }
  }

  lemma InTables(u: Db, name: string, credential: string, i: nat, c: nat)
    requires IsLive(u, name, i) && IsCredential(u, credential, c)
    ensures i in u.providers && c in u.credentials
  {
  }

  lemma CredentialInTable(db: Db, name: string, c: nat)
    requires IsCredential(db, name, c)
    ensures c in db.credentials
  {
  }

  /** After every successful apply the four public rows carry their labels and flags, the Harbor row
      the environment's address, config, TLS setting and credential, the GitLab row its address and
      credential, and the two credentials the environment's user, address and secret; nothing else
      of an older row is changed, and a secret that was right is not encrypted again. */
  lemma {:induction false} SeedHolds(cipher: Cipher, db: Db, env: Env)
    requires Lawful(cipher) && IdsBounded(db) && Seed(cipher, db, env, false).Success?
    requires env.gitlab.Some? ==> env.gitlab.value.token != ""
    ensures var u := Seed(cipher, db, env, false).value.0;
      && (exists i :: PublicHeld(db, u, "github-anonymous", "GitHub (anonymous)", GitDomain, GithubGit,
                                 Some("https://api.github.com"), i))
      && (exists i :: PublicHeld(db, u, "gitlab-anonymous", "GitLab (anonymous)", GitDomain, GitlabGit,
                                 Some("https://gitlab.com"), i))
      && (exists i :: PublicHeld(db, u, "generic-anonymous", "Generic Git (anonymous)", GitDomain, GenericGit, None, i))
      && (exists i :: PublicHeld(db, u, "dockerhub-anonymous", "Docker Hub (anonymous)", DockerDomain, DockerHub,
                                 Some("https://registry-1.docker.io"), i))
      && (env.harbor.Some? ==> exists i, c :: HarborHeld(cipher, db, u, env.harbor.value, i, c))
      && (env.gitlab.Some? ==> exists i, c :: GitlabHeld(cipher, db, u, env.gitlab.value, i, c))
  {
    hide SeedAll, SectionHeld, DistinctSections, HarborHeld, GitlabHeld, Upserted, PublicHeld, HarborSystem,
        GitlabSystem;
    SeedNames(env);
    SeedLeaves(cipher, db, DEFAULT_PROVIDERS, Systems(env));
    var u := Seed(cipher, db, env, false).value.0;
    PublicRead(db, u, 0, "github-anonymous", "GitHub (anonymous)", GitDomain, GithubGit,
               Some("https://api.github.com"));
    PublicRead(db, u, 1, "gitlab-anonymous", "GitLab (anonymous)", GitDomain, GitlabGit, Some("https://gitlab.com"));
    PublicRead(db, u, 2, "generic-anonymous", "Generic Git (anonymous)", GitDomain, GenericGit, None);
    PublicRead(db, u, 3, "dockerhub-anonymous", "Docker Hub (anonymous)", DockerDomain, DockerHub,
               Some("https://registry-1.docker.io"));
    if env.harbor.Some? {
      assert Systems(env)[0] == HarborSystem(env.harbor.value);
      var i, c :| SectionHeld(cipher, db, u, Systems(env)[0], i, c);
      HarborRead(cipher, db, u, env.harbor.value, i, c);
    }
    if env.gitlab.Some? {
      var n := |Systems(env)| - 1;
      assert Systems(env)[n] == GitlabSystem(env.gitlab.value);
      var i, c :| SectionHeld(cipher, db, u, Systems(env)[n], i, c);
      GitlabRead(cipher, db, u, env.gitlab.value, i, c);
    }
  }

  lemma {:induction false} PublicRead(db: Db, u: Db, k: nat, name: string, caption: string, domain: Domain,
                                      subtype: Subtype,
                                      baseUrl: Option<string>)
    requires k < |DEFAULT_PROVIDERS| && SpecHeld(db, u, DEFAULT_PROVIDERS[k])
    requires DEFAULT_PROVIDERS[k] == NewProvider(name, caption, domain, subtype, PublicCategory, PublicVisible,
                                                 External,
                                                 baseUrl, map[], true)
    ensures exists i :: PublicHeld(db, u, name, caption, domain, subtype, baseUrl, i)
  {
    var i :| Upserted(db, u, DEFAULT_PROVIDERS[k], PUBLIC_FIELDS, i);
    assert PublicHeld(db, u, name, caption, domain, subtype, baseUrl, i);
  }

  // ----- The reported actions are the differences

  /** The columns in which two rows differ, among those a seed may write. */
  function Differences(before: Provider, after: Provider): set<string> {
    (if before.caption != after.caption then {"label"} else {})
    + ConnectionDifferences(before, after)
    + (if before.isProtected != after.isProtected then {"is_protected"} else {})
    + (if before.isDefault != after.isDefault then {"is_default"} else {})
  }

  function ConnectionDifferences(before: Provider, after: Provider): set<string> {
    (if before.baseUrl != after.baseUrl then {"base_url"} else {})
    + (if before.config != after.config then {"config"} else {})
    + (if before.credentialId != after.credentialId then {"credential_id"} else {})
    + (if before.verifySsl != after.verifySsl then {"verify_ssl"} else {})
  }

  function CredentialDifferences(before: Credential, after: Credential): set<string> {
    (if before.username != after.username then {"username"} else {})
    + (if before.baseUrl != after.baseUrl then {"base_url"} else {})
    + (if before.encryptedSecret != after.encryptedSecret then {"encrypted_secret"} else {})
  }

  function Report(name: string, differences: set<string>): seq<Action> {
    if differences == {} then [] else [Update(name, Ordering.Sorted(differences))]
  }

  /** A creation where no live row bore the name, else the columns that changed. */
  function ProviderReport(db: Db, u: Db, name: string): seq<Action> {
    var found := LiveNamed(db.providers, name);
    if found == {} then [Create(name)]
    else if LeastOf(found) in u.providers
    then Report(name, Differences(db.providers[LeastOf(found)], u.providers[LeastOf(found)])) else []
  }

  function CredentialReport(db: Db, u: Db, name: string): seq<Action> {
    var found := CredentialIdsNamed(db.credentials, name);
    if found == {} then [Create(name)]
    else if LeastOf(found) in u.credentials
    then Report(name, CredentialDifferences(db.credentials[LeastOf(found)], u.credentials[LeastOf(found)])) else []
  }

  /** The fields named in a report, and the set a single test contributes to. */
  function Fields(names: seq<string>): set<string> {
    set f | f in names
  }

  function IfSo(differs: bool, name: string): seq<string> {
    if differs then [name] else []
  }

  lemma FieldsJoin(s: seq<string>, t: seq<string>)
    ensures Fields(s + t) == Fields(s) + Fields(t) && (Fields(s) == {} <==> s == [])
  {
    assert s != [] ==> s[0] in Fields(s);
  }

  lemma FieldsIf(differs: bool, name: string)
    ensures Fields(IfSo(differs, name)) == if differs then {name} else {}
  {
  }

  lemma {:induction false} ConnectionDiffers(owned: Ownership, wanted: Provider, row: Provider)
    ensures Fields(ConnectionFields(owned, wanted, row)) == ConnectionDifferences(row, Merged(owned, wanted, row))
  {
    var after := Merged(owned, wanted, row);
    var b, c := IfSo(row.baseUrl != after.baseUrl, "base_url"), IfSo(row.config != after.config, "config");
    var d, e := IfSo(row.credentialId != after.credentialId, "credential_id"),
        IfSo(row.verifySsl != after.verifySsl, "verify_ssl");
    assert ConnectionFields(owned, wanted, row) == b + c + d + e;
    hide Fields, Merged, ConnectionFields;
    FieldsIf(row.baseUrl != after.baseUrl, "base_url");
    FieldsIf(row.config != after.config, "config");
    FieldsIf(row.credentialId != after.credentialId, "credential_id");
    FieldsIf(row.verifySsl != after.verifySsl, "verify_ssl");
    hide IfSo;
    FieldsJoin(b, c);
    FieldsJoin(b + c, d);
    FieldsJoin(b + c + d, e);
  }

  lemma ChangedParts(owned: Ownership, wanted: Provider, row: Provider)
    ensures var after := Merged(owned, wanted, row);
      && ChangedFields(owned, wanted, row) ==
           IfSo(row.caption != after.caption, "label") + ConnectionFields(owned, wanted, row)
           + IfSo(row.isProtected != after.isProtected, "is_protected") + IfSo(row.isDefault != after.isDefault,
               "is_default")
  {
    hide ConnectionFields;
  }

  lemma {:induction false} FieldsDiffer(owned: Ownership, wanted: Provider, row: Provider)
    ensures Fields(ChangedFields(owned, wanted, row)) == Differences(row, Merged(owned, wanted, row))
    ensures ChangedFields(owned, wanted, row) == [] <==> Differences(row, Merged(owned, wanted, row)) == {}
  {
    hide Fields, Merged, ConnectionFields, ConnectionDifferences, ChangedFields, IfSo;
    var after := Merged(owned, wanted, row);
    var caption, connection := IfSo(row.caption != after.caption, "label"), ConnectionFields(owned, wanted, row);
    var guard := IfSo(row.isProtected != after.isProtected, "is_protected");
    var default := IfSo(row.isDefault != after.isDefault, "is_default");
    ChangedParts(owned, wanted, row);
    ConnectionDiffers(owned, wanted, row);
    FieldsIf(row.caption != after.caption, "label");
    FieldsIf(row.isProtected != after.isProtected, "is_protected");
    FieldsIf(row.isDefault != after.isDefault, "is_default");
    FieldsJoin(caption, connection);
    FieldsJoin(caption + connection, guard);
    FieldsJoin(caption + connection + guard, default);
    assert Fields(caption + connection + guard + default)
      == Fields(caption) + Fields(connection) + Fields(guard) + Fields(default);
    FieldsJoin(ChangedFields(owned, wanted, row), []);
  }

  lemma {:induction false} UpsertReports(u: Db, wanted: Provider, owned: Ownership)
    ensures UpsertProvider(u, wanted, owned, true, true).1 ==
      ProviderReport(u, UpsertProvider(u, wanted, owned, true, true).0, wanted.name)
  {
    hide ChangedFields, Merged, Differences;
    var found := LiveNamed(u.providers, wanted.name);
    if found != {} {
      FieldsDiffer(owned, wanted, u.providers[LeastOf(found)]);
    }
  }

  lemma {:induction false} ReportAround(db: Db, u: Db, v: Db, w: Db, name: string)
    requires AgreeProvider(db, u, name) && AgreeProvider(v, w, name)
    requires LiveNamed(u.providers, name) <= LiveNamed(v.providers, name)
    ensures ProviderReport(db, w, name) == ProviderReport(u, v, name)
  {
    hide Report;
    var found := LiveNamed(u.providers, name);
    if found != {} {
      assert LeastOf(found) in found && LeastOf(found) in LiveNamed(v.providers, name);
    }
  }

  lemma {:induction false} UpsertKeepsLive(u: Db, wanted: Provider, owned: Ownership)
    requires IdsBounded(u)
    ensures LiveNamed(u.providers, wanted.name)
      <= LiveNamed(UpsertProvider(u, wanted, owned, true, true).0.providers, wanted.name)
  {
    var found := LiveNamed(u.providers, wanted.name);
    if found != {} {
      MergedKeeps(owned, wanted, u.providers[LeastOf(found)]);
    }
  }

  lemma {:induction false} CredentialReports(cipher: Cipher, u: Db, s: System)
    requires Lawful(cipher) && IdsBounded(u) && UpsertCredential(cipher, u, s, false).Success?
    ensures var (v, _, actions) := UpsertCredential(cipher, u, s, false).value;
      && actions == CredentialReport(u, v, s.credential.name)
      && CredentialIdsNamed(u.credentials, s.credential.name) <= CredentialIdsNamed(v.credentials, s.credential.name)
  {
    var found := CredentialIdsNamed(u.credentials, s.credential.name);
    if found != {} {
      var row := u.credentials[LeastOf(found)];
      var plain := ReadSecret(cipher, row.encryptedSecret).value;
      EncryptedReads(cipher, s.secret, u.clock);
      CredentialFieldsDiffer(cipher, s, plain, u.clock, row);
    }
  }

  lemma CredentialFieldsDiffer(cipher: Cipher, s: System, plain: Option<string>, now: nat, row: Credential)
    requires ReadSecret(cipher, row.encryptedSecret) == Success(plain)
    requires ReadSecret(cipher, Encrypted(cipher, s.secret, now)) == Success(s.secret)
    ensures var fields, after := ChangedCredential(s, plain, row), MergedCredential(cipher, s, plain, now, row);
      && (set f | f in fields) == CredentialDifferences(row, after)
      && (fields == [] <==> CredentialDifferences(row, after) == {})
  {
    var fields := ChangedCredential(s, plain, row);
    assert forall f :: f in fields <==>
      || (f == "username" && row.username != s.credential.username)
      || (f == "base_url" && row.baseUrl != s.credential.baseUrl)
      || (f == "encrypted_secret" && plain != s.secret);
    assert fields != [] ==> fields[0] in fields;
  }

  lemma {:induction false} CredentialReportAround(db: Db, u: Db, v: Db, w: Db, name: string)
    requires AgreeCredential(db, u, name) && AgreeCredential(v, w, name)
    requires CredentialIdsNamed(u.credentials, name) <= CredentialIdsNamed(v.credentials, name)
    ensures CredentialReport(db, w, name) == CredentialReport(u, v, name)
  {
    hide Report;
    var found := CredentialIdsNamed(u.credentials, name);
    if found != {} {
      assert LeastOf(found) in found && LeastOf(found) in CredentialIdsNamed(v.credentials, name);
    }
  }

  /** Both reports of a system section. */
  function SectionReport(db: Db, u: Db, s: System): seq<Action> {
    CredentialReport(db, u, s.credential.name) + ProviderReport(db, u, s.provider.name)
  }

  lemma {:induction false} SectionReports(cipher: Cipher, u: Db, s: System)
    requires Lawful(cipher) && IdsBounded(u) && SeedSystem(cipher, u, s, false).Success?
    ensures var (v, actions) := SeedSystem(cipher, u, s, false).value;
      && actions == SectionReport(u, v, s)
      && LiveNamed(u.providers, s.provider.name) <= LiveNamed(v.providers, s.provider.name)
      && CredentialIdsNamed(u.credentials, s.credential.name) <= CredentialIdsNamed(v.credentials, s.credential.name)
  {
    hide UpsertProvider, ProviderReport, CredentialReport;
    CredentialSettles(cipher, u, s);
    CredentialReports(cipher, u, s);
    var (t, id, _) := UpsertCredential(cipher, u, s, false).value;
    var wanted := s.provider.(credentialId := id);
    var v := UpsertProvider(t, wanted, s.owned, true, true).0;
    UpsertReports(t, wanted, s.owned);
    UpsertKeepsLive(t, wanted, s.owned);
    UpsertLeavesCredentials(t, wanted, s.owned);
    ReportAround(u, t, v, v, s.provider.name);
    CredentialReportAround(u, u, t, v, s.credential.name);
  }

  function PublicReports(db: Db, u: Db, specs: seq<Provider>): seq<Action> {
    if specs == [] then []
    else PublicReports(db, u, specs[..|specs| - 1]) + ProviderReport(db, u, specs[|specs| - 1].name)
  }

  function SystemReports(db: Db, u: Db, systems: seq<System>): seq<Action> {
    if systems == [] then []
    else SystemReports(db, u, systems[..|systems| - 1]) + SectionReport(db, u, systems[|systems| - 1])
  }

  /** The live rows under the specs' names stay live, and the databases agree on them. */
  ghost predicate SameSpecs(u: Db, v: Db, specs: seq<Provider>) {
    forall k :: 0 <= k < |specs| ==> AgreeProvider(u, v, specs[k].name)
  }

  ghost predicate KeepsSpecs(db: Db, u: Db, specs: seq<Provider>) {
    forall k :: 0 <= k < |specs| ==> LiveNamed(db.providers, specs[k].name) <= LiveNamed(u.providers, specs[k].name)
  }

  lemma {:induction false} PublicReportsAround(db: Db, u: Db, w: Db, specs: seq<Provider>)
    requires SameSpecs(u, w, specs) && KeepsSpecs(db, u, specs)
    ensures PublicReports(db, w, specs) == PublicReports(db, u, specs)
  {
    hide AgreeProvider, ProviderReport;
    if specs != [] {
      var n := |specs| - 1;
      assert forall k :: 0 <= k < n ==> specs[..n][k] == specs[k];
      PublicReportsAround(db, u, w, specs[..n]);
      SameProvider(db, specs[n].name);
      ReportAround(db, db, u, w, specs[n].name);
    }
  }

  lemma {:induction false} PublicReported(db: Db, specs: seq<Provider>)
    requires IdsBounded(db) && DistinctNames(specs)
    ensures var (u, actions) := SeedPublic(db, specs, false);
      actions == PublicReports(db, u, specs) && KeepsSpecs(db, u, specs)
  {
    hide UpsertProvider, AgreeProvider, ProviderReport, LiveNamed;
    if specs != [] {
      var n := |specs| - 1;
      var init, last := specs[..n], specs[n];
      PublicReported(db, init);
      PublicBounded(db, init, false);
      PublicElsewhere(db, init, false, last.name);
      var u, v := SeedPublic(db, init, false).0, SeedPublic(db, specs, false).0;
      UpsertReports(u, last, PUBLIC_FIELDS);
      UpsertKeepsLive(u, last, PUBLIC_FIELDS);
      SameProvider(v, last.name);
      ReportAround(db, u, v, v, last.name);
      forall k | 0 <= k < n ensures AgreeProvider(u, v, init[k].name) && init[k] == specs[k] {
        UpsertElsewhere(u, last, PUBLIC_FIELDS, true, true, init[k].name);
      }
      PublicReportsAround(db, u, v, init);
      LiveAgree(db, u, last.name);
      forall k | 0 <= k < n ensures LiveNamed(db.providers, specs[k].name) <= LiveNamed(v.providers, specs[k].name) {
        LiveAgree(u, v, init[k].name);
      }
    }
  }

  lemma LiveAgree(u: Db, v: Db, name: string)
    requires AgreeProvider(u, v, name)
    ensures LiveNamed(u.providers, name) == LiveNamed(v.providers, name)
  {
  }

  lemma CredentialAgree(u: Db, v: Db, name: string)
    requires AgreeCredential(u, v, name)
    ensures CredentialIdsNamed(u.credentials, name) == CredentialIdsNamed(v.credentials, name)
  {
  }

  ghost predicate KeepsSystem(db: Db, u: Db, s: System) {
    && LiveNamed(db.providers, s.provider.name) <= LiveNamed(u.providers, s.provider.name)
    && CredentialIdsNamed(db.credentials, s.credential.name) <= CredentialIdsNamed(u.credentials, s.credential.name)
  }

  ghost predicate KeepsSystems(db: Db, u: Db, systems: seq<System>) {
    forall k :: 0 <= k < |systems| ==> KeepsSystem(db, u, systems[k])
  }

  lemma {:induction false} SystemReportsAround(db: Db, u: Db, w: Db, systems: seq<System>)
    requires AgreeSystems(u, w, systems) && KeepsSystems(db, u, systems)
    ensures SystemReports(db, w, systems) == SystemReports(db, u, systems) && KeepsSystems(db, w, systems)
  {
    hide AgreeProvider, AgreeCredential, ProviderReport, CredentialReport, LiveNamed;
    if systems != [] {
      var n := |systems| - 1;
      assert forall k :: 0 <= k < n ==> systems[..n][k] == systems[k];
      SystemReportsAround(db, u, w, systems[..n]);
      assert AgreeSystem(u, w, systems[n]) && KeepsSystem(db, u, systems[n]);
      SectionReportAround(db, db, u, w, systems[n]);
    }
  }

  lemma {:induction false} SectionReportAround(db: Db, u: Db, v: Db, w: Db, s: System)
    requires AgreeSystem(db, u, s) || db == u
    requires AgreeSystem(v, w, s) && KeepsSystem(u, v, s)
    ensures SectionReport(db, w, s) == SectionReport(u, v, s) && KeepsSystem(db, w, s)
  {
    hide ProviderReport, CredentialReport;
    SameSystem(db, s);
    ReportAround(db, u, v, w, s.provider.name);
    CredentialReportAround(db, u, v, w, s.credential.name);
    LiveAgree(v, w, s.provider.name);
    CredentialAgree(v, w, s.credential.name);
    LiveAgree(db, u, s.provider.name);
    CredentialAgree(db, u, s.credential.name);
  }

  lemma {:induction false} SystemsReported(cipher: Cipher, db: Db, systems: seq<System>)
    requires Lawful(cipher) && IdsBounded(db) && DistinctSystems(systems)
      && SeedSystems(cipher, db, systems, false).Success?
    ensures var (u, actions) := SeedSystems(cipher, db, systems, false).value;
      actions == SystemReports(db, u, systems) && KeepsSystems(db, u, systems)
  {
    hide SeedSystem, AgreeProvider, AgreeCredential, SectionReport, KeepsSystem;
    if systems != [] {
      var n := |systems| - 1;
      var init, last := systems[..n], systems[n];
      SystemsReported(cipher, db, init);
      SystemsElsewhere(cipher, db, init, false, last.provider.name, last.credential.name);
      var u, v := SeedSystems(cipher, db, init, false).value.0, SeedSystems(cipher, db, systems, false).value.0;
      SectionReports(cipher, u, last);
      KeptBySection(cipher, u, v, last);
      SameSystem(v, last);
      SectionReportAround(db, u, v, v, last);
      forall k | 0 <= k < n ensures AgreeSystem(u, v, init[k]) && init[k] == systems[k] {
        SystemElsewhere(cipher, u, last, false, init[k].provider.name, init[k].credential.name);
      }
      SystemReportsAround(db, u, v, init);
    }
  }

  lemma KeptBySection(cipher: Cipher, u: Db, v: Db, s: System)
    requires LiveNamed(u.providers, s.provider.name) <= LiveNamed(v.providers, s.provider.name)
    requires CredentialIdsNamed(u.credentials, s.credential.name) <= CredentialIdsNamed(v.credentials,
      s.credential.name)
    ensures KeepsSystem(u, v, s)
  {
  }

  lemma {:induction false} AllReported(cipher: Cipher, db: Db, specs: seq<Provider>, systems: seq<System>)
    requires Lawful(cipher) && IdsBounded(db) && DistinctSections(specs, systems)
    requires SeedAll(cipher, db, specs, systems, false).Success?
    ensures var (u, actions) := SeedAll(cipher, db, specs, systems, false).value;
      actions == PublicReports(db, u, specs) + SystemReports(db, u, systems)
  {
    hide SeedPublic, SeedSystems, PublicReports, SystemReports, AgreeProvider, AgreeCredential, LiveNamed, AllWanted;
    var p := SeedPublic(db, specs, false).0;
    var u := SeedAll(cipher, db, specs, systems, false).value.0;
    PublicBounded(db, specs, false);
    PublicLeavesSystems(db, specs, systems);
    PublicReported(db, specs);
    SystemsReported(cipher, p, systems);
    forall k | 0 <= k < |specs| ensures AgreeProvider(p, u, specs[k].name) {
      forall j | 0 <= j < |systems| ensures systems[j].provider.name != specs[k].name {
        assert NotAmong(systems[j].provider.name, specs);
      }
      SystemsElsewhere(cipher, p, systems, false, specs[k].name, "");
    }
    PublicReportsAround(db, p, u, specs);
    SystemReportsFrom(db, p, u, systems);
  }

  lemma {:induction false} SystemReportsFrom(db: Db, p: Db, u: Db, systems: seq<System>)
    requires AgreeSystems(db, p, systems) && KeepsSystems(p, u, systems)
    ensures SystemReports(db, u, systems) == SystemReports(p, u, systems)
  {
    hide SectionReport, KeepsSystem, AgreeProvider, AgreeCredential;
    if systems != [] {
      var n := |systems| - 1;
      assert forall k :: 0 <= k < n ==> systems[..n][k] == systems[k];
      SystemReportsFrom(db, p, u, systems[..n]);
      SameSystem(u, systems[n]);
      assert AgreeSystem(db, p, systems[n]) && KeepsSystem(p, u, systems[n]);
      SectionReportAround(db, p, u, u, systems[n]);
    }
  }

  /** What a successful apply reports is, name by name in order, a creation where there was no row,
      else exactly the columns in which the row differs before and after. */
  lemma {:induction false} SeedReports(cipher: Cipher, db: Db, env: Env)
    requires Lawful(cipher) && IdsBounded(db) && Seed(cipher, db, env, false).Success?
    ensures var (u, actions) := Seed(cipher, db, env, false).value;
      actions ==
        ProviderReport(db, u, "github-anonymous") + ProviderReport(db, u, "gitlab-anonymous")
        + ProviderReport(db, u, "generic-anonymous") + ProviderReport(db, u, "dockerhub-anonymous")
        + (if env.harbor.Some?
           then CredentialReport(db, u, "harbor-system-credential") + ProviderReport(db, u, "harbor-system") else [])
        + (if env.gitlab.Some?
           then CredentialReport(db, u, "gitlab-system-credential") + ProviderReport(db, u, "gitlab-system") else [])
  {
    hide SeedAll, DistinctSections, ProviderReport, CredentialReport, PublicReports, SystemReports;
    SeedNames(env);
    AllReported(cipher, db, DEFAULT_PROVIDERS, Systems(env));
    var u := Seed(cipher, db, env, false).value.0;
    FourReports(db, u, DEFAULT_PROVIDERS);
    TwoReports(db, u, env);
  }

  lemma FourReports(db: Db, u: Db, specs: seq<Provider>)
    requires |specs| == 4
    ensures PublicReports(db, u, specs) ==
      ProviderReport(db, u, specs[0].name) + ProviderReport(db, u, specs[1].name)
      + ProviderReport(db, u, specs[2].name) + ProviderReport(db, u, specs[3].name)
  {
    hide ProviderReport;
    assert specs[..3][..2] == specs[..2] && specs[..2][..1] == specs[..1] && specs[..1][..0] == [];
    assert PublicReports(db, u, specs[..1]) == ProviderReport(db, u, specs[0].name);
    assert PublicReports(db, u, specs[..2]) == ProviderReport(db, u, specs[0].name) + ProviderReport(db, u,
      specs[1].name);
  }

  lemma TwoReports(db: Db, u: Db, env: Env)
    ensures SystemReports(db, u, Systems(env)) ==
      (if env.harbor.Some?
       then CredentialReport(db, u, "harbor-system-credential") + ProviderReport(db, u, "harbor-system") else [])
      + (if env.gitlab.Some?
         then CredentialReport(db, u, "gitlab-system-credential") + ProviderReport(db, u, "gitlab-system") else [])
  {
    hide ProviderReport, CredentialReport;
    var systems := Systems(env);
    if |systems| == 2 {
      assert systems == [HarborSystem(env.harbor.value), GitlabSystem(env.gitlab.value)];
      assert systems[..1] == [systems[0]] && systems[..1][..0] == [];
      assert SystemReports(db, u, systems[..1]) == SectionReport(db, u, systems[0]);
    } else if env.harbor.Some? || env.gitlab.Some? {
      assert systems == [if env.harbor.Some? then HarborSystem(env.harbor.value) else GitlabSystem(env.gitlab.value)];
      assert systems[..0] == [];
      assert SystemReports(db, u, systems) == SectionReport(db, u, systems[0]);
    } else {
      assert systems == [];
    }
  }
}
