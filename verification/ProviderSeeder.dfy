/** `seed_providers` as it runs: a session whose rows are edited in place and committed or rolled
    back at the end. */
module ProviderSeeding {
  import opened Wrappers
  import opened Secrets
  import opened ProviderSchema
  import opened SeederModel

  class ProviderSeeder {
    const cipher: Cipher
    var providers: map<nat, Provider>
    var nextProvider: nat
    var credentials: map<nat, Credential>
    var nextCredential: nat
    var clock: nat

    constructor (cipher: Cipher)
      ensures this.cipher == cipher
    {
      this.cipher := cipher;
    }

    function View(): Db
      reads this
    {
      Db(providers, nextProvider, credentials, nextCredential, clock)
    }

    /** One iteration of the loop over the default providers. */
    method SeedDefault(spec: Provider, dry: bool) returns (actions: seq<Action>)
      modifies this`providers, this`nextProvider
      ensures (View(), actions) == UpsertProvider(old(View()), spec, PUBLIC_FIELDS, !dry, !dry)
    {
      var found := LiveNamed(providers, spec.name);
      if found == {} {
        if !dry {
          providers := providers[nextProvider := spec];
          nextProvider := nextProvider + 1;
        }
        return [Create(spec.name)];
      }
      var id := LeastOf(found);
      var row, updates := EditProvider(PUBLIC_FIELDS, spec, providers[id]);
      actions := UpdateAction(spec.name, updates);
      if !dry {
        providers := providers[id := row];
      }
    }

    /** The credential half of a system section, shared in shape by Harbor and GitLab. */
    method SeedCredential(s: System, dry: bool) returns (r: Result<(Option<nat>, seq<Action>), SeedError>)
      modifies this`credentials, this`nextCredential, this`clock
      ensures match UpsertCredential(cipher, old(View()), s, dry)
        case Failure(e) => r == Failure(e)
        case Success((u, id, actions)) => View() == u && r == Success((id, actions))
    {
      var found := CredentialIdsNamed(credentials, s.credential.name);
      var encrypted := Encrypted(cipher, s.secret, clock);
      clock := clock + 1;
      if found == {} {
        if dry {
          return Success((None, [Create(s.credential.name)]));
        }
        credentials := credentials[nextCredential := s.credential.(encryptedSecret := encrypted)];
        nextCredential := nextCredential + 1;
        return Success((Some(nextCredential - 1), [Create(s.credential.name)]));
      }
      var id := LeastOf(found);
      var row := credentials[id];
      ghost var stored := row;
      var changed: seq<string> := [];
      if row.username != s.credential.username {
        row := row.(username := s.credential.username);
        changed := changed + ["username"];
      }
      if row.baseUrl != s.credential.baseUrl {
        row := row.(baseUrl := s.credential.baseUrl);
        changed := changed + ["base_url"];
      }
      var plain := ReadSecret(cipher, row.encryptedSecret);
      if plain.Failure? {
        return Failure(plain.error);
      }
      if plain.value != s.secret {
        row := row.(encryptedSecret := encrypted);
        changed := changed + ["encrypted_secret"];
      }
      assert changed == ChangedCredential(s, plain.value, stored);
      assert row == MergedCredential(cipher, s, plain.value, old(clock), stored);
      credentials := credentials[id := row];
      r := Success((Some(id), UpdateAction(s.credential.name, changed)));
    }

    /** The provider half of a system section. */
    method SeedSystemProvider(s: System, credentialId: Option<nat>, dry: bool)
      returns (r: Result<seq<Action>, SeedError>)
      modifies this`providers, this`nextProvider
      ensures var wanted := s.provider.(credentialId := credentialId);
        if credentialId.None? && LiveNamed(old(providers), s.provider.name) != {} then
          r == Failure(MissingCredentialId)
        else
          var (u, actions) := UpsertProvider(old(View()), wanted, s.owned, !dry, true);
          View() == u && r == Success(actions)
    {
      var found := LiveNamed(providers, s.provider.name);
      if found == {} {
        if !dry {
          providers := providers[nextProvider := s.provider.(credentialId := credentialId)];
          nextProvider := nextProvider + 1;
        }
        return Success([Create(s.provider.name)]);
      }
      if credentialId.None? {
        return Failure(MissingCredentialId);
      }
      var id := LeastOf(found);
      var wanted := s.provider.(credentialId := credentialId);
      var row, changed := EditProvider(s.owned, wanted, providers[id]);
      providers := providers[id := row];
      r := Success(UpdateAction(s.provider.name, changed));
    }

    /** Field by field: the label, the fields the section owns, then the two flags. */
    static method EditProvider(owned: Ownership, wanted: Provider, existing: Provider)
      returns (row: Provider, changed: seq<string>)
      ensures row == Merged(owned, wanted, existing) && changed == ChangedFields(owned, wanted, existing)
    {
      row, changed := EditConnection(owned, wanted, existing);
      if existing.caption != wanted.caption {
        changed := ["label"] + changed;
        row := row.(caption := wanted.caption);
      }
      if !existing.isProtected {
        changed := changed + ["is_protected"];
        row := row.(isProtected := true);
      }
      if !existing.isDefault {
        changed := changed + ["is_default"];
        row := row.(isDefault := true);
      }
    }

    static method EditConnection(owned: Ownership, wanted: Provider, existing: Provider)
      returns (row: Provider, changed: seq<string>)
      ensures row == MergedConnection(owned, wanted, existing) && changed == ConnectionFields(owned, wanted, existing)
    {
      changed := [];
      var baseUrl, config := existing.baseUrl, existing.config;
      var credentialId, verifySsl := existing.credentialId, existing.verifySsl;
      if owned.baseUrl && baseUrl != wanted.baseUrl {
        baseUrl, changed := wanted.baseUrl, changed + ["base_url"];
      }
      ghost var first: seq<string> := if owned.baseUrl && existing.baseUrl != wanted.baseUrl then ["base_url"] else [];
      assert changed == first;
      if owned.config && config != wanted.config {
        config, changed := wanted.config, changed + ["config"];
      }
      ghost var second: seq<string> := if owned.config && existing.config != wanted.config then ["config"] else [];
      assert changed == first + second;
      if owned.credential && credentialId != wanted.credentialId {
        credentialId, changed := wanted.credentialId, changed + ["credential_id"];
      }
      if owned.verifySsl && verifySsl != wanted.verifySsl {
        verifySsl, changed := wanted.verifySsl, changed + ["verify_ssl"];
      }
      row := existing.(baseUrl := baseUrl, config := config, credentialId := credentialId, verifySsl := verifySsl);
    }

    method SeedSystemSection(s: System, dry: bool) returns (r: Result<seq<Action>, SeedError>)
      modifies this`providers, this`nextProvider, this`credentials, this`nextCredential, this`clock
      ensures match SeedSystem(cipher, old(View()), s, dry)
        case Failure(e) => r == Failure(e)
        case Success((u, actions)) => View() == u && r == Success(actions)
    {
      var credential := SeedCredential(s, dry);
      if credential.Failure? {
        return Failure(credential.error);
      }
      var provider := SeedSystemProvider(s, credential.value.0, dry);
      if provider.Failure? {
        return Failure(provider.error);
      }
      r := Success(credential.value.1 + provider.value);
    }

    method SeedSections(specs: seq<Provider>, systems: seq<System>, dry: bool)
      returns (r: Result<seq<Action>, SeedError>)
      modifies this`providers, this`nextProvider, this`credentials, this`nextCredential, this`clock
      ensures var (u, actions) := SeedPublic(old(View()), specs, dry);
        match SeedSystems(cipher, u, systems, dry)
        case Failure(e) => r == Failure(e)
        case Success((v, more)) => View() == v && r == Success(actions + more)
    {
      ghost var start := View();
      var actions: seq<Action> := [];
      for k := 0 to |specs|
        invariant (View(), actions) == SeedPublic(start, specs[..k], dry)
      {
        assert specs[..k + 1][..k] == specs[..k];
        var more := SeedDefault(specs[k], dry);
        actions := actions + more;
      }
      assert specs[..|specs|] == specs;
      ghost var afterPublic := View();
      var systemActions: seq<Action> := [];
      for k := 0 to |systems|
        invariant SeedSystems(cipher, afterPublic, systems[..k], dry) == Success((View(), systemActions))
      {
        assert systems[..k + 1][..k] == systems[..k];
        var more := SeedSystemSection(systems[k], dry);
        if more.Failure? {
          SystemsFail(cipher, afterPublic, systems, dry, k + 1);
          return Failure(more.error);
        }
        systemActions := systemActions + more.value;
      }
      assert systems[..|systems|] == systems;
      r := Success(actions + systemActions);
    }

    method SeedProviders(env: Env, dry: bool) returns (r: Result<seq<Action>, SeedError>)
      modifies this
      ensures match Seed(cipher, old(View()), env, dry)
        case Failure(e) => r == Failure(e) && providers == old(providers) && credentials == old(credentials)
        case Success((u, actions)) => r == Success(actions) && providers == u.providers && credentials == u.credentials
    {
      hide SeedPublic, SeedSystems;
      var savedProviders, savedCredentials := providers, credentials;
      r := SeedSections(DEFAULT_PROVIDERS, Systems(env), dry);
      if r.Success? && !dry && !Committable(View()) {
        r := Failure(ConstraintViolated);
      }
      if r.Failure? || dry {
        providers, credentials := savedProviders, savedCredentials;
      }
    }
  }

  lemma {:induction false} SystemsFail(cipher: Cipher, db: Db, systems: seq<System>, dry: bool, k: nat)
    requires k <= |systems| && SeedSystems(cipher, db, systems[..k], dry).Failure?
    ensures SeedSystems(cipher, db, systems, dry) == Failure(SeedSystems(cipher, db, systems[..k], dry).error)
  {
    if k == |systems| {
      assert systems[..k] == systems;
    } else {
      assert systems[..|systems| - 1][..k] == systems[..k];
      SystemsFail(cipher, db, systems[..|systems| - 1], dry, k);
    }
  }
}
