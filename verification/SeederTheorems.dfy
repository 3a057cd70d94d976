/** Convergence of the provider seed, agreement of dry run and apply, and what it leaves alone. */
module SeederTheorems {
  import opened Wrappers
  import opened Secrets
  import opened ProviderSchema
  import opened SeederModel

  ghost predicate IdsBounded(db: Db) {
    && (forall i :: i in db.providers ==> i < db.nextProvider)
    && (forall i :: i in db.credentials ==> i < db.nextCredential)
  }

  // ----- One upsert touches one name

  /** Both databases have the same live rows under the name. */
  ghost predicate AgreeProvider(a: Db, b: Db, name: string) {
    && LiveNamed(a.providers, name) == LiveNamed(b.providers, name)
    && forall i :: i in LiveNamed(a.providers, name) ==> a.providers[i] == b.providers[i]
  }

  ghost predicate AgreeCredential(a: Db, b: Db, name: string) {
    && CredentialIdsNamed(a.credentials, name) == CredentialIdsNamed(b.credentials, name)
    && forall i :: i in CredentialIdsNamed(a.credentials, name) ==> a.credentials[i] == b.credentials[i]
  }

  /** The row as the seed wants it: an upsert finds nothing to do. */
  ghost predicate Settled(db: Db, wanted: Provider, owned: Ownership) {
    && LiveNamed(db.providers, wanted.name) != {}
    && ChangedFields(owned, wanted, db.providers[LeastOf(LiveNamed(db.providers, wanted.name))]) == []
  }

  ghost predicate Wanted(p: Provider) {
    p.isDefault && p.isProtected && !p.isDeleted
  }

  lemma MergedAgrees(owned: Ownership, wanted: Provider, row: Provider)
    ensures ChangedFields(owned, wanted, Merged(owned, wanted, row)) == []
    ensures ChangedFields(owned, wanted, row) == [] ==> Merged(owned, wanted, row) == row
    ensures Wanted(wanted) ==> ChangedFields(owned, wanted, wanted) == []
  {
  }

  lemma MergedName(owned: Ownership, wanted: Provider, row: Provider)
    ensures Merged(owned, wanted, row).name == row.name && Merged(owned, wanted, row).isDeleted == row.isDeleted
  {
  }

  lemma UpsertElsewhere(db: Db, wanted: Provider, owned: Ownership, create: bool, update: bool, name: string)
    requires IdsBounded(db) && name != wanted.name
    ensures var u := UpsertProvider(db, wanted, owned, create, update).0;
      IdsBounded(u) && AgreeProvider(db, u, name) && u.credentials == db.credentials
          && u.nextCredential == db.nextCredential
  {
    hide Merged, ChangedFields, UpdateAction;
    var u := UpsertProvider(db, wanted, owned, create, update).0;
    var found := LiveNamed(db.providers, wanted.name);
    if found != {} {
      MergedName(owned, wanted, db.providers[LeastOf(found)]);
    }
    forall i | i in db.providers ensures i in LiveNamed(db.providers, name) <==> i in LiveNamed(u.providers, name) {
    }
    assert LiveNamed(db.providers, name) == LiveNamed(u.providers, name);
  }

  lemma UpsertKeepsCredentials(db: Db, wanted: Provider, owned: Ownership, create: bool, update: bool)
    requires IdsBounded(db)
    ensures var u := UpsertProvider(db, wanted, owned, create, update).0;
      IdsBounded(u) && u.credentials == db.credentials && u.nextCredential == db.nextCredential && u.clock == db.clock
  {
  }

  lemma UpsertSettles(db: Db, wanted: Provider, owned: Ownership)
    requires IdsBounded(db) && Wanted(wanted)
    ensures Settled(UpsertProvider(db, wanted, owned, true, true).0, wanted, owned)
  {
    var u := UpsertProvider(db, wanted, owned, true, true).0;
    var found := LiveNamed(db.providers, wanted.name);
    if found == {} {
      assert LiveNamed(u.providers, wanted.name) == {db.nextProvider};
      MergedAgrees(owned, wanted, wanted);
    } else {
      assert LiveNamed(u.providers, wanted.name) == found;
      MergedAgrees(owned, wanted, db.providers[LeastOf(found)]);
    }
  }

  lemma UpsertSettled(db: Db, wanted: Provider, owned: Ownership)
    requires Settled(db, wanted, owned)
    ensures UpsertProvider(db, wanted, owned, true, true) == (db, [])
  {
    var id := LeastOf(LiveNamed(db.providers, wanted.name));
    MergedAgrees(owned, wanted, db.providers[id]);
    assert db.providers[id := db.providers[id]] == db.providers;
  }

  lemma SettledAgrees(a: Db, b: Db, wanted: Provider, owned: Ownership)
    requires AgreeProvider(a, b, wanted.name)
    ensures Settled(a, wanted, owned) <==> Settled(b, wanted, owned)
    ensures UpsertProvider(a, wanted, owned, true, true).1 == UpsertProvider(b, wanted, owned, true, true).1
    ensures UpsertProvider(a, wanted, owned, true, true).1 == UpsertProvider(b, wanted, owned, false, true).1
    ensures UpsertProvider(a, wanted, owned, true, true).1 == UpsertProvider(b, wanted, owned, false, false).1
  {
  }

  // ----- The public section

  ghost predicate DistinctNames(specs: seq<Provider>) {
    forall j, k :: 0 <= j < k < |specs| ==> specs[j].name != specs[k].name
  }

  ghost predicate AllWanted(specs: seq<Provider>) {
    forall k :: 0 <= k < |specs| ==> Wanted(specs[k])
  }

  ghost predicate NotAmong(name: string, specs: seq<Provider>) {
    forall k :: 0 <= k < |specs| ==> specs[k].name != name
  }

  /** Names outside the specs are not touched. */
  lemma {:induction false} PublicElsewhere(db: Db, specs: seq<Provider>, dry: bool, name: string)
    requires IdsBounded(db) && NotAmong(name, specs)
    ensures var u := SeedPublic(db, specs, dry).0;
      IdsBounded(u) && AgreeProvider(db, u, name) && u.credentials == db.credentials
          && u.nextCredential == db.nextCredential
  {
    if specs != [] {
      var init := specs[..|specs| - 1];
      PublicElsewhere(db, init, dry, name);
      UpsertElsewhere(SeedPublic(db, init, dry).0, specs[|specs| - 1], PUBLIC_FIELDS, !dry, !dry, name);
    }
  }

  lemma {:induction false} PublicBounded(db: Db, specs: seq<Provider>, dry: bool)
    requires IdsBounded(db)
    ensures IdsBounded(SeedPublic(db, specs, dry).0)
  {
    if specs != [] {
      PublicBounded(db, specs[..|specs| - 1], dry);
    }
  }

  lemma {:induction false} PublicSettles(db: Db, specs: seq<Provider>)
    requires IdsBounded(db) && DistinctNames(specs) && AllWanted(specs)
    ensures forall k :: 0 <= k < |specs| ==> Settled(SeedPublic(db, specs, false).0, specs[k], PUBLIC_FIELDS)
  {
    if specs != [] {
      var n := |specs| - 1;
      var init := specs[..n];
      PublicSettles(db, init);
      PublicBounded(db, init, false);
      var u := SeedPublic(db, init, false).0;
      UpsertSettles(u, specs[n], PUBLIC_FIELDS);
      forall k | 0 <= k < n ensures Settled(SeedPublic(db, specs, false).0, specs[k], PUBLIC_FIELDS) {
        assert Settled(u, init[k], PUBLIC_FIELDS);
        UpsertElsewhere(u, specs[n], PUBLIC_FIELDS, true, true, specs[k].name);
        SettledAgrees(u, SeedPublic(db, specs, false).0, specs[k], PUBLIC_FIELDS);
      }
    }
  }

  lemma {:induction false} PublicSettled(db: Db, specs: seq<Provider>)
    requires forall k :: 0 <= k < |specs| ==> Settled(db, specs[k], PUBLIC_FIELDS)
    ensures SeedPublic(db, specs, false) == (db, [])
  {
    if specs != [] {
      var n := |specs| - 1;
      forall k | 0 <= k < n ensures Settled(db, specs[..n][k], PUBLIC_FIELDS) {
        assert Settled(db, specs[k], PUBLIC_FIELDS);
      }
      PublicSettled(db, specs[..n]);
      var none: seq<Action> := [];
      assert none + none == none;
      UpsertSettled(db, specs[n], PUBLIC_FIELDS);
    }
  }

  /** The public section plans in a dry run, which changes nothing, exactly what it applies. */
  lemma {:induction false} PublicDryRun(db: Db, specs: seq<Provider>)
    requires IdsBounded(db) && DistinctNames(specs)
    ensures SeedPublic(db, specs, true) == (db, SeedPublic(db, specs, false).1)
  {
    if specs != [] {
      var n := |specs| - 1;
      var init := specs[..n];
      PublicDryRun(db, init);
      PublicElsewhere(db, init, false, specs[n].name);
      SettledAgrees(SeedPublic(db, init, false).0, db, specs[n], PUBLIC_FIELDS);
    }
  }

  // ----- The system sections

  /** Credential and provider are as the section wants them. */
  ghost predicate SystemSettled(cipher: Cipher, db: Db, s: System) {
    var found := CredentialIdsNamed(db.credentials, s.credential.name);
    && found != {}
    && CredentialSettled(cipher, s, db.credentials[LeastOf(found)])
    && Settled(db, s.provider.(credentialId := Some(LeastOf(found))), s.owned)
  }

  ghost predicate CredentialSettled(cipher: Cipher, s: System, row: Credential) {
    && row.username == s.credential.username && row.baseUrl == s.credential.baseUrl
    && ReadSecret(cipher, row.encryptedSecret) == Success(s.secret)
  }

  lemma EncryptedReads(cipher: Cipher, secret: Option<string>, now: nat)
    requires Lawful(cipher)
    ensures ReadSecret(cipher, Encrypted(cipher, secret, now)) == Success(secret)
  {
  }

  lemma {:induction false} CredentialSettles(cipher: Cipher, db: Db, s: System)
    requires Lawful(cipher) && IdsBounded(db) && UpsertCredential(cipher, db, s, false).Success?
    ensures var (u, id, _) := UpsertCredential(cipher, db, s, false).value;
      && IdsBounded(u) && u.providers == db.providers && u.nextProvider == db.nextProvider
      && CredentialIdsNamed(u.credentials, s.credential.name) != {}
      && id == Some(LeastOf(CredentialIdsNamed(u.credentials, s.credential.name)))
      && CredentialSettled(cipher, s, u.credentials[LeastOf(CredentialIdsNamed(u.credentials, s.credential.name))])
  {
    var (u, id, _) := UpsertCredential(cipher, db, s, false).value;
    var found := CredentialIdsNamed(db.credentials, s.credential.name);
    EncryptedReads(cipher, s.secret, db.clock);
    if found == {} {
      assert CredentialIdsNamed(u.credentials, s.credential.name) == {db.nextCredential};
    } else {
      assert CredentialIdsNamed(u.credentials, s.credential.name) == found;
    }
  }

  lemma {:induction false} CredentialElsewhere(cipher: Cipher, db: Db, s: System, dry: bool, name: string)
    requires IdsBounded(db) && UpsertCredential(cipher, db, s, dry).Success? && name != s.credential.name
    ensures var u := UpsertCredential(cipher, db, s, dry).value.0;
      && IdsBounded(u) && u.providers == db.providers && u.nextProvider == db.nextProvider
          && AgreeCredential(db, u, name)
  {
    var u := UpsertCredential(cipher, db, s, dry).value.0;
    forall i | i in db.credentials
      ensures i in CredentialIdsNamed(db.credentials, name) <==> i in CredentialIdsNamed(u.credentials, name)
    {
    }
    assert CredentialIdsNamed(db.credentials, name) == CredentialIdsNamed(u.credentials, name);
  }

  lemma {:induction false} SystemSettles(cipher: Cipher, db: Db, s: System)
    requires Lawful(cipher) && IdsBounded(db) && Wanted(s.provider) && SeedSystem(cipher, db, s, false).Success?
    ensures IdsBounded(SeedSystem(cipher, db, s, false).value.0)
    ensures SystemSettled(cipher, SeedSystem(cipher, db, s, false).value.0, s)
  {
    CredentialSettles(cipher, db, s);
    var (u, id, _) := UpsertCredential(cipher, db, s, false).value;
    UpsertSettles(u, s.provider.(credentialId := id), s.owned);
    UpsertKeepsCredentials(u, s.provider.(credentialId := id), s.owned, true, true);
  }

  lemma {:induction false} SystemSettledAgain(cipher: Cipher, db: Db, s: System)
    requires SystemSettled(cipher, db, s)
    ensures SeedSystem(cipher, db, s, false) == Success((db.(clock := db.clock + 1), []))
  {
    var id := LeastOf(CredentialIdsNamed(db.credentials, s.credential.name));
    var row := db.credentials[id];
    assert MergedCredential(cipher, s, s.secret, db.clock, row) == row;
    assert db.credentials[id := row] == db.credentials;
    assert ChangedCredential(s, s.secret, row) == [];
    var u := db.(clock := db.clock + 1);
    UpsertSettled(u, s.provider.(credentialId := Some(id)), s.owned);
    var none: seq<Action> := [];
    assert none + none == none;
  }

  /** A section leaves other names alone, in either mode. */
  lemma {:induction false} SystemElsewhere(cipher: Cipher, db: Db, s: System, dry: bool, name: string,
                                           credential: string)
    requires IdsBounded(db) && SeedSystem(cipher, db, s, dry).Success?
    requires name != s.provider.name && credential != s.credential.name
    ensures var u := SeedSystem(cipher, db, s, dry).value.0;
      IdsBounded(u) && AgreeProvider(db, u, name) && AgreeCredential(db, u, credential)
  {
    CredentialElsewhere(cipher, db, s, dry, credential);
    var (u, id, _) := UpsertCredential(cipher, db, s, dry).value;
    UpsertElsewhere(u, s.provider.(credentialId := id), s.owned, !dry, true, name);
  }

  lemma SystemSettledAgrees(cipher: Cipher, a: Db, b: Db, s: System)
    requires AgreeProvider(a, b, s.provider.name) && AgreeCredential(a, b, s.credential.name)
    ensures SystemSettled(cipher, a, s) <==> SystemSettled(cipher, b, s)
  {
    var found := CredentialIdsNamed(a.credentials, s.credential.name);
    if found != {} {
      SettledAgrees(a, b, s.provider.(credentialId := Some(LeastOf(found))), s.owned);
    }
  }

  ghost predicate DistinctSystems(systems: seq<System>) {
    && (forall j, k :: 0 <= j < k < |systems| ==>
          systems[j].provider.name != systems[k].provider.name
              && systems[j].credential.name != systems[k].credential.name)
    && (forall k :: 0 <= k < |systems| ==> Wanted(systems[k].provider))
  }

  lemma {:induction false} SystemsElsewhere(cipher: Cipher, db: Db, systems: seq<System>, dry: bool, name: string,
                                            credential: string)
    requires IdsBounded(db) && SeedSystems(cipher, db, systems, dry).Success?
    requires forall k :: 0 <= k < |systems| ==>
      name != systems[k].provider.name && credential != systems[k].credential.name
    ensures var u := SeedSystems(cipher, db, systems, dry).value.0;
      IdsBounded(u) && AgreeProvider(db, u, name) && AgreeCredential(db, u, credential)
  {
    if systems != [] {
      var n := |systems| - 1;
      SystemsElsewhere(cipher, db, systems[..n], dry, name, credential);
      SystemElsewhere(cipher, SeedSystems(cipher, db, systems[..n], dry).value.0, systems[n], dry, name, credential);
    }
  }

  lemma {:induction false} SystemsSettle(cipher: Cipher, db: Db, systems: seq<System>)
    requires Lawful(cipher) && IdsBounded(db) && DistinctSystems(systems)
      && SeedSystems(cipher, db, systems, false).Success?
    ensures IdsBounded(SeedSystems(cipher, db, systems, false).value.0)
    ensures AllSettled(cipher, SeedSystems(cipher, db, systems, false).value.0, systems)
  {
    hide SeedSystem, SystemSettled, AgreeProvider, AgreeCredential;
    if systems != [] {
      var n := |systems| - 1;
      var init := systems[..n];
      SystemsSettle(cipher, db, init);
      var u := SeedSystems(cipher, db, init, false).value.0;
      SystemSettles(cipher, u, systems[n]);
      var v := SeedSystem(cipher, u, systems[n], false).value.0;
      forall k | 0 <= k < n ensures SystemSettled(cipher, v, systems[k]) {
        assert SystemSettled(cipher, u, init[k]);
        SystemElsewhere(cipher, u, systems[n], false, systems[k].provider.name, systems[k].credential.name);
        SystemSettledAgrees(cipher, u, v, systems[k]);
      }
    }
  }

  lemma {:induction false} SystemsSettledAgain(cipher: Cipher, db: Db, systems: seq<System>)
    requires AllSettled(cipher, db, systems)
    ensures SeedSystems(cipher, db, systems, false) == Success((db.(clock := db.clock + |systems|), []))
  {
    hide SeedSystem, SystemSettled;
    if systems != [] {
      var n := |systems| - 1;
      forall k | 0 <= k < n ensures SystemSettled(cipher, db, systems[..n][k]) {
        assert SystemSettled(cipher, db, systems[k]);
      }
      SystemsSettledAgain(cipher, db, systems[..n]);
      SettledLater(cipher, db, systems[n], db.clock + n);
      SeedSystemsStep(cipher, db, systems, db.(clock := db.clock + n), db.(clock := db.clock + n + 1));
    }
  }

  lemma {:induction false} SeedSystemsStep(cipher: Cipher, db: Db, systems: seq<System>, u: Db, v: Db)
    requires systems != [] && SeedSystems(cipher, db, systems[..|systems| - 1], false) == Success((u, []))
    requires SeedSystem(cipher, u, systems[|systems| - 1], false) == Success((v, []))
    ensures SeedSystems(cipher, db, systems, false) == Success((v, []))
  {
  }

  ghost predicate AllSettled(cipher: Cipher, db: Db, systems: seq<System>) {
    forall k :: 0 <= k < |systems| ==> SystemSettled(cipher, db, systems[k])
  }

  lemma {:induction false} SettledLater(cipher: Cipher, db: Db, s: System, now: nat)
    requires SystemSettled(cipher, db, s)
    ensures SeedSystem(cipher, db.(clock := now), s, false) == Success((db.(clock := now + 1), []))
  {
    SystemSettledAgrees(cipher, db, db.(clock := now), s);
    SystemSettledAgain(cipher, db.(clock := now), s);
  }

  // ----- The names of the seed

  lemma PublicNames()
    ensures DistinctNames(DEFAULT_PROVIDERS) && AllWanted(DEFAULT_PROVIDERS)
    ensures forall k :: 0 <= k < |DEFAULT_PROVIDERS| ==> |DEFAULT_PROVIDERS[k].name| >= 16
  {
    assert "github-anonymous"[3] == 'h' && "gitlab-anonymous"[3] == 'l';
    assert |"github-anonymous"| == |"gitlab-anonymous"| == 16;
    assert |"generic-anonymous"| == 17 && |"dockerhub-anonymous"| == 19;
  }

  lemma SystemNames(env: Env)
    ensures DistinctSystems(Systems(env))
    ensures forall k :: 0 <= k < |Systems(env)| ==>
      |Systems(env)[k].provider.name| == 13 && Systems(env)[k].credential.name != ""
  {
    assert |"harbor-system"| == 13 && |"gitlab-system"| == 13 && "harbor-system"[0] == 'h' && "gitlab-system"[0] == 'g';
    assert |"harbor-system-credential"| == 24 && "harbor-system-credential"[0] == 'h'
      && "gitlab-system-credential"[0] == 'g';
  }

  lemma {:induction false} SeedNames(env: Env)
    ensures DistinctSections(DEFAULT_PROVIDERS, Systems(env))
  {
    PublicNames();
    SystemNames(env);
  }

  // ----- Convergence

  /** Sections with distinct names: what `Seed` is made of. */
  ghost predicate DistinctSections(specs: seq<Provider>, systems: seq<System>) {
    && DistinctNames(specs) && AllWanted(specs) && DistinctSystems(systems)
    && (forall j :: 0 <= j < |systems| ==>
        NotAmong(systems[j].provider.name, specs) && systems[j].credential.name != "")
  }

  lemma {:induction false} SeedAllAgain(cipher: Cipher, db: Db, specs: seq<Provider>, systems: seq<System>)
    requires Lawful(cipher) && IdsBounded(db) && DistinctSections(specs, systems)
    requires SeedAll(cipher, db, specs, systems, false).Success?
    ensures var u := SeedAll(cipher, db, specs, systems, false).value.0;
      SeedAll(cipher, u, specs, systems, false) == Success((u.(clock := u.clock + |systems|), []))
  {
    hide SeedPublic, SeedSystems, Settled, AllSettled, DistinctSections;
    var u := SeedAll(cipher, db, specs, systems, false).value.0;
    SectionsSettle(cipher, db, specs, systems);
    PublicSettled(u, specs);
    SystemsSettledAgain(cipher, u, systems);
    var none: seq<Action> := [];
    assert none + none == none;
  }

  /** From every database where the seed succeeds, running it again changes nothing and reports
      no action. */
  lemma {:induction false} Converges(cipher: Cipher, db: Db, env: Env)
    requires Lawful(cipher) && IdsBounded(db) && Seed(cipher, db, env, false).Success?
    ensures var u := Seed(cipher, db, env, false).value.0;
      Seed(cipher, u, env, false) == Success((u.(clock := u.clock + |Systems(env)|), []))
  {
    hide SeedAll, Systems, DistinctSections;
    SeedNames(env);
    SeedAllAgain(cipher, db, DEFAULT_PROVIDERS, Systems(env));
  }

  lemma {:induction false} SectionsSettle(cipher: Cipher, db: Db, specs: seq<Provider>, systems: seq<System>)
    requires Lawful(cipher) && IdsBounded(db) && DistinctSections(specs, systems)
    requires SeedSystems(cipher, SeedPublic(db, specs, false).0, systems, false).Success?
    ensures var u := SeedSystems(cipher, SeedPublic(db, specs, false).0, systems, false).value.0;
      AllSettled(cipher, u, systems) && forall k :: 0 <= k < |specs| ==> Settled(u, specs[k], PUBLIC_FIELDS)
  {
    hide SeedPublic, SeedSystems, Settled, AllSettled;
    var p := SeedPublic(db, specs, false).0;
    PublicSettles(db, specs);
    PublicBounded(db, specs, false);
    SystemsSettle(cipher, p, systems);
    StaysSettled(cipher, p, systems, specs);
  }

  lemma {:induction false} StaysSettled(cipher: Cipher, db: Db, systems: seq<System>, specs: seq<Provider>)
    requires IdsBounded(db) && SeedSystems(cipher, db, systems, false).Success?
    requires forall j :: 0 <= j < |systems| ==>
      NotAmong(systems[j].provider.name, specs) && systems[j].credential.name != ""
    requires forall k :: 0 <= k < |specs| ==> Settled(db, specs[k], PUBLIC_FIELDS)
    ensures forall k :: 0 <= k < |specs| ==>
      Settled(SeedSystems(cipher, db, systems, false).value.0, specs[k], PUBLIC_FIELDS)
  {
    var u := SeedSystems(cipher, db, systems, false).value.0;
    forall k | 0 <= k < |specs| ensures Settled(u, specs[k], PUBLIC_FIELDS) {
      forall j | 0 <= j < |systems| ensures systems[j].provider.name != specs[k].name {
        assert NotAmong(systems[j].provider.name, specs);
      }
      SystemsElsewhere(cipher, db, systems, false, specs[k].name, "");
      SettledAgrees(db, u, specs[k], PUBLIC_FIELDS);
    }
  }

  // ----- Dry run

  /** The planned credential has no id, yet a live provider is there to be compared with it. */
  ghost predicate LacksCredential(db: Db, s: System) {
    CredentialIdsNamed(db.credentials, s.credential.name) == {} && LiveNamed(db.providers, s.provider.name) != {}
  }

  lemma {:induction false} SystemDryRun(cipher: Cipher, a: Db, b: Db, s: System)
    requires AgreeProvider(a, b, s.provider.name) && AgreeCredential(a, b, s.credential.name)
    requires SeedSystem(cipher, a, s, false).Success?
    ensures LacksCredential(b, s) <==> SeedSystem(cipher, b, s, true) == Failure(MissingCredentialId)
    ensures LacksCredential(b, s) || (SeedSystem(cipher, b, s, true).Success?
      && SeedSystem(cipher, b, s, true).value.1 == SeedSystem(cipher, a, s, false).value.1)
  {
    var found := CredentialIdsNamed(b.credentials, s.credential.name);
    if found != {} {
      SettledAgrees(a, b, s.provider.(credentialId := Some(LeastOf(found))), s.owned);
    } else {
      assert LiveNamed(a.providers, s.provider.name) == LiveNamed(b.providers, s.provider.name);
    }
  }

  ghost predicate AnyLacksCredential(db: Db, systems: seq<System>) {
    exists k :: 0 <= k < |systems| && LacksCredential(db, systems[k])
  }

  lemma AnyLacksStep(db: Db, systems: seq<System>)
    requires systems != []
    ensures AnyLacksCredential(db, systems) <==>
      AnyLacksCredential(db, systems[..|systems| - 1]) || LacksCredential(db, systems[|systems| - 1])
  {
  }

  ghost predicate AgreeSystem(a: Db, b: Db, s: System) {
    AgreeProvider(a, b, s.provider.name) && AgreeCredential(a, b, s.credential.name)
  }

  ghost predicate AgreeSystems(a: Db, b: Db, systems: seq<System>) {
    forall k :: 0 <= k < |systems| ==> AgreeSystem(a, b, systems[k])
  }

  lemma AgreeThrough(db: Db, a: Db, b: Db, c: Db, d: Db, s: System)
    requires AgreeSystem(db, a, s) && AgreeSystem(db, b, s) && AgreeSystem(a, c, s) && AgreeSystem(b, d, s)
    ensures AgreeSystem(c, d, s)
    ensures LacksCredential(d, s) <==> LacksCredential(db, s)
  {
  }

  lemma {:induction false} SystemsDryRun(cipher: Cipher, db: Db, a: Db, b: Db, systems: seq<System>)
    requires IdsBounded(a) && IdsBounded(b) && DistinctSystems(systems)
      && SeedSystems(cipher, a, systems, false).Success?
    requires AgreeSystems(db, a, systems) && AgreeSystems(db, b, systems)
    ensures AnyLacksCredential(db, systems) <==> SeedSystems(cipher, b, systems, true) == Failure(MissingCredentialId)
    ensures AnyLacksCredential(db, systems) || (SeedSystems(cipher, b, systems, true).Success?
      && SeedSystems(cipher, b, systems, true).value.1 == SeedSystems(cipher, a, systems, false).value.1)
  {
    if systems != [] {
      var n := |systems| - 1;
      var init, last := systems[..n], systems[n];
      assert AgreeSystems(db, a, init) && AgreeSystems(db, b, init);
      SystemsDryRun(cipher, db, a, b, init);
      AnyLacksStep(db, systems);
      if SeedSystems(cipher, b, init, true).Success? {
        SystemsElsewhere(cipher, a, init, false, last.provider.name, last.credential.name);
        SystemsElsewhere(cipher, b, init, true, last.provider.name, last.credential.name);
        var c, d := SeedSystems(cipher, a, init, false).value.0, SeedSystems(cipher, b, init, true).value.0;
        assert AgreeSystem(db, a, last) && AgreeSystem(db, b, last);
        AgreeThrough(db, a, b, c, d, last);
        SystemDryRun(cipher, c, d, last);
      }
    }
  }

  lemma {:induction false} DryRunAgreesAll(cipher: Cipher, db: Db, specs: seq<Provider>, systems: seq<System>)
    requires IdsBounded(db) && DistinctSections(specs, systems) && SeedAll(cipher, db, specs, systems, false).Success?
    ensures SeedAll(cipher, db, specs, systems, true) ==
      if AnyLacksCredential(db, systems) then Failure(MissingCredentialId)
      else Success((db, SeedAll(cipher, db, specs, systems, false).value.1))
  {
    PublicDryRun(db, specs);
    PublicBounded(db, specs, false);
    var a := SeedPublic(db, specs, false).0;
    forall k | 0 <= k < |systems| ensures AgreeSystem(db, a, systems[k]) {
      PublicElsewhere(db, specs, false, systems[k].provider.name);
    }
    SystemsDryRun(cipher, db, a, db, systems);
  }

  /** Where an apply succeeds, a dry run changes nothing and returns the same actions, unless a
      system provider is live while its credential row is missing: then, and only then, it
      fails on the missing id. */
  lemma {:induction false} DryRunWhenApplied(cipher: Cipher, db: Db, env: Env)
    requires IdsBounded(db) && Seed(cipher, db, env, false).Success?
    ensures Seed(cipher, db, env, true) ==
      if AnyLacksCredential(db, Systems(env)) then Failure(MissingCredentialId)
      else Success((db, Seed(cipher, db, env, false).value.1))
  {
    hide SeedAll, Systems, DistinctSections, AnyLacksCredential;
    SeedNames(env);
    DryRunAgreesAll(cipher, db, DEFAULT_PROVIDERS, Systems(env));
  }

  lemma {:induction false} PublicInserts(db: Db, specs: seq<Provider>)
    requires IdsBounded(db) && DistinctNames(specs) && AllWanted(specs)
    requires forall k :: 0 <= k < |specs| ==> LiveNamed(db.providers, specs[k].name) == {}
    ensures Inserted(db, SeedPublic(db, specs, false).0, specs)
  {
    if specs != [] {
      var n := |specs| - 1;
      PublicInserts(db, specs[..n]);
      var u := SeedPublic(db, specs[..n], false).0;
      PublicElsewhere(db, specs[..n], false, specs[n].name);
      assert LiveNamed(u.providers, specs[n].name) == {};
      InsertedStep(db, u, specs);
    }
  }

  /** `u` is `db` with a provider for each spec, in order. */
  ghost predicate Inserted(db: Db, u: Db, specs: seq<Provider>) {
    && u == db.(providers := u.providers, nextProvider := db.nextProvider + |specs|)
    && (forall i :: i in u.providers <==> i in db.providers || db.nextProvider <= i < db.nextProvider + |specs|)
    && (forall i :: i in db.providers ==> u.providers[i] == db.providers[i])
    && (forall k :: 0 <= k < |specs| ==> u.providers[db.nextProvider + k] == specs[k])
  }

  lemma InsertedStep(db: Db, u: Db, specs: seq<Provider>)
    requires IdsBounded(db) && specs != [] && Inserted(db, u, specs[..|specs| - 1])
    ensures Inserted(db, u.(providers := u.providers[u.nextProvider := specs[|specs| - 1]],
                            nextProvider := u.nextProvider + 1), specs)
  {
  }

  /** The tables when a system provider lost its credential row. */
  function Orphaned(env: GitlabEnv): Db {
    Db(map[0 := GitlabSystem(env).provider], 1, map[], 0, 0)
  }

  lemma {:induction false} OrphanPublic(env: GitlabEnv)
    ensures Inserted(Orphaned(env), SeedPublic(Orphaned(env), DEFAULT_PROVIDERS, false).0, DEFAULT_PROVIDERS)
  {
    hide SeedPublic, Inserted;
    PublicNames();
    forall k | 0 <= k < |DEFAULT_PROVIDERS|
      ensures LiveNamed(Orphaned(env).providers, DEFAULT_PROVIDERS[k].name) == {}
    {
      assert |"gitlab-system"| == 13;
    }
    PublicInserts(Orphaned(env), DEFAULT_PROVIDERS);
  }

  lemma PublicScopes()
    ensures forall k :: 0 <= k < |DEFAULT_PROVIDERS| ==>
      var p := DEFAULT_PROVIDERS[k]; MeetsChecks(p) && p.category == PublicCategory && !p.isDeleted
    ensures forall j, k ::
      0 <= j < k < |DEFAULT_PROVIDERS| ==> ScopeOf(DEFAULT_PROVIDERS[j]) != ScopeOf(DEFAULT_PROVIDERS[k])
  {
  }

  /** A well-formed section of rows after one row of another name and scope. */
  lemma {:induction false} OneAndSpecs(first: Provider, providers: map<nat, Provider>, specs: seq<Provider>)
    requires DistinctNames(specs) && NotAmong(first.name, specs) && MeetsChecks(first)
    requires forall k :: 0 <= k < |specs| ==> MeetsChecks(specs[k]) && ScopeOf(specs[k]) != ScopeOf(first)
    requires forall j, k :: 0 <= j < k < |specs| ==> ScopeOf(specs[j]) != ScopeOf(specs[k])
    requires forall i :: i in providers <==> 0 <= i < 1 + |specs|
    requires providers[0] == first && forall k :: 0 <= k < |specs| ==> providers[1 + k] == specs[k]
    ensures ProvidersWellFormed(providers)
  {
    hide MeetsChecks, ScopeOf;
    forall i | i in providers && i != 0 ensures providers[i] == specs[i - 1] {
      assert providers[1 + (i - 1)] == specs[i - 1];
    }
  }

  /** The section replaces the credential it cannot find, and only a dry run misses its id. */
  lemma {:induction false} OrphanSection(cipher: Cipher, u: Db, s: System)
    requires u.credentials == map[] && LiveNamed(u.providers, s.provider.name) == {0}
    ensures SeedSystem(cipher, u, s, false).Success?
    ensures var v := SeedSystem(cipher, u, s, false).value.0;
      && v.providers == u.providers[0 := Merged(s.owned, s.provider.(credentialId := Some(u.nextCredential)),
                                                u.providers[0])]
      && UniqueCredentialNames(v.credentials)
  {
    assert CredentialIdsNamed(u.credentials, s.credential.name) == {};
  }

  lemma {:induction false} OrphanCommits(cipher: Cipher, env: GitlabEnv)
    ensures var u := SeedPublic(Orphaned(env), DEFAULT_PROVIDERS, false).0;
      && SeedSystem(cipher, u, GitlabSystem(env), false).Success?
      && Committable(SeedSystem(cipher, u, GitlabSystem(env), false).value.0)
  {
    hide SeedPublic, SeedSystem, ProvidersWellFormed, UniqueCredentialNames;
    var db, s := Orphaned(env), GitlabSystem(env);
    var u := SeedPublic(db, DEFAULT_PROVIDERS, false).0;
    PublicNames();
    PublicScopes();
    OrphanPublic(env);
    assert |"gitlab-system"| == 13;
    forall i | i in u.providers && i != 0 ensures u.providers[i].name != s.provider.name {
      assert u.providers[1 + (i - 1)] == DEFAULT_PROVIDERS[i - 1];
    }
    assert 0 in db.providers && LiveNamed(u.providers, s.provider.name) == {0};
    OrphanSection(cipher, u, s);
    var first := Merged(s.owned, s.provider.(credentialId := Some(u.nextCredential)), u.providers[0]);
    OneAndSpecs(first, u.providers[0 := first], DEFAULT_PROVIDERS);
  }

  /** With a live `gitlab-system` provider and no credential row, the seed applies, and its dry
      run fails. */
  lemma {:induction false} DryRunFails(cipher: Cipher, env: GitlabEnv)
    ensures Seed(cipher, Orphaned(env), Env(None, Some(env)), false).Success?
    ensures Seed(cipher, Orphaned(env), Env(None, Some(env)), true) == Failure(MissingCredentialId)
  {
    hide SeedPublic, SeedSystem, Committable;
    var db, s := Orphaned(env), GitlabSystem(env);
    var u := SeedPublic(db, DEFAULT_PROVIDERS, false).0;
    OrphanCommits(cipher, env);
    assert Systems(Env(None, Some(env))) == [s];
    assert [s][..0] == [];
    assert SeedSystems(cipher, u, [], false) == Success((u, []));
    assert 0 in LiveNamed(db.providers, s.provider.name) && CredentialIdsNamed(db.credentials, s.credential.name) == {};
    assert LacksCredential(db, Systems(Env(None, Some(env)))[0]);
    DryRunWhenApplied(cipher, db, Env(None, Some(env)));
  }

  // ----- What the seed leaves alone

  /** Every row is still there; it is changed only if it is live and bears the name. */
  ghost predicate Framed(a: map<nat, Provider>, b: map<nat, Provider>, name: string) {
    forall i :: i in a ==>
      && i in b && b[i].name == a[i].name && b[i].isDeleted == a[i].isDeleted
      && (a[i].name != name || a[i].isDeleted ==> b[i] == a[i])
  }

  lemma UpsertFramed(db: Db, wanted: Provider, owned: Ownership, create: bool, update: bool)
    requires IdsBounded(db)
    ensures Framed(db.providers, UpsertProvider(db, wanted, owned, create, update).0.providers, wanted.name)
  {
  }

  /** The three fields the public section owns. */
  ghost predicate PublicEdit(before: Provider, after: Provider) {
    after == before.(caption := after.caption, isDefault := after.isDefault, isProtected := after.isProtected)
  }

  lemma UpsertPublic(db: Db, wanted: Provider, i: nat)
    requires IdsBounded(db) && i in db.providers
    ensures var b := UpsertProvider(db, wanted, PUBLIC_FIELDS, true, true).0.providers;
      i in b && PublicEdit(db.providers[i], b[i])
  {
  }

  /** The seed never deletes or renames; rows under other names, and deleted rows, are untouched;
      public rows keep every field except label, is_default and is_protected. */
  ghost predicate KeptBySeed(specs: seq<Provider>, systems: seq<System>, before: Provider, after: Provider) {
    && (before.isDeleted || (NotAmong(before.name, specs)
                             && forall k :: 0 <= k < |systems| ==> systems[k].provider.name != before.name)
        ==> after == before)
    && (!NotAmong(before.name, specs) ==> PublicEdit(before, after))
  }

  lemma {:induction false} PublicKeeps(db: Db, specs: seq<Provider>, i: nat)
    requires IdsBounded(db) && i in db.providers
    ensures var b := SeedPublic(db, specs, false).0.providers;
      && i in b && b[i].name == db.providers[i].name && b[i].isDeleted == db.providers[i].isDeleted
      && PublicEdit(db.providers[i], b[i])
      && (db.providers[i].isDeleted || NotAmong(db.providers[i].name, specs) ==> b[i] == db.providers[i])
  {
    if specs != [] {
      PublicKeeps(db, specs[..|specs| - 1], i);
      PublicBounded(db, specs[..|specs| - 1], false);
      UpsertFramed(SeedPublic(db, specs[..|specs| - 1], false).0, specs[|specs| - 1], PUBLIC_FIELDS, true, true);
      UpsertPublic(SeedPublic(db, specs[..|specs| - 1], false).0, specs[|specs| - 1], i);
    }
  }

  lemma {:induction false} SystemsKeep(cipher: Cipher, db: Db, systems: seq<System>, i: nat)
    requires IdsBounded(db) && i in db.providers && SeedSystems(cipher, db, systems, false).Success?
    ensures var u := SeedSystems(cipher, db, systems, false).value.0;
      && IdsBounded(u) && i in u.providers
      && (db.providers[i].isDeleted
          || (forall k :: 0 <= k < |systems| ==> systems[k].provider.name != db.providers[i].name)
          ==> u.providers[i] == db.providers[i])
  {
    if systems != [] {
      var n := |systems| - 1;
      SystemsKeep(cipher, db, systems[..n], i);
      var u := SeedSystems(cipher, db, systems[..n], false).value.0;
      SystemKeeps(cipher, u, systems[n], i);
    }
  }

  lemma {:induction false} SystemKeeps(cipher: Cipher, db: Db, s: System, i: nat)
    requires IdsBounded(db) && i in db.providers && SeedSystem(cipher, db, s, false).Success?
    ensures var u := SeedSystem(cipher, db, s, false).value.0;
      && IdsBounded(u) && i in u.providers
      && (db.providers[i].isDeleted || s.provider.name != db.providers[i].name ==> u.providers[i] == db.providers[i])
  {
    var (u, id, _) := UpsertCredential(cipher, db, s, false).value;
    UpsertFramed(u, s.provider.(credentialId := id), s.owned, true, true);
  }

  lemma {:induction false} SeedAllKeeps(cipher: Cipher, db: Db, specs: seq<Provider>, systems: seq<System>, i: nat)
    requires IdsBounded(db) && DistinctSections(specs, systems) && SeedAll(cipher, db, specs, systems, false).Success?
    requires i in db.providers
    ensures i in SeedAll(cipher, db, specs, systems, false).value.0.providers
    ensures KeptBySeed(specs, systems, db.providers[i], SeedAll(cipher, db, specs, systems, false).value.0.providers[i])
  {
    PublicKeeps(db, specs, i);
    PublicBounded(db, specs, false);
    SystemsKeep(cipher, SeedPublic(db, specs, false).0, systems, i);
    forall k | 0 <= k < |systems| && !NotAmong(db.providers[i].name, specs)
      ensures systems[k].provider.name != db.providers[i].name
    {
      assert NotAmong(systems[k].provider.name, specs);
    }
  }

  lemma {:induction false} SeedKeeps(cipher: Cipher, db: Db, env: Env, i: nat)
    requires IdsBounded(db) && Seed(cipher, db, env, false).Success? && i in db.providers
    ensures i in Seed(cipher, db, env, false).value.0.providers
    ensures KeptBySeed(DEFAULT_PROVIDERS, Systems(env), db.providers[i],
                       Seed(cipher, db, env, false).value.0.providers[i])
  {
    hide SeedAll, Systems, DistinctSections, KeptBySeed;
    SeedNames(env);
    SeedAllKeeps(cipher, db, DEFAULT_PROVIDERS, Systems(env), i);
  }
}
