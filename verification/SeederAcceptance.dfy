/** When the provider seed goes through, by the tables it starts from, in a dry run and in an apply. */
module SeederAcceptance {
  import opened Wrappers
  import opened Secrets
  import opened ProviderSchema
  import opened SeederModel
  import opened SeederTheorems

  // ----- Credentials

  /** The stored secret of the section's credential, if there is one, can be read. */
  ghost predicate Readable(cipher: Cipher, db: Db, s: System) {
    var found := CredentialIdsNamed(db.credentials, s.credential.name);
    found != {} ==> ReadSecret(cipher, db.credentials[LeastOf(found)].encryptedSecret).Success?
  }

  ghost predicate AllReadable(cipher: Cipher, db: Db, systems: seq<System>) {
    forall k :: 0 <= k < |systems| ==> Readable(cipher, db, systems[k])
  }

  /** What stops a dry run: the first section with an unreadable secret, or with a live provider
      and no credential row. */
  ghost function FirstTrouble(cipher: Cipher, db: Db, systems: seq<System>): Option<SeedError> {
    if systems == [] then None
    else
      var earlier := FirstTrouble(cipher, db, systems[..|systems| - 1]);
      var last := systems[|systems| - 1];
      if earlier.Some? then earlier
      else if !Readable(cipher, db, last) then Some(SecretUnreadable)
      else if LacksCredential(db, last) then Some(MissingCredentialId)
      else None
  }

  lemma {:induction false} NoTrouble(cipher: Cipher, db: Db, systems: seq<System>)
    ensures FirstTrouble(cipher, db, systems).None? <==>
      AllReadable(cipher, db, systems) && !AnyLacksCredential(db, systems)
  {
    if systems != [] {
      hide Readable, LacksCredential;
      var n := |systems| - 1;
      NoTrouble(cipher, db, systems[..n]);
      AnyLacksStep(db, systems);
      assert forall k :: 0 <= k < n ==> systems[..n][k] == systems[k];
    }
  }

  lemma {:induction false} SectionOutcome(cipher: Cipher, db: Db, u: Db, s: System)
    requires AgreeSystem(db, u, s)
    ensures SeedSystem(cipher, u, s, false).Success? <==> Readable(cipher, db, s)
    ensures match SeedSystem(cipher, u, s, true)
      case Success(_) => Readable(cipher, db, s) && !LacksCredential(db, s)
      case Failure(e) =>
        if !Readable(cipher, db, s) then e == SecretUnreadable else LacksCredential(db, s) && e == MissingCredentialId
  {
  }

  lemma {:induction false} DrySections(cipher: Cipher, db: Db, u: Db, systems: seq<System>)
    requires IdsBounded(u) && DistinctSystems(systems) && AgreeSystems(db, u, systems)
    ensures match FirstTrouble(cipher, db, systems)
      case Some(e) => SeedSystems(cipher, u, systems, true) == Failure(e)
      case None => SeedSystems(cipher, u, systems, true).Success?
  {
    hide SeedSystem, Readable, LacksCredential, AgreeProvider, AgreeCredential;
    if systems != [] {
      var n := |systems| - 1;
      DrySections(cipher, db, u, systems[..n]);
      if FirstTrouble(cipher, db, systems[..n]).None? {
        StillAgrees(cipher, db, u, systems, true);
        SectionOutcome(cipher, db, SeedSystems(cipher, u, systems[..n], true).value.0, systems[n]);
      }
    }
  }

  lemma {:induction false} StillAgrees(cipher: Cipher, db: Db, u: Db, systems: seq<System>, dry: bool)
    requires systems != [] && IdsBounded(u) && DistinctSystems(systems) && AgreeSystems(db, u, systems)
    requires SeedSystems(cipher, u, systems[..|systems| - 1], dry).Success?
    ensures AgreeSystem(db, SeedSystems(cipher, u, systems[..|systems| - 1], dry).value.0, systems[|systems| - 1])
  {
    hide SeedSystems, LiveNamed, CredentialIdsNamed;
    var n := |systems| - 1;
    SystemsElsewhere(cipher, u, systems[..n], dry, systems[n].provider.name, systems[n].credential.name);
    assert AgreeSystem(db, u, systems[n]);
  }

  lemma {:induction false} AppliedSections(cipher: Cipher, db: Db, u: Db, systems: seq<System>)
    requires IdsBounded(u) && DistinctSystems(systems) && AgreeSystems(db, u, systems)
    ensures SeedSystems(cipher, u, systems, false).Success? <==> AllReadable(cipher, db, systems)
  {
    hide SeedSystem, Readable, LacksCredential, AgreeProvider, AgreeCredential;
    if systems != [] {
      var n := |systems| - 1;
      AppliedSections(cipher, db, u, systems[..n]);
      assert AllReadable(cipher, db, systems)
        <==> AllReadable(cipher, db, systems[..n]) && Readable(cipher, db, systems[n]);
      if SeedSystems(cipher, u, systems[..n], false).Success? {
        StillAgrees(cipher, db, u, systems, false);
        SectionOutcome(cipher, db, SeedSystems(cipher, u, systems[..n], false).value.0, systems[n]);
      }
    }
  }

  lemma {:induction false} PublicLeavesSystems(db: Db, specs: seq<Provider>, systems: seq<System>)
    requires IdsBounded(db) && DistinctSections(specs, systems)
    ensures AgreeSystems(db, SeedPublic(db, specs, false).0, systems)
  {
    forall k | 0 <= k < |systems| ensures AgreeSystem(db, SeedPublic(db, specs, false).0, systems[k]) {
      PublicElsewhere(db, specs, false, systems[k].provider.name);
    }
  }

  /** From every database, what a dry run ends with: the first trouble of a section, else a plan,
      and the tables as they were. */
  lemma {:induction false} DryRunOutcome(cipher: Cipher, db: Db, env: Env)
    requires IdsBounded(db)
    ensures match FirstTrouble(cipher, db, Systems(env))
      case Some(e) => Seed(cipher, db, env, true) == Failure(e)
      case None => Seed(cipher, db, env, true).Success? && Seed(cipher, db, env, true).value.0 == db
    ensures Seed(cipher, db, env, true).Success? <==>
      AllReadable(cipher, db, Systems(env)) && !AnyLacksCredential(db, Systems(env))
  {
    hide SeedPublic, SeedSystems, Systems, AllReadable, AnyLacksCredential, DistinctNames, AllWanted, FirstTrouble;
    SeedNames(env);
    PublicDryRun(db, DEFAULT_PROVIDERS);
    DrySections(cipher, db, db, Systems(env));
    NoTrouble(cipher, db, Systems(env));
  }

  // ----- Providers

  /** The scope the wanted provider ends up with: an existing row keeps its own. */
  function EndScope(db: Db, wanted: Provider): Scope {
    var found := LiveNamed(db.providers, wanted.name);
    ScopeOf(if found == {} then wanted else db.providers[LeastOf(found)])
  }

  /** No live default under another name is in the scope a wanted row ends up in, and no two wanted
      rows end up in one scope. */
  ghost predicate ScopesFree(db: Db, wanted: seq<Provider>) {
    && (forall i, k :: i in db.providers && LiveDefault(db.providers[i]) && 0 <= k < |wanted|
                       && db.providers[i].name != wanted[k].name ==>
          ScopeOf(db.providers[i]) != EndScope(db, wanted[k]))
    && (forall j, k :: 0 <= j < k < |wanted| ==> EndScope(db, wanted[j]) != EndScope(db, wanted[k]))
  }

  /** A live default row of this name occupies the scope. */
  ghost predicate Occupies(db: Db, name: string, scope: Scope) {
    exists i :: i in db.providers && LiveDefault(db.providers[i])
                && db.providers[i].name == name && ScopeOf(db.providers[i]) == scope
  }

  /** The constraints apart from one default per scope, which an upsert can never break. */
  ghost predicate Sane(db: Db) {
    && IdsBounded(db) && UniqueLiveNames(db.providers)
    && (forall i :: i in db.providers ==> MeetsChecks(db.providers[i]))
  }

  ghost predicate Acceptable(wanted: Provider) {
    Wanted(wanted) && MeetsChecks(wanted)
  }

  /** `v` is `db` after upserts of the wanted rows. */
  ghost predicate Seeded(db: Db, v: Db, wanted: seq<Provider>) {
    && Sane(v)
    && (forall name, scope :: Occupies(v, name, scope) <==>
          Occupies(db, name, scope) || WantedIn(db, wanted, name, scope))
    && (forall x: Provider :: NotAmong(x.name, wanted) ==> EndScope(v, x) == EndScope(db, x))
  }

  ghost predicate WantedIn(db: Db, wanted: seq<Provider>, name: string, scope: Scope) {
    exists k :: 0 <= k < |wanted| && wanted[k].name == name && EndScope(db, wanted[k]) == scope
  }

  lemma {:induction false} UpsertOccupies(u: Db, wanted: Provider, owned: Ownership, name: string, scope: Scope)
    requires Sane(u) && Acceptable(wanted)
    ensures var v := UpsertProvider(u, wanted, owned, true, true).0;
      Occupies(v, name, scope) <==>
        Occupies(u, name, scope) || (name == wanted.name && scope == EndScope(u, wanted))
  {
    var v := UpsertProvider(u, wanted, owned, true, true).0;
    var found := LiveNamed(u.providers, wanted.name);
    var id := if found == {} then u.nextProvider else LeastOf(found);
    assert id in v.providers && LiveDefault(v.providers[id]) && v.providers[id].name == wanted.name;
    assert ScopeOf(v.providers[id]) == EndScope(u, wanted);
    assert forall i :: i in u.providers && i != id ==> i in v.providers && v.providers[i] == u.providers[i];
    assert forall i :: i in v.providers && i != id ==> i in u.providers;
    if found != {} {
      assert id in found && ScopeOf(u.providers[id]) == ScopeOf(v.providers[id]);
    }
  }

  lemma {:induction false} UpsertSane(u: Db, wanted: Provider, owned: Ownership)
    requires Sane(u) && Acceptable(wanted)
    ensures Sane(UpsertProvider(u, wanted, owned, true, true).0)
  {
    var v := UpsertProvider(u, wanted, owned, true, true).0;
    var found := LiveNamed(u.providers, wanted.name);
    if found == {} {
      forall i | i in u.providers && !u.providers[i].isDeleted ensures u.providers[i].name != wanted.name {
        assert i !in found;
      }
    } else {
      MergedKeeps(owned, wanted, u.providers[LeastOf(found)]);
    }
  }

  lemma MergedKeeps(owned: Ownership, wanted: Provider, row: Provider)
    ensures var m := Merged(owned, wanted, row);
      m.name == row.name && m.isDeleted == row.isDeleted && (MeetsChecks(row) ==> MeetsChecks(m))
          && ScopeOf(m) == ScopeOf(row)
  {
  }

  lemma {:induction false} SeededStep(db: Db, u: Db, wanted: seq<Provider>, last: Provider, like: Provider,
                                      owned: Ownership)
    requires Seeded(db, u, wanted) && Acceptable(like) && NotAmong(last.name, wanted)
    requires like.name == last.name && ScopeOf(like) == ScopeOf(last)
    ensures Seeded(db, UpsertProvider(u, like, owned, true, true).0, wanted + [last])
  {
    hide EndScope, UpsertProvider, Occupies, WantedIn, Acceptable, Sane;
    var v := UpsertProvider(u, like, owned, true, true).0;
    UpsertSane(u, like, owned);
    LikeScope(u, like, last);
    forall name, scope
      ensures Occupies(v, name, scope) <==> Occupies(db, name, scope) || WantedIn(db, wanted + [last], name, scope)
    {
      UpsertOccupies(u, like, owned, name, scope);
      WantedInStep(db, wanted, last, name, scope);
    }
    forall x: Provider | NotAmong(x.name, wanted + [last]) ensures EndScope(v, x) == EndScope(db, x) {
      assert (wanted + [last])[|wanted|] == last;
      assert forall k :: 0 <= k < |wanted| ==> (wanted + [last])[k] == wanted[k];
      ScopeElsewhere(u, like, owned, x);
    }
  }

  lemma LikeScope(u: Db, like: Provider, last: Provider)
    requires like.name == last.name && ScopeOf(like) == ScopeOf(last)
    ensures EndScope(u, like) == EndScope(u, last)
  {
  }

  lemma WantedInStep(db: Db, wanted: seq<Provider>, last: Provider, name: string, scope: Scope)
    ensures WantedIn(db, wanted + [last], name, scope) <==>
      WantedIn(db, wanted, name, scope) || (name == last.name && scope == EndScope(db, last))
  {
    var all := wanted + [last];
    assert all[|wanted|] == last;
    assert forall k :: 0 <= k < |wanted| ==> all[k] == wanted[k];
  }

  lemma {:induction false} ScopeElsewhere(u: Db, wanted: Provider, owned: Ownership, x: Provider)
    requires Sane(u) && x.name != wanted.name
    ensures EndScope(UpsertProvider(u, wanted, owned, true, true).0, x) == EndScope(u, x)
  {
    UpsertElsewhere(u, wanted, owned, true, true, x.name);
  }

  lemma {:induction false} SeededNothing(db: Db)
    requires Sane(db)
    ensures Seeded(db, db, [])
  {
  }

  lemma {:induction false} PublicSeeded(db: Db, specs: seq<Provider>)
    requires Sane(db) && DistinctNames(specs) && forall k :: 0 <= k < |specs| ==> Acceptable(specs[k])
    ensures Seeded(db, SeedPublic(db, specs, false).0, specs)
  {
    hide Seeded, UpsertProvider, Acceptable;
    if specs == [] {
      SeededNothing(db);
    } else {
      var n := |specs| - 1;
      PublicSeeded(db, specs[..n]);
      SeededStep(db, SeedPublic(db, specs[..n], false).0, specs[..n], specs[n], specs[n], PUBLIC_FIELDS);
      assert specs == specs[..n] + [specs[n]];
    }
  }

  function ProvidersOf(systems: seq<System>): seq<Provider> {
    seq(|systems|, k requires 0 <= k < |systems| => systems[k].provider)
  }

  lemma {:induction false} SectionSeeded(cipher: Cipher, db: Db, u: Db, wanted: seq<Provider>, s: System)
    requires Seeded(db, u, wanted) && Acceptable(s.provider) && NotAmong(s.provider.name, wanted)
    requires SeedSystem(cipher, u, s, false).Success?
    ensures Seeded(db, SeedSystem(cipher, u, s, false).value.0, wanted + [s.provider])
  {
    hide UpsertProvider, Seeded, Occupies;
    var (t, id, _) := UpsertCredential(cipher, u, s, false).value;
    SameProviders(cipher, db, u, s, wanted);
    var like := s.provider.(credentialId := id);
    SeededStep(db, t, wanted, s.provider, like, s.owned);
  }

  lemma {:induction false} SameProviders(cipher: Cipher, db: Db, u: Db, s: System, wanted: seq<Provider>)
    requires Seeded(db, u, wanted) && UpsertCredential(cipher, u, s, false).Success?
    ensures Seeded(db, UpsertCredential(cipher, u, s, false).value.0, wanted)
  {
    hide WantedIn;
    var t := UpsertCredential(cipher, u, s, false).value.0;
    assert t.providers == u.providers && t.nextProvider == u.nextProvider;
    forall name, scope ensures Occupies(t, name, scope) <==> Occupies(u, name, scope) {
    }
    forall x: Provider ensures EndScope(t, x) == EndScope(u, x) {
    }
  }

  lemma {:induction false} SystemsSeeded(cipher: Cipher, db: Db, u: Db, wanted: seq<Provider>, systems: seq<System>)
    requires Seeded(db, u, wanted) && DistinctSystems(systems) && SeedSystems(cipher, u, systems, false).Success?
    requires forall k :: 0 <= k < |systems| ==>
      Acceptable(systems[k].provider) && NotAmong(systems[k].provider.name, wanted)
    ensures Seeded(db, SeedSystems(cipher, u, systems, false).value.0, wanted + ProvidersOf(systems))
  {
    hide Seeded, SeedSystem, Acceptable;
    if systems == [] {
      assert wanted + ProvidersOf(systems) == wanted;
    } else {
      var n := |systems| - 1;
      SystemsSeeded(cipher, db, u, wanted, systems[..n]);
      var before := wanted + ProvidersOf(systems[..n]);
      assert NotAmong(systems[n].provider.name, before);
      SectionSeeded(cipher, db, SeedSystems(cipher, u, systems[..n], false).value.0, before, systems[n]);
      assert before + [systems[n].provider] == wanted + ProvidersOf(systems);
    }
  }

  /** One default per scope, after the upserts, in terms of the tables before them. */
  lemma {:induction false} ScopesAfter(db: Db, v: Db, wanted: seq<Provider>)
    requires Seeded(db, v, wanted) && OneDefaultPerScope(db.providers) && DistinctNames(wanted)
    ensures OneDefaultPerScope(v.providers) <==> ScopesFree(db, wanted)
  {
    hide EndScope, Sane;
    if OneDefaultPerScope(v.providers) {
      FreeFromOne(db, v, wanted);
    }
    if ScopesFree(db, wanted) {
      OneFromFree(db, v, wanted);
    }
  }

  lemma {:induction false} FreeFromOne(db: Db, v: Db, wanted: seq<Provider>)
    requires Seeded(db, v, wanted) && OneDefaultPerScope(v.providers) && DistinctNames(wanted)
    ensures ScopesFree(db, wanted)
  {
    hide EndScope, Sane, ScopeOf;
    forall k | 0 <= k < |wanted| ensures Occupies(v, wanted[k].name, EndScope(db, wanted[k])) {
      assert WantedIn(db, wanted, wanted[k].name, EndScope(db, wanted[k]));
    }
    forall i, k | i in db.providers && LiveDefault(db.providers[i]) && 0 <= k < |wanted|
        && db.providers[i].name != wanted[k].name
      ensures ScopeOf(db.providers[i]) != EndScope(db, wanted[k])
    {
      assert Occupies(db, db.providers[i].name, ScopeOf(db.providers[i]));
      assert Occupies(v, db.providers[i].name, ScopeOf(db.providers[i]));
    }
  }

  lemma {:induction false} OneFromFree(db: Db, v: Db, wanted: seq<Provider>)
    requires Seeded(db, v, wanted) && OneDefaultPerScope(db.providers) && ScopesFree(db, wanted)
    ensures OneDefaultPerScope(v.providers)
  {
    hide EndScope, ScopeOf, MeetsChecks;
    forall i, j | i in v.providers && j in v.providers && i != j && LiveDefault(v.providers[i])
        && LiveDefault(v.providers[j])
      ensures ScopeOf(v.providers[i]) != ScopeOf(v.providers[j])
    {
      assert Occupies(v, v.providers[i].name, ScopeOf(v.providers[i]));
      assert Occupies(v, v.providers[j].name, ScopeOf(v.providers[j]));
      assert v.providers[i].name != v.providers[j].name;
      NeverShared(db, wanted, v.providers[i].name, v.providers[j].name, ScopeOf(v.providers[i]));
    }
  }

  lemma NeverShared(db: Db, wanted: seq<Provider>, a: string, b: string, scope: Scope)
    requires OneDefaultPerScope(db.providers) && ScopesFree(db, wanted) && a != b
    ensures !((Occupies(db, a, scope) || WantedIn(db, wanted, a, scope))
              && (Occupies(db, b, scope) || WantedIn(db, wanted, b, scope)))
  {
    hide EndScope, ScopeOf;
  }

  lemma {:induction false} CredentialNamesKept(cipher: Cipher, db: Db, systems: seq<System>)
    requires UniqueCredentialNames(db.credentials) && SeedSystems(cipher, db, systems, false).Success?
    ensures UniqueCredentialNames(SeedSystems(cipher, db, systems, false).value.0.credentials)
  {
    hide SeedSystem;
    if systems != [] {
      var n := |systems| - 1;
      CredentialNamesKept(cipher, db, systems[..n]);
      CredentialNameKept(cipher, SeedSystems(cipher, db, systems[..n], false).value.0, systems[n]);
    }
  }

  lemma {:induction false} CredentialNameKept(cipher: Cipher, db: Db, s: System)
    requires UniqueCredentialNames(db.credentials) && SeedSystem(cipher, db, s, false).Success?
    ensures UniqueCredentialNames(SeedSystem(cipher, db, s, false).value.0.credentials)
  {
    hide UpsertProvider;
    var (u, id, _) := UpsertCredential(cipher, db, s, false).value;
    var found := CredentialIdsNamed(db.credentials, s.credential.name);
    forall i | i in db.credentials && found == {} ensures db.credentials[i].name != s.credential.name {
      assert i !in found;
    }
    assert UniqueCredentialNames(u.credentials);
    UpsertLeavesCredentials(u, s.provider.(credentialId := id), s.owned);
  }

  lemma UpsertLeavesCredentials(db: Db, wanted: Provider, owned: Ownership)
    ensures UpsertProvider(db, wanted, owned, true, true).0.credentials == db.credentials
  {
  }

  lemma {:induction false} PublicLeavesCredentials(db: Db, specs: seq<Provider>)
    ensures SeedPublic(db, specs, false).0.credentials == db.credentials
  {
    hide UpsertProvider;
    if specs != [] {
      PublicLeavesCredentials(db, specs[..|specs| - 1]);
      UpsertLeavesCredentials(SeedPublic(db, specs[..|specs| - 1], false).0, specs[|specs| - 1], PUBLIC_FIELDS);
    }
  }

  lemma {:induction false} CommitAccepted(cipher: Cipher, db: Db, specs: seq<Provider>, systems: seq<System>)
    requires IdsBounded(db) && Committable(db) && DistinctSections(specs, systems)
    requires forall k :: 0 <= k < |specs| ==> Acceptable(specs[k])
    requires forall k :: 0 <= k < |systems| ==> Acceptable(systems[k].provider)
    requires SeedSystems(cipher, SeedPublic(db, specs, false).0, systems, false).Success?
    ensures Committable(SeedSystems(cipher, SeedPublic(db, specs, false).0, systems, false).value.0)
      <==> ScopesFree(db, specs + ProvidersOf(systems))
  {
    hide Seeded, SeedPublic, SeedSystems, ScopesFree, Acceptable;
    var u := SeedPublic(db, specs, false).0;
    var v := SeedSystems(cipher, u, systems, false).value.0;
    var wanted := specs + ProvidersOf(systems);
    PublicSeeded(db, specs);
    SystemsSeeded(cipher, db, u, specs, systems);
    PublicLeavesCredentials(db, specs);
    CredentialNamesKept(cipher, u, systems);
    assert DistinctNames(wanted);
    ScopesAfter(db, v, wanted);
    SeededSane(db, v, wanted);
  }

  lemma SeededSane(db: Db, v: Db, wanted: seq<Provider>)
    requires Seeded(db, v, wanted)
    ensures Sane(v)
  {
  }

  lemma {:induction false} AllAcceptable(env: Env)
    ensures forall k :: 0 <= k < |DEFAULT_PROVIDERS| ==> Acceptable(DEFAULT_PROVIDERS[k])
    ensures forall k :: 0 <= k < |Systems(env)| ==> Acceptable(Systems(env)[k].provider)
  {
    PublicScopes();
    PublicNames();
    SystemNames(env);
  }

  /** Everything the seed wants for this environment, public rows first. */
  function WantedBy(env: Env): seq<Provider> {
    DEFAULT_PROVIDERS + ProvidersOf(Systems(env))
  }

  /** From every database that meets its constraints, an apply succeeds exactly when the secrets of
      the system credentials can be read and every wanted row finds its scope free. */
  lemma {:induction false} ApplyAccepted(cipher: Cipher, db: Db, env: Env)
    requires IdsBounded(db) && Committable(db)
    ensures Seed(cipher, db, env, false).Success? <==>
      AllReadable(cipher, db, Systems(env)) && ScopesFree(db, WantedBy(env))
  {
    hide SeedPublic, SeedSystems, Systems, AllReadable, ScopesFree, Committable, DistinctNames, AllWanted, Acceptable;
    SeedNames(env);
    AllAcceptable(env);
    PublicLeavesSystems(db, DEFAULT_PROVIDERS, Systems(env));
    PublicBounded(db, DEFAULT_PROVIDERS, false);
    AppliedSections(cipher, db, SeedPublic(db, DEFAULT_PROVIDERS, false).0, Systems(env));
    if AllReadable(cipher, db, Systems(env)) {
      CommitAccepted(cipher, db, DEFAULT_PROVIDERS, Systems(env));
    }
  }

  // ----- Dry run against apply

  /** Both end the same way, and report the same actions when they report any. */
  ghost predicate SameReport(dry: Result<(Db, seq<Action>), SeedError>, applied: Result<(Db, seq<Action>), SeedError>) {
    && (dry.Success? <==> applied.Success?)
    && (dry.Success? ==> dry.value.1 == applied.value.1)
  }

  /** A dry run returns what an apply does exactly when some secret is unreadable, which fails both,
      or a system provider without its credential row and an occupied scope come together or not
      at all: alone, the first fails only the dry run and the second only the apply. */
  lemma {:induction false} DryRunAgrees(cipher: Cipher, db: Db, env: Env)
    requires IdsBounded(db) && Committable(db)
    ensures SameReport(Seed(cipher, db, env, true), Seed(cipher, db, env, false)) <==>
      || !AllReadable(cipher, db, Systems(env))
      || (AnyLacksCredential(db, Systems(env)) <==> !ScopesFree(db, WantedBy(env)))
  {
    hide Seed, Systems, AllReadable, ScopesFree, AnyLacksCredential, WantedBy, FirstTrouble;
    DryRunOutcome(cipher, db, env);
    ApplyAccepted(cipher, db, env);
    if Seed(cipher, db, env, false).Success? {
      DryRunWhenApplied(cipher, db, env);
    }
  }

  /** A live default of another name in the scope of `github-anonymous`: the dry run plans, the
      apply violates the unique index. */
  lemma {:induction false} OccupiedScopeFailsApply(cipher: Cipher)
    ensures var mine := NewProvider("my-github", "GitHub", GitDomain, GithubGit, PublicCategory, PublicVisible,
                                    External,
                                    None, map[], true);
      var db := Db(map[0 := mine], 1, map[], 0, 0);
      && Committable(db)
      && Seed(cipher, db, Env(None, None), true).Success?
      && Seed(cipher, db, Env(None, None), false) == Failure(ConstraintViolated)
  {
    hide SeedPublic, ScopesFree;
    var mine := NewProvider("my-github", "GitHub", GitDomain, GithubGit, PublicCategory, PublicVisible, External,
                            None, map[], true);
    var db := Db(map[0 := mine], 1, map[], 0, 0);
    var env := Env(None, None);
    assert Systems(env) == [];
    DryRunOutcome(cipher, db, env);
    ApplyAccepted(cipher, db, env);
    ScopeOccupied(db, env);
  }

  lemma ScopeOccupied(db: Db, env: Env)
    requires 0 in db.providers && LiveDefault(db.providers[0]) && |db.providers[0].name| < 13
    requires ScopeOf(db.providers[0]) == Scope(GitDomain, GithubGit, PublicCategory, External)
    requires LiveNamed(db.providers, "github-anonymous") == {}
    ensures !ScopesFree(db, WantedBy(env))
  {
    hide Systems;
    assert WantedBy(env)[0] == DEFAULT_PROVIDERS[0] && |"github-anonymous"| == 16;
    assert EndScope(db, WantedBy(env)[0]) == ScopeOf(db.providers[0]);
  }

  /** A system credential whose stored text is no token of this key: both modes fail on it. */
  lemma {:induction false} UnreadableSecretFailsBoth(cipher: Cipher, env: GitlabEnv, stored: string)
    requires stored != "" && !cipher.decrypt(stored).Plaintext?
    ensures var row := GitlabSystem(env).credential.(encryptedSecret := Some(stored));
      var db := Db(map[], 0, map[0 := row], 1, 0);
      && Seed(cipher, db, Env(None, Some(env)), true) == Failure(SecretUnreadable)
      && Seed(cipher, db, Env(None, Some(env)), false) == Failure(SecretUnreadable)
  {
    hide SeedPublic;
    var row := GitlabSystem(env).credential.(encryptedSecret := Some(stored));
    var db := Db(map[], 0, map[0 := row], 1, 0);
    var s := GitlabSystem(env);
    var systems := Systems(Env(None, Some(env)));
    assert systems == [s] && systems[..0] == [];
    assert 0 in CredentialIdsNamed(db.credentials, s.credential.name);
    assert !Readable(cipher, db, s);
    assert FirstTrouble(cipher, db, systems[..0]).None?;
    DryRunOutcome(cipher, db, Env(None, Some(env)));
    PublicLeavesCredentials(db, DEFAULT_PROVIDERS);
    UnreadableSection(cipher, SeedPublic(db, DEFAULT_PROVIDERS, false).0, s);
    assert SeedSystems(cipher, SeedPublic(db, DEFAULT_PROVIDERS, false).0, [], false).Success?;
  }

  lemma UnreadableSection(cipher: Cipher, u: Db, s: System)
    requires !Readable(cipher, u, s)
    ensures SeedSystem(cipher, u, s, false) == Failure(SecretUnreadable)
  {
  }
}
