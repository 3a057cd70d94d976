/** Running revision 00932f2a02d5 again, and undoing it. */
module LegacyRerun {
  import opened Wrappers
  import opened Strings
  import opened Secrets
  import opened ProviderSchema
  import opened LegacySchema
  import opened MigrationRun
  import opened MigrationImages
  import opened LegacyMigration
  import opened LegacyTheorems

  // ----- The constraints of the target tables hold throughout

  lemma InsertKeepsConstraints(s: Store, row: Provider)
    requires IdsBounded(s) && ProvidersWellFormed(s.providers) && InsertProvider(s, row).Success?
    ensures ProvidersWellFormed(InsertProvider(s, row).value.0.providers)
  {
  }

  lemma {:induction false} ApplyKeepsConstraints(cipher: Cipher, s: Store, plan: Plan)
    requires IdsBounded(s) && ProvidersWellFormed(s.providers) && UniqueCredentialNames(s.credentials)
    requires Apply(cipher, s, plan).Success?
    ensures ProvidersWellFormed(Apply(cipher, s, plan).value.0.providers)
    ensures UniqueCredentialNames(Apply(cipher, s, plan).value.0.credentials)
  {
    StoreCredentialGrows(cipher, s, plan.credential);
    var (u, id) := StoreCredential(cipher, s, plan.credential).value;
    InsertKeepsConstraints(u, plan.provider.(credentialId := id));
    forall i | i in s.credentials && plan.credential.Migrate?
      && CredentialIdsNamed(s.credentials, plan.credential.row.name) == {}
      ensures s.credentials[i].name != plan.credential.row.name
    {
      assert i !in CredentialIdsNamed(s.credentials, plan.credential.row.name);
    }
  }

  /** Every CHECK and every unique index that held before a migration holds after it. */
  lemma {:induction false} RunKeepsConstraints(cipher: Cipher, s: Store, plans: seq<Plan>)
    requires IdsBounded(s) && ProvidersWellFormed(s.providers) && UniqueCredentialNames(s.credentials)
    requires Run(cipher, s, plans).Success?
    ensures ProvidersWellFormed(Run(cipher, s, plans).value.0.providers)
    ensures UniqueCredentialNames(Run(cipher, s, plans).value.0.credentials)
  {
    if plans != [] {
      var n := |plans| - 1;
      RunKeepsConstraints(cipher, s, plans[..n]);
      RunGrows(cipher, s, plans[..n]);
      ApplyKeepsConstraints(cipher, Run(cipher, s, plans[..n]).value.0, plans[n]);
    }
  }

  // ----- Idempotence

  lemma TargetsKept(docker: map<nat, nat>, byUrl: map<string, nat>, images: seq<ImageSource>)
    ensures TargetUrls(RelinkImages(docker, byUrl, images)) == TargetUrls(images)
  {
    var after := RelinkImages(docker, byUrl, images);
    assert forall k :: 0 <= k < |images| ==> after[k].targetRegistryUrl == images[k].targetRegistryUrl;
  }

  lemma RelinkTwice(refs: CrossReferences, c: Consumers)
    ensures Relink(refs, Relink(refs, c)) == Relink(refs, c)
  {
  }

  /** Running the data migration twice leaves the providers, credentials and links of running
      it once, from every database it accepts, reserved names or not. */
  lemma {:induction false} MigrateTwice(cipher: Cipher, admin: Option<nat>, l: LegacyTables, s: Store, c: Consumers)
    requires IdsBounded(s) && MigrateData(cipher, admin, l, s, c).Success?
    ensures var (t, linked) := MigrateData(cipher, admin, l, s, c).value;
      && MigrateData(cipher, admin, l, t, linked).Success?
      && SameTables(t, MigrateData(cipher, admin, l, t, linked).value.0)
      && MigrateData(cipher, admin, l, t, linked).value.1 == linked
  {
    var plans := Plans(Context(admin, TargetUrls(c.images)), AllRows(l));
    RunTwice(cipher, s, plans);
    var (t, ids) := Run(cipher, s, plans).value;
    var refs := References(l, ids);
    TargetsKept(refs.docker, refs.dockerByUrl, c.images);
    RelinkTwice(refs, c);
  }

  // ----- The downgrade

  ghost predicate CredentialKeysValid(s: Store) {
    forall i :: i in s.providers && s.providers[i].credentialId.Some? ==>
        s.providers[i].credentialId.value in s.credentials
  }

  ghost predicate AddedReserved(s: Store, t: Store) {
    && (forall i :: i in t.providers && i !in s.providers ==> StartsWith(t.providers[i].name, "legacy-"))
    && (forall i :: i in t.credentials && i !in s.credentials ==> StartsWith(t.credentials[i].name, "migrated-"))
  }

  lemma ReservedPlans(ctx: Context, rows: seq<LegacyRow>)
    ensures forall k :: 0 <= k < |rows| ==>
      && StartsWith(Plans(ctx, rows)[k].provider.name, "legacy-")
      && (Plans(ctx, rows)[k].credential.Migrate? ==> StartsWith(Plans(ctx, rows)[k].credential.row.name, "migrated-"))
  {
    hide PlanOf;
    forall k | 0 <= k < |rows|
      ensures StartsWith(PlanOf(ctx, rows[k]).provider.name, "legacy-")
      ensures PlanOf(ctx, rows[k]).credential.Migrate? ==>
        StartsWith(PlanOf(ctx, rows[k]).credential.row.name, "migrated-")
    {
      SlugsReserved(ctx, rows[k]);
    }
  }

  lemma {:induction false} AddedByPlans(s: Store, t: Store, plans: seq<Plan>, ids: seq<nat>)
    requires Holds(s, t, plans, ids) && AddedCredentials(s, t, plans)
    requires forall k :: 0 <= k < |plans| ==>
      && StartsWith(plans[k].provider.name, "legacy-")
      && (plans[k].credential.Migrate? ==> StartsWith(plans[k].credential.row.name, "migrated-"))
    ensures AddedReserved(s, t)
  {
  }

  /** The only rows the migration adds are those the downgrade deletes. */
  lemma {:induction false} AddedRowsReserved(cipher: Cipher, ctx: Context, l: LegacyTables, s: Store)
    requires UniqueKeys(l) && IdsBounded(s) && Run(cipher, s, Plans(ctx, AllRows(l))).Success?
    ensures var t := Run(cipher, s, Plans(ctx, AllRows(l))).value.0; Grown(s, t) && AddedReserved(s, t)
  {
    hide PlanOf, Run, AllRows, Grown, Holds, AddedCredentials, AddedReserved;
    var plans := Plans(ctx, AllRows(l));
    ImagesDistinct(ctx, l);
    RunAccepted(cipher, s, plans);
    RunGrows(cipher, s, plans);
    RunAdds(cipher, s, plans);
    ReservedPlans(ctx, AllRows(l));
    AddedByPlans(s, Run(cipher, s, plans).value.0, plans, Run(cipher, s, plans).value.1);
  }

  /** Deleting by prefix undoes the additions exactly when no older row has a reserved name. */
  lemma {:induction false} RevertUndoes(s: Store, t: Store)
    requires Grown(s, t) && CredentialKeysValid(s)
    requires AddedReserved(s, t)
    ensures RevertData(t).providers == s.providers && RevertData(t).credentials == s.credentials <==> NoReservedNames(s)
  {
    var r := RevertData(t);
    if NoReservedNames(s) {
      assert r.credentials == s.credentials;
      var deleted := t.credentials.Keys - r.credentials.Keys;
      forall i | i in s.providers ensures DetachCredential(s.providers[i], deleted) == s.providers[i] {
      }
      assert r.providers.Keys == s.providers.Keys;
      assert r.providers == s.providers;
    } else {
      if i :| i in s.providers && StartsWith(s.providers[i].name, "legacy-") {
        assert i !in r.providers;
      } else {
        var j :| j in s.credentials && StartsWith(s.credentials[j].name, "migrated-");
        assert j !in r.credentials;
      }
    }
  }

  lemma {:induction false} RevertKeepsSources(s: Store, t: Store, sources: seq<SourceRow>)
    requires Grown(s, t) && NoReservedNames(s) && SourceKeysValid(s, sources)
    ensures RevertSources(t, sources) == sources
  {
    var deleted := t.credentials.Keys - RevertData(t).credentials.Keys;
    forall k | 0 <= k < |sources| ensures DetachSource(sources[k], deleted) == sources[k] {
    }
  }

  ghost predicate SourceKeysValid(s: Store, sources: seq<SourceRow>) {
    forall k :: 0 <= k < |sources| && sources[k].credentialId.Some? ==> sources[k].credentialId.value in s.credentials
  }

  /** The row's credential is one of those that the downgrade deletes. */
  ghost predicate CredentialDeleted(s: Store, id: Option<nat>) {
    id.Some? && id.value in s.credentials && "migrated-" <= s.credentials[id.value].name
  }

  /** What a downgrade leaves of any database: the providers and credentials whose names are not
      reserved, each as it was but for the reference to a deleted credential. */
  lemma {:induction false} RevertExactly(s: Store, sources: seq<SourceRow>)
    ensures var r, kept := RevertData(s), RevertSources(s, sources);
      && (forall i :: i in r.credentials <==> i in s.credentials && !("migrated-" <= s.credentials[i].name))
      && (forall i :: i in r.credentials ==> r.credentials[i] == s.credentials[i])
      && (forall i :: i in r.providers <==> i in s.providers && !("legacy-" <= s.providers[i].name))
      && (forall i :: i in r.providers ==>
            r.providers[i] == if CredentialDeleted(s, s.providers[i].credentialId)
                              then s.providers[i].(credentialId := None) else s.providers[i])
      && |kept| == |sources|
      && (forall k :: 0 <= k < |sources| ==>
            kept[k] == if CredentialDeleted(s, sources[k].credentialId)
                       then sources[k].(credentialId := None) else sources[k])
      && (r.nextProvider, r.nextCredential) == (s.nextProvider, s.nextCredential)
  {
  }

  /** Upgrade then downgrade restores the provider and credential tables, and the credentials of
      the legacy source providers, exactly when, before the upgrade, no name began with `legacy-`
      or `migrated-`. */
  lemma {:induction false} DowngradeRestoresExactly(cipher: Cipher, admin: Option<nat>, l: LegacyTables, s: Store,
                                                    c: Consumers)
    requires UniqueKeys(l) && IdsBounded(s) && CredentialKeysValid(s) && SourceKeysValid(s, l.sources)
    requires MigrateData(cipher, admin, l, s, c).Success?
    ensures var t := MigrateData(cipher, admin, l, s, c).value.0;
      && RevertData(t).providers == s.providers && RevertData(t).credentials == s.credentials
      && RevertSources(t, l.sources) == l.sources
      <==> NoReservedNames(s)
  {
    hide RevertData, RevertSources, NoReservedNames, CredentialKeysValid, SourceKeysValid, UniqueKeys;
    var ctx := Context(admin, TargetUrls(c.images));
    AddedRowsReserved(cipher, ctx, l, s);
    var t := Run(cipher, s, Plans(ctx, AllRows(l))).value.0;
    RevertUndoes(s, t);
    if NoReservedNames(s) {
      RevertKeepsSources(s, t, l.sources);
    }
  }

  /** A provider that was there before under a reserved name: the downgrade deletes it. */
  lemma OlderProviderLost(cipher: Cipher, older: Provider)
    requires StartsWith(older.name, "legacy-")
    ensures var s := Store(map[0 := older], 1, map[], 0, 0);
      var none := LegacyTables([], [], [], [], [], []);
      var migrated := MigrateData(cipher, None, none, s, Consumers([], [], [], []));
      && migrated.Success?
      && RevertData(migrated.value.0).providers == map[] != s.providers
  {
    var s := Store(map[0 := older], 1, map[], 0, 0);
    var none := LegacyTables([], [], [], [], [], []);
    assert AllRows(none) == [];
    assert Plans(Context(None, TargetUrls([])), AllRows(none)) == [];
    assert Run(cipher, s, []) == Success((s, []));
    assert MigrateData(cipher, None, none, s, Consumers([], [], [], [])).value.0 == s;
    assert 0 in s.providers && RevertData(s).providers == map[];
  }
}
