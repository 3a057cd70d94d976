/** The migration's insertions as a function: what `_insert_credential` and `_insert_provider`
    do to the two target tables, and what a whole sequence of legacy images does to them. */
module MigrationRun {
  import opened Wrappers
  import opened Secrets
  import opened ProviderSchema
  import opened LegacySchema

  /** The two target tables with their id sequences; `clock` advances at every secret handled. */
  datatype Store = Store(
    providers: map<nat, Provider>, nextProvider: nat,
    credentials: map<nat, Credential>, nextCredential: nat,
    clock: nat)

  datatype MigrationError = SecretRaised | ConstraintViolated

  function InsertCredential(s: Store, row: Credential): (Store, nat) {
    var existing := CredentialIdsNamed(s.credentials, row.name);
    if existing != {} then (s, LeastOf(existing))
    else (s.(credentials := s.credentials[s.nextCredential := row], nextCredential := s.nextCredential + 1),
          s.nextCredential)
  }

  function InsertProvider(s: Store, row: Provider): Result<(Store, nat), MigrationError> {
    var existing := IdsNamed(s.providers, row.name);
    if existing != {} then Success((s, LeastOf(existing)))
    else if !Insertable(s.providers, row) then Failure(ConstraintViolated)
    else Success((s.(providers := s.providers[s.nextProvider := row], nextProvider := s.nextProvider + 1),
                  s.nextProvider))
  }

  function StoreCredential(cipher: Cipher, s: Store, plan: CredentialPlan)
    : Result<(Store, Option<nat>), MigrationError>
  {
    match plan
    case Reuse(id) => Success((s, id))
    case Migrate(secret, row) =>
      match MigrateSecret(cipher, secret, s.clock)
      case Failure(_) => Failure(SecretRaised)
      case Success(None) => Success((s.(clock := s.clock + 1), None))
      case Success(ciphertext) =>
        var (t, id) := InsertCredential(s.(clock := s.clock + 1), row.(encryptedSecret := ciphertext));
        Success((t, Some(id)))
  }

  function Apply(cipher: Cipher, s: Store, plan: Plan): Result<(Store, nat), MigrationError> {
    match StoreCredential(cipher, s, plan.credential)
    case Failure(e) => Failure(e)
    case Success((t, credentialId)) => InsertProvider(t, plan.provider.(credentialId := credentialId))
  }

  /** The migration of a sequence of images, first to last; the ids are the `provider_id`s. */
  function Run(cipher: Cipher, s: Store, plans: seq<Plan>): (r: Result<(Store, seq<nat>), MigrationError>)
    ensures r.Success? ==> |r.value.1| == |plans|
  {
    if plans == [] then Success((s, []))
    else
      match Run(cipher, s, plans[..|plans| - 1])
      case Failure(e) => Failure(e)
      case Success((t, ids)) =>
        match Apply(cipher, t, plans[|plans| - 1])
        case Failure(e) => Failure(e)
        case Success((u, id)) => Success((u, ids + [id]))
  }

  lemma {:induction false} RunStep(cipher: Cipher, s: Store, plans: seq<Plan>, k: nat)
    requires k < |plans|
    ensures Run(cipher, s, plans[..k + 1]) ==
      match Run(cipher, s, plans[..k])
      case Failure(e) => Failure(e)
      case Success((t, ids)) =>
        match Apply(cipher, t, plans[k])
        case Failure(e) => Failure(e)
        case Success((u, id)) => Success((u, ids + [id]))
  {
    assert plans[..k + 1][..k] == plans[..k];
  }

  /** A failure in any prefix is the failure of the whole. */
  lemma {:induction false} RunFails(cipher: Cipher, s: Store, plans: seq<Plan>, k: nat)
    requires k <= |plans| && Run(cipher, s, plans[..k]).Failure?
    ensures Run(cipher, s, plans) == Failure(Run(cipher, s, plans[..k]).error)
  {
    if k == |plans| {
      assert plans[..k] == plans;
    } else {
      assert plans[..|plans| - 1][..k] == plans[..k];
      RunFails(cipher, s, plans[..|plans| - 1], k);
    }
  }

  /** Migrating two table scans in a row is migrating their concatenation. */
  lemma {:induction false} RunAppend(cipher: Cipher, s: Store, a: seq<Plan>, b: seq<Plan>)
    ensures Run(cipher, s, a + b) ==
      match Run(cipher, s, a)
      case Failure(e) => Failure(e)
      case Success((t, ids)) =>
        match Run(cipher, t, b)
        case Failure(e) => Failure(e)
        case Success((u, more)) => Success((u, ids + more))
  {
    if b == [] {
      assert a + b == a;
      match Run(cipher, s, a)
      case Failure(_) =>
      case Success((t, ids)) => assert ids + [] == ids;
    } else {
      var init, last := b[..|b| - 1], b[|b| - 1];
      assert (a + b)[..|a + b| - 1] == a + init;
      RunAppend(cipher, s, a, init);
      match Run(cipher, s, a)
      case Failure(_) =>
      case Success((t, ids)) =>
        match Run(cipher, t, init)
        case Failure(_) =>
        case Success((u, more)) =>
          match Apply(cipher, u, last)
          case Failure(_) =>
          case Success((v, id)) => assert (ids + more) + [id] == ids + (more + [id]);
    }
  }

  // ----- Nothing that was there changes

  ghost predicate IdsBounded(s: Store) {
    && (forall i :: i in s.providers ==> i < s.nextProvider)
    && (forall i :: i in s.credentials ==> i < s.nextCredential)
  }

  /** `t` holds every row of `s` unchanged; its further rows have ids from the sequences. */
  ghost predicate Grown(s: Store, t: Store) {
    && s.nextProvider <= t.nextProvider && s.nextCredential <= t.nextCredential
    && (forall i :: i in s.providers ==> i in t.providers && t.providers[i] == s.providers[i])
    && (forall i :: i in t.providers && i !in s.providers ==> s.nextProvider <= i < t.nextProvider)
    && (forall i :: i in s.credentials ==> i in t.credentials && t.credentials[i] == s.credentials[i])
    && (forall i :: i in t.credentials && i !in s.credentials ==> s.nextCredential <= i < t.nextCredential)
  }

  /** A lookup by provider name finds `id`. */
  ghost predicate Named(s: Store, name: string, id: nat) {
    IdsNamed(s.providers, name) != {} && LeastOf(IdsNamed(s.providers, name)) == id
  }

  ghost predicate CredentialNamed(s: Store, name: string, id: nat) {
    CredentialIdsNamed(s.credentials, name) != {} && LeastOf(CredentialIdsNamed(s.credentials, name)) == id
  }

  lemma GrownTransitive(s: Store, t: Store, u: Store)
    requires Grown(s, t) && Grown(t, u)
    ensures Grown(s, u)
  {
  }

  lemma NamedKept(s: Store, t: Store, name: string, id: nat)
    requires IdsBounded(s) && Grown(s, t) && Named(s, name, id)
    ensures Named(t, name, id)
  {
    assert id in IdsNamed(t.providers, name);
    var least := LeastOf(IdsNamed(t.providers, name));
    assert least <= id;
    assert least in s.providers && least in IdsNamed(s.providers, name);
  }

  lemma CredentialNamedKept(s: Store, t: Store, name: string, id: nat)
    requires IdsBounded(s) && Grown(s, t) && CredentialNamed(s, name, id)
    ensures CredentialNamed(t, name, id)
  {
    assert id in CredentialIdsNamed(t.credentials, name);
    var least := LeastOf(CredentialIdsNamed(t.credentials, name));
    assert least <= id;
    assert least in s.credentials && least in CredentialIdsNamed(s.credentials, name);
  }

  lemma StoreCredentialGrows(cipher: Cipher, s: Store, plan: CredentialPlan)
    requires IdsBounded(s) && StoreCredential(cipher, s, plan).Success?
    ensures var (t, id) := StoreCredential(cipher, s, plan).value;
      && Grown(s, t) && IdsBounded(t) && t.providers == s.providers && t.nextProvider == s.nextProvider
      && (plan.Migrate? && Truthy(plan.secret) ==> id.Some? && CredentialNamed(t, plan.row.name, id.value))
  {
    if plan.Migrate? {
      match MigrateSecret(cipher, plan.secret, s.clock)
      case Failure(_) =>
      case Success(None) =>
      case Success(ciphertext) =>
        var row := plan.row.(encryptedSecret := ciphertext);
        var (t, id) := InsertCredential(s.(clock := s.clock + 1), row);
        assert id in CredentialIdsNamed(t.credentials, row.name);
        if CredentialIdsNamed(s.credentials, row.name) == {} {
          forall i | i in CredentialIdsNamed(t.credentials, row.name) ensures i == id {
            assert i == id || i in CredentialIdsNamed(s.credentials, row.name);
          }
        }
    }
  }

  lemma InsertProviderGrows(s: Store, row: Provider)
    requires IdsBounded(s) && InsertProvider(s, row).Success?
    ensures var (t, id) := InsertProvider(s, row).value;
      Grown(s, t) && IdsBounded(t) && Named(t, row.name, id)
  {
    var (t, id) := InsertProvider(s, row).value;
    assert id in IdsNamed(t.providers, row.name);
    if IdsNamed(s.providers, row.name) == {} {
      forall i | i in IdsNamed(t.providers, row.name) ensures i == id {
        assert i == id || i in IdsNamed(s.providers, row.name);
      }
    }
  }

  /** A lookup of the plan's names finds what it inserted or found before. */
  ghost predicate Settled(cipher: Cipher, s: Store, plan: Plan, id: nat) {
    && Named(s, plan.provider.name, id)
    && (plan.credential.Migrate? && Truthy(plan.credential.secret) ==>
          && !cipher.decrypt(plan.credential.secret.value).Raised?
          && CredentialIdsNamed(s.credentials, plan.credential.row.name) != {})
  }

  lemma ApplyGrows(cipher: Cipher, s: Store, plan: Plan)
    requires IdsBounded(s) && Apply(cipher, s, plan).Success?
    ensures var (t, id) := Apply(cipher, s, plan).value;
      Grown(s, t) && IdsBounded(t) && Settled(cipher, t, plan, id)
  {
    StoreCredentialGrows(cipher, s, plan.credential);
    var (u, credentialId) := StoreCredential(cipher, s, plan.credential).value;
    InsertProviderGrows(u, plan.provider.(credentialId := credentialId));
    var (t, id) := Apply(cipher, s, plan).value;
    GrownTransitive(s, u, t);
    if plan.credential.Migrate? && Truthy(plan.credential.secret) {
      CredentialNamedKept(u, t, plan.credential.row.name, credentialId.value);
    }
  }

  lemma SettledKept(cipher: Cipher, s: Store, t: Store, plan: Plan, id: nat)
    requires IdsBounded(s) && Grown(s, t) && Settled(cipher, s, plan, id)
    ensures Settled(cipher, t, plan, id)
  {
    NamedKept(s, t, plan.provider.name, id);
    if plan.credential.Migrate? && Truthy(plan.credential.secret) {
      CredentialNamedKept(s, t, plan.credential.row.name,
                          LeastOf(CredentialIdsNamed(s.credentials, plan.credential.row.name)));
    }
  }

  /** A successful migration only adds rows, and leaves every image findable by its names. */
  lemma {:induction false} RunGrows(cipher: Cipher, s: Store, plans: seq<Plan>)
    requires IdsBounded(s) && Run(cipher, s, plans).Success?
    ensures var (t, ids) := Run(cipher, s, plans).value;
      && Grown(s, t) && IdsBounded(t) && |ids| == |plans|
      && forall k :: 0 <= k < |plans| ==> Settled(cipher, t, plans[k], ids[k])
  {
    hide Apply, Settled;
    if plans != [] {
      var n := |plans| - 1;
      RunGrows(cipher, s, plans[..n]);
      var (t, ids) := Run(cipher, s, plans[..n]).value;
      ApplyGrows(cipher, t, plans[n]);
      var (u, id) := Apply(cipher, t, plans[n]).value;
      GrownTransitive(s, t, u);
      forall k | 0 <= k < n ensures Settled(cipher, u, plans[k], ids[k]) {
        assert Settled(cipher, t, plans[..n][k], ids[k]);
        SettledKept(cipher, t, u, plans[k], ids[k]);
      }
    }
  }

  // ----- Idempotence

  ghost predicate SameTables(s: Store, t: Store) {
    t == s.(clock := t.clock)
  }

  lemma ApplySettled(cipher: Cipher, s: Store, t: Store, plan: Plan, id: nat)
    requires Settled(cipher, s, plan, id) && SameTables(s, t)
    ensures Apply(cipher, t, plan).Success?
    ensures var (u, found) := Apply(cipher, t, plan).value; SameTables(s, u) && found == id
  {
    assert Settled(cipher, t, plan, id);
  }

  /** Over settled images a run finds every row and inserts none. */
  lemma {:induction false} RunSettled(cipher: Cipher, s: Store, plans: seq<Plan>, ids: seq<nat>)
    requires |ids| == |plans|
    requires forall k :: 0 <= k < |plans| ==> Settled(cipher, s, plans[k], ids[k])
    ensures Run(cipher, s, plans).Success?
    ensures var (t, found) := Run(cipher, s, plans).value; SameTables(s, t) && found == ids
  {
    hide Apply, Settled;
    if plans != [] {
      var n := |plans| - 1;
      forall k | 0 <= k < n ensures Settled(cipher, s, plans[..n][k], ids[..n][k]) {
        assert Settled(cipher, s, plans[k], ids[k]);
      }
      RunSettled(cipher, s, plans[..n], ids[..n]);
      ApplySettled(cipher, s, Run(cipher, s, plans[..n]).value.0, plans[n], ids[n]);
    }
  }

  /** Running the insertions twice leaves the tables and the resolved ids of running them once,
      from every database the first run accepts. */
  lemma {:induction false} RunTwice(cipher: Cipher, s: Store, plans: seq<Plan>)
    requires IdsBounded(s) && Run(cipher, s, plans).Success?
    ensures var (t, ids) := Run(cipher, s, plans).value;
      && Run(cipher, t, plans).Success?
      && Run(cipher, t, plans).value.1 == ids
      && SameTables(t, Run(cipher, t, plans).value.0)
  {
    RunGrows(cipher, s, plans);
    var (t, ids) := Run(cipher, s, plans).value;
    RunSettled(cipher, t, plans, ids);
  }

  // ----- When the database accepts the migration

  predicate Fresh(s: Store, plan: Plan) {
    IdsNamed(s.providers, plan.provider.name) == {}
  }

  ghost predicate Readable(cipher: Cipher, plan: Plan) {
    plan.credential.Migrate? && Truthy(plan.credential.secret) ==>
      !cipher.decrypt(plan.credential.secret.value).Raised?
  }

  /** The k-th image, when it is inserted as a live default, meets no other in its scope. */
  ghost predicate ScopeFree(s: Store, plans: seq<Plan>, k: nat)
    requires k < |plans|
  {
    Fresh(s, plans[k]) && LiveDefault(plans[k].provider) ==>
      && (forall i :: i in s.providers && LiveDefault(s.providers[i]) ==>
            ScopeOf(s.providers[i]) != ScopeOf(plans[k].provider))
      && (forall j :: 0 <= j < k && Fresh(s, plans[j]) && LiveDefault(plans[j].provider) ==>
            ScopeOf(plans[j].provider) != ScopeOf(plans[k].provider))
  }

  ghost predicate DistinctNames(plans: seq<Plan>) {
    forall j, k :: 0 <= j < k < |plans| ==> plans[j].provider.name != plans[k].provider.name
  }

  ghost predicate AllMeetChecks(plans: seq<Plan>) {
    forall k :: 0 <= k < |plans| ==> MeetsChecks(plans[k].provider)
  }

  /** The row is the image, whatever credential it was given. */
  predicate Carries(row: Provider, plan: Plan) {
    row == plan.provider.(credentialId := row.credentialId)
  }

  /** The provider table after a run: the old rows and the fresh images, in order. */
  ghost predicate Holds(s: Store, t: Store, plans: seq<Plan>, ids: seq<nat>) {
    && |ids| == |plans|
    && (forall k :: 0 <= k < |plans| && Fresh(s, plans[k]) ==>
          && ids[k] in t.providers && ids[k] !in s.providers
          && Carries(t.providers[ids[k]], plans[k]))
    && (forall i :: i in t.providers && i !in s.providers ==>
          exists k :: 0 <= k < |plans| && Fresh(s, plans[k]) && ids[k] == i)
  }

  lemma FreshKept(s: Store, t: Store, plans: seq<Plan>, ids: seq<nat>, plan: Plan)
    requires Grown(s, t) && Holds(s, t, plans, ids)
    requires forall k :: 0 <= k < |plans| ==> plans[k].provider.name != plan.provider.name
    ensures Fresh(s, plan) <==> Fresh(t, plan)
  {
  }

  /** With everything before the last image in the table, inserting it succeeds exactly when
      its scope is free. */
  lemma {:induction false} LastScopeFree(s: Store, t: Store, plans: seq<Plan>, ids: seq<nat>)
    requires plans != [] && var n := |plans| - 1; Grown(s, t) && Holds(s, t, plans[..n], ids) && Fresh(t, plans[n])
    requires Fresh(s, plans[|plans| - 1]) && MeetsChecks(plans[|plans| - 1].provider)
    ensures Insertable(t.providers, plans[|plans| - 1].provider) <==> ScopeFree(s, plans, |plans| - 1)
  {
    var n := |plans| - 1;
    var p := plans[n].provider;
    assert forall i :: i in t.providers ==> i !in IdsNamed(t.providers, p.name);
    if LiveDefault(p) {
      ScopeTaken(s, t, plans, ids, ScopeOf(p));
    }
  }

  /** A scope is occupied after the earlier images exactly when an older default or one of them
      occupies it. */
  lemma {:induction false} ScopeTaken(s: Store, t: Store, plans: seq<Plan>, ids: seq<nat>, scope: Scope)
    requires plans != [] && var n := |plans| - 1; Grown(s, t) && Holds(s, t, plans[..n], ids)
    ensures (forall i :: i in t.providers && LiveDefault(t.providers[i]) ==> ScopeOf(t.providers[i]) != scope) <==>
      && (forall i :: i in s.providers && LiveDefault(s.providers[i]) ==> ScopeOf(s.providers[i]) != scope)
      && (forall j :: 0 <= j < |plans| - 1 && Fresh(s, plans[j]) && LiveDefault(plans[j].provider) ==>
            ScopeOf(plans[j].provider) != scope)
  {
    hide Fresh;
    var n := |plans| - 1;
    forall j | 0 <= j < n && Fresh(s, plans[j])
      ensures ids[j] in t.providers && LiveDefault(t.providers[ids[j]]) == LiveDefault(plans[j].provider)
      ensures ScopeOf(t.providers[ids[j]]) == ScopeOf(plans[j].provider)
    {
      assert Fresh(s, plans[..n][j]) && Carries(t.providers[ids[j]], plans[..n][j]);
    }
    forall i | i in t.providers && i !in s.providers
      ensures exists j :: 0 <= j < n && Fresh(s, plans[j]) && ids[j] == i
    {
      var k :| 0 <= k < n && Fresh(s, plans[..n][k]) && ids[k] == i;
      assert Fresh(s, plans[k]);
    }
  }

  lemma {:induction false} ApplyHolds(cipher: Cipher, s: Store, t: Store, plans: seq<Plan>, ids: seq<nat>)
    requires plans != [] && var n := |plans| - 1; Grown(s, t) && Holds(s, t, plans[..n], ids) && IdsBounded(t)
    requires DistinctNames(plans) && AllMeetChecks(plans)
    ensures var n := |plans| - 1;
      && (Apply(cipher, t, plans[n]).Success? <==> Readable(cipher, plans[n]) && ScopeFree(s, plans, n))
      && (Apply(cipher, t, plans[n]).Success? ==>
            Holds(s, Apply(cipher, t, plans[n]).value.0, plans, ids + [Apply(cipher, t, plans[n]).value.1]))
  {
    var n := |plans| - 1;
    FreshKept(s, t, plans[..n], ids, plans[n]);
    assert StoreCredential(cipher, t, plans[n].credential).Success? <==> Readable(cipher, plans[n]);
    if StoreCredential(cipher, t, plans[n].credential).Success? {
      StoreCredentialGrows(cipher, t, plans[n].credential);
      var (v, credentialId) := StoreCredential(cipher, t, plans[n].credential).value;
      var row := plans[n].provider.(credentialId := credentialId);
      assert Insertable(v.providers, row) <==> Insertable(t.providers, plans[n].provider);
      if Fresh(s, plans[n]) {
        LastScopeFree(s, t, plans, ids);
      }
      if Apply(cipher, t, plans[n]).Success? {
        HoldsExtended(s, t, InsertProvider(v, row).value.0, plans, ids, InsertProvider(v, row).value.1, row);
      }
    }
  }

  lemma {:induction false} HoldsExtended(s: Store, t: Store, u: Store, plans: seq<Plan>, ids: seq<nat>, id: nat,
                                         row: Provider)
    requires plans != [] && var n := |plans| - 1; Grown(s, t) && Holds(s, t, plans[..n], ids) && IdsBounded(t)
    requires Carries(row, plans[|plans| - 1])
    requires if Fresh(s, plans[|plans| - 1]) then id == t.nextProvider && u.providers == t.providers[id := row]
             else u.providers == t.providers
    ensures Holds(s, u, plans, ids + [id])
  {
    hide Carries, Fresh;
    var n := |plans| - 1;
    var all := ids + [id];
    forall k | 0 <= k < |plans| && Fresh(s, plans[k])
      ensures all[k] in u.providers && all[k] !in s.providers && Carries(u.providers[all[k]], plans[k])
    {
      if k < n {
        assert Fresh(s, plans[..n][k]) && all[k] == ids[k];
        assert ids[k] in t.providers && Carries(t.providers[ids[k]], plans[k]);
      }
    }
    forall i | i in u.providers && i !in s.providers
      ensures exists k :: 0 <= k < |plans| && Fresh(s, plans[k]) && all[k] == i
    {
      if i in t.providers {
        var k :| 0 <= k < n && Fresh(s, plans[..n][k]) && ids[k] == i;
        assert Fresh(s, plans[k]) && all[k] == i;
      } else {
        assert Fresh(s, plans[n]) && all[n] == i;
      }
    }
  }

  ghost predicate Accepted(cipher: Cipher, s: Store, plans: seq<Plan>) {
    forall k :: 0 <= k < |plans| ==> Readable(cipher, plans[k]) && ScopeFree(s, plans, k)
  }

  lemma AcceptedStep(cipher: Cipher, s: Store, plans: seq<Plan>)
    requires plans != []
    ensures var n := |plans| - 1;
      Accepted(cipher, s, plans) <==>
        Accepted(cipher, s, plans[..n]) && Readable(cipher, plans[n]) && ScopeFree(s, plans, n)
  {
  }

  /** The exact condition for the migration of pairwise differently named images to go through:
      every secret can be read, and every image inserted as a default finds its scope free of
      existing defaults and of the defaults inserted before it. What it then leaves is the old
      table plus one row for each image that was not there under its name. */
  lemma {:induction false} RunAccepted(cipher: Cipher, s: Store, plans: seq<Plan>)
    requires IdsBounded(s) && DistinctNames(plans) && AllMeetChecks(plans)
    ensures Run(cipher, s, plans).Success? <==> Accepted(cipher, s, plans)
    ensures Run(cipher, s, plans).Success? ==>
      var (t, ids) := Run(cipher, s, plans).value; Holds(s, t, plans, ids)
  {
    if plans != [] {
      var n := |plans| - 1;
      RunAccepted(cipher, s, plans[..n]);
      AcceptedStep(cipher, s, plans);
      if Run(cipher, s, plans[..n]).Success? {
        RunGrows(cipher, s, plans[..n]);
        var (t, ids) := Run(cipher, s, plans[..n]).value;
        ApplyHolds(cipher, s, t, plans, ids);
      }
    }
  }
}
