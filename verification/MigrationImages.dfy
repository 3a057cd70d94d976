/** What a migration from a database without `legacy-*` and `migrated-*` rows leaves: one
    provider per legacy row, carrying that row's image and its secret. */
module MigrationImages {
  import opened Wrappers
  import opened Secrets
  import opened ProviderSchema
  import opened LegacySchema
  import opened MigrationRun

  ghost predicate NoneNamed(s: Store, plans: seq<Plan>) {
    forall k :: 0 <= k < |plans| ==> Fresh(s, plans[k])
  }

  lemma {:induction false} ApplyNumbers(cipher: Cipher, s: Store, plan: Plan)
    requires IdsBounded(s) && Fresh(s, plan) && Apply(cipher, s, plan).Success?
    ensures var (t, id) := Apply(cipher, s, plan).value;
      id == s.nextProvider && t.nextProvider == id + 1 && |t.providers| == |s.providers| + 1
  {
    StoreCredentialGrows(cipher, s, plan.credential);
    assert s.nextProvider !in s.providers;
  }

  // ----- Secrets

  /** The credential a migrated provider points to holds the legacy row's secret. */
  ghost predicate CredentialImage(cipher: Cipher, credentials: map<nat, Credential>, plan: CredentialPlan,
                                  id: Option<nat>)
  {
    match plan
    case Reuse(reused) => id == reused
    case Migrate(secret, row) =>
      if !Truthy(secret) then id == None
      else id.Some? && id.value in credentials && HoldsSecret(cipher, credentials[id.value], row, secret.value)
  }

  /** The credential is the planned row with a ciphertext of the legacy plaintext. */
  ghost predicate HoldsSecret(cipher: Cipher, c: Credential, row: Credential, secret: string) {
    && c.encryptedSecret.Some?
    && c == row.(encryptedSecret := c.encryptedSecret)
    && cipher.decrypt(c.encryptedSecret.value) == Plaintext(LegacyPlaintext(cipher, secret))
  }

  ghost predicate DistinctCredentials(plans: seq<Plan>) {
    forall j, k :: 0 <= j < k < |plans| && plans[j].credential.Migrate? && plans[k].credential.Migrate? ==>
      plans[j].credential.row.name != plans[k].credential.row.name
  }

  ghost predicate NoCredentialNamed(s: Store, plans: seq<Plan>) {
    forall k :: 0 <= k < |plans| && plans[k].credential.Migrate? ==>
      CredentialIdsNamed(s.credentials, plans[k].credential.row.name) == {}
  }

  /** Credentials added by a run bear the names of its plans. */
  ghost predicate AddedCredentials(s: Store, t: Store, plans: seq<Plan>) {
    forall i :: i in t.credentials && i !in s.credentials ==>
      exists k :: 0 <= k < |plans| && plans[k].credential.Migrate?
          && plans[k].credential.row.name == t.credentials[i].name
  }

  lemma {:induction false} StoreCredentialAdds(cipher: Cipher, s: Store, t: Store, plans: seq<Plan>)
    requires plans != [] && var n := |plans| - 1; AddedCredentials(s, t, plans[..n])
    requires IdsBounded(t) && Grown(s, t)
    requires StoreCredential(cipher, t, plans[|plans| - 1].credential).Success?
    ensures AddedCredentials(s, StoreCredential(cipher, t, plans[|plans| - 1].credential).value.0, plans)
  {
    var n := |plans| - 1;
    var u := StoreCredential(cipher, t, plans[n].credential).value.0;
    forall i | i in u.credentials && i !in s.credentials
      ensures exists k :: 0 <= k < |plans|
                          && plans[k].credential.Migrate? && plans[k].credential.row.name == u.credentials[i].name
    {
      if i in t.credentials {
        var k :| 0 <= k < n && plans[..n][k].credential.Migrate?
            && plans[..n][k].credential.row.name == t.credentials[i].name;
        assert plans[k] == plans[..n][k] && u.credentials[i] == t.credentials[i];
      } else {
        assert plans[n].credential.Migrate? && plans[n].credential.row.name == u.credentials[i].name;
      }
    }
  }

  lemma {:induction false} RunAdds(cipher: Cipher, s: Store, plans: seq<Plan>)
    requires IdsBounded(s) && Run(cipher, s, plans).Success?
    ensures AddedCredentials(s, Run(cipher, s, plans).value.0, plans)
  {
    if plans != [] {
      var n := |plans| - 1;
      RunAdds(cipher, s, plans[..n]);
      RunGrows(cipher, s, plans[..n]);
      StoreCredentialAdds(cipher, s, Run(cipher, s, plans[..n]).value.0, plans);
    }
  }

  /** Storing the secret of a plan whose credential name is new. */
  lemma {:induction false} StoreCredentialImage(cipher: Cipher, s: Store, plan: CredentialPlan)
    requires Lawful(cipher) && StoreCredential(cipher, s, plan).Success?
    requires plan.Migrate? ==> CredentialIdsNamed(s.credentials, plan.row.name) == {}
    ensures var (t, id) := StoreCredential(cipher, s, plan).value; CredentialImage(cipher, t.credentials, plan, id)
  {
  }

  lemma {:induction false} NewCredentialName(s: Store, t: Store, plans: seq<Plan>)
    requires plans != [] && var n := |plans| - 1; AddedCredentials(s, t, plans[..n])
    requires Grown(s, t) && DistinctCredentials(plans) && NoCredentialNamed(s, plans)
    ensures var plan := plans[|plans| - 1].credential;
      plan.Migrate? ==> CredentialIdsNamed(t.credentials, plan.row.name) == {}
  {
  }

  /** The row `id` of the store is the k-th image, secret included. */
  ghost predicate IsImage(cipher: Cipher, s: Store, plan: Plan, id: nat) {
    && id in s.providers && Carries(s.providers[id], plan)
    && CredentialImage(cipher, s.credentials, plan.credential, s.providers[id].credentialId)
  }

  lemma {:induction false} ApplyImage(cipher: Cipher, s: Store, plan: Plan)
    requires Lawful(cipher) && IdsBounded(s) && Fresh(s, plan)
    requires plan.credential.Migrate? ==> CredentialIdsNamed(s.credentials, plan.credential.row.name) == {}
    requires Apply(cipher, s, plan).Success?
    ensures var (t, id) := Apply(cipher, s, plan).value; IsImage(cipher, t, plan, id)
  {
    StoreCredentialImage(cipher, s, plan.credential);
    StoreCredentialGrows(cipher, s, plan.credential);
  }

  /** A database without the names the images would take. */
  ghost predicate CleanStart(s: Store, plans: seq<Plan>) {
    && DistinctNames(plans) && AllMeetChecks(plans) && NoneNamed(s, plans)
    && DistinctCredentials(plans) && NoCredentialNamed(s, plans)
  }

  lemma CleanStartPrefix(s: Store, plans: seq<Plan>, n: nat)
    requires CleanStart(s, plans) && n <= |plans|
    ensures CleanStart(s, plans[..n])
  {
  }

  ghost predicate AllImages(cipher: Cipher, s: Store, plans: seq<Plan>, ids: seq<nat>) {
    |ids| == |plans| && forall k :: 0 <= k < |plans| ==> IsImage(cipher, s, plans[k], ids[k])
  }

  lemma {:induction false} AllImagesExtended(cipher: Cipher, s: Store, t: Store, plans: seq<Plan>, ids: seq<nat>,
                                             id: nat)
    requires plans != [] && AllImages(cipher, s, plans[..|plans| - 1], ids) && Grown(s, t)
    requires IsImage(cipher, t, plans[|plans| - 1], id)
    ensures AllImages(cipher, t, plans, ids + [id])
  {
  }

  /** Every provider a clean migration resolves is the image of its legacy row: all columns are
      those of the plan, and its credential decrypts to the plaintext of the legacy secret. */
  lemma {:induction false} RunImages(cipher: Cipher, s: Store, plans: seq<Plan>)
    requires Lawful(cipher) && IdsBounded(s) && CleanStart(s, plans)
    requires Run(cipher, s, plans).Success?
    ensures AllImages(cipher, Run(cipher, s, plans).value.0, plans, Run(cipher, s, plans).value.1)
  {
    if plans != [] {
      var n := |plans| - 1;
      var init := plans[..n];
      CleanStartPrefix(s, plans, n);
      RunImages(cipher, s, init);
      RunGrows(cipher, s, init);
      RunAccepted(cipher, s, init);
      RunAdds(cipher, s, init);
      var (t, ids) := Run(cipher, s, init).value;
      NewCredentialName(s, t, plans);
      FreshKept(s, t, init, ids, plans[n]);
      ApplyImage(cipher, t, plans[n]);
      ApplyGrows(cipher, t, plans[n]);
      var (u, id) := Apply(cipher, t, plans[n]).value;
      AllImagesExtended(cipher, t, u, plans, ids, id);
    }
  }

  /** The k-th image gets the k-th id of the sequence; the table grows by the number of images. */
  lemma {:induction false} RunNumbers(cipher: Cipher, s: Store, plans: seq<Plan>)
    requires IdsBounded(s) && CleanStart(s, plans)
    requires Run(cipher, s, plans).Success?
    ensures var (t, ids) := Run(cipher, s, plans).value;
      && |ids| == |plans| && t.nextProvider == s.nextProvider + |plans|
      && (forall k :: 0 <= k < |plans| ==> ids[k] == s.nextProvider + k)
      && |t.providers| == |s.providers| + |plans|
  {
    hide Apply, Settled, Grown, Holds, Accepted;
    if plans != [] {
      var n := |plans| - 1;
      var init := plans[..n];
      CleanStartPrefix(s, plans, n);
      RunNumbers(cipher, s, init);
      RunGrows(cipher, s, init);
      RunAccepted(cipher, s, init);
      var (t, ids) := Run(cipher, s, init).value;
      FreshKept(s, t, init, ids, plans[n]);
      ApplyNumbers(cipher, t, plans[n]);
    }
  }
}
