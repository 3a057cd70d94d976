/** What revision 00932f2a02d5 preserves. */
module LegacyTheorems {
  import opened Wrappers
  import opened Strings
  import opened Secrets
  import opened ProviderSchema
  import opened UrlNormalization
  import opened LegacySchema
  import opened MigrationRun
  import opened MigrationImages
  import opened LegacyMigration

  // ----- Databases the revision starts from

  /** The primary keys and the unique name indexes of the legacy tables. */
  ghost predicate UniqueKeys(l: LegacyTables) {
    && (forall j, k :: 0 <= j < k < |l.sources| ==> l.sources[j].id != l.sources[k].id)
    && (forall j, k :: 0 <= j < k < |l.gitlabs| ==>
        l.gitlabs[j].id != l.gitlabs[k].id && l.gitlabs[j].name != l.gitlabs[k].name)
    && (forall j, k :: 0 <= j < k < |l.githubs| ==>
        l.githubs[j].id != l.githubs[k].id && l.githubs[j].name != l.githubs[k].name)
    && (forall j, k :: 0 <= j < k < |l.harbors| ==>
        l.harbors[j].id != l.harbors[k].id && l.harbors[j].name != l.harbors[k].name)
    && (forall j, k :: 0 <= j < k < |l.dockers| ==>
        l.dockers[j].id != l.dockers[k].id && l.dockers[j].name != l.dockers[k].name)
    && (forall j, k :: 0 <= j < k < |l.helms| ==> l.helms[j].id != l.helms[k].id && l.helms[j].name != l.helms[k].name)
  }

  /** No row yet bears one of the two reserved name prefixes. */
  ghost predicate NoReservedNames(s: Store) {
    && (forall i :: i in s.providers ==> !StartsWith(s.providers[i].name, "legacy-"))
    && (forall i :: i in s.credentials ==> !StartsWith(s.credentials[i].name, "migrated-"))
  }

  ghost predicate Distinct(rows: seq<LegacyRow>) {
    forall j, k :: 0 <= j < k < |rows| ==> !SameEntity(rows[j], rows[k])
  }

  /** Rows of later tables never repeat an entity of earlier ones. */
  lemma DistinctConcat(a: seq<LegacyRow>, b: seq<LegacyRow>, table: nat)
    requires Distinct(a) && Distinct(b)
    requires forall k :: 0 <= k < |a| ==> Table(a[k]) < table
    requires forall k :: 0 <= k < |b| ==> Table(b[k]) == table
    ensures Distinct(a + b)
    ensures forall k :: 0 <= k < |a + b| ==> Table((a + b)[k]) < table + 1
  {
  }

  lemma AllRowsDistinct(l: LegacyTables)
    requires UniqueKeys(l)
    ensures Distinct(AllRows(l))
  {
    var a := SourceRows(l.sources);
    DistinctConcat(a, GitlabRows(l.gitlabs), 1);
    var b := a + GitlabRows(l.gitlabs);
    DistinctConcat(b, GithubRows(l.githubs), 2);
    var c := b + GithubRows(l.githubs);
    DistinctConcat(c, HarborRows(l.harbors), 3);
    var d := c + HarborRows(l.harbors);
    DistinctConcat(d, DockerRows(l.dockers), 4);
    DistinctConcat(d + DockerRows(l.dockers), HelmRows(l.helms), 5);
  }

  lemma SlugsReserved(ctx: Context, row: LegacyRow)
    ensures StartsWith(PlanOf(ctx, row).provider.name, "legacy-")
    ensures PlanOf(ctx, row).credential.Migrate? <==> !row.Source?
    ensures PlanOf(ctx, row).credential.Migrate? ==>
      && CredentialName(row) == Some(PlanOf(ctx, row).credential.row.name)
      && StartsWith(PlanOf(ctx, row).credential.row.name, "migrated-")
  {
    SlugShape(row);
    ImageMeetsChecks(ctx, row);
  }

  lemma ImagesDistinct(ctx: Context, l: LegacyTables)
    requires UniqueKeys(l)
    ensures var plans := Plans(ctx, AllRows(l));
      DistinctNames(plans) && AllMeetChecks(plans) && DistinctCredentials(plans)
  {
    AllRowsDistinct(l);
    var rows := AllRows(l);
    forall k | 0 <= k < |rows| ensures MeetsChecks(PlanOf(ctx, rows[k]).provider) {
      ImageMeetsChecks(ctx, rows[k]);
    }
    forall j, k | 0 <= j < k < |rows|
      ensures PlanOf(ctx, rows[j]).provider.name != PlanOf(ctx, rows[k]).provider.name
      ensures PlanOf(ctx, rows[j]).credential.Migrate? && PlanOf(ctx, rows[k]).credential.Migrate? ==>
        PlanOf(ctx, rows[j]).credential.row.name != PlanOf(ctx, rows[k]).credential.row.name
    {
      SlugInjective(rows[j], rows[k]);
      ImageMeetsChecks(ctx, rows[j]);
      ImageMeetsChecks(ctx, rows[k]);
      SlugsReserved(ctx, rows[j]);
      SlugsReserved(ctx, rows[k]);
    }
  }

  lemma StartsClean(ctx: Context, l: LegacyTables, s: Store)
    requires UniqueKeys(l) && NoReservedNames(s)
    ensures CleanStart(s, Plans(ctx, AllRows(l)))
  {
    ImagesDistinct(ctx, l);
    var rows := AllRows(l);
    forall k | 0 <= k < |rows|
      ensures Fresh(s, PlanOf(ctx, rows[k]))
      ensures PlanOf(ctx, rows[k]).credential.Migrate? ==>
        CredentialIdsNamed(s.credentials, PlanOf(ctx, rows[k]).credential.row.name) == {}
    {
      SlugsReserved(ctx, rows[k]);
    }
  }

  // ----- Acceptance

  /** The upgrade goes through exactly when every secret is readable and every legacy default
      finds its scope free, and a clean one loses and merges nothing: one new provider per
      legacy row. */
  lemma {:induction false} UpgradeAccepted(cipher: Cipher, admin: Option<nat>, l: LegacyTables, s: Store, c: Consumers)
    requires UniqueKeys(l) && IdsBounded(s)
    ensures var plans := Plans(Context(admin, TargetUrls(c.images)), AllRows(l));
      MigrateData(cipher, admin, l, s, c).Success? <==> Accepted(cipher, s, plans)
    ensures NoReservedNames(s) && MigrateData(cipher, admin, l, s, c).Success? ==>
      |MigrateData(cipher, admin, l, s, c).value.0.providers| == |s.providers| + |l.sources| + |l.gitlabs|
        + |l.githubs| + |l.harbors| + |l.dockers| + |l.helms|
  {
    var ctx := Context(admin, TargetUrls(c.images));
    var plans := Plans(ctx, AllRows(l));
    ImagesDistinct(ctx, l);
    RunAccepted(cipher, s, plans);
    if NoReservedNames(s) && Run(cipher, s, plans).Success? {
      StartsClean(ctx, l, s);
      RunNumbers(cipher, s, plans);
    }
  }

  /** The weakest condition, in terms of the legacy rows: secrets are ASCII, no default row's
      scope is occupied, and no two default rows collide. */
  ghost predicate LegacyAccepted(ctx: Context, rows: seq<LegacyRow>, s: Store) {
    forall k :: 0 <= k < |rows| ==>
      && (Truthy(SecretOf(rows[k])) ==> IsAscii(SecretOf(rows[k]).value))
      && (IsDefaultRow(rows[k]) ==>
            && (forall i :: i in s.providers && LiveDefault(s.providers[i]) ==>
                  ScopeOf(s.providers[i]) != WantedScope(ctx, rows[k]))
            && (forall j :: 0 <= j < k && IsDefaultRow(rows[j]) ==> !DefaultsCollide(ctx, rows[j], rows[k])))
  }

  lemma {:induction false} RowAccepted(cipher: Cipher, ctx: Context, rows: seq<LegacyRow>, s: Store, k: nat)
    requires Lawful(cipher) && NoneNamed(s, Plans(ctx, rows)) && k < |rows|
    ensures Readable(cipher, Plans(ctx, rows)[k]) <==> (Truthy(SecretOf(rows[k])) ==> IsAscii(SecretOf(rows[k]).value))
    ensures ScopeFree(s, Plans(ctx, rows), k) <==> (IsDefaultRow(rows[k]) ==>
      && (forall i :: i in s.providers && LiveDefault(s.providers[i]) ==>
            ScopeOf(s.providers[i]) != WantedScope(ctx, rows[k]))
      && (forall j :: 0 <= j < k && IsDefaultRow(rows[j]) ==> !DefaultsCollide(ctx, rows[j], rows[k])))
  {
    hide PlanOf, WantedScope, DefaultsCollide, IsDefaultRow;
    ImageScope(ctx, rows[k]);
    var plans := Plans(ctx, rows);
    SecretPlanned(ctx, rows[k]);
    forall j | 0 <= j <= k
      ensures Fresh(s, plans[j])
      ensures LiveDefault(plans[j].provider) <==> IsDefaultRow(rows[j])
      ensures IsDefaultRow(rows[j]) && IsDefaultRow(rows[k]) ==>
        (ScopeOf(plans[j].provider) == ScopeOf(plans[k].provider) <==> DefaultsCollide(ctx, rows[j], rows[k]))
    {
      ScopesByLegacyColumns(ctx, rows[j], rows[k]);
    }
  }

  /** A clean database is migrated exactly when its legacy rows meet that condition. */
  lemma {:induction false} CleanUpgradeAccepted(cipher: Cipher, admin: Option<nat>, l: LegacyTables, s: Store,
                                                c: Consumers)
    requires Lawful(cipher) && UniqueKeys(l) && IdsBounded(s) && NoReservedNames(s)
    ensures MigrateData(cipher, admin, l, s, c).Success? <==>
      LegacyAccepted(Context(admin, TargetUrls(c.images)), AllRows(l), s)
  {
    hide MigrateData, ScopeFree, Readable, WantedScope;
    var ctx := Context(admin, TargetUrls(c.images));
    var rows := AllRows(l);
    StartsClean(ctx, l, s);
    UpgradeAccepted(cipher, admin, l, s, c);
    forall k | 0 <= k < |rows|
      ensures (Readable(cipher, Plans(ctx, rows)[k]) && ScopeFree(s, Plans(ctx, rows), k)) <==>
        && (Truthy(SecretOf(rows[k])) ==> IsAscii(SecretOf(rows[k]).value))
        && (IsDefaultRow(rows[k]) ==>
              && (forall i :: i in s.providers && LiveDefault(s.providers[i]) ==>
                    ScopeOf(s.providers[i]) != WantedScope(ctx, rows[k]))
              && (forall j :: 0 <= j < k && IsDefaultRow(rows[j]) ==> !DefaultsCollide(ctx, rows[j], rows[k])))
    {
      RowAccepted(cipher, ctx, rows, s, k);
    }
  }

  /** A Harbor instance and a targeted internal registry of type harbor cannot both be defaults. */
  lemma HarborRegistryConflict(cipher: Cipher, admin: Option<nat>, l: LegacyTables, s: Store, c: Consumers, h: nat,
                               d: nat)
    requires Lawful(cipher) && UniqueKeys(l) && IdsBounded(s) && NoReservedNames(s)
    requires h < |l.harbors| && l.harbors[h].isDefault
    requires d < |l.dockers| && l.dockers[d].isDefault
    requires l.dockers[d].registryProvider == "harbor" && l.dockers[d].registryType == "internal"
    requires IsTarget(TargetUrls(c.images), l.dockers[d])
    ensures MigrateData(cipher, admin, l, s, c).Failure?
  {
    hide MigrateData, TargetUrls, PlanOf;
    var ctx := Context(admin, TargetUrls(c.images));
    var rows := AllRows(l);
    var j := |l.sources| + |l.gitlabs| + |l.githubs| + h;
    var k := |l.sources| + |l.gitlabs| + |l.githubs| + |l.harbors| + d;
    RowPositions(l);
    assert rows[j] == Harbor(l.harbors[h]) && rows[k] == Docker(l.dockers[d]);
    assert DefaultsCollide(ctx, rows[j], rows[k]);
    CleanUpgradeAccepted(cipher, admin, l, s, c);
  }

  /** Such a database: a Harbor instance, the same Harbor registered as an internal registry, and
      one image copied to it. Both rows are defaults, and the upgrade aborts. */
  lemma HarborTwiceAborts(cipher: Cipher, admin: Option<nat>)
    requires Lawful(cipher)
    ensures var harbor := HarborRow(1, "harbor", "https://harbor.local", None, None, true, true, true, None, None, 0,
                                    None, None, None);
      var registry := DockerRow(1, "harbor", "https://harbor.local", None, None, "harbor", "internal",
                                true, true, true, 0, None, 0, None, None, None);
      var image := ImageSource(1, None, Some("https://harbor.local"), None, None);
      MigrateData(cipher, admin, LegacyTables([], [], [], [harbor], [registry], []), Store(map[], 1, map[], 1, 0),
                  Consumers([], [], [image], [])).Failure?
  {
    hide MigrateData, NormUrl;
    var harbor := HarborRow(1, "harbor", "https://harbor.local", None, None, true, true, true, None, None, 0, None,
                            None, None);
    var registry := DockerRow(1, "harbor", "https://harbor.local", None, None, "harbor", "internal",
                              true, true, true, 0, None, 0, None, None, None);
    var image := ImageSource(1, None, Some("https://harbor.local"), None, None);
    var l, c := LegacyTables([], [], [], [harbor], [registry], []), Consumers([], [], [image], []);
    assert Truthy(c.images[0].targetRegistryUrl);
    assert IsTarget(TargetUrls(c.images), registry);
    HarborRegistryConflict(cipher, admin, l, Store(map[], 1, map[], 1, 0), c, 0, 0);
  }

  lemma RowPositions(l: LegacyTables)
    ensures |AllRows(l)| == |l.sources| + |l.gitlabs| + |l.githubs| + |l.harbors| + |l.dockers| + |l.helms|
    ensures forall k :: 0 <= k < |l.sources| ==> AllRows(l)[k] == Source(l.sources[k])
    ensures forall k :: 0 <= k < |l.gitlabs| ==> AllRows(l)[|l.sources| + k] == Gitlab(l.gitlabs[k])
    ensures forall k :: 0 <= k < |l.harbors| ==>
      AllRows(l)[|l.sources| + |l.gitlabs| + |l.githubs| + k] == Harbor(l.harbors[k])
    ensures forall k :: 0 <= k < |l.dockers| ==>
      AllRows(l)[|l.sources| + |l.gitlabs| + |l.githubs| + |l.harbors| + k] == Docker(l.dockers[k])
    ensures forall k :: 0 <= k < |l.helms| ==>
      AllRows(l)[|l.sources| + |l.gitlabs| + |l.githubs| + |l.harbors| + |l.dockers| + k] == Helm(l.helms[k])
  {
  }

  // ----- What the cross-reference maps mean

  /** The map has exactly the scanned keys, and sends each to the image of the last row scanned
      under it. */
  ghost predicate MapsToImages<K(!new)>(cipher: Cipher, t: Store, ctx: Context, keys: seq<K>, rows: seq<LegacyRow>,
                                        m: map<K, nat>)
    requires |keys| == |rows|
  {
    && (forall key :: key in m <==> key in keys)
    && (forall key, j: nat :: LastAt(keys, key, j) ==> key in m && IsImage(cipher, t, PlanOf(ctx, rows[j]), m[key]))
  }

  lemma AssocMapsToImages<K(!new)>(cipher: Cipher, t: Store, ctx: Context, keys: seq<K>, rows: seq<LegacyRow>,
                                   ids: seq<nat>)
    requires |keys| == |rows| && TableImages(cipher, t, ctx, rows, ids)
    ensures MapsToImages(cipher, t, ctx, keys, rows, Assoc(keys, ids))
  {
    forall key ensures key in Assoc(keys, ids) <==> key in keys {
      AssocLast(keys, ids, key);
    }
    forall key, j: nat | LastAt(keys, key, j)
      ensures key in Assoc(keys, ids) && IsImage(cipher, t, PlanOf(ctx, rows[j]), Assoc(keys, ids)[key])
    {
      AssocLast(keys, ids, key);
    }
  }

  ghost predicate ReferencesMean(cipher: Cipher, t: Store, ctx: Context, l: LegacyTables, refs: CrossReferences) {
    && MapsToImages(cipher, t, ctx, SourceIds(l.sources), SourceRows(l.sources), refs.source)
    && MapsToImages(cipher, t, ctx, GitlabIds(l.gitlabs), GitlabRows(l.gitlabs), refs.gitlab)
    && MapsToImages(cipher, t, ctx, DockerIds(l.dockers), DockerRows(l.dockers), refs.docker)
    && MapsToImages(cipher, t, ctx, DockerUrls(l.dockers), DockerRows(l.dockers), refs.dockerByUrl)
    && MapsToImages(cipher, t, ctx, HelmUrls(l.helms), HelmRows(l.helms), refs.helmByUrl)
  }

  /** The ids are those of the images of the table's rows. */
  ghost predicate TableImages(cipher: Cipher, t: Store, ctx: Context, table: seq<LegacyRow>, ids: seq<nat>) {
    |ids| == |table| && forall k :: 0 <= k < |table| ==> IsImage(cipher, t, PlanOf(ctx, table[k]), ids[k])
  }

  lemma {:induction false} ReferencesFromMean(cipher: Cipher, t: Store, ctx: Context, l: LegacyTables,
                                              a: seq<nat>, b: seq<nat>, e: seq<nat>, f: seq<nat>)
    requires TableImages(cipher, t, ctx, SourceRows(l.sources), a)
    requires TableImages(cipher, t, ctx, GitlabRows(l.gitlabs), b)
    requires TableImages(cipher, t, ctx, DockerRows(l.dockers), e)
    requires TableImages(cipher, t, ctx, HelmRows(l.helms), f)
    ensures ReferencesMean(cipher, t, ctx, l, ReferencesFrom(l, a, b, e, f))
  {
    AssocMapsToImages(cipher, t, ctx, SourceIds(l.sources), SourceRows(l.sources), a);
    AssocMapsToImages(cipher, t, ctx, GitlabIds(l.gitlabs), GitlabRows(l.gitlabs), b);
    AssocMapsToImages(cipher, t, ctx, DockerIds(l.dockers), DockerRows(l.dockers), e);
    AssocMapsToImages(cipher, t, ctx, DockerUrls(l.dockers), DockerRows(l.dockers), e);
    AssocMapsToImages(cipher, t, ctx, HelmUrls(l.helms), HelmRows(l.helms), f);
  }

  lemma {:induction false} SplitLastTwo(cipher: Cipher, t: Store, ctx: Context,
                                        a: seq<LegacyRow>, b: seq<LegacyRow>, c: seq<LegacyRow>, ids: seq<nat>)
    requires TableImages(cipher, t, ctx, a + b + c, ids)
    ensures TableImages(cipher, t, ctx, a, ids[..|a|])
    ensures TableImages(cipher, t, ctx, b, ids[|a|..|a| + |b|])
    ensures TableImages(cipher, t, ctx, c, ids[|a| + |b|..])
  {
    hide PlanOf, IsImage;
    var all := a + b + c;
    assert forall k :: 0 <= k < |a| ==> all[k] == a[k];
    assert forall k :: 0 <= k < |b| ==> all[|a| + k] == b[k];
    assert forall k :: 0 <= k < |c| ==> all[|a| + |b| + k] == c[k];
  }

  lemma {:induction false} ReferencesMeanImages(cipher: Cipher, t: Store, ctx: Context, l: LegacyTables, ids: seq<nat>)
    requires TableImages(cipher, t, ctx, AllRows(l), ids)
    ensures ReferencesMean(cipher, t, ctx, l, References(l, ids))
  {
    var g := |l.sources|;
    var h := g + |l.gitlabs|;
    var d := h + |l.githubs| + |l.harbors|;
    var e := d + |l.dockers|;
    TablesImaged(cipher, t, ctx, l, ids, g, h, d, e);
    ReferencesFromMean(cipher, t, ctx, l, ids[..g], ids[g..h], ids[d..e], ids[e..]);
    ReferencesUnfold(l, ids, g, h, d, e);
  }

  lemma ReferencesUnfold(l: LegacyTables, ids: seq<nat>, g: nat, h: nat, d: nat, e: nat)
    requires |ids| == RowCount(l)
    requires g == |l.sources| && h == g + |l.gitlabs| && d == h + |l.githubs| + |l.harbors| && e == d + |l.dockers|
    ensures References(l, ids) == ReferencesFrom(l, ids[..g], ids[g..h], ids[d..e], ids[e..])
  {
  }

  lemma TableLength(cipher: Cipher, t: Store, ctx: Context, table: seq<LegacyRow>, ids: seq<nat>)
    requires TableImages(cipher, t, ctx, table, ids)
    ensures |ids| == |table|
  {
  }

  lemma {:induction false} TablesImaged(cipher: Cipher, t: Store, ctx: Context, l: LegacyTables, ids: seq<nat>,
                                        g: nat, h: nat, d: nat, e: nat)
    requires TableImages(cipher, t, ctx, AllRows(l), ids)
    requires g == |l.sources| && h == g + |l.gitlabs| && d == h + |l.githubs| + |l.harbors| && e == d + |l.dockers|
    ensures e + |l.helms| == |ids|
    ensures TableImages(cipher, t, ctx, SourceRows(l.sources), ids[..g])
    ensures TableImages(cipher, t, ctx, GitlabRows(l.gitlabs), ids[g..h])
    ensures TableImages(cipher, t, ctx, DockerRows(l.dockers), ids[d..e])
    ensures TableImages(cipher, t, ctx, HelmRows(l.helms), ids[e..])
  {
    hide PlanOf, IsImage, TableImages;
    assert |ids| == |AllRows(l)| by { TableLength(cipher, t, ctx, AllRows(l), ids); }
    var ra, rb, rc, rd := SourceRows(l.sources), GitlabRows(l.gitlabs), GithubRows(l.githubs), HarborRows(l.harbors);
    SplitLastTwo(cipher, t, ctx, ra + rb + rc + rd, DockerRows(l.dockers), HelmRows(l.helms), ids);
    HeadTables(cipher, t, ctx, ra, rb, rc, rd, ids[..d]);
    assert ids[..d][..g] == ids[..g] && ids[..d][g..h] == ids[g..h];
  }

  lemma {:induction false} HeadTables(cipher: Cipher, t: Store, ctx: Context,
                                      a: seq<LegacyRow>, b: seq<LegacyRow>, c: seq<LegacyRow>,
                                      d: seq<LegacyRow>, ids: seq<nat>)
    requires TableImages(cipher, t, ctx, a + b + c + d, ids)
    ensures TableImages(cipher, t, ctx, a, ids[..|a|])
    ensures TableImages(cipher, t, ctx, b, ids[|a|..|a| + |b|])
  {
    ConcatRows(a + b, c, d);
    SplitLastTwo(cipher, t, ctx, a, b, c + d, ids);
  }

  lemma ConcatRows(a: seq<LegacyRow>, b: seq<LegacyRow>, c: seq<LegacyRow>)
    ensures a + b + c == a + (b + c)
  {
  }

  lemma {:induction false} MigratedImages(cipher: Cipher, admin: Option<nat>, l: LegacyTables, s: Store, c: Consumers)
    requires Lawful(cipher) && UniqueKeys(l) && IdsBounded(s) && NoReservedNames(s)
    requires MigrateData(cipher, admin, l, s, c).Success?
    ensures var ctx := Context(admin, TargetUrls(c.images));
      var (t, linked) := MigrateData(cipher, admin, l, s, c).value;
      exists ids :: |ids| == RowCount(l) && TableImages(cipher, t, ctx, AllRows(l), ids)
        && linked == Relink(References(l, ids), c) && ReferencesMean(cipher, t, ctx, l, References(l, ids))
  {
    var ctx := Context(admin, TargetUrls(c.images));
    var plans := Plans(ctx, AllRows(l));
    StartsClean(ctx, l, s);
    RunImages(cipher, s, plans);
    var (t, ids) := Run(cipher, s, plans).value;
    forall k | 0 <= k < |ids| ensures IsImage(cipher, t, PlanOf(ctx, AllRows(l)[k]), ids[k]) {
      assert IsImage(cipher, t, plans[k], ids[k]);
    }
    ReferencesMeanImages(cipher, t, ctx, l, ids);
  }

  // ----- Relinking preserves what references mean

  /** The reference is set, to the image of the legacy row. */
  ghost predicate Names(cipher: Cipher, t: Store, ctx: Context, ref: Option<nat>, row: LegacyRow) {
    ref.Some? && IsImage(cipher, t, PlanOf(ctx, row), ref.value)
  }

  ghost predicate RepositoryMeans(cipher: Cipher, t: Store, ctx: Context, l: LegacyTables, before: SourceRepository,
                                  after: SourceRepository)
  {
    && after == before.(providerId := after.providerId)
    && (before.sourceProviderId.None? ==> after.providerId.None?)
    && (forall j :: 0 <= j < |l.sources| && before.sourceProviderId == Some(l.sources[j].id) ==>
          Names(cipher, t, ctx, after.providerId, Source(l.sources[j])))
  }

  ghost predicate PipelineMeans(cipher: Cipher, t: Store, ctx: Context, l: LegacyTables, before: GitlabConsumer,
                                after: GitlabConsumer)
  {
    && after == before.(providerId := after.providerId)
    && (before.gitlabInstanceId.None? ==> after.providerId.None?)
    && (forall j :: 0 <= j < |l.gitlabs| && before.gitlabInstanceId == Some(l.gitlabs[j].id) ==>
          Names(cipher, t, ctx, after.providerId, Gitlab(l.gitlabs[j])))
  }

  /** Besides the registry link: the target link is set exactly when some registry has the
      target's normalised address, to the image of the last such registry, a system provider. */
  ghost predicate ImageMeans(cipher: Cipher, t: Store, ctx: Context, l: LegacyTables, before: ImageSource,
                             after: ImageSource)
  {
    && after == before.(providerId := after.providerId, targetProviderId := after.targetProviderId)
    && (before.registryInstanceId.None? ==> after.providerId.None?)
    && (forall j :: 0 <= j < |l.dockers| && before.registryInstanceId == Some(l.dockers[j].id) ==>
          Names(cipher, t, ctx, after.providerId, Docker(l.dockers[j])))
    && (after.targetProviderId.Some? <==>
          Truthy(before.targetRegistryUrl) && NormUrl(before.targetRegistryUrl) in DockerUrls(l.dockers))
    && (forall j: nat :: LastAt(DockerUrls(l.dockers), NormUrl(before.targetRegistryUrl), j) ==>
          (Truthy(before.targetRegistryUrl) ==>
             && Names(cipher, t, ctx, after.targetProviderId, Docker(l.dockers[j]))
             && t.providers[after.targetProviderId.value].category == SystemCategory))
  }

  ghost predicate ChartMeans(cipher: Cipher, t: Store, ctx: Context, l: LegacyTables, before: ChartSource,
                             after: ChartSource)
  {
    && after == before.(providerId := after.providerId)
    && (after.providerId.Some? <==> NormHelmUrl(Some(before.repoUrl)) in HelmUrls(l.helms))
    && (forall j: nat :: LastAt(HelmUrls(l.helms), NormHelmUrl(Some(before.repoUrl)), j) ==>
          Names(cipher, t, ctx, after.providerId, Helm(l.helms[j])))
  }

  ghost predicate ForeignKeysValid(l: LegacyTables, c: Consumers) {
    && (forall k :: 0 <= k < |c.repositories| && c.repositories[k].sourceProviderId.Some? ==>
          c.repositories[k].sourceProviderId.value in SourceIds(l.sources))
    && (forall k :: 0 <= k < |c.pipelines| && c.pipelines[k].gitlabInstanceId.Some? ==>
          c.pipelines[k].gitlabInstanceId.value in GitlabIds(l.gitlabs))
    && (forall k :: 0 <= k < |c.images| && c.images[k].registryInstanceId.Some? ==>
          c.images[k].registryInstanceId.value in DockerIds(l.dockers))
  }

  /** The relink columns as `add_column` creates them. */
  ghost predicate ColumnsNew(c: Consumers) {
    && (forall k :: 0 <= k < |c.repositories| ==> c.repositories[k].providerId.None?)
    && (forall k :: 0 <= k < |c.pipelines| ==> c.pipelines[k].providerId.None?)
    && (forall k :: 0 <= k < |c.images| ==> c.images[k].providerId.None? && c.images[k].targetProviderId.None?)
    && (forall k :: 0 <= k < |c.charts| ==> c.charts[k].providerId.None?)
  }

  lemma UniqueIsLast(keys: seq<nat>, j: nat)
    requires j < |keys| && forall a, b :: 0 <= a < b < |keys| ==> keys[a] != keys[b]
    ensures LastAt(keys, keys[j], j)
  {
  }

  lemma RepositoryLinked(cipher: Cipher, t: Store, ctx: Context, l: LegacyTables, m: map<nat, nat>,
                         row: SourceRepository)
    requires UniqueKeys(l) && MapsToImages(cipher, t, ctx, SourceIds(l.sources), SourceRows(l.sources), m)
    requires row.providerId.None? && (row.sourceProviderId.Some? ==> row.sourceProviderId.value in SourceIds(l.sources))
    ensures RepositoryMeans(cipher, t, ctx, l, row, RelinkRepository(m, row))
  {
    forall j | 0 <= j < |l.sources| && row.sourceProviderId == Some(l.sources[j].id)
      ensures Names(cipher, t, ctx, RelinkRepository(m, row).providerId, Source(l.sources[j]))
    {
      UniqueIsLast(SourceIds(l.sources), j);
    }
  }

  lemma PipelineLinked(cipher: Cipher, t: Store, ctx: Context, l: LegacyTables, m: map<nat, nat>, row: GitlabConsumer)
    requires UniqueKeys(l) && MapsToImages(cipher, t, ctx, GitlabIds(l.gitlabs), GitlabRows(l.gitlabs), m)
    requires row.providerId.None? && (row.gitlabInstanceId.Some? ==> row.gitlabInstanceId.value in GitlabIds(l.gitlabs))
    ensures PipelineMeans(cipher, t, ctx, l, row, RelinkPipeline(m, row))
  {
    forall j | 0 <= j < |l.gitlabs| && row.gitlabInstanceId == Some(l.gitlabs[j].id)
      ensures Names(cipher, t, ctx, RelinkPipeline(m, row).providerId, Gitlab(l.gitlabs[j]))
    {
      UniqueIsLast(GitlabIds(l.gitlabs), j);
    }
  }

  lemma {:induction false} TargetLinked(cipher: Cipher, t: Store, ctx: Context, l: LegacyTables,
                                        byUrl: map<string, nat>, url: string, j: nat)
    requires MapsToImages(cipher, t, ctx, DockerUrls(l.dockers), DockerRows(l.dockers), byUrl)
    requires LastAt(DockerUrls(l.dockers), url, j) && url in ctx.targets
    ensures url in byUrl && Names(cipher, t, ctx, Some(byUrl[url]), Docker(l.dockers[j]))
    ensures t.providers[byUrl[url]].category == SystemCategory
  {
    hide PlanOf, CredentialImage;
    assert DockerRows(l.dockers)[j] == Docker(l.dockers[j]) && IsTarget(ctx.targets, l.dockers[j]);
    assert IsImage(cipher, t, PlanOf(ctx, Docker(l.dockers[j])), byUrl[url]);
    TargetImage(ctx, l.dockers[j]);
  }

  lemma TargetImage(ctx: Context, row: DockerRow)
    requires IsTarget(ctx.targets, row)
    ensures PlanOf(ctx, Docker(row)).provider.category == SystemCategory
  {
  }

  lemma {:induction false} ImageLinked(cipher: Cipher, t: Store, ctx: Context, l: LegacyTables,
                                       m: map<nat, nat>, byUrl: map<string, nat>, row: ImageSource)
    requires UniqueKeys(l) && MapsToImages(cipher, t, ctx, DockerIds(l.dockers), DockerRows(l.dockers), m)
    requires MapsToImages(cipher, t, ctx, DockerUrls(l.dockers), DockerRows(l.dockers), byUrl)
    requires row.providerId.None? && row.targetProviderId.None?
    requires row.registryInstanceId.Some? ==> row.registryInstanceId.value in DockerIds(l.dockers)
    requires Truthy(row.targetRegistryUrl) ==> NormUrl(row.targetRegistryUrl) in ctx.targets
    ensures ImageMeans(cipher, t, ctx, l, row, RelinkImage(m, byUrl, row))
  {
    var after := RelinkImage(m, byUrl, row);
    forall j | 0 <= j < |l.dockers| && row.registryInstanceId == Some(l.dockers[j].id)
      ensures Names(cipher, t, ctx, after.providerId, Docker(l.dockers[j]))
    {
      UniqueIsLast(DockerIds(l.dockers), j);
    }
    if Truthy(row.targetRegistryUrl) {
      var url := NormUrl(row.targetRegistryUrl);
      forall j: nat | LastAt(DockerUrls(l.dockers), url, j)
        ensures Names(cipher, t, ctx, after.targetProviderId, Docker(l.dockers[j]))
        ensures t.providers[after.targetProviderId.value].category == SystemCategory
      {
        TargetLinked(cipher, t, ctx, l, byUrl, url, j);
      }
    }
  }

  lemma ChartLinked(cipher: Cipher, t: Store, ctx: Context, l: LegacyTables, byUrl: map<string, nat>, row: ChartSource)
    requires MapsToImages(cipher, t, ctx, HelmUrls(l.helms), HelmRows(l.helms), byUrl) && row.providerId.None?
    ensures ChartMeans(cipher, t, ctx, l, row, RelinkChart(byUrl, row))
  {
  }

  /** From a database with valid foreign keys and no reserved names, every consumer's new link
      is the migrated image of exactly the legacy row its old column named, and null when that
      column was null. */
  lemma {:induction false} RelinkingKeepsMeaning(cipher: Cipher, admin: Option<nat>, l: LegacyTables, s: Store,
                                                 c: Consumers)
    requires Lawful(cipher) && UniqueKeys(l) && IdsBounded(s) && NoReservedNames(s)
    requires ForeignKeysValid(l, c) && ColumnsNew(c)
    requires MigrateData(cipher, admin, l, s, c).Success?
    ensures LinksMean(cipher, MigrateData(cipher, admin, l, s, c).value.0, Context(admin, TargetUrls(c.images)), l, c,
                      MigrateData(cipher, admin, l, s, c).value.1)
  {
    var ctx := Context(admin, TargetUrls(c.images));
    MigratedImages(cipher, admin, l, s, c);
    var (t, linked) := MigrateData(cipher, admin, l, s, c).value;
    var ids :| |ids| == RowCount(l) && TableImages(cipher, t, ctx, AllRows(l), ids)
      && linked == Relink(References(l, ids), c) && ReferencesMean(cipher, t, ctx, l, References(l, ids));
    ConsumersLinked(cipher, t, ctx, l, c, References(l, ids));
  }

  ghost predicate LinksMean(cipher: Cipher, t: Store, ctx: Context, l: LegacyTables, c: Consumers, linked: Consumers) {
    && |linked.repositories| == |c.repositories| && |linked.pipelines| == |c.pipelines|
    && |linked.images| == |c.images| && |linked.charts| == |c.charts|
    && (forall k :: 0 <= k < |c.repositories| ==>
        RepositoryMeans(cipher, t, ctx, l, c.repositories[k], linked.repositories[k]))
    && (forall k :: 0 <= k < |c.pipelines| ==> PipelineMeans(cipher, t, ctx, l, c.pipelines[k], linked.pipelines[k]))
    && (forall k :: 0 <= k < |c.images| ==> ImageMeans(cipher, t, ctx, l, c.images[k], linked.images[k]))
    && (forall k :: 0 <= k < |c.charts| ==> ChartMeans(cipher, t, ctx, l, c.charts[k], linked.charts[k]))
  }

  lemma {:induction false} ConsumersLinked(cipher: Cipher, t: Store, ctx: Context, l: LegacyTables, c: Consumers,
                                           refs: CrossReferences)
    requires UniqueKeys(l) && ForeignKeysValid(l, c) && ColumnsNew(c)
    requires ctx.targets == TargetUrls(c.images) && ReferencesMean(cipher, t, ctx, l, refs)
    ensures LinksMean(cipher, t, ctx, l, c, Relink(refs, c))
  {
    forall k | 0 <= k < |c.repositories|
      ensures RepositoryMeans(cipher, t, ctx, l, c.repositories[k], RelinkRepository(refs.source, c.repositories[k]))
    {
      RepositoryLinked(cipher, t, ctx, l, refs.source, c.repositories[k]);
    }
    forall k | 0 <= k < |c.pipelines|
      ensures PipelineMeans(cipher, t, ctx, l, c.pipelines[k], RelinkPipeline(refs.gitlab, c.pipelines[k]))
    {
      PipelineLinked(cipher, t, ctx, l, refs.gitlab, c.pipelines[k]);
    }
    forall k | 0 <= k < |c.images|
      ensures ImageMeans(cipher, t, ctx, l, c.images[k], RelinkImage(refs.docker, refs.dockerByUrl, c.images[k]))
    {
      assert Truthy(c.images[k].targetRegistryUrl) ==> NormUrl(c.images[k].targetRegistryUrl) in TargetUrls(c.images);
      ImageLinked(cipher, t, ctx, l, refs.docker, refs.dockerByUrl, c.images[k]);
    }
    forall k | 0 <= k < |c.charts|
      ensures ChartMeans(cipher, t, ctx, l, c.charts[k], RelinkChart(refs.helmByUrl, c.charts[k]))
    {
      ChartLinked(cipher, t, ctx, l, refs.helmByUrl, c.charts[k]);
    }
  }

  // ----- Secrets

  /** The provider bearing the row's slug holds the row's secret: a source keeps its credential,
      an empty secret leaves none, any other one decrypts to the legacy plaintext. */
  ghost predicate HoldsSecretOf(cipher: Cipher, t: Store, row: LegacyRow, id: nat) {
    && id in t.providers && t.providers[id].name == Slug(row)
    && var credential := t.providers[id].credentialId;
       if row.Source? then credential == row.source.credentialId
       else if !Truthy(SecretOf(row)) then credential == None
       else
         && credential.Some? && credential.value in t.credentials
         && t.credentials[credential.value].encryptedSecret.Some?
         && cipher.decrypt(t.credentials[credential.value].encryptedSecret.value)
            == Plaintext(LegacyPlaintext(cipher, SecretOf(row).value))
  }

  /** No secret is lost, whether it was stored as ciphertext or as plaintext. */
  lemma {:induction false} SecretsSurvive(cipher: Cipher, admin: Option<nat>, l: LegacyTables, s: Store, c: Consumers,
                                          k: nat)
    requires Lawful(cipher) && UniqueKeys(l) && IdsBounded(s) && NoReservedNames(s)
    requires MigrateData(cipher, admin, l, s, c).Success? && k < |AllRows(l)|
    ensures exists id :: HoldsSecretOf(cipher, MigrateData(cipher, admin, l, s, c).value.0, AllRows(l)[k], id)
  {
    var ctx := Context(admin, TargetUrls(c.images));
    MigratedImages(cipher, admin, l, s, c);
    var t := MigrateData(cipher, admin, l, s, c).value.0;
    var ids :| |ids| == RowCount(l) && TableImages(cipher, t, ctx, AllRows(l), ids);
    ImageHoldsSecret(cipher, t, ctx, AllRows(l)[k], ids[k]);
  }

  lemma {:induction false} ImageHoldsSecret(cipher: Cipher, t: Store, ctx: Context, row: LegacyRow, id: nat)
    requires IsImage(cipher, t, PlanOf(ctx, row), id)
    ensures HoldsSecretOf(cipher, t, row, id)
  {
    hide PlanOf;
    SecretPlanned(ctx, row);
    ImageMeetsChecks(ctx, row);
  }
}
