# Verified model of the provider platform's state transformers

This project models, in Dafny, the parts of the backend that rewrite or summarise stored state, and
proves what they preserve. `dafny verify dfyconfig.toml` checks all of it.

- **Legacy provider migration** (revision `00932f2a02d5`): six legacy tables fold into
  `resource_providers` and `credentials`, and four consumer tables are relinked. `LegacySchema` says
  which provider and credential a legacy row stands for. `MigrationRun`, `MigrationImages` and
  `LegacyMigration` give the revision as functions, `LegacyDatabase.dfy` as loops over a mutable
  database proved equal to them. `LegacyTheorems`, `MigratedColumns` and `LegacyRerun` hold the results:
  meaning of references, survival of secrets and of every column, acceptance, idempotence, inverse.
  `UrlNormalization` and `UrlKeys` are the address keys it matches by.
- **Its follow-ups**: `GitlabColumns` (revision `ab12cd34ef56`, and its composition with the
  migration) and `ProviderDetachment` (revision `a7b8c9d0e1f2`).
- **GitLab webhook**: `WebhookModel` is one delivery, `WebhookHistory` is whole histories and their
  interleavings.
- **Seeders**: `SeederModel`, `ProviderSeeder.dfy`, `SeederTheorems`, `SeederAcceptance` and `SeederColumns` for the
  provider seed, `MigrateThenSeed` for the seed after the migration,
  `PermissionSeed` for the three role and permission seed revisions.
- **Permission check with a token snapshot**: `PermissionCache`.
- **Tag comparison and sync-run recovery**: `TagComparison`, `SyncRuns`, and `RequeueOverlap` for
  overlapping requests; `Ordering` is `sorted`.

Where the source works by changing state, the model does too: a class holds the tables, its methods
run the statements and loops, and each method's contract equates the new state with a function of the
old one. The theorems are lemmas about those functions, over every input, history or database; those
named `...Exactly`, `...Kept` and `...Holds` say in literal columns what the functions leave.

Where code and documentation disagree, the model follows the code:

- The migration is documented as lossless. It aborts on two default rows that compete for one scope
  (`LegacyTheorems.CleanUpgradeAccepted` is the exact condition, `HarborRegistryConflict` a family
  across tables, `HarborTwiceAborts` a database) and on a stored secret with a non-ASCII character.
  Where it goes through, the user name of a row without a secret is lost (`MigratedColumns.UsernameLost`).
- The name prefixes are documented as a deterministic downgrade marker. The downgrade also deletes
  older rows that happen to bear them (`LegacyRerun.DowngradeRestoresExactly`, `OlderProviderLost`).
- `_norm_url` is documented to strip the scheme. It may leave one behind when schemes are nested
  (`UrlNormalization.NotIdempotent`, `IdempotentExactly`).
- The downgrade of `ab12cd34ef56` is documented to backfill three columns. A pipeline run without a
  provider loses its instance (`GitlabColumns.RunKeepsInstance`, `RunLosesInstance`).
- The seed downgrade is documented to delete only rows the revision owns. A role or permission that
  was there before under a seeded name is deleted as well (`PermissionSeed.DowngradeUndoesExactly`,
  `OlderPermissionLost`).
- The seed's dry run is documented to return the planned changes. It raises when a system provider is
  live and its credential row is missing (`SeederTheorems.DryRunFails`), and it plans changes that the
  apply cannot commit when a scope is occupied (`SeederAcceptance.OccupiedScopeFailsApply`).
  `SeederAcceptance.DryRunAgrees` is the exact condition.
- The container entrypoint calls the migrations safe on every start and the seed after them
  idempotent. A legacy default can take the scope of a seeded provider, and the seed then aborts
  (`MigrateThenSeed.FirstSeedAfterMigration`,
  `DefaultGitlabBlocksSeed`).
- Requeue is documented to supersede the old row and enqueue the task afresh. For an unknown task it
  only supersedes (`SyncRuns.SupersededWithoutSuccessor`), and two overlapping requests enqueue it twice
  (`RequeueOverlap.OverlapEnqueuesTwice`).

Conventions. A table is a map from id to row, or a sequence of rows in scan order where the order
matters. A lookup without ORDER BY takes the lowest id. Time, JSON values and free text are opaque,
and every clock reading is an input. Fernet is an abstract cipher with `decrypt(encrypt(p)) == p`
whose tokens also depend on the moment of encryption. Id sequences and clocks do not roll back.

## Model

| member | source | states |
|---|---|---|
| UrlNormalization.NormalizeUrl | backend/alembic/versions_backup_20260816/20260814_2100_00932f2a02d5_migrate_legacy_providers_to_resource_.py:92-104 | The method with its loop over the two prefixes computes `NormUrl`, the key all theorems below are about |
| UrlNormalization.NormalizeHelmUrl | backend/alembic/versions_backup_20260816/20260814_2100_00932f2a02d5_migrate_legacy_providers_to_resource_.py:107-112 | The method computes `NormHelmUrl`: the same key without a final `/index.yaml` |
| UrlNormalization.FixedPoints | backend/alembic/versions_backup_20260816/20260814_2100_00932f2a02d5_migrate_legacy_providers_to_resource_.py:100-104 | A text is left alone exactly when it is lower case, has no scheme, no outer white space and no trailing slash |
| UrlNormalization.CaseIgnored | backend/alembic/versions_backup_20260816/20260814_2100_00932f2a02d5_migrate_legacy_providers_to_resource_.py:100-112 | Texts equal up to letter case have the same registry key and the same repository key |
| UrlNormalization.SlashesIgnored | backend/alembic/versions_backup_20260816/20260814_2100_00932f2a02d5_migrate_legacy_providers_to_resource_.py:100-104 | Any number of trailing slashes never changes the key of white-space-free text |
| UrlNormalization.HttpIgnored | backend/alembic/versions_backup_20260816/20260814_2100_00932f2a02d5_migrate_legacy_providers_to_resource_.py:100-104 | In front of white-space-free text with a non-empty core, `http://` in any case, with any trailing slashes, is invisible if and only if the address does not itself start with a scheme |
| UrlNormalization.HttpsIgnored | backend/alembic/versions_backup_20260816/20260814_2100_00932f2a02d5_migrate_legacy_providers_to_resource_.py:100-104 | Likewise `https://` is invisible if and only if the address does not itself start with `https://`: the loop tries that prefix first |
| UrlNormalization.IdempotentExactly | backend/alembic/versions_backup_20260816/20260814_2100_00932f2a02d5_migrate_legacy_providers_to_resource_.py:100-104 | For every text: a second pass changes nothing if and only if its core neither nests schemes in one of five ways nor has white space last or directly behind the schemes one pass drops |
| UrlNormalization.NotIdempotent | backend/alembic/versions_backup_20260816/20260814_2100_00932f2a02d5_migrate_legacy_providers_to_resource_.py:101-103 | Concrete text on which one pass uncovers a second address, so the key is not idempotent everywhere |
| UrlNormalization.IndexFileIgnored | backend/alembic/versions_backup_20260816/20260814_2100_00932f2a02d5_migrate_legacy_providers_to_resource_.py:107-112 | On white-space-free text not ending in a slash, appending `/index.yaml` keeps the repository key if and only if the base's own key does not already end in it |
| UrlKeys.KeyExactly | backend/alembic/versions_backup_20260816/20260814_2100_00932f2a02d5_migrate_legacy_providers_to_resource_.py:92-104 | For every text: the key is the body in small letters, wherever the text is cut into outer white space, at most one `https://` and then at most one `http://` in any letter case, a body before which no scheme is left to drop, and trailing slashes; and every text can be cut so |
| UrlKeys.HelmKeyExactly | backend/alembic/versions_backup_20260816/20260814_2100_00932f2a02d5_migrate_legacy_providers_to_resource_.py:107-112 | The repository key is the registry key less one final `/index.yaml`, where it ends in one; both are empty for none |
| Secrets.SecretSurvives | backend/alembic/versions_backup_20260816/20260814_2100_00932f2a02d5_migrate_legacy_providers_to_resource_.py:115-128 | What is stored decrypts to the legacy plaintext, for ciphertext and plaintext inputs alike; nothing is stored exactly for an empty secret; an exception escapes exactly for non-ASCII text |
| Secrets.MigrateSecretIdempotent | backend/alembic/versions_backup_20260816/20260814_2100_00932f2a02d5_migrate_legacy_providers_to_resource_.py:115-128 | Migrating a migrated secret keeps the same ciphertext at any later time |
| Secrets.LawfulCipherExists | backend/app/core/secrets.py:45-58 | The law the theorems ask of a cipher, reading back what was encrypted and raising exactly on non-ASCII text, can be met |
| Strings.DecimalInjective | backend/alembic/versions_backup_20260816/20260814_2100_00932f2a02d5_migrate_legacy_providers_to_resource_.py:274 | Decimal printing of ids inside `legacy-source-{id}` is injective |
| LegacySchema.FamiliesPrefixFree | backend/alembic/versions_backup_20260816/20260814_2100_00932f2a02d5_migrate_legacy_providers_to_resource_.py:274-545 | No slug family is a prefix of another, so family and key can be read back from a slug |
| LegacySchema.SlugInjective | backend/alembic/versions_backup_20260816/20260814_2100_00932f2a02d5_migrate_legacy_providers_to_resource_.py:274-545 | The six slug families and the five credential-name families are jointly injective: equal names if and only if same table and same unique key |
| LegacySchema.ImageMeetsChecks | backend/alembic/versions_backup_20260816/20260814_2100_00932f2a02d5_migrate_legacy_providers_to_resource_.py:232-240 | Every image, in every branch and for every admin lookup, meets the private-owner, team-visibility and team-owner CHECKs |
| LegacySchema.DefaultScopesAcrossTables | backend/app/models/resource_provider.py:189-198 | Default images of two different tables share a scope if and only if one is a Harbor instance and the other an internal, targeted docker registry of type harbor |
| LegacySchema.DefaultScopesWithinTable | backend/app/models/resource_provider.py:189-198 | When two default images of one table share a scope, in terms of the legacy columns |
| LegacySchema.ScopesByLegacyColumns | backend/alembic/versions_backup_20260816/20260814_2100_00932f2a02d5_migrate_legacy_providers_to_resource_.py:267-570 | Which rows become live defaults, and exactly which pairs of them compete for one scope |
| MigrationRun.RunAppend | backend/alembic/versions_backup_20260816/20260814_2100_00932f2a02d5_migrate_legacy_providers_to_resource_.py:267-570 | Migrating two table scans in a row is migrating their concatenation, failures included |
| MigrationRun.RunGrows | backend/alembic/versions_backup_20260816/20260814_2100_00932f2a02d5_migrate_legacy_providers_to_resource_.py:149-229 | A successful run changes and removes no row; every image stays findable under its names with the id it was given |
| MigrationRun.RunTwice | backend/alembic/versions_backup_20260816/20260814_2100_00932f2a02d5_migrate_legacy_providers_to_resource_.py:149-229 | From every database a run accepts, running again succeeds with the same ids and the same tables |
| MigrationRun.RunAccepted | backend/alembic/versions_backup_20260816/20260814_2100_00932f2a02d5_migrate_legacy_providers_to_resource_.py:190-229 | A run of differently named images succeeds if and only if every secret is readable and every inserted default finds its scope free; it then adds exactly one row per image whose name was free |
| MigrationImages.RunAdds | backend/alembic/versions_backup_20260816/20260814_2100_00932f2a02d5_migrate_legacy_providers_to_resource_.py:149-187 | Every credential a run adds bears the name of one of its images |
| MigrationImages.RunImages | backend/alembic/versions_backup_20260816/20260814_2100_00932f2a02d5_migrate_legacy_providers_to_resource_.py:190-229 | On a clean start every resolved provider carries all columns of its image, and its credential decrypts to the legacy secret |
| MigrationImages.RunNumbers | backend/alembic/versions_backup_20260816/20260814_2100_00932f2a02d5_migrate_legacy_providers_to_resource_.py:190-229 | On a clean start the k-th image gets the k-th id of the sequence and the table grows by the number of images |
| LegacyMigration.AssocLast | backend/alembic/versions_backup_20260816/20260814_2100_00932f2a02d5_migrate_legacy_providers_to_resource_.py:257-262 | The dictionary a loop fills has exactly the scanned keys and keeps, for each, the id of the last row scanned under it |
| LegacyMigration.AdminIsLeastHolder | backend/alembic/versions_backup_20260816/20260814_2100_00932f2a02d5_migrate_legacy_providers_to_resource_.py:131-141 | The admin is none exactly when nobody holds the role, else a holder with no smaller holder id |
| LegacyDatabases.LegacyDatabase.InsertCredentialRow | backend/alembic/versions_backup_20260816/20260814_2100_00932f2a02d5_migrate_legacy_providers_to_resource_.py:149-187 | Insert-if-absent by name on the mutable credential table; the new state is that of `InsertCredential` |
| LegacyDatabases.LegacyDatabase.InsertProviderRow | backend/alembic/versions_backup_20260816/20260814_2100_00932f2a02d5_migrate_legacy_providers_to_resource_.py:190-229 | Insert-if-absent by name; the constraint error path leaves the tables unchanged |
| LegacyDatabases.LegacyDatabase.MigrateCredential | backend/alembic/versions_backup_20260816/20260814_2100_00932f2a02d5_migrate_legacy_providers_to_resource_.py:314-326 | The secret-handling statements shared by the five instance loops, with the failing-decryption path |
| LegacyDatabases.LegacyDatabase.MigrateSourceProviders | backend/alembic/versions_backup_20260816/20260814_2100_00932f2a02d5_migrate_legacy_providers_to_resource_.py:267-299 | The loop equals the functional run over the scanned rows and fills `source_map` from id to new id |
| LegacyDatabases.LegacyDatabase.MigrateGitlabInstances | backend/alembic/versions_backup_20260816/20260814_2100_00932f2a02d5_migrate_legacy_providers_to_resource_.py:304-359 | The loop equals the functional run and fills `gitlab_map` |
| LegacyDatabases.LegacyDatabase.MigrateGithubInstances | backend/alembic/versions_backup_20260816/20260814_2100_00932f2a02d5_migrate_legacy_providers_to_resource_.py:364-407 | The loop equals the functional run |
| LegacyDatabases.LegacyDatabase.MigrateHarborInstances | backend/alembic/versions_backup_20260816/20260814_2100_00932f2a02d5_migrate_legacy_providers_to_resource_.py:412-457 | The loop equals the functional run |
| LegacyDatabases.LegacyDatabase.MigrateDockerRegistry | backend/alembic/versions_backup_20260816/20260814_2100_00932f2a02d5_migrate_legacy_providers_to_resource_.py:463-520 | One iteration: the image of the row is applied and its normalised address is the map key |
| LegacyDatabases.LegacyDatabase.MigrateDockerRegistries | backend/alembic/versions_backup_20260816/20260814_2100_00932f2a02d5_migrate_legacy_providers_to_resource_.py:462-520 | The loop equals the functional run and fills `docker_map` and `docker_by_url` |
| LegacyDatabases.LegacyDatabase.MigrateHelmRepository | backend/alembic/versions_backup_20260816/20260814_2100_00932f2a02d5_migrate_legacy_providers_to_resource_.py:526-570 | One iteration: the image of the row is applied and its repository key is the map key |
| LegacyDatabases.LegacyDatabase.MigrateHelmRepositories | backend/alembic/versions_backup_20260816/20260814_2100_00932f2a02d5_migrate_legacy_providers_to_resource_.py:525-570 | The loop equals the functional run and fills `helm_by_url` |
| LegacyDatabases.LegacyDatabase.CollectTargetUrls | backend/alembic/versions_backup_20260816/20260814_2100_00932f2a02d5_migrate_legacy_providers_to_resource_.py:248-255 | The loop collects exactly the normalised non-empty target addresses |
| LegacyDatabases.LegacyDatabase.RelinkRepositories | backend/alembic/versions_backup_20260816/20260814_2100_00932f2a02d5_migrate_legacy_providers_to_resource_.py:575-586 | The in-place pass relinks every row by `source_map` and leaves the others as they were |
| LegacyDatabases.LegacyDatabase.RelinkPipelines | backend/alembic/versions_backup_20260816/20260814_2100_00932f2a02d5_migrate_legacy_providers_to_resource_.py:588-598 | The in-place pass relinks every row by `gitlab_map` and leaves the others as they were |
| LegacyDatabases.LegacyDatabase.RelinkImages | backend/alembic/versions_backup_20260816/20260814_2100_00932f2a02d5_migrate_legacy_providers_to_resource_.py:600-620 | The in-place pass sets registry link and target link of every row independently |
| LegacyDatabases.LegacyDatabase.RelinkCharts | backend/alembic/versions_backup_20260816/20260814_2100_00932f2a02d5_migrate_legacy_providers_to_resource_.py:622-628 | The in-place pass relinks every row by repository key |
| LegacyDatabases.LegacyDatabase.MigrateTables | backend/alembic/versions_backup_20260816/20260814_2100_00932f2a02d5_migrate_legacy_providers_to_resource_.py:267-570 | Six loops in order are one run over all legacy rows; the five maps are those of that run; the first failure is the failure |
| LegacyDatabases.LegacyDatabase.MigrateAllData | backend/alembic/versions_backup_20260816/20260814_2100_00932f2a02d5_migrate_legacy_providers_to_resource_.py:243-628 | The whole data migration refines `MigrateData`; legacy tables are not touched; a failure leaves all links alone |
| LegacyDatabases.LegacyDatabase.Upgrade | backend/alembic/versions_backup_20260816/20260814_2100_00932f2a02d5_migrate_legacy_providers_to_resource_.py:718-719 | Inside the migration's transaction a failure leaves providers, credentials and links unchanged |
| LegacyDatabases.LegacyDatabase.RevertAllData | backend/alembic/versions_backup_20260816/20260814_2100_00932f2a02d5_migrate_legacy_providers_to_resource_.py:631-637 | Both prefix deletions, with SET NULL on providers and on legacy source providers that lose their credential |
| LegacyTheorems.ImagesDistinct | backend/alembic/versions_backup_20260816/20260814_2100_00932f2a02d5_migrate_legacy_providers_to_resource_.py:21-30 | With unique legacy keys, all images have pairwise different provider names and credential names and meet the CHECKs |
| LegacyTheorems.UpgradeAccepted | backend/alembic/versions_backup_20260816/20260814_2100_00932f2a02d5_migrate_legacy_providers_to_resource_.py:243-570 | The upgrade succeeds if and only if secrets are readable and scopes are free; on a clean start the table grows by the sum of the six table sizes |
| LegacyTheorems.CleanUpgradeAccepted | backend/alembic/versions_backup_20260816/20260814_2100_00932f2a02d5_migrate_legacy_providers_to_resource_.py:243-570 | The weakest condition, in legacy columns and the scopes they want: a clean database is migrated if and only if secrets are ASCII and no two default rows, nor a default row and an existing default, compete for a scope |
| LegacyTheorems.HarborRegistryConflict | backend/alembic/versions_backup_20260816/20260814_2100_00932f2a02d5_migrate_legacy_providers_to_resource_.py:431-446 | A default Harbor instance and a default, internal, targeted registry of type harbor always abort the migration |
| LegacyTheorems.HarborTwiceAborts | backend/alembic/versions_backup_20260816/20260814_2100_00932f2a02d5_migrate_legacy_providers_to_resource_.py:462-520 | A concrete database for it: one Harbor instance, the same Harbor as internal registry, one image copied to it |
| LegacyTheorems.TargetLinked | backend/alembic/versions_backup_20260816/20260814_2100_00932f2a02d5_migrate_legacy_providers_to_resource_.py:612-620 | A target address found in `docker_by_url` leads to the image of the last registry with that address, a provider of category system: the early `target_urls` and the late lookup agree |
| LegacyTheorems.MigratedImages | backend/alembic/versions_backup_20260816/20260814_2100_00932f2a02d5_migrate_legacy_providers_to_resource_.py:257-262 | The five cross-reference maps send each key to the image of the last row scanned under it |
| LegacyTheorems.RelinkingKeepsMeaning | backend/alembic/versions_backup_20260816/20260814_2100_00932f2a02d5_migrate_legacy_providers_to_resource_.py:575-628 | Every consumer's new link is the migrated image of exactly the row its old column named, and null exactly when that was null; target and chart links are set exactly when a matching row exists |
| LegacyTheorems.SecretsSurvive | backend/alembic/versions_backup_20260816/20260814_2100_00932f2a02d5_migrate_legacy_providers_to_resource_.py:314-541 | For every legacy row: a source keeps its credential, an empty secret leaves none, any other decrypts to the legacy plaintext |
| MigratedColumns.NoColumnLost | backend/alembic/versions_backup_20260816/20260814_2100_00932f2a02d5_migrate_legacy_providers_to_resource_.py:267-570 | After a successful migration of a clean database, for every row of the six tables there is a provider, and for a non-empty secret its credential, from which every column of the row is read back: name, url, label, flags, priority, config, status, timestamps, deletion, user name, plaintext, credential type; the owner is the administrator on private rows and none elsewhere; but for unknown types, anonymity without an administrator and the user name of a row without secret |
| MigratedColumns.ImageKept | backend/alembic/versions_backup_20260816/20260814_2100_00932f2a02d5_migrate_legacy_providers_to_resource_.py:267-570 | The same for any row that is the image of a legacy row, one table at a time |
| MigratedColumns.LinksExactly | backend/alembic/versions_backup_20260816/20260814_2100_00932f2a02d5_migrate_legacy_providers_to_resource_.py:575-628 | Which links are set: those of consumers with an old reference, target links where some registry has the address, chart links where some repository has it |
| MigratedColumns.ReferencesKept | backend/alembic/versions_backup_20260816/20260814_2100_00932f2a02d5_migrate_legacy_providers_to_resource_.py:575-628 | Every link leads to a provider from which the legacy row is read back that the old column named, or the last row of the address for targets and charts |
| MigratedColumns.UsernameLost | backend/alembic/versions_backup_20260816/20260814_2100_00932f2a02d5_migrate_legacy_providers_to_resource_.py:474-486 | Two databases that differ only in the user name of a registry without password are migrated to the same tables and links, so that user name is lost |
| LegacyRerun.RunKeepsConstraints | backend/app/models/resource_provider.py:169-198 | CHECKs, one default per scope, unique live names and unique credential names hold after a migration if they held before |
| LegacyRerun.MigrateTwice | backend/alembic/versions_backup_20260816/20260814_2100_00932f2a02d5_migrate_legacy_providers_to_resource_.py:243-628 | Migrating twice leaves the providers, credentials and links of migrating once, reserved names or not |
| LegacyRerun.DowngradeRestoresExactly | backend/alembic/versions_backup_20260816/20260814_2100_00932f2a02d5_migrate_legacy_providers_to_resource_.py:631-637 | Upgrade then downgrade restores both tables and the credentials of the legacy source providers if and only if no earlier name began with `legacy-` or `migrated-` |
| LegacyRerun.OlderProviderLost | backend/alembic/versions_backup_20260816/20260814_2100_00932f2a02d5_migrate_legacy_providers_to_resource_.py:636 | A concrete database on which the downgrade deletes an older provider under a reserved name |
| LegacyRerun.RevertExactly | backend/alembic/versions_backup_20260816/20260814_2100_00932f2a02d5_migrate_legacy_providers_to_resource_.py:631-637 | What a downgrade leaves of any database: providers and credentials whose names begin with neither prefix, unchanged but for references to deleted credentials |
| GitlabColumns.GitlabColumnDatabase.Upgrade | backend/alembic/versions_backup_20260816/20260815_0030_ab12cd34ef56_remove_gitlab_instance_columns.py:49-94 | The backfill and the column drops on mutable tables; a NOT NULL violation rolls everything back |
| GitlabColumns.GitlabColumnDatabase.Downgrade | backend/alembic/versions_backup_20260816/20260815_0030_ab12cd34ef56_remove_gitlab_instance_columns.py:97-180 | The reverse backfill of all three tables; a NOT NULL violation rolls everything back |
| GitlabColumns.UpgradeAccepted | backend/alembic/versions_backup_20260816/20260815_0030_ab12cd34ef56_remove_gitlab_instance_columns.py:82-89 | The backfill is complete, and NOT NULL holds, if and only if every component's own instance has a provider under its slug |
| GitlabColumns.UpgradeExactly | backend/alembic/versions_backup_20260816/20260815_0030_ab12cd34ef56_remove_gitlab_instance_columns.py:49-94 | What an upgrade leaves: no instance column, every component under a provider named `legacy-gitlab-` and its instance's name, pipelines and runs with their provider |
| GitlabColumns.DowngradeExactly | backend/alembic/versions_backup_20260816/20260815_0030_ab12cd34ef56_remove_gitlab_instance_columns.py:97-180 | What a downgrade leaves of any tables: every row has the instance its provider is named after, none where there is no such one; components lose their provider, pipelines and runs keep theirs |
| GitlabColumns.InstanceBySlug | backend/alembic/versions_backup_20260816/20260815_0030_ab12cd34ef56_remove_gitlab_instance_columns.py:119-122 | A provider bearing an instance's slug joins back to exactly that instance |
| GitlabColumns.SlugRoundTrip | backend/alembic/versions_backup_20260816/20260815_0030_ab12cd34ef56_remove_gitlab_instance_columns.py:71-77 | Instance to provider to instance is the identity |
| GitlabColumns.ColumnsRoundTrip | backend/alembic/versions_backup_20260816/20260815_0030_ab12cd34ef56_remove_gitlab_instance_columns.py:68-139 | The upgrade succeeds exactly under that condition, then the downgrade does too; components come back unchanged; a pipeline or a run gets the instance its provider names by slug, null when it has none |
| GitlabColumns.RunKeepsInstance | backend/alembic/versions_backup_20260816/20260815_0030_ab12cd34ef56_remove_gitlab_instance_columns.py:127-139 | A pipeline or a run keeps its instance through both revisions if and only if its provider link says the same as its instance column |
| GitlabColumns.RunLosesInstance | backend/alembic/versions_backup_20260816/20260815_0030_ab12cd34ef56_remove_gitlab_instance_columns.py:127-139 | A concrete run, with an instance and no provider, that loses its instance |
| GitlabColumns.DowngradeAccepted | backend/alembic/versions_backup_20260816/20260815_0030_ab12cd34ef56_remove_gitlab_instance_columns.py:112-154 | From any state the downgrade succeeds if and only if every component's provider exists and bears some instance's slug |
| GitlabColumns.LateComponentBlocks | backend/alembic/versions_backup_20260816/20260815_0030_ab12cd34ef56_remove_gitlab_instance_columns.py:149-154 | A concrete state, a component registered after the upgrade with a provider of its own, on which the downgrade aborts |
| GitlabColumns.MigratedInstances | backend/alembic/versions_backup_20260816/20260815_0030_ab12cd34ef56_remove_gitlab_instance_columns.py:82-83 | After the data migration every GitLab instance has a provider under its slug, which is what the NOT NULL relies on |
| GitlabColumns.InstancesSurviveAllRevisions | backend/alembic/versions_backup_20260816/20260815_0030_ab12cd34ef56_remove_gitlab_instance_columns.py:9-23 | Data migration, any further growth of the provider table, then this revision up and down: every pipeline and component has its original instance |
| ProviderDetachment.SourceDatabase.Upgrade | backend/alembic/versions_backup_20260816/20260614_1918_a7b8c9d0e1f2_detach_source_provider_from_group.py:50-66 | A repository whose group exists takes over that group's provider, any other keeps its row, every group loses its provider |
| ProviderDetachment.SourceDatabase.Downgrade | backend/alembic/versions_backup_20260816/20260614_1918_a7b8c9d0e1f2_detach_source_provider_from_group.py:84-107 | Succeeds if and only if every group finds a provider; else nothing changes |
| ProviderDetachment.ReattachedExactly | backend/alembic/versions_backup_20260816/20260614_1918_a7b8c9d0e1f2_detach_source_provider_from_group.py:84-107 | What a successful downgrade leaves: every group with the least provider among its repositories, or the least of all where none has one, and no repository with a provider |
| ProviderDetachment.GroupsRoundTrip | backend/alembic/versions_backup_20260816/20260614_1918_a7b8c9d0e1f2_detach_source_provider_from_group.py:50-107 | Every group with a repository gets its provider back, every empty group the least provider id |
| ProviderDetachment.PulledIsLeast | backend/alembic/versions_backup_20260816/20260614_1918_a7b8c9d0e1f2_detach_source_provider_from_group.py:84-95 | After any edits a group gets one of its repositories' providers and none of them is smaller |
| ProviderDetachment.RepositoriesRoundTrip | backend/alembic/versions_backup_20260816/20260614_1918_a7b8c9d0e1f2_detach_source_provider_from_group.py:81-95 | Reattach then detach returns a repository's provider if and only if it was least in its group, or the repository had neither group nor provider |
| WebhookModel.WebhookHandler.Handle | backend/app/api/webhooks.py:33-148 | The handler refines `Step`: routing order, status columns, parent update, unchanged state when ignored, passed on or raising |
| WebhookModel.WebhookHandler.HandleHelm | backend/app/api/webhooks.py:82-119 | The helm branch with the chart-version marking; a second matching version raises and nothing is committed |
| WebhookHistory.RunKeepsShape | backend/app/api/webhooks.py:51-148 | No history changes a key or an identifying column of any log, parent or chart version |
| WebhookHistory.EffectStable | backend/app/api/webhooks.py:51-125 | Where a delivery takes effect depends only on identifying columns, hence not on earlier deliveries |
| WebhookHistory.RoutedExactly | backend/app/api/webhooks.py:51-148 | Which log a delivery updates, in columns: the only one with its pipeline id, build before helm before docker, unless a success finds two chart versions to mark |
| WebhookHistory.AnswerExactly | backend/app/api/webhooks.py:33-148 | The answer tells what happened: ignored, passed on, the log that was updated, or an error that changed nothing |
| WebhookHistory.LogIsFold | backend/app/api/webhooks.py:55-61 | After any history every log is the fold of exactly the deliveries routed to it |
| WebhookHistory.LogAfterHistory | backend/app/api/webhooks.py:55-62 | After any history a log shows the last delivery routed to it: its status text, the address, and flag 0 exactly on success, 1 on failed or canceled, 2 on warning or skipped, 3 on running, else 4; its finishing time is that of the last terminal one, and identifying columns stay |
| WebhookHistory.InterleavingInvisible | backend/app/api/webhooks.py:51-148 | Histories with equal per-pipeline subsequences end in the same three log tables |
| WebhookHistory.ParentIsFold | backend/app/api/webhooks.py:63-72 | After any history every parent is the fold of the terminal deliveries over all of its logs |
| WebhookHistory.ParentAfterHistory | backend/app/api/webhooks.py:59-145 | A touched parent carries the last terminal status, flag 0 or 1, zero exactly on success; its success time is that of the last success, unchanged without one |
| WebhookHistory.ParentsSeeInterleaving | backend/app/api/webhooks.py:63-72 | Two pipelines of one version: the parent, unlike the logs, depends on the order across pipelines |
| WebhookHistory.SyncedExactly | backend/app/services/helm.py:47-72 | A chart version is synced after a history if and only if it was before or a success was routed to a helm log whose source, chart name and version, the last two set, are its own |
| WebhookHistory.ChartAfterHistory | backend/app/api/webhooks.py:104-119 | After any history a chart version named by some delivery is synced, flag 0, text Synced, at the time of the last such delivery; one that none names is as it was |
| ProviderSeeding.ProviderSeeder.SeedDefault | backend/bin/seed_providers.py:399-433 | One public provider: create, or update only the three seeded fields, or plan the same in a dry run |
| ProviderSeeding.ProviderSeeder.SeedCredential | backend/bin/seed_providers.py:278-321 | The credential upsert with plaintext comparison and the unreadable-secret path, for Harbor and GitLab |
| ProviderSeeding.ProviderSeeder.SeedSystemProvider | backend/bin/seed_providers.py:323-384 | The provider upsert, including the failure on a missing credential id |
| ProviderSeeding.ProviderSeeder.SeedProviders | backend/bin/seed_providers.py:391-442 | The whole seed refines `Seed`: commit on success, tables unchanged on an error or a dry run |
| SeederTheorems.Converges | backend/bin/seed_providers.py:391-442 | From every state where the seed succeeds a second run with the same environment changes nothing and returns no actions |
| SeederTheorems.DryRunWhenApplied | backend/bin/seed_providers.py:240-369 | Where an apply succeeds, a dry run changes nothing and returns its actions, unless a system provider is live while its credential row is missing: then it fails on the missing id |
| SeederAcceptance.DryRunOutcome | backend/bin/seed_providers.py:391-442 | From every database a dry run fails with the trouble of its first section that has an unreadable secret, or a live provider and no credential row, and succeeds, changing nothing, if and only if no section has any |
| SeederAcceptance.ApplyAccepted | backend/bin/seed_providers.py:391-442 | From every database that meets its constraints an apply succeeds if and only if the stored system secrets are readable, no live default under another name is in the scope a wanted row ends up in, and no two wanted rows end up in one scope |
| SeederAcceptance.DryRunAgrees | backend/bin/seed_providers.py:391-442 | From every database that meets its constraints, dry run and apply both fail or both report the same actions, if and only if a secret is unreadable, or a missing credential row under a live system provider and an occupied scope come together or not at all |
| SeederAcceptance.OccupiedScopeFailsApply | backend/bin/seed_providers.py:441 | A concrete database, one live default in the scope of `github-anonymous`, on which the dry run plans and the apply violates the unique index |
| SeederAcceptance.UnreadableSecretFailsBoth | backend/bin/seed_providers.py:190 | A concrete database, a system credential of another key, on which both modes fail |
| SeederTheorems.DryRunFails | backend/bin/seed_providers.py:240 | A concrete database, a live `gitlab-system` provider without credential row, on which the seed applies and its dry run fails |
| SeederTheorems.SeedKeeps | backend/bin/seed_providers.py:99-112 | No row is deleted; rows under other names and deleted rows are untouched; public rows keep every field except label, is_default and is_protected |
| SeederColumns.SeedHolds | backend/bin/seed_providers.py:53-388 | After a successful apply, in the columns of the environment: `harbor-system` has its address, config, TLS setting and the id of the row `harbor-system-credential`, which has its user name, address and plaintext; `gitlab-system` has its address and credential and keeps config and TLS setting on an update; public rows have the declared label; all other columns of an older row stay |
| SeederColumns.SeedReports | backend/bin/seed_providers.py:391-442 | What a successful apply reports is, name by name in order, a creation where there was no row, else exactly the columns in which the row differs before and after, and nothing where it does not |
| MigrateThenSeed.SeedAfterMigration | backend/bin/entrypoint.sh:11-13 | Migration, then seed, on a clean database: the seed succeeds if and only if it would have before the migration and no legacy default takes a scope that a wanted row ends up in |
| MigrateThenSeed.MeetsSeedExactly | backend/bin/seed_providers.py:53-388 | Which legacy rows take such a scope on a database without the seed's rows, in columns: default GitLab and Harbor against the system providers, and without an administrator default GitHub and external Docker Hub against the public ones |
| MigrateThenSeed.FirstSeedAfterMigration | backend/bin/entrypoint.sh:11-13 | The same, in those columns, for a database the seed has not visited |
| MigrateThenSeed.DefaultGitlabBlocksSeed | backend/bin/seed_providers.py:212-231 | A concrete database, one default GitLab instance, that is migrated and then makes the seed with a GitLab environment abort |
| PermissionSeed.RbacDatabase.SelectMissing | backend/alembic/versions/20260816_1200_a1b2c3d4e5f6_seed_initial_data.py:190-199 | The comprehension keeps exactly the entries whose name is not present, in order |
| PermissionSeed.RbacDatabase.BuildAssignments | backend/alembic/versions/20260816_1200_a1b2c3d4e5f6_seed_initial_data.py:237-251 | The nested loops build the pair list of the grants whose role and permission resolve |
| PermissionSeed.RbacDatabase.UpgradeSeed | backend/alembic/versions/20260816_1200_a1b2c3d4e5f6_seed_initial_data.py:172-272 | Insert missing rows, build pairs, insert missing links: the new state is `Upgrade` of the old; a name or link inserted twice rolls everything back |
| PermissionSeed.RbacDatabase.DowngradeSeed | backend/alembic/versions/20260816_1200_a1b2c3d4e5f6_seed_initial_data.py:275-333 | Delete links and rows bearing seeded names: the new state is `Downgrade` of the old |
| PermissionSeed.InsertMissing | backend/alembic/versions/20260816_1200_a1b2c3d4e5f6_seed_initial_data.py:221-235 | Exactly the required names are added, old rows are untouched, no name occurs twice |
| PermissionSeed.UpgradeAccepted | backend/alembic/versions/20260816_1200_a1b2c3d4e5f6_seed_initial_data.py:228-266 | A revision goes through if and only if it declares no missing name twice and grants no pair of known names twice that is not linked already |
| PermissionSeed.RepeatedGrantAborts | backend/alembic/versions/20260816_1200_a1b2c3d4e5f6_seed_initial_data.py:261-266 | A concrete seed that grants one permission twice and violates the primary key of the links |
| PermissionSeed.UpgradeIsLeastSuperset | backend/alembic/versions/20260820_0003_5d4c3b2a1e0f_seed_gitlab_project_permissions.py:54-126 | Where it goes through, the tables grow by exactly the missing seeded names and the links by exactly the granted pairs; names stay unique and links valid |
| PermissionSeed.UpgradeExactly | backend/alembic/versions/20260816_1200_a1b2c3d4e5f6_seed_initial_data.py:172-272 | In rows: old rows stay, every missing name gets one declared row under a free id, and linked are the old pairs and those a grant lists by name |
| PermissionSeed.DowngradeExactly | backend/alembic/versions/20260816_1200_a1b2c3d4e5f6_seed_initial_data.py:275-333 | From any database: left are the rows whose name is not declared and the links between two of them |
| PermissionSeed.UpgradeTwice | backend/alembic/versions/20261024_0001_b4c5d6e7f8a9_add_trust_stores.py:113-171 | Seeding twice is seeding once |
| PermissionSeed.DowngradeUndoesExactly | backend/alembic/versions/20260816_1200_a1b2c3d4e5f6_seed_initial_data.py:275-333 | Upgrade then downgrade is the identity on all three tables if and only if none of the seeded names existed and every pair granted between older rows was linked before |
| PermissionSeed.OlderPermissionLost | backend/alembic/versions/20260816_1200_a1b2c3d4e5f6_seed_initial_data.py:299-318 | A concrete database whose own permission, under a seeded name, the downgrade deletes |
| PermissionSeed.ChainUndone | backend/alembic/versions/20261024_0001_b4c5d6e7f8a9_add_trust_stores.py:174-202 | A whole chain of seed revisions up and, newest first, down again restores the tables |
| PermissionCache.RequirePermission | backend/app/core/rbac.py:120-146 | Passes exactly when the user is current and the snapshot or the database has the permission; 401 and 403 are told apart |
| PermissionCache.RequireScopePermission | backend/app/core/rbac.py:195-244 | Returns true exactly when the permission check passes and there is no resource id or it is in scope; 401 exactly for an invalid caller, else 403 |
| PermissionCache.StepExactly | backend/app/api/auth.py:49-125 | Every event's effect fact by fact: who exists, is active, has a role, which role grants what, the clock, and that a login or refresh signs exactly tokens of each kind's lifetime over what the user holds |
| PermissionCache.IssuedWasSigned | backend/app/api/auth.py:66-125 | From any tokens in circulation: a later one was signed at some moment of the history, for a then active user, over exactly what that user's roles then granted, for its kind's lifetime |
| PermissionCache.AllowedExactly | backend/app/core/rbac.py:51-144 | After any history, from any tokens in circulation, a check passes if and only if token and user are valid now and the permission is held now, was held when the token was signed, or is in a snapshot from before the history |
| PermissionCache.OldTokenFallsBack | backend/app/core/rbac.py:70-136 | A token of an older release, without snapshot, passes exactly by what the database says now |
| PermissionCache.RevocationTakesEffect | backend/app/core/security.py:18-31 | A permission not held for the longest token lifetime passes no check, except on an unexpired snapshot from before the history |
| PermissionCache.StaleSnapshotPasses | backend/app/core/rbac.py:127-136 | A history in which a revoked permission still passes when the whole lifetime of a token of either kind has gone by: the bound is attained, by refresh tokens as well, since a check never reads the kind |
| TagComparison.CompareTag | backend/app/api/docker_images.py:200-222 | One line of the answer and the counter it belongs to |
| TagComparison.CompareNames | backend/app/api/docker_images.py:195-236 | The counting loop yields the items and the summary of the specification |
| TagComparison.Compare | backend/app/api/docker_images.py:155-237 | Missing sources are told apart in order; else one line per name in order, matching if and only if the last rows of that name on both sides have equal digests, and counters that are the sizes of those name sets |
| TagComparison.AnswersExactly | backend/app/api/docker_images.py:189-236 | The answer of the specification in terms of the rows: match if both last rows exist with equal digests, mismatch if with different ones, null otherwise, the columns of these rows, and the five counters as sizes |
| Ordering.SortedSpec | backend/app/api/docker_images.py:199 | `sorted` of a name set: strictly ascending, the same elements, the same size |
| TagComparison.LastRowWins | backend/app/api/docker_images.py:189-191 | Duplicate names resolve to the last row |
| TagComparison.SummaryIsPartition | backend/app/api/docker_images.py:193-236 | Names are the union, once each and in order; the counters partition the total, three of them make up side A and three side B |
| TagComparison.SwapSources | backend/app/api/docker_images.py:193-236 | Swapping the sources swaps the two sides of every line and the two one-sided counters and nothing else |
| SyncRuns.SyncRunAdmin.Reenqueue | backend/app/api/sync_runs.py:60-75 | Known tasks are enqueued with the row's stored arguments and tracking data, unknown ones change nothing |
| SyncRuns.SyncRunAdmin.RetrySyncRun | backend/app/api/sync_runs.py:125-141 | 404, 409 and unknown-task paths without effect; else one message |
| SyncRuns.SyncRunAdmin.RetryAllFailed | backend/app/api/sync_runs.py:144-162 | The counting loop refines `RetryAll` |
| SyncRuns.SyncRunAdmin.RequeueSyncRun | backend/app/api/sync_runs.py:165-185 | 404 and 409 paths without effect; else the row is superseded and then re-enqueued |
| SyncRuns.StepKeepsSuperseded | backend/app/tasks/run_tracking.py:58-131 | No step of an administrator or of a worker touches a superseded row |
| SyncRuns.SupersededForever | backend/app/tasks/run_tracking.py:58-196 | Superseded is absorbing over every history |
| SyncRuns.RequeuedAtMostOnce | backend/app/api/sync_runs.py:165-185 | Over every history of calls that do not overlap a row is requeued at most once, and is superseded afterwards |
| RequeueOverlap.UninterruptedCall | backend/app/api/sync_runs.py:175-183 | Read, commit and enqueue in a row are the requeue step |
| RequeueOverlap.RequeuedOnceExactly | backend/app/api/sync_runs.py:175-183 | With the three rounds of every call interleaved at will, a row is requeued at most once if and only if no two calls on it overlap, one reading before the other commits |
| RequeueOverlap.OverlapEnqueuesTwice | backend/app/api/sync_runs.py:175-183 | Two calls that both read before either commits enqueue the task twice with the same arguments |
| SyncRuns.EnqueuesAccounted | backend/app/tasks/enqueue.py:21-54 | What was enqueued over a history is, in order, one message per action or batch item that passed its guard and resolves |
| SyncRuns.EnqueuesCounted | backend/app/api/sync_runs.py:133-162 | Over every history the enqueues number exactly the calls and batch items that passed their guard and resolve, and the answers claim exactly that many |
| SyncRuns.SentCarries | backend/app/api/sync_runs.py:60-75 | An event sends messages for exactly the rows it acts on whose task is known, each with the task name, entity, args and kwargs stored in the row, none where no payload is |
| SyncRuns.EveryMessageCarries | backend/app/tasks/enqueue.py:21-54 | Over every history every message carries what was stored, when it was sent, in a row that an action was on |
| SyncRuns.RetryExactly | backend/app/api/sync_runs.py:125-141 | Who is refused and why, in columns; a success leaves a new queued row with the task, entity and payload of the old one, an empty payload where there was none |
| SyncRuns.RequeueExactly | backend/app/api/sync_runs.py:165-185 | The same for requeue, five minutes without a sign of life; the old row is superseded whatever the answer |
| SyncRuns.RetryAllCopies | backend/app/api/sync_runs.py:144-162 | Every dead row whose task is known gets such a new row |
| SyncRuns.StartExactly | backend/app/tasks/run_tracking.py:58-131 | A starting worker works under exactly one row: the newest queued one of its task, else the newest one that failed for its entity, else a new one |
| SyncRuns.FinishExactly | backend/app/tasks/run_tracking.py:171-196 | A finished run is succeeded, else dead if and only if its attempts are used up; nothing else changes |
| SyncRuns.AttemptsBounded | backend/app/tasks/run_tracking.py:58-196 | Over every history no row is attempted more than three times, and a row is dead exactly when it failed for the third time |
| SyncRuns.RetryAllCounts | backend/app/api/sync_runs.py:151-162 | `retried` equals the messages sent and the dead rows whose task resolves; `total` the dead rows; no row is changed |
| SyncRuns.SupersededWithoutSuccessor | backend/app/api/sync_runs.py:181-183 | Requeueing a stuck row of an unknown task supersedes it and enqueues nothing |

## Left out

- UrlNormalization.NormalizeUrl: folds ASCII letters only, where Python's `lower` folds Unicode and may change a text's length, because Unicode tables are not part of this model.
- UrlNormalization.NormalizeHelmUrl: the same ASCII case folding.
- UrlNormalization.FixedPoints: "lower case" means without ASCII capitals, for the same reason.
- UrlNormalization.CaseIgnored: covers ASCII letter case only, for the same reason.
- Column lengths and integer widths are not modelled.
- Schema changes, indexes other than the named unique ones, sessions, logging, audit events and HTTP plumbing: only effects on rows and the named constraints are kept.
- The downgrade of revision `00932f2a02d5` drops the relink columns before it deletes rows, so consumer links do not appear in `RevertData`; role scopes that cascade with a deleted credential are not part of this model.
- Matches of UPDATE ... FROM that are not unique, and `scalar_one_or_none` on provider names that are not unique, are taken as the lowest id; the unique indexes rule them out.
- ProviderSeeding.ProviderSeeder.SeedProviders: takes the environment as parsed (`_harbor_env` and `_gitlab_env` are left out) and checks constraints once at the commit, not at the flush inside a system section, because a failure at either point rolls back to the same state; the automatic `created_at` and `updated_at` columns are not modelled.
- The constant permission lists of the three seed revisions: the theorems hold for any lists, and `PermissionSeed.ChainUndone` for any that only grant permissions they declare.
- WebhookModel.WebhookHandler.Handle: stops where the handler passes an event on to the pipeline runs, because that service and the mirror audit behind it are not part of this model.
- `MigrateThenSeed` takes the tables of the data migration as the seed finds them; the revisions between the two are not part of it.
- Concurrency of two webhook deliveries inside one handler call: deliveries are taken one at a time.
- PermissionCache.RequireScopePermission: the scope service is a parameter, because its tables are not part of this model. `require_roles` and its wrappers add only an easy member.
- Passwords, single sign-on and rate limiting of the login; signatures are modelled as membership in the set of issued tokens.
- SyncRuns: worker steps, retry and retry-all are atomic, so the lost race for a queued row does not occur; requeue is split into its rounds in `RequeueOverlap`; `started_at`, `finished_at` and `error` are dropped; a failing broker publish is not told apart from a successful one, since the helper hides it; list endpoints are left out; the settings for retries and for the stuck window have their default values.
- Access checks and the echo of the two source rows in the tag comparison; listing, indexing and syncing of images.
- Revision `139d156bc39b` and the older permission migrations, CRUD routers, exports, the mirror, pipeline, docker and helm services and the frontend: not part of this model.
