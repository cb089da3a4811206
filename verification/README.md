# Rights reconciliation of directus-extension-simple-autosync

This project models the rights engine of the simple-autosync extension for Directus, and proves properties of the model. The engine moves the access-control setup of one instance to another instance. That setup has four kinds of records:

- policies;
- roles;
- permissions, each belonging to a policy;
- access rows, each linking a policy to a role, or to no role.

Every instance has three built-in records, and each instance gives them its own generated ids:

- the administrator policy;
- the public policy;
- the administrator role.

On **pull**, the engine reads the current setup and projects away relation lists and user links. It then rewrites the ids of the three defaults to fixed placeholders (`_default-admin-policy`, `_default-public-policy`, `_default-admin-role`). Access rows of a default policy take the relation placeholders (`_default-admin-relation`, `_default-public-relation`).

On **push**, the engine:

1. finds the target instance's own defaults;
2. maps every default in the file onto them, carrying each changed id through the permissions and access rows that reference it, one policy and one role at a time;
3. lets the access rows of a default link take over the id of the instance's matching row;
4. splits every kind into records to create, records to update (only those that differ) and ids to delete;
5. issues the writes unless it is a dry run;
6. returns a summary.

The sync-file helpers choose file names. In multi-file mode a name carries the version and a `YYYYMMDDTHHMMSS` timestamp, and the newest listed file is read back. The schema-snapshot helper does the same for `snapshot_…` files.

The Dafny modules follow the source:

| module | file | models |
|---|---|---|
| `Js` | `js.dfy` | JSON values, records as maps, `obj.key`, truthiness, lodash `omit` and `pick` |
| `Seqs`, `Wrappers`, `Strings` | `seqs.dfy`, `wrappers.dfy`, `strings.dfy` | `filter`, `map`, `find`, `reverse`, `toLowerCase`, the default string `sort` |
| `Records` | `records.dfy` | the four record lists, and lookup of a record by id |
| `Defaults` | `defaults.dfy` | the default-entity predicates |
| `LegacyRights` | `legacy.dfy` | the earlier engine's predicates, `cleanUserRelations` and projection |
| `Projection` | `projection.dfy` | the filters of `getCurrentRightsSetup` |
| `Export` | `export.dfy` | `rewriteDefaultsToPlaceholderIds` |
| `Import` | `import.dfy` | the default lookup, the policy and role passes, and the access-id adoption of `pushRights` |
| `Partition` | `partition.dfy` | `partitionCreateUpdate` and the delete lists |
| `Push` | `push.dfy` | `pushRights`: the plan, the log of writes and the summary |
| `RoundTrip` | `roundtrip.dfy` | the push of an instance's own export changes nothing |
| `SyncFiles` | `syncfiles.dfy` | `isStringTruthy`, `getEnvConfig`, `getSyncFilePath`, `getSyncFilesForVersion`, `getCurrentTimestamp` |
| `Snapshots` | `snapshots.dfy` | `isStringTruthy` and `getSnapshotFilepath` of the snapshot helpers |

A record is a map from property name to value. A missing property reads as `Undefined`, so a strict comparison `a.policy === p.id` becomes `Field(a, "policy") == Field(p, "id")`, and lodash `isEqual` on plain data becomes Dafny equality. Inputs the engine gets by reading something become parameters:

- the stored setup of the instance;
- the environment variables;
- the directory listing;
- the current instant.

The writes the push would send are recorded in a log of `CreateMany`, `UpdateOne` and `DeleteMany` entries, in the order they are issued.

`partitionCreateUpdate` returns a named pair `Buckets(toCreate, toUpdate)`. The rights service imports it from `src/lib/helpers.js`, whose text here defines no such function, so the version it runs is not part of this model. The one body visible, in `src/lib/rights.js`, returns `[toUpdate, toCreate]`, while the service reads its result as `[initial, existing]`. The model follows the names the service gives the two lists: created records are those whose id is new.

Where the system's written specification and its code disagree, the model follows the code:

- The specification makes an absent or ambiguous default a fatal error before any write. In the code, `.find` takes the first match, so ambiguity is never reported. An absent default fails only when a file record needs it: the code then reads `.id` of `undefined` and throws before writing anything. The model takes the first match, and returns the error `MissingDefault(kind)` exactly when a file record needs a default the instance lacks.
- The specification deletes access rows before the policies and roles they reference. The code deletes roles, then policies, then permissions, then access rows, and the log keeps that order.
- The specification requires every permission to name a policy of the rewritten data. The export as written leaves permissions of a default policy naming its real id; see the first finding below.

## Model

| member | source | states |
|---|---|---|
| `Defaults.HeuristicsExclusive` | src/lib/services/rights.js:474-479 | the metadata tests never mark one policy as both the admin and the public policy |
| `Defaults.DefaultPoliciesExclusive` | src/lib/services/rights.js:472-479 | a policy without a placeholder id is never both default policies |
| `Defaults.PlaceholderRecognised` | src/lib/services/rights.js:459-483 | a record carrying a placeholder id is recognised as that default, whatever its metadata |
| `LegacyRights.LegacyAdminPolicyIsNarrower` | src/lib/rights.js:371-372 | every policy the earlier admin test accepts, the current test accepts too; a policy described by `$t:admin_policy_description` is accepted only by the current test |
| `LegacyRights.LegacyAgreesWithoutPlaceholders` | src/lib/rights.js:371-376 | without a placeholder id, the earlier public-policy and admin-role tests agree with the current ones, and the earlier admin-policy test implies the current one |
| `LegacyRights.CleanUser` | src/lib/rights.js:379-387 | the cleaned record has no `users` key; its `user` is null when it was truthy and unchanged otherwise; every other property is unchanged |
| `LegacyRights.CleanUserRelations` | src/lib/rights.js:378-389 | each output record is its input record without `users`, with a truthy `user` set to null and a falsy one unchanged; nothing else changes, and the order is kept |
| `LegacyRights.CleanUserIdempotent` | src/lib/rights.js:378-389 | cleaning a cleaned record changes nothing |
| `LegacyRights.LegacyProject` | src/lib/rights.js:356-363 | the earlier projection keeps exactly the non-`system` permissions, in order; every policy, role and access row is its stored record without `users` (and without `roles` and `permissions` for a policy, `policies` for a role), with a truthy `user` set to null and every other property unchanged; every id is kept |
| `LegacyRights.CurrentProjectionNarrowsPermissions` | src/lib/services/rights.js:408-413 | the current projection keeps a subset of the earlier one's permissions: exactly those whose policy is among the policies |
| `Projection.ProjectPolicies` | src/lib/services/rights.js:397-399 | every policy loses exactly `roles`, `permissions` and `users`; the order and all other properties are kept |
| `Projection.ProjectRoles` | src/lib/services/rights.js:422-424 | every role loses exactly `policies`, `users` and `children`; the order and all other properties are kept |
| `Projection.ProjectPermissions` | src/lib/services/rights.js:408-413 | a permission is kept iff its policy is among the projected policies and it is not `system`; the kept ones stay in order |
| `Projection.ProjectAccess` | src/lib/services/rights.js:430-441 | the rows that link a user to a policy without a role are dropped; every row kept has `user` null and is otherwise unchanged; the kept rows stay in stored order |
| `Projection.Project` | src/lib/services/rights.js:394-456 | the projected setup has the stored policies and roles, in order and with the same ids, without their relation lists; it has the permissions and access rows described by the two filters, the access rows in stored order |
| `Projection.ProjectIdempotent` | src/lib/services/rights.js:394-456 | projecting a projected setup changes nothing |
| `Records.FirstWithId` | src/lib/services/rights.js:191-195 | `find` by id: none iff no record has the id, otherwise a record of the list with that id, and the first one |
| `Export.LastId` | src/lib/services/rights.js:501-518 | the id the export remembers for a default is that of the last record recognised as it, or `undefined` when there is none |
| `Export.ExportPolicy` | src/lib/services/rights.js:501-511 | only the id changes: it becomes the admin placeholder for the admin policy (checked first), the public placeholder for the public policy, and stays otherwise; the exported policy is recognised as the same default as before |
| `Export.ExportRole` | src/lib/services/rights.js:512-518 | only the id changes: the admin role takes its placeholder, every other role keeps its id; recognition is kept |
| `Export.ExportAccessAsWritten` | src/lib/services/rights.js:525-550 | the export as written: a row naming the remembered admin role takes the role placeholder; a row naming the admin or the public policy takes that policy's placeholder and that relation's placeholder id, whatever role it links; nothing else changes |
| `Export.ExportAccess` | src/lib/services/rights.js:525-550 | the corrected export: the references move as written, but only a row linking the admin role to the admin policy takes `_default-admin-relation`, and only a row linking no role to the public policy takes `_default-public-relation`; every other row keeps its id, and nothing else changes |
| `Export.RewriteDefaultsAsWritten` | src/lib/services/rights.js:490-552 | the export as written: policies, roles and access rows are exported record by record, and the permissions are passed through untouched |
| `Export.ExportPermission` | src/lib/services/rights.js:523-550 | in the corrected export, a permission's policy reference follows its policy to the placeholder exactly as an access row's does; nothing else changes |
| `Export.RewriteDefaults` | src/lib/services/rights.js:490-552 | the corrected export: policies and roles as written; each permission's policy reference rewritten, and each access row exported by the corrected rule |
| `Export.PolicyRefLands` | src/lib/services/rights.js:501-547 | with distinct defaults, a reference to a policy, rewritten as the export rewrites references, names that policy's exported id |
| `Export.RoleRefLands` | src/lib/services/rights.js:512-533 | with distinct defaults, a reference to a role, rewritten as the export rewrites references, names that role's exported id |
| `Export.ExportKeepsAccessRefs` | src/lib/services/rights.js:499-552 | with distinct defaults, every access row that named a policy and a role, or no role, of the setup still does after the export |
| `Export.RewriteDefaultsKeepsPermissionRefs` | src/lib/services/rights.js:490-552 | with distinct defaults, the corrected export keeps every permission's policy reference resolvable |
| `Export.RewriteDefaultsKeepsAccessIdsUnique` | src/lib/services/rights.js:523-550 | with unique access ids, no two rows with the same link and no id spelled like a relation placeholder, the corrected export keeps the access ids unique |
| `Export.ExportAsWrittenDuplicatesRelationId` | src/lib/services/rights.js:534-539 | a well-formed setup whose admin policy is linked to two roles: as written both exported rows take `_default-admin-relation`, so the file's access ids are not unique, while the corrected export keeps them unique |
| `Export.ExportAsWrittenDanglesPermission` | src/lib/services/rights.js:490-552 | a well-formed setup whose export as written leaves a permission naming a policy id that is no longer in the file, while the corrected export resolves it |
| `Import.FindDefaults` | src/lib/services/rights.js:112-120 | each current default is absent iff no current record is recognised as it, otherwise the first record of its list recognised as it |
| `Import.PolicyTarget` | src/lib/services/rights.js:125-129 | a file policy's new id: the current public policy's id if the policy is the public one (the later test wins), else the current admin policy's id if it is the admin one, else its own id; an error naming the missing default exactly when the policy needs one the instance lacks |
| `Import.RoleTarget` | src/lib/services/rights.js:162-164 | a file role's new id: the current admin role's id for the admin role, its own id otherwise; an error exactly when the admin role is needed and missing |
| `Import.Readdress` | src/lib/services/rights.js:147-154 | `{...r, id}`: the new id is set, `_originalId` records the old id exactly when it changed, and nothing else changes |
| `Import.Retarget` | src/lib/services/rights.js:133-145 | one rewrite of a reference field: a reference equal to the old id takes the new id, other references and all other properties are unchanged |
| `Import.RemapPolicies` | src/lib/services/rights.js:124-157 | the policy pass succeeds iff every file policy has a target, and otherwise reports the first policy's error; each policy is readdressed to its target, and every permission and access reference is carried through the moves one after the other |
| `Import.RemapRoles` | src/lib/services/rights.js:161-185 | the role pass succeeds iff every file role has a target; each role is readdressed to its target, and every access row's role is carried through the moves one after the other |
| `Import.ChaseIsLookup` | src/lib/services/rights.js:124-185 | when no later move's source is an earlier move's source or target, the sequential rewrite equals a single lookup in the table of moves |
| `Import.PolicyPassRewritesReferences` | src/lib/services/rights.js:133-145 | under the same condition, every permission and access row that referenced a file policy's old id references its new id |
| `Import.PolicyPassKeepsOtherReferences` | src/lib/services/rights.js:133-145 | a permission or access row that references no file policy is left exactly as it was |
| `Import.PolicyPassKeepsReferences` | src/lib/services/rights.js:124-157 | if every reference named a file policy before the pass, every reference names a rewritten file policy after it |
| `Import.AdoptAccessId` | src/lib/services/rights.js:189-219 | only the id can change, and no `_originalId` is added; a row of a default link with a matching current row takes the first such row's id; any other row is unchanged; a changed id is always that of a current row with the same role and policy |
| `Import.AdoptAccessIds` | src/lib/services/rights.js:189-219 | adoption is applied to every file access row, in order |
| `Import.RewriteFile` | src/lib/services/rights.js:112-219 | the whole rewrite succeeds iff every file policy and role has a target, and a failure is always a missing default; the record counts are kept |
| `Partition.PartitionCreateUpdate` | src/lib/rights.js:391-412 | a file record is to be created iff no current record has its id, and to be updated iff one has and the record, without `_originalId`, differs from the first such record; both lists keep the file order |
| `Partition.SplitIsExhaustive` | src/lib/rights.js:395-398 | before the no-op filter, every file record lands in exactly one of the two lists |
| `Partition.PartitionAgainstItself` | src/lib/rights.js:403-409 | a list with unique ids and no `_originalId`, partitioned against itself, yields nothing to create and nothing to update |
| `Partition.PartitionOfSameRecords` | src/lib/rights.js:403-409 | file records that equal current records once `_originalId` is removed yield nothing to create and nothing to update |
| `Partition.ToDelete` | src/lib/services/rights.js:227-253 | the ids to delete are exactly the current ids that no file record carries, in current order |
| `Partition.MirrorDisjoint` | src/lib/services/rights.js:227-276 | no id to delete belongs to a record to create or to update, and no record is in both buckets |
| `Push.PlanKind` | src/lib/services/rights.js:227-276 | one kind's plan holds the two buckets and exactly the current ids that the file lacks; no deleted id is also created or updated |
| `Push.SummariseKind` | src/lib/services/rights.js:341-374 | the summary of one kind lists the created and updated records, in order, reduced to the summary's keys, and the deleted ids unchanged |
| `Push.Summarise` | src/lib/services/rights.js:341-374 | the summary reports each kind's deleted ids, and the permissions by the ids of the created and updated ones |
| `Push.Updates` | src/lib/services/rights.js:306-325 | one update per record, addressed by the record's own id and carrying the whole record |
| `Push.WriteLogFollowsPlan` | src/lib/services/rights.js:278-336 | the log carries out the plan: it creates each kind's records to create, roles, policies, permissions, then access rows with `user` null and otherwise unchanged; it then updates every record of each kind's update list by its own id, in the same kind order; it ends by deleting each kind's ids to delete, in that order |
| `Push.Finish` | src/lib/services/rights.js:278-374 | the summary is the plan's; a dry run writes nothing; otherwise the log carries out the plan as above |
| `Push.PushRights` | src/lib/services/rights.js:86-375 | refused iff rights are not enabled; when enabled, succeeds iff every file default can be mapped onto the projected current setup; on success the summary is that of the plan of the file rewritten against the projected setup, a real run's log carries out that plan, and a dry run writes nothing |
| `Push.PushOnto` | src/lib/services/rights.js:112-374 | against a given current setup: succeeds iff every file default can be mapped, fails only on a missing default; on success the summary and, unless it is a dry run, the log are those of the plan of the rewritten file; a dry run writes nothing |
| `Push.DryRunReportsTheSame` | src/lib/services/rights.js:278-374 | a dry run succeeds exactly when the real run does, and returns the same summary with no writes |
| `Push.SummaryIsDisjoint` | src/lib/services/rights.js:227-374 | in every summary of a push, no id is reported as deleted and also as created or updated |
| `RoundTrip.CanonicalExample` | src/lib/services/rights.js:472-483 | the shape of setup that the round-trip theorems assume is satisfiable, together with the plain default links the export as written needs |
| `RoundTrip.ExampleIsProjected` | src/lib/services/rights.js:394-456 | the minimal setup, with its access rows' `user` null, is what the projection reads back from an instance storing it |
| `RoundTrip.ProjectedExampleRoundTrips` | src/lib/services/rights.js:394-483 | the projection of that stored setup meets the assumption of the push round trip, for the export as written and for the corrected one |
| `RoundTrip.ExportedIdChangesOnlyOnDefaultLinks` | src/lib/services/rights.js:523-550 | on a setup in that shape, the export, as written or corrected, changes an access row's id only when the row links the admin role to the admin policy or no role to the public policy |
| `RoundTrip.PolicyPassBack` | src/lib/services/rights.js:124-157 | on an instance's own export, as written or corrected, the policy pass gives back the instance's policies, apart from `_originalId`, and its permissions and access rows' policy references |
| `RoundTrip.RolePassBack` | src/lib/services/rights.js:161-185 | on an instance's own export, as written or corrected, the role pass gives back the instance's roles, apart from `_originalId`, and its access rows' role references |
| `RoundTrip.AccessComesBack` | src/lib/services/rights.js:189-219 | after both passes, id adoption gives back exactly the instance's access rows, the default links included |
| `RoundTrip.RewriteOfOwnExport` | src/lib/services/rights.js:112-219 | rewriting an instance's own export against it succeeds and gives back its setup, with only `_originalId` added to the readdressed defaults; the export as written needs the default policies linked only to their default role or to no role, the corrected export does not |
| `RoundTrip.KindPlanEmpty` | src/lib/services/rights.js:227-276 | records that come back unchanged plan no create, no update and no delete |
| `RoundTrip.PlanOfOwnExportIsEmpty` | src/lib/services/rights.js:112-276 | an instance's own export, as written or corrected, plans no create, no update and no delete for any kind |
| `RoundTrip.EmptyPlanReportsNothing` | src/lib/services/rights.js:278-374 | an empty plan reports empty lists and writes only the empty creates and deletes |
| `RoundTrip.PushOfOwnExportChangesNothing` | src/lib/services/rights.js:112-374 | pushing an instance's own export, as written or corrected, back onto it succeeds, reports nothing created, updated or deleted, and writes only the empty creates and deletes |
| `SyncFiles.EnvOr` | src/lib/helpers.js:57-59 | `process.env.X \|\| fallback`: the variable when it is set and non-empty, the fallback otherwise |
| `SyncFiles.IsStringTruthy` | src/lib/helpers.js:44-48 | false exactly for an absent value, `""`, `"0"`, and any casing of `"no"` or `"false"` |
| `SyncFiles.GetEnvConfig` | src/lib/helpers.js:56-69 | each flag is the truthiness of its variable; the file path is the variable when set and non-empty, else `<cwd>/autosync-config` |
| `SyncFiles.SyncFileNameShape` | src/lib/helpers.js:32 | the literal filter accepts exactly the names `file_version_<8 digits>T<6 digits>.json` |
| `SyncFiles.IntendedMatchIsAcceptedAsWritten` | src/lib/helpers.js:31-35 | every name of that shape passes the filter as written |
| `SyncFiles.VersionDotMatchesAnyCharacter` | src/lib/helpers.js:32 | the filter as written accepts a name whose version differs from the requested one, which the literal filter rejects |
| `SyncFiles.TimestampedNameIsListed` | src/lib/helpers.js:11-35 | a name written with a timestamp of the right shape is found by the listing filter, as written and literal |
| `Strings.Sort` | src/lib/helpers.js:36 | the default sort: an ordered permutation of its input |
| `SyncFiles.GetSyncFilesForVersion` | src/lib/helpers.js:27-42 | exactly the listed names the filter accepts, as written or literal, in descending order for `DESC` and ascending otherwise |
| `SyncFiles.GetSyncFilePath` | src/lib/helpers.js:4-19 | `file.json` in single-file mode; `file_version_timestamp.json` with a timestamp; otherwise the greatest listed name the filter accepts, or `file_version.json` when it accepts none |
| `SyncFiles.NewestWrittenFileIsReadBack` | src/lib/helpers.js:4-19 | after writing a timestamped file that no other accepted name sorts after, the path chosen without a timestamp is that file, with either filter |
| `SyncFiles.AsWrittenReadsAnotherVersion` | src/lib/helpers.js:4-42 | with `rights_11.1.0_20240101T000000.json` and `rights_11x1x0_20240101T000000.json` listed, the read of version `11.1.0` picks the other version's file as written, and the version's own with the literal filter |
| `SyncFiles.GetCurrentTimestamp` | src/lib/helpers.js:50-54 | the ISO instant without separators and fraction always contains a `T`; for a four-digit year it is 8 digits, `T`, 6 digits, whose groups read back as the instant's fields |
| `SyncFiles.TimestampLayout` | src/lib/helpers.js:52 | dropping `-`, `:` and everything from the first `.` of the ISO string leaves the compact date, `T` and the compact time |
| `Snapshots.IsStringTruthy` | src/helpers.js:63-68 | the snapshot helpers' truthiness test accepts exactly what the sync helpers' does |
| `Snapshots.SnapshotFilepath` | src/helpers.js:37-57 | `AUTOSYNC_FILE_NAME` when set and non-empty; otherwise `snapshot_<timestamp>.json` on write, and on read the greatest listed name the read filter accepts (`snapshot_<8 digits>_<6 digits>.json` as written, with `T` for `_` when corrected), else `snapshot.json` |
| `Snapshots.NewestSnapshot` | src/helpers.js:50-54 | the greatest listed name the read filter accepts, else `snapshot.json` |
| `Snapshots.WrittenSnapshotIsNeverListed` | src/helpers.js:45-52 | a name written with the current timestamp never matches the read filter, since it has `T` where the filter wants `_` |
| `Snapshots.SnapshotReadIgnoresWrittenName` | src/helpers.js:43-54 | without `AUTOSYNC_FILE_NAME`, the read path as written never picks the name the write path produces |
| `Snapshots.WrittenSnapshotIsListed` | src/helpers.js:45-52 | with `T` in the read filter, every name written for a four-digit year matches it |
| `Snapshots.SnapshotReadFindsWrittenName` | src/helpers.js:43-54 | with `T` in the read filter and no `AUTOSYNC_FILE_NAME`, a written snapshot that no other listed snapshot sorts after is the one read back |

## Left out

- Service calls (`readByQuery`, `createMany`, `updateOne`, `deleteMany`), file reads and writes, JSON parsing and printing, `path.join`, `fs.readdirSync` and `new Date()` are I/O. The current setup, the environment, the directory listing and the instant are parameters, and the writes are a log.
- `emitter.emitFilter` hooks run code outside the extension and are taken as identity.
- `Promise.all` runs the updates of one kind concurrently. The log lists them in array order; the summary does not depend on the order.
- The earlier `pushRights` of `src/lib/rights.js` reassigns bindings declared `const` and cannot run. Only its helpers are modelled.
- The translations and schema-snapshot services, the HTTP endpoints, the hooks and the UI modules are not part of this model. They only move data through I/O or serve the UI.
- The `partitionCreateUpdate` that the rights service imports from `src/lib/helpers.js` is not part of this model. The body in `src/lib/rights.js` stands in for it, with the buckets named as the service uses them.
- Strings are sequences of characters, and the default sort compares them by character. JavaScript compares UTF-16 code units; the two orders differ only beyond the Basic Multilingual Plane, which no file name here uses.
- `Strings.Lower`: lowers only `A`–`Z`; `toLowerCase` also lowers non-ASCII letters, none of which lowers into `""`, `"0"`, `"no"` or `"false"`.
- Regular expressions are modelled only for the two patterns used: literal characters, `.` in the interpolated version, and the digit classes.
- `Export.ExportPolicy`: keeps public-policy recognition only for a policy without a placeholder id; a record carrying the public placeholder id and admin metadata is recognised as both defaults before and as the admin policy only after.
- `Import.RewriteFile`: states success, failure and the record counts; the contents of the rewritten lists are stated by `Import.RemapPolicies`, `Import.RemapRoles` and `Import.AdoptAccessIds`, which it composes.
- `Push.Summarise`: states the deleted ids and the permission ids; the short records of roles, policies and access rows are stated by `Push.SummariseKind`, which it applies with `id`, `name`, `_originalId` and with `id`, `_originalId`.
- `SyncFiles.GetCurrentTimestamp`: its digit layout is stated only for years 0 to 9999; other years have a sign and six digits.
- The round-trip theorems assume the setup has the shape the platform keeps: exactly one of each default recognised by its metadata, unique ids, no `_originalId`, no reference spelled like a placeholder, and no two access rows with the same link. For the export as written they also assume that the admin policy is linked only to the admin role and the public policy only to no role; the second finding below shows why, and the corrected export needs no such assumption.

## Findings

| source | as written | input that shows it | evidently intended | confidence | as-written member | corrected member |
|---|---|---|---|---|---|---|
| src/lib/services/rights.js:490-552 | the export rewrites the default policies' ids and the access rows' references to them, but passes the permissions through with their real policy ids | a public policy `p1` (`$t:public_description`, `admin_access` false) with one permission `{id: 1, policy: "p1"}`: the file holds policy `_default-public-policy` and a permission naming `p1`, which is no policy of the file | every permission of a default policy names that policy's placeholder, as the access rows do, so that the push maps it onto the target's default | not executed | `Export.ExportAsWrittenDanglesPermission` | `Export.RewriteDefaultsKeepsPermissionRefs` |
| src/lib/services/rights.js:534-539 | every exported access row of the admin policy takes the id `_default-admin-relation`, whatever role it links (and likewise for the public policy), while the import re-adopts a current id only for the admin-role and no-role links (lines 205-216) | admin policy `a` linked to the admin role `r` by row 1 and to a role `e` by row 2: both exported rows have the id `_default-admin-relation`, so the file's access ids are not unique, and the import does not re-adopt an id for the row of `e`, which keeps the placeholder | only the two links the import re-adopts take a relation placeholder id; every other row keeps its own | not executed | `Export.ExportAsWrittenDuplicatesRelationId` | `Export.RewriteDefaultsKeepsAccessIdsUnique` |
| src/lib/helpers.js:32 | the file name and the version are interpolated into the regular expression unescaped, so each `.` of a version like `11.1.0` matches any character | for version `11.1.0`, with `rights_11.1.0_20240101T000000.json` and `rights_11x1x0_20240101T000000.json` listed, the second is read as the newest file of that version | the version is matched literally | not executed | `SyncFiles.AsWrittenReadsAnotherVersion` | `SyncFiles.SyncFileNameShape` |
| src/helpers.js:47-52 | the snapshot is written as `snapshot_<YYYYMMDD>T<HHMMSS>.json`, but the read path lists only names matching `snapshot_\d{8}_\d{6}\.json` | an instant of 2024-01-01 at midnight writes `snapshot_20240101T000000.json`, which the read filter rejects, so the read falls back to another snapshot or to `snapshot.json` | the read filter expects the `T` the write path produces | not executed | `Snapshots.WrittenSnapshotIsNeverListed` | `Snapshots.SnapshotReadFindsWrittenName` |
