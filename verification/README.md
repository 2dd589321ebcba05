# Verification of the SQLite store and the algorithms over it

A Dafny model of the platform's SQLite-backed store and of the services that run over it: the
asset, relation, collection, audit and group tables, the walks and graph searches over them, the
archive-then-delete audit prune, role resolution and the role ladder, the Cedar policy set with
its per-asset and batched filters, the directory, and the tenant tree with its cache.

`dafny verify dfyconfig.toml` verifies the whole project.

## How it is built

A table is the sequence of its rows in insertion order; `WHERE` is a filter, `ORDER BY` a sort,
`LIMIT` a prefix (`Tables`). Repositories are classes whose methods read or replace these
sequences; services are methods over them. Each method is proved against a function or relation on
the tables before and after, and the main results are lemmas about those functions and relations,
or invariants over every run. Where code and contract use a function in common, a lemma or a further
clause, mostly named `InBrief`, says what comes out in terms of the rows' own fields. Timestamps are the stored strings, printed from instants (`Rfc3339`);
string order is the byte order SQLite compares by (`Lexical`). New ids are any unused string; the
clock is any instant no earlier than the last one read and no earlier than any stored timestamp.
Service calls are sequential, except in `AuditSchedule`, where the steps of any number of prunes,
audit writes and failures interleave in any order. There an archive directory leads from names to
files; a prune holds a file with a position and a buffer, writes replace what lies at the position,
opening a name truncates its file under whoever writes it, and removing a name leaves the file to
those who hold it. Prunes of other stores that archive to the same directory take part.

Modules, by the part of the repository they model:

- Store: `Tables`, `Lexical`, `Rfc3339`, `Models`, `AssetRepository`, `Pagination`.
- Relations: `Graph`, `RelationRuns`, `RelationRepository`, `RelationService`, `RelationHandlers`.
- Roles: `Roles`, `RoleLadder`, `RoleBackfill`.
- Authorization: `Policy`, `Authz`, `BandFilter`, `BirthGuard`, `AuthCascade`.
- Audit: `Audit`, `AuditSchedule`, `AuditGuarantees`, `AuditClock`, `AuditLosses`,
  `AuditCounterexamples`.
- Assets and collections: `AssetService`, `RetentionPrune`, `Collections`.
- Directory, groups, tenants: `Directory`, `DirectoryBackfill`, `Groups`, `GroupService`, `Tenant`.
- Helpers: `Arithmetic`, `Ids`, `Outcomes`, `Text`.

## Where a promise holds only under a condition

- The audit prune deletes nothing that is not archived as long as no row older than a prune's
  cutoff is created while that prune is under way and every prune, of whatever store, has an archive
  file name of its own. The first holds on a clock that does not go back if rows are inserted when
  they are stamped (`AuditClock.ClockedIsTimely`); a late row comes about if the clock is set back,
  or if an insert runs some time after its stamp was taken. It passes the count check and is lost
  (`AuditCounterexamples.LateRowIsLost`). The second fails within a second, the resolution of file
  names: a later prune truncates the archive (`AuditCounterexamples.SameNameLosesArchive`),
  overwrites what the other is writing (`AuditCounterexamples.TwoWritersLoseArchive`), or removes it
  as its own partial one (`AuditCounterexamples.FailedVerifyRemovesArchive`).
- Whatever the stamps and names, a row stays over a whole schedule in the table, or under a name
  that leads to a fsynced file never written by two prunes at a time, exactly if no step deletes it
  while there is no such file with it, nor opens or removes the only name that leads to one
  (`AuditLosses.KeptThroughoutExactly`). A file that two prunes were writing does not count as an
  archive, whatever it may hold; if no prune opens a name whose file another is writing, there is
  none (`AuditLosses.NeverMixed`).
- A prune's own entry stays in the table over a later schedule exactly if no prune that was not
  under way yet deletes with a cutoff past its stamp (`AuditGuarantees.OwnEntrySurvives`).
- The batched filter agrees with the per-asset one, for every request, exactly if assets with the
  same band key look alike to the policies (`BandFilter.BatchedFilterIsExact`); comma-free,
  non-empty group names and fields without U+0001 are enough. With a comma it can differ
  (`BandFilter.CommaJoinsBands`).
- Writes by callers who are neither platform admin nor owner leave the owner and ws_admin seats
  alone over every run exactly if no elevated has_access row is hidden behind a plain member's seat
  on a workspace that has a ws_admin (`RoleLadder.LadderHoldsExactlyWhenSettled`); agreement of all
  rows of a pair is enough. There are tables where it fails (`RoleLadder.UnsettledExists`).
- A delete that fails between the soft delete and the removal from collections leaves a deleted
  asset in the collections that held it, and in no other case (`AssetService.DeleteKeepsLiveOnly`);
  `AssetService.InterruptionHappens` is one.
- After the directory backfill every principal that is not empty resolves exactly if none that did
  not resolve before comes only at or after the asset it stopped at
  (`DirectoryBackfill.PromiseKeptExactly`). As long as no asset that is not an entry carries a
  principal tag and a stamp as late as the clock, that is the first asset of the walk, users before
  agents, that stands for an empty principal (`DirectoryBackfill.Backfill`); on equal stamps a new
  entry can also be outranked (`DirectoryBackfill.CreatedResolvesExactly`). Tables on which they
  fail: `DirectoryBackfill.LeftBehindHappens`, `DirectoryBackfill.OutrankedHappens`.
- Cached and uncached tenant lookup agree exactly if no database of the same id comes before the
  cached one (`Tenant.CachedIsLocated`). Ids stay unique over a run of provisions and deletions
  exactly if no provision takes an id that is in use (`Tenant.UniqueThroughoutExactly`);
  provisioning does not prevent that (`Tenant.ReuseHappens`). Deletion goes by directories and
  lookup by databases (`Tenant.DeletedIsGone`, `Tenant.DeletedStays`), and children lose their
  workspace's database exactly if the removal of a workspace stops half way in one manner
  (`Tenant.ParentedThroughoutExactly`, `Tenant.OrphanHappens`).
- A seeding logs each member it adds once exactly if no two subs that land, with their entries
  written, come to the same member (`GroupService.LoggedOnceExactly`); a sub repeated within a
  seeding is logged again (`GroupService.RepeatIsLoggedAgain`).

## Where code and documentation differ

The model follows the code:

- The comment on `prune_candidates` promises to report truncation (src/service/asset_service.rs:426);
  its result does not tell a full walk from one cut off at ten thousand.
- The comment on the dry run of `audit_prune` calls its sample the newest candidates
  (src/service/audit_service.rs:79); it is the first ten in id order.
- The directory backfill is documented to refresh existing entries
  (src/service/directory_service.rs:149); it leaves them as they are.
- `remove_asset_from_all` means to stamp the collections it removes from, but picks them after the
  removal and stamps none (src/repository/sqlite_collection_repository.rs:298).
- Instance ids are documented to be hyphenated UUIDs (src/tenant.rs:69); the parser behind the check
  accepts other spellings, so which strings are valid is a parameter here.

## Model

| member | source | states |
|---|---|---|
| `AuditSchedule.DeletedRowsAreArchived` | src/service/audit_service.rs:121-170 | Over every interleaving of prunes, creates and failures, with distinct file names: the name of a prune that has deleted leads to a fsynced archive it wrote alone, and of the rows it deleted that archive lacks exactly those created behind its walk. |
| `AuditSchedule.StepKeepsOk` | src/service/audit_service.rs:74-194 | Every step of the protocol, by whichever prune, keeps ids unique, file and buffer together complete up to the walk's cursor, each row once, and every created row either in the table or accounted to a deletion. |
| `AuditSchedule.PageFacts` | src/repository/sqlite_audit_repository.rs:199-258 | A page of the archive walk is duplicate-free, past its cursor, and leaves nothing behind: an old row past the cursor is in the page or past the page's last id, whatever other prunes did in between. |
| `AuditGuarantees.TimelyPruneIsExact` | src/service/audit_service.rs:74-194 | If no row older than a running prune's cutoff is created: a prune that deletes has archived exactly the rows it counted, each once, durably, deleted none but those, and counts zero afterwards; undisturbed by other prunes, deleted == archived == candidates. |
| `AuditGuarantees.NoRowIsLost` | src/service/audit_service.rs:52-61 | At every moment of such a schedule, every row ever created is in the table or in a fsynced archive. |
| `AuditClock.ClockedIsTimely` | src/repository/sqlite_audit_repository.rs:50-70 | If every cutoff is no later than the clock when it is taken, every row is created with the clock's time, and the clock does not go back, then no row older than a running prune's cutoff is created. |
| `AuditClock.NoRowIsLostOnClock` | src/service/audit_service.rs:52-61 | So by the clock and the file names alone, no row is lost. |
| `AuditGuarantees.OwnEntrySurvives` | src/service/audit_service.rs:176-194 | Over every schedule after it is written, a prune's own entry is in the table at the end exactly if no delete along the way has a cutoff past it; and no prune under way when it was written deletes it, whatever phase it was in. |
| `AuditGuarantees.VerifiedCounted` | src/service/audit_service.rs:158-167 | Equal counts suffice for the row-count verify: the archive is part of what was counted, hence all of it. |
| `AuditLosses.OpenKeepsExactly` | src/service/audit_service.rs:123-128 | Opening an archive file keeps a row exactly unless that file is the only synced copy of it and the table has it no more; a name that is taken does no harm otherwise. |
| `AuditLosses.ReachableSound` | src/service/audit_service.rs:123-157 | Over every schedule, with any names: different names lead to different files, and a file that is still being written is no archive. |
| `AuditLosses.StepKeepsExactly` | src/service/audit_service.rs:74-194 | Which single steps, from any such state, take the last there is of a row: opening the name of its only archive, removing that name after a failed verify, whoever's archive it is, and deleting it when no archive has it; no page, flush or fsync does. |
| `AuditLosses.KeptThroughoutExactly` | src/service/audit_service.rs:52-61 | Over every schedule, without conditions on stamps or file names, a row is in the table or in an archive that one prune wrote alone throughout, exactly if no step of it is one of those. |
| `AuditLosses.NeverMixed` | src/service/audit_service.rs:123-127 | If no prune opens a name while another writes its file, no file is ever written by two at a time: then every fsynced file is such an archive. |
| `AuditCounterexamples.LateRowIsLost` | src/service/audit_service.rs:158-170 | A schedule, with distinct file names, on which a row created behind the walk with an old stamp passes the count check and is deleted without being archived. |
| `AuditCounterexamples.SameNameLosesArchive` | src/service/audit_service.rs:123-128 | A schedule, with timely stamps, on which a second prune using the same file name truncates the first one's archive, the only copy of a deleted row. |
| `AuditCounterexamples.TwoWritersLoseArchive` | src/service/audit_service.rs:127-157 | A schedule, with timely stamps, on which two prunes have one file open: what one flushes replaces the front of what the other has fsynced, and a row the other then deletes, its counts agreeing, is nowhere. |
| `AuditCounterexamples.FailedVerifyRemovesArchive` | src/service/audit_service.rs:158-167 | A schedule, with timely stamps, on which a prune finds the rows it counted deleted by another of the same second, and removes their shared archive as a partial one. |
| `Audit.AuditPrune` | src/service/audit_service.rs:67-208 | Run alone, a prune archives all rows older than the cutoff, deletes exactly those, counts zero afterwards, and leaves the other rows and its own entry, which is not older than the cutoff; a dry run and a run without an archive directory change nothing. |
| `Audit.ArchiveRows` | src/service/audit_service.rs:127-148 | The page loop writes every candidate once, in id order, and returns their number. |
| `Audit.WritePage` | src/service/audit_service.rs:137-143 | A page is appended row by row to what the file holds. |
| `Audit.PageContinues` | src/repository/sqlite_audit_repository.rs:199-258 | From the cursor after the k-th candidate a page is the next candidates, up to the limit: no skip, no repeat. |
| `Audit.CandidatesAreOld` | src/repository/sqlite_audit_repository.rs:185-197 | The candidates are exactly the rows stamped before the cutoff, in strict id order. |
| `Audit.Repository.Create` | src/repository/sqlite_audit_repository.rs:42-78 | Appends one row with a new id and the given content. |
| `Audit.Repository.CountBefore` | src/repository/sqlite_audit_repository.rs:185-197 | Counts the candidates of a cutoff. |
| `Audit.Repository.DeleteBefore` | src/repository/sqlite_audit_repository.rs:260-267 | Removes exactly the rows before the cutoff and returns how many there were. |
| `RoleBackfill.BackfillGlobalRole` | src/service/roles_service.rs:176-224 | Though it re-stamps the rows it pages through by their stamp, the walk terminates; every live asset tagged with the type that has no global_role tag gets the one asked for, once, and a stamp no earlier, no other row changes, and their number is returned. |
| `RoleBackfill.WalkIsUndisturbed` | src/repository/sqlite_asset_repository.rs:476-525 | Past the walk's cursor the table selects the same rows as at the start: a re-stamped row moves towards the front, behind the walk. |
| `RoleBackfill.NewerIsNotLater` | src/repository/sqlite_asset_repository.rs:480-492 | A row given a later stamp comes no later in the listing of the newest first. |
| `RoleBackfill.TagPage` | src/service/roles_service.rs:202-216 | A page is tagged row by row; a row that has the tag is skipped. |
| `RoleBackfill.TagRow` | src/repository/sqlite_asset_repository.rs:714-745 | A walked row is still live and untouched when its turn comes, gets the tag and a stamp no earlier than its old one. |
| `RoleBackfill.SecondRunIsNoOp` | src/service/roles_service.rs:97-105 | After a run, another run tags nothing and changes nothing. |
| `RoleLadder.LadderHoldsExactlyWhenSettled` | policies/rbac.cedar:163-208 | Over every run of permitted has_access writes by callers who are neither platform admin nor owner, all owner and ws_admin seats stay as they were, exactly if no elevated row is hidden behind a plain member's seat where a ws_admin could revoke what hides it. |
| `RoleLadder.AgreementSettles` | src/models/roles.rs:39-48 | If all has_access rows of each pair agree in normalized role, nothing is hidden. |
| `RoleLadder.OnlyPlainMembersAreWritten` | policies/rbac.cedar:191-208 | A write by such a caller goes through only for a ws_admin, on a seat that is none or member, asking for no more than member. |
| `RoleLadder.RunKeepsSeats` | src/handlers/relations.rs:59-93 | From a settled table, every run of such writes keeps the elevated seats. |
| `RoleLadder.HiddenRowSurfaces` | src/handlers/relations.rs:155-182 | From an unsettled table, revoking the plain rows in front of a hidden one is permitted step by step and raises the seat. |
| `RoleLadder.UnsettledExists` | src/handlers/relations.rs:155-182 | A table of four rows that is unsettled: a ws_admin deletes a member's row of a user, and the user is ws_admin. |
| `RelationHandlers.CreateRelation` | src/handlers/relations.rs:47-108 | An enforced has_agent row passes exactly if the identifiers build and the caller is admin or holds owner or ws_admin on the source; a has_access row exactly if they build and the caller is admin, or owner of the target, or ws_admin of it with seat and requested role no more than member; any other exactly if source and target are live and the caller may view the one and relate the other. A refused call says which, changes no relation; a passed one is refused only as the service refuses it, else exactly the requested row is added; a has_access row that gets in past a caller who is neither admin nor owner is one of the ladder's writes. |
| `RelationHandlers.DeleteRelation` | src/handlers/relations.rs:143-206 | An unknown id is not found; an enforced deletion passes under the same conditions on the row found, with no role requested, other types needing a live source the caller may relate; a refused one changes nothing, a passed one removes exactly the row of that id; a has_access row deleted past a caller who is neither admin nor owner is one of the ladder's writes. |
| `RelationHandlers.CheckMembershipPermission` | src/cedar/enforcement.rs:547-640 | The gate decides on the caller's seat found through the sub-keyed resolver and the target's seat found by asset, and denies when an identifier does not build. |
| `RelationHandlers.CallerSeatInBrief` | src/cedar/enforcement.rs:547-580 | The caller's seat, read off the rows: that of the asset that stands for its sub, owner, ws_admin, member or none by that asset's relations; none if there is no sub or no such asset. |
| `RelationHandlers.CheckCreate` | src/handlers/relations.rs:59-105 | Which calls pass, by relation type: has_access and has_agent by the caller's role and the two seats, the rest by the two assets, View on the source and then Relate on the target. |
| `RelationHandlers.CheckDelete` | src/handlers/relations.rs:155-201 | The same for deletion, requesting no role; the rest ask for Relate on the source. |
| `RelationHandlers.CheckAssetPermissionById` | src/cedar/enforcement.rs:453-474 | Not found exactly if no live asset has the id; granted exactly if one has and it has no context, or the identifiers build and the policies grant the request by its fields. |
| `RelationHandlers.CreateGateInBrief` | src/handlers/relations.rs:59-105 | For every table, caller and request: the answer of the create gate, case by case, from the caller's role, the two seats and the two assets. |
| `RelationHandlers.DeleteGateInBrief` | src/handlers/relations.rs:155-201 | The same for the delete gate. |
| `RelationHandlers.DeleteGateGuardsLadder` | src/handlers/relations.rs:155-182 | A deletion that passes the gate past a caller who is neither admin nor owner is one of the ladder's writes, with the same effect on the table. |
| `RelationHandlers.CallsClimbTheLadder` | src/handlers/relations.rs:47-206 | Every run of such calls of the two handlers, whoever makes them, is one of the ladder's runs, ending in the same table. |
| `RelationHandlers.HandlersKeepSeats` | src/handlers/relations.rs:47-206 | So from a settled table no run of them moves an owner's or a ws_admin's seat. |
| `Roles.Resolve` | src/service/roles_service.rs:35-95 | An empty sub is refused; an unknown one gets the least of each role family; else the global role is the principal's first such tag, and the list has exactly the workspaces its has_instance and has_access rows lead to, those not owned once, each as owner exactly if a has_instance row joins the pair or its first has_access row says "owner", as ws_admin exactly if not so and that row says "ws_admin" or "admin", else as member. |
| `Roles.FindPrincipal` | src/service/roles_service.rs:125-138 | With ids unique: the newest live asset tagged with the sub, of equally new ones that with the greatest id; if there is none, the live asset whose id it is; none only if there is neither. |
| `Roles.PrincipalInBrief` | src/service/roles_service.rs:125-138 | For every table with unique ids and every sub: which asset that is, and that there is none only if no live asset is tagged with the sub or has it as id. |
| `Roles.MembershipPasses` | src/service/roles_service.rs:55-85 | The two loops with their claimed set list the owned workspaces first and then the first has_access row of each workspace not owned. |
| `Roles.MembershipsInBrief` | src/service/roles_service.rs:55-85 | For every table and principal: which workspaces are listed, how often, and in what role, read off the relation rows. |
| `Roles.SeatInBrief` | src/cedar/enforcement.rs:497-527 | For every table and pair: when the seat is owner, ws_admin, member or none, read off the pair's has_instance rows and the text of its first has_access row. |
| `RoleLadder.SeatIsSeatOf` | src/cedar/enforcement.rs:497-527 | The seat of an asset on a workspace, read off all relations touching the asset, depends only on its own outgoing ones to that workspace: owner by any has_instance row, else the first has_access row's normalized role, else none. |
| `Roles.ResolversAgree` | src/cedar/enforcement.rs:497-574 | For every table, principal and workspace, the seat in the sub-keyed resolver's membership list is the asset-keyed resolver's seat. |
| `Roles.BackfillOwners` | src/service/roles_service.rs:141-173 | Adds only owner rows repeating a has_instance pair; afterwards every such pair has a has_access row; where they all had one before, it creates none. |
| `Roles.BackfillIsInvisible` | src/service/roles_service.rs:141-173 | The rows the backfill adds change no principal's membership list. |
| `Roles.BackfillMaterializesPairs` | src/service/roles_service.rs:141-173 | Since no relation joins an asset to itself, the row found or created for a has_instance pair is a has_access row of that very pair. |
| `RelationRepository.Repository.WouldCreateCycle` | src/repository/sqlite_relation_repository.rs:226-255 | Terminates, and answers true exactly if relations of any type already lead from the target to the source. |
| `RelationRepository.Repository.GetDescendants` | src/repository/sqlite_relation_repository.rs:203-224 | Terminates, and returns, each once, exactly the assets other than the root that relations lead to from it. |
| `RelationRepository.Repository.TraverseGraph` | src/repository/sqlite_relation_repository.rs:161-201 | Terminates, and returns exactly the assets within the depth limit, the start among them, each once, with its shortest undirected distance and exactly the relations touching it, in order of distance; depths stay within 32 bits. |
| `RelationRepository.DeleteRemovesOne` | src/repository/sqlite_relation_repository.rs:104-115 | Deleting by an id that one row has removes that row and leaves the others as they are, in their order. |
| `RelationRepository.TouchingMembers` | src/repository/sqlite_relation_repository.rs:117-132 | The relations of an asset are exactly those with it on either side. |
| `AssetService.NoRelationIsLeft` | src/repository/sqlite_relation_repository.rs:150-159 | After the deletion by asset nothing touches the asset, and the relations of an asset that had none with it are as they were. |
| `Graph.InsertAcyclic` | src/repository/sqlite_relation_repository.rs:226-255 | Adding a relation to an acyclic table makes a cycle exactly if its source is reachable from its target: the test is the right one. |
| `RelationService.Create` | src/service/relation_service.rs:14-76 | Refused, in this order: an unknown source or target, a self-loop, a cycle; else one relation with a new id and one audit entry about it are added. |
| `RelationService.Delete` | src/service/relation_service.rs:84-108 | An unknown id is not found; else its row goes and one audit entry tells what it was. |
| `RelationService.TraverseGraph` | src/service/relation_service.rs:119-142 | Around a live asset, exactly the assets within the depth limit, each once, nearest first, at their shortest distances and with exactly the relations touching them; any other asset is not found. |
| `RelationService.RefusedExactlyWhenCyclic` | src/service/relation_service.rs:35-57 | In an acyclic table, a relation between known assets is refused exactly if it would make a cycle. |
| `RelationRuns.EveryRunStaysAcyclic` | src/service/relation_service.rs:35-57 | Over every run of changes the relation table stays acyclic and without self-loops; the contracts of relation create and delete, their handlers, the asset delete, the retention prune and the owner backfill each say that they are such a change. |
| `RelationRuns.RunFromEmptyStaysAcyclic` | src/service/relation_service.rs:35-57 | So every table that a store can get to from an empty one is acyclic. |
| `Roles.BackfillKeepsAcyclic` | src/service/roles_service.rs:141-173 | The owner backfill bypasses the cycle check, yet its rows run parallel to existing ones and close no cycle. |
| `BandFilter.FilterByPermissionBatched` | src/cedar/enforcement.rs:798-852 | Keeps, in order, every asset without a context, unevaluated, and of those with one exactly those for whose band the identifiers build and the policies grant the request on the first asset of the list with that key; the policies are evaluated once per distinct key. |
| `BandFilter.FilterInBrief` | src/cedar/enforcement.rs:672-707 | Read off the rows: the per-asset filter lets an asset through exactly if it is in the list and either has no context, or the identifiers build and the caller is admin or meets the condition that visibility, owner groups, creator and type set for the action. |
| `BandFilter.BandKeyText` | src/cedar/enforcement.rs:754-792 | The key written out: creator, visibility, confidentiality, the sorted owner groups joined by commas, status and type, in this order, between U+0001. |
| `BandFilter.BatchedFilterIsExact` | src/cedar/enforcement.rs:672-852 | For a list of assets, the batched filter returns what the per-asset filter does for every request exactly if the assets of each band look alike to the policies. |
| `BandFilter.CleanBandsAgree` | src/cedar/enforcement.rs:754-792 | Comma-free non-empty group names, fields without U+0001 and identifiers that build for all or none suffice for the two filters to agree. |
| `BandFilter.CleanKeysDetermineViews` | src/cedar/enforcement.rs:754-792 | On such assets the band key determines all that the policies can tell two assets apart by, up to group order and absent against empty fields. |
| `BandFilter.CommaJoinsBands` | src/cedar/enforcement.rs:760-768 | Two assets, one with a group name containing a comma, that share a band key though one of them may be viewed and the other not; the batched filter hides both. |
| `BandFilter.DifferentViewDiffers` | policies/rbac.cedar:12-153 | Assets that differ in what the policies see are told apart by some principal and action. |
| `Models.FirstTagIsFirst` | src/cedar/entity.rs:61-73 | The value read for a category is that of the first tag of it in the row's order, and none only if there is no tag of it. |
| `BandFilter.AllowedInBrief` | policies/rbac.cedar:12-208 | The policy set, on an asset with a context, read off its fields: admins may do all but manage members and agents; for viewing, public or organization, owner groups of a team naming a group, the subject or the service name, and the creator; for editing, such a team and the creator, for deleting, the creator, for creating and tagging, anybody, all four not on instance types; for relating, anybody. |
| `Policy.SeatsInBrief` | policies/rbac.cedar:154-208 | With seats: members are managed by admins, owners, and ws_admins where the seat written is none or member and the role asked for none or member; agents by admins, owners and ws_admins; seats decide no other action. |
| `Authz.ResolveInstanceAuthz` | src/cedar/enforcement.rs:231-279 | The effective groups, in strict order, are exactly those of the store and the strings among the items of the token's groups claim, if that is an array; a failed read leaves the token's, and a failed admin check leaves no bypass. |
| `Authz.PrincipalInBrief` | src/cedar/entity.rs:107-188 | The principal has the token's subject, exactly the groups of both sources, and as role the role claim if it is a string, or the first string of it if it is an array. |
| `Authz.SpnInBrief` | src/cedar/entity.rs:189-208 | The service name is the preferred username at the host of the issuer's address, with or without scheme and path, if there are both. |
| `Authz.MergeIsUnion` | src/cedar/enforcement.rs:261-273 | A merge holds exactly the groups of both sources, sorted, each once. |
| `Authz.SecondMergeIsNoOp` | src/cedar/entity.rs:149-175 | Merging the token's groups in again, as the principal builder does, changes nothing. |
| `Authz.LosingGroupsGrantsNothing` | policies/rbac.cedar:95-125 | Whatever is allowed with part of either group source is allowed with both in full. |
| `Policy.MoreGroupsAllowMore` | policies/rbac.cedar:95-125 | With more groups, no allowed action turns into a denied one. |
| `Rfc3339.LexicalIsChronological` | src/repository/sqlite_audit_repository.rs:185-193 | For instants of years 0000 to 9999, printed with offset +00:00 and 0, 3, 6 or 9 fractional digits, the strings compare as the instants do. |
| `Rfc3339.ParseAfterRender` | src/repository/sqlite_asset_repository.rs:955-959 | Reading a printed instant gives it back. |
| `Rfc3339.PrintedColumns` | src/repository/sqlite_asset_repository.rs:198-199 | Every field of a printed instant has its fixed columns, down to the second. |
| `Rfc3339.PrintedTail` | src/repository/sqlite_asset_repository.rs:198-199 | After the second comes no fraction, or the fewest of three, six or nine digits that tell it, and then +00:00. |
| `Pagination.FollowingCursorsIsExact` | src/repository/sqlite_asset_repository.rs:340-535 | For any filter, column and direction: following the cursors from the start visits every wanted row once, in strict (field, id) order, in max(1, ceil(n / limit)) pages, and there is no other way the walk can go. |
| `Pagination.ReprintIsIdentity` | src/repository/sqlite_asset_repository.rs:406-421 | A stored stamp read and printed into a cursor is the stored stamp again. |
| `Pagination.CursorMarksRow` | src/repository/sqlite_asset_repository.rs:376-400 | The rows a cursor lets through are exactly the rows after the row it was made from. |
| `Pagination.ContentsRestorePage` | src/repository/sqlite_asset_repository.rs:537-712 | A compact page completed with the fetched contents is the full page, metadata aside. |
| `Pagination.ListingVisits` | src/repository/sqlite_asset_repository.rs:340-434 | Following a listing's cursors to the end shows exactly the live assets, of the asked type if one is given, each once, by created_at if that is asked for and else by updated_at, ascending only if asked for, in whatever case, ties by id. |
| `Pagination.SearchVisits` | src/repository/sqlite_asset_repository.rs:436-529 | Following a search's cursors to the end shows exactly the live assets that match the text, if it leaves an expression to match, and carry all the tags, each once, newest first. |
| `Pagination.NewestTagged` | src/repository/sqlite_asset_repository.rs:436-529 | The first row of a search for one tag is the newest live asset that has it, and there is none exactly if no live asset has it. |
| `AssetRepository.Repository.SearchCompact` | src/repository/sqlite_asset_repository.rs:537-620 | Returns the same rows without content and metadata, and the same cursor, page by page. |
| `AssetRepository.Repository.CountSearch` | src/repository/sqlite_asset_repository.rs:622-664 | Counts the rows that following the search's cursors visits. |
| `AssetRepository.Repository.CountList` | src/repository/sqlite_asset_repository.rs:666-687 | Counts the rows that following the listing's cursors visits, in any order. |
| `AssetRepository.Repository.GetContents` | src/repository/sqlite_asset_repository.rs:689-712 | Returns the contents of exactly the live assets among the ids that have one. |
| `AssetRepository.FindLiveSome` | src/repository/sqlite_asset_repository.rs:239-251 | Lookup by id finds a live row with that id, and nothing exactly if there is none. |
| `AssetRepository.TaggedIsFound` | src/repository/sqlite_asset_repository.rs:714-745 | After tagging, the live asset is found with its old tags, the new one and a new stamp, and every other id finds what it found before. |
| `AssetRepository.EditedIsFound` | src/repository/sqlite_asset_repository.rs:253-322 | After an edit, the live asset is found with the given title and metadata and a new stamp, and every other id finds what it found before. |
| `AssetService.FindLiveAfterDelete` | src/repository/sqlite_asset_repository.rs:324-338 | A soft-deleted asset is not found any more; every other id finds what it found before. |
| `AuthCascade.UpdateAuthContext` | src/service/asset_service.rs:346-416 | With cascade, the root and exactly the assets reachable from it, else the root alone: every live one has each requested field as requested and each other field as it had it, or empty if it had no context; all else about all assets stays but the stamps of these; the one audit entry has the root's new context, so told, and counts the descendants. |
| `AuthCascade.Cascade` | src/service/asset_service.rs:370-392 | The loop gives each live descendant, once, the requested fields beside its own others. |
| `AuthCascade.MergedInBrief` | src/service/asset_service.rs:354-363 | After merging the request into a set of assets, field by field: the live ones have what was asked for, else their own, else the empty default; the others have what they had. |
| `AuthCascade.RequestsCombine` | src/service/asset_service.rs:354-363 | Two requests, one after the other on the same assets, amount to one that asks for what either asks for, the later one's value where both do: no request undoes what it does not mention. |
| `AuthCascade.SecondRequestChangesNothing` | src/service/asset_service.rs:346-416 | The same request again changes nothing but stamps. |
| `RetentionPrune.PruneCandidates` | src/service/asset_service.rs:427-461 | The walk terminates and returns, of the n live assets with the tag whose stamp is below the printed cutoff, the min(10000, n) newest by update and id, each once, newest first. |
| `RetentionPrune.CandidatesInBrief` | src/service/asset_service.rs:427-461 | For every table: the candidates are those assets, in that order, and one left out comes after all that were taken. |
| `RetentionPrune.Sift` | src/service/asset_service.rs:447-454 | A page's old assets are collected in order until the cap. |
| `RetentionPrune.Prune` | src/service/asset_service.rs:475-526 | Takes those candidates; a dry run changes nothing; else pruned + failed == matched, the failed ones are listed in order, of all assets exactly the candidates whose soft delete was made are soft-deleted, and if no delete was interrupted in between, collections that held live assets only still do. |
| `RetentionPrune.OlderIsLexical` | src/service/asset_service.rs:448-450 | On stored stamps, being created before the cutoff is what comparing the strings says. |
| `RetentionPrune.CandidatesAreLive` | src/service/asset_service.rs:427-461 | The candidates are live assets of the table, no two with the same id. |
| `AssetService.Delete` | src/service/asset_service.rs:216-262 | An asset that is not live is not found; else, up to the repository call that fails, it is soft-deleted, its relations and memberships go, and one audit entry summarizes exactly the relations that touched it, by id, type and both assets; on success exactly the deletion mark of its row, the relations with it on either side and its memberships have changed. |
| `AssetService.CascadeIsConserved` | src/service/asset_service.rs:220-258 | The old relation table is, as a multiset, the new one and the relations summarized in the entry, none in both. |
| `AssetService.DeleteKeepsLiveOnly` | src/service/asset_service.rs:216-232 | A delete keeps collections free of deleted assets, exactly unless it fails after the soft delete and before the memberships are dropped while some collection holds the asset. |
| `AssetService.InterruptionHappens` | src/service/asset_service.rs:226-232 | One asset in one collection, and a delete that fails there: the collection holds a deleted asset. |
| `Collections.EveryRunIsLiveOnly` | src/service/collection_service.rs:124-152 | Over every run of steps no collection holds a deleted asset; the contracts of the collection calls and of an uninterrupted asset delete say that they are steps, those of adopt, tagging, context updates, the backfills and the directory that they lose no live asset, which is one too. |
| `AssetService.Adopt` | src/repository/sqlite_asset_repository.rs:801-903 | A blank title or provenance is invalid; an id ever used, live or deleted, is a conflict; else the asset and its audit entry appear together, or neither if the transaction does not commit. |
| `Collections.AddAsset` | src/service/collection_service.rs:124-152 | Only a live asset is added, only to a known collection, with one audit entry; else nothing changes; no other collection is stamped. |
| `Collections.RemoveAsset` | src/service/collection_service.rs:155-181 | The membership is gone afterwards; only an unknown collection without that membership is not found. |
| `Collections.Delete` | src/service/collection_service.rs:98-112 | Exactly a known collection goes, with exactly its memberships, and an audit entry tells; an unknown one is not found and nothing changes. |
| `Collections.Repository.RemoveAssetFromAll` | src/repository/sqlite_collection_repository.rs:292-305 | All memberships of the asset go, and no collection is stamped. |
| `Directory.Upsert` | src/service/directory_service.rs:48-121 | An empty uuid is refused; an entry that resolves is edited in place, else one is created, and afterwards a live entry for the uuid says what the request says; the call succeeds exactly if the uuid resolves afterwards. |
| `Directory.Resolve` | src/service/directory_service.rs:32-43 | A uuid resolves exactly if it is not empty and the newest live asset with its principal tag is tagged as a directory entry; the answer shows that asset's own uuid text or else its id, its title unless empty or made up, and its kind, email and role where they are text; else it is reported, never given a made-up entry. |
| `Directory.ResolvesInBrief` | src/service/directory_service.rs:232-262 | With ids unique, what the search for a principal finds is the newest live asset that has its tag, and it resolves exactly if that is an entry. |
| `Directory.EntryRoundTrip` | src/service/directory_service.rs:65-79 | An entry written by creating or editing reads back as what was put in, except that a name that is empty or looks like a placeholder reads as none. |
| `DirectoryBackfill.Backfill` | src/service/directory_service.rs:151-228 | On any table: the principals of the assets up to where it stops have come to resolve and no others have, the one it stops at does not resolve and gives the error, and it succeeds exactly if it gets through; with no other asset in the way it stops exactly at the first empty principal; existing rows are unchanged, each new entry tells of a live user or agent of the table, a success returns the number of new entries, and where all resolve already nothing changes. |
| `DirectoryBackfill.NewEntryDescribes` | src/service/directory_service.rs:168-213 | What an entry made for an asset says: its subject or else its id, human for a user and agent for an agent, its email tag, and as name the username tag or else a title that is neither the subject nor the email. |
| `DirectoryBackfill.EveryoneInBrief` | src/service/directory_service.rs:145-150 | What the promise means, read off the rows: for every live user and agent whose subject, or else id, is not empty, the newest live asset tagged with it as principal is an entry. |
| `DirectoryBackfill.PromiseKeptExactly` | src/service/directory_service.rs:145-150 | Afterwards every user and agent with a non-empty principal resolves exactly if each of them resolved before or has its principal among the assets before the one it stopped at. |
| `DirectoryBackfill.PageUndisturbed` | src/service/directory_service.rs:155-166 | The entries the backfill inserts do not disturb its own walk. |
| `DirectoryBackfill.CreatedResolvesExactly` | src/service/directory_service.rs:238-253 | In general a new entry is found exactly unless the principal's newest other asset has the very same stamp and a greater id. |
| `DirectoryBackfill.OutrankedHappens` | src/service/directory_service.rs:238-253 | A table of one asset on which the entry created for its principal is not found. |
| `DirectoryBackfill.LeftBehindHappens` | src/service/directory_service.rs:168-216 | Two users, the newer with an empty subject: the backfill stops there, and the older does not resolve. |
| `Tenant.TenantPoolManager.GetServices` | src/tenant.rs:161-198 | The request path never changes the tree; a cached instance is returned as opened, a known one is opened on the database lookup finds and cached, a malformed or unknown id is refused. |
| `Tenant.TenantPoolManager.LocateDb` | src/tenant.rs:207-232 | Finds the top-level database of the id or else a nested one, and reports failure only if there is neither. |
| `Tenant.TenantPoolManager.ProvisionInstance` | src/tenant.rs:349-393 | Malformed ids and missing parents are refused; an existing database is left alone; else exactly the one directory and database appear, as far as opening gets. |
| `Tenant.TenantPoolManager.ProvisionWorkspaceTree` | src/tenant.rs:398-407 | No database is lost or replaced, none is new but the workspace's and its children's, and on success they are all there. |
| `Tenant.TenantPoolManager.DeleteInstance` | src/tenant.rs:418-465 | The directory goes with all in it, or, if its removal stops half way, some of it and an error is returned; nothing outside it goes, nothing appears; exactly the instance's id and the names in its directory are evicted either way; every pool still cached is open on a database that is still there. |
| `Tenant.TenantPoolManager.ListInstanceTree` | src/tenant.rs:486-520 | Lists every database in the tree once and nothing else. |
| `Tenant.CacheAgreesWithDisk` | src/tenant.rs:161-232 | With ids unique in the tree, a cached instance is the one an uncached lookup finds, on the same file. |
| `Tenant.CachedIsLocated` | src/tenant.rs:207-232 | In general they agree exactly if no database of the same id takes precedence or competes. |
| `Tenant.ProvisionKeepsUnique` | src/tenant.rs:349-393 | Provisioning keeps ids unique exactly if there was no database of that id anywhere. |
| `Tenant.UniqueThroughoutExactly` | src/tenant.rs:349-465 | Over every run of provisions and deletions from an empty tree, ids are unique throughout exactly if no provision takes an id that is in use. |
| `Tenant.ParentedThroughoutExactly` | src/tenant.rs:349-465 | Over every run of calls from an empty tree, every nested database has its workspace's throughout, exactly unless the removal of a workspace stops after its own database and before a child's. |
| `Tenant.ReuseHappens` | src/tenant.rs:349-393 | Three provisions take a child's id for the top level: ids are not unique, and the pool cached for the child is no longer what lookup finds. |
| `Tenant.OrphanHappens` | src/tenant.rs:418-465 | A removal that stops so, and leaves a child without its workspace. |
| `Tenant.DeletedStays` | src/tenant.rs:418-465 | A tree on which deleting an instance removes an empty directory of that id and leaves the instance. |
| `Tenant.DeletedIsGone` | src/tenant.rs:418-465 | With ids unique, a deleted instance is not found any more exactly if the directory picked was the one with its database, or it had none. |
| `GroupService.SeedInstanceAdmins` | src/service/group_service.rs:53-113 | Exactly the trimmed subs that are not blank and whose add succeeds become members of the admin group, others stay; each new entry is for one that was no admin at the start and whose entry was written, repeats included; nothing else changes. |
| `Text.TrimCuts` | src/service/group_service.rs:79-79 | Trimming cuts all white space off both ends and nothing else; what is left is empty exactly if all was white space. |
| `GroupService.ReseedingChangesNothing` | src/service/group_service.rs:47-52 | Once every add of a seeding has succeeded, seeding the same list again changes neither memberships nor the audit table, repeats and all. |
| `GroupService.LoggedOnceExactly` | src/service/group_service.rs:71-97 | For every list: each member added in a seeding has one entry exactly if no two of its subs that land with an entry trim to the same member. |
| `GroupService.RepeatIsLoggedAgain` | src/service/group_service.rs:71-97 | A sub repeated within one seeding is logged twice. |
| `GroupService.EnsureInstanceAdminsGroup` | src/service/group_service.rs:21-35 | A store that has the group is left alone; one without gets it. |
| `GroupService.Create` | src/service/group_service.rs:116-151 | Blank names are refused, the reserved and taken names conflict, else one group of the trimmed name and one entry appear. |
| `GroupService.Delete` | src/service/group_service.rs:165-179 | The distinguished group cannot be deleted; another known one goes with its memberships, and an entry tells. |
| `GroupService.AddMember` | src/service/group_service.rs:182-209 | A blank member or an unknown group is refused; else the trimmed member is in and an entry tells. |
| `GroupService.RemoveMember` | src/service/group_service.rs:212-230 | The membership is gone and an entry tells, whether it was there or not. |
| `Groups.Repository.CreateGroup` | src/repository/sqlite_group_repository.rs:24-65 | Names stay unique: a taken name conflicts, else one group with a new id appears. |
| `Groups.Repository.DeleteGroup` | src/repository/sqlite_group_repository.rs:100-116 | The store stays sound: the distinguished group stays, and no membership of a deleted group remains. |
| `Groups.Repository.MembershipsFor` | src/repository/sqlite_group_repository.rs:178-189 | The names of exactly the principal's groups, in strict order. |
| `Groups.Repository.IsInstanceAdmin` | src/repository/sqlite_group_repository.rs:191-208 | True exactly for members of the group with the fixed id. |
| `Groups.AdminIffNamed` | src/repository/sqlite_group_repository.rs:178-208 | A principal is an instance admin exactly if instance-admins is among its groups' names. |
| `BirthGuard.GuardBirthAuthContext` | src/service/asset_service.rs:34-71 | Every request comes out as the ladder says: a visibility other than team stays with all its fields; else given groups make it a team of those, no groups one of the caller's, and none of either private; the confidentiality always stays. |
| `BirthGuard.BornShared` | src/service/asset_service.rs:14-33 | A guarded asset has a visibility, and somebody other than its creator and the admins may view it exactly if that is public, org or team. |
| `BirthGuard.CohortViews` | src/service/asset_service.rs:22-29 | If nothing was asked for, everybody who shares a group with the creator may view the asset. |
| `BirthGuard.GuardOnce` | src/service/asset_service.rs:34-71 | The guard leaves what it produced as it is, whoever the caller. |

## Left out

- `Rfc3339.ParseAfterRender`: the parser is modelled for what the service prints; lower-case letters, other offsets and leap seconds of section 5.6 of RFC 3339 are not read.
- `Audit.AuditPrune`: run alone the counts cannot differ, so the branch that removes the archive is in `AuditSchedule` only.
- `Pagination.ContentsRestorePage`: the compact search carries no metadata, so none is restored.
- `RelationHandlers.CheckMembershipPermission`: the membership request passes no entities; which attributes the policy engine then attaches to the caller is left open.
- `BandFilter.EntityOf`: the creator is taken as it is, while the code parses it as a quoted entity id, so that a quote in it panics and backslash escapes in it are read (src/cedar/entity.rs:30-32).
- `AuditCounterexamples.TwoWritersLoseArchive`: files are sequences of rows here, and rows are lines of unequal length there; what exactly is left in a file that two prunes were writing is not modelled.
- Writes of has_instance rows pass the generic Relate gate; the ladder's runs hold them fixed.
- Database, file and audit-write failures in the middle of a call are modelled for the audit prune, the asset delete, the retention prune, adopt, seeding, provisioning and the removal of an instance, and not elsewhere.
- SQLite's full-text matching is a parameter, with the reduction of a user's text to a match expression.
- The table's columns that no modelled property reads: who made and changed a row, relation and collection timestamps and tags, group descriptions, audit details.
- Tags and metadata are kept in the asset's row, and removing tags is not modelled.
- The audit prune's dry-run sample and the retention prune's dry-run listing.
- The admin bypass of the list filters and its audit entry, and logging.
- The collection listing and the audit listing, whose cursors the code takes from other columns or rows than it orders by; the model claims nothing of them.
- The MongoDB repositories, HTTP, token validation, configuration and the policy engine's own parsing and evaluation.
