# Verification of the omni platform's core

This project models the hard core of a multi-tenant administration platform, a Python service with a TypeScript
client, and proves what its components promise. Each module follows one component.

| module | component |
|---|---|
| Text, Wrappers | numerals, splitting and joining, optional values and results |
| DeptForest, DeptRepo, DeptTree | the department tree: guarded writes, subtree query, ancestor closure, tree builder, client-side cascade |
| DataScope | visible departments and users, and the SQL predicate that says the same |
| RunClaim | the claim protocol of scheduled runs |
| Cron, CronRoundTrip | the graphical cron editor: printing, reading, and the firing times of five and six fields |
| RoleSync | permission closure, and keeping tenant roles in line with platform templates |
| PermissionTable, NavTree, RouteMatch | permission writes, navigation codes and tree, route resolution |
| ExportQueue | the bounded export queue, its two workers and the job rows |
| AuditArchive | the cursor-paged archive and purge, in the service and in the script |
| Session | stored sessions, their updates, and what a request gets to see |
| WallTime, ColumnWidths, Pagination, SqlText, TenantCode, IdCard | arithmetic and text kernels |

**How state is modelled.** Database tables are maps from ids to rows. What the source changes in place is a class whose
methods are proved against functions of the old state (departments, the run manager, roles, permissions, the export
pool, sessions, the route cache), and loops of the source are loops here. Protocols with suspension points are state
machines: one step is one stretch between two awaits, and results hold for every sequence of enabled steps. In the
session service every suspension point may change the store to any other valid one, in the dispatch of scheduled runs
others may take any steps, and between the pages of an export rows are logged.

**Assumptions.** The claim guard and the start lock are asyncio locks that no holder keeps across an await, so taking
them never suspends. Ids are assigned upwards. The zone function of WallTime has one transition in the range searched,
and the hour parts that `Intl` prints run from 0 to 23; an engine that prints 24 for the hour after midnight is not
modelled.
Firing follows the INPUT FILES section of the `crontab` utility in IEEE Std 1003.1-2017; how day of month and day of
week combine is a parameter, with that standard's rule as one choice, and steps and the seconds field are extensions.

**What turned out false.** Each is proved with a concrete input or run, or with a contract that says for which inputs it
happens, and with the exact condition under which the code does what is wanted:

- A tenant stop can lead to two executions of one run key, in two ways (`StopFreesTheNextRun`,
  `LateCallbackHidesTheNextRun`; exact step: `StepSafe`, `CallbackKeepsRegistration`).
- A menu moved under a catalog below it closes a cycle (`CycleMade`; exact: `MoveAcyclic`), and the walk of
  `expand_nav_codes` then does not end (`MoveForever`).
- A session that still has to select a tenant holds no rights and is shown the whole navigation (`SelectingSeesAll`;
  exact: `WholeTreeShown`), and a tree cached before a move shows catalogs a user does not reach (`StaleCatalogShown`;
  exact: `FilterExact`).
- The audit export does not end when a full page of rows lies before the start bound (`EndlessExport`; exact:
  `TerminatesExactly`), and its purge deletes rows it skipped (`PurgeLoses`; exact: `PurgeConserves`) and rows logged
  too late to be archived (`EarlyArrivalLost`; exact: `ArrivalsConserve`).
- An export whose failure cannot be marked stays running for ever without a worker (`FailureLost`, `StrandedForever`;
  exact: `SettledExactly`).
- A notification that raises after an export was marked done turns it failed (`DoneThenFailed`; exact: `StatusForward`).
- A resolve can go on with a tenant it did not check (`UncheckedTenant`; exact: `CheckExact`).
- A further role can take a caller's own records out of view (`OwnRecordsTaken`; exact: `OneMoreRole`, `FirstRole`).
- A sync without administrator role and without bindings raises an index error instead of returning: every such call
  does, and no other (`RoleRepo.SyncTenantSystemRolePermissions`).
- A route refined by one-character literals can lose to the wildcard (`TieLost`; exact: `SingleCharacterTie`).
- A list such as `1-5,7` typed as cron text is widened to any value (`MixedListWidened`; exact: `ForeignExact`).
- A tenant code entered by hand can make the allocator repeat a code (`ForeignCodeRepeats`; exact: `FreshBySuffix`).
- A printed text literal is read back exactly when no quote follows it (`LiteralRoundTrip`).

## Model

| member | source | states |
|---|---|---|
| `DeptForest.EveryRunIsATree` | src/omni_api/data/mysql/dept_repo.py:42-83 | after any sequence of creates, updates and deletes on an empty table, accepted or refused, a non-empty table has exactly one root, every non-zero parent is present, every department reaches the root, and no department lies below itself |
| `DeptForest.CreatedForest` | src/omni_api/data/mysql/dept_repo.py:162-189 | creating a department keeps the tree |
| `DeptForest.UpdatedForest` | src/omni_api/data/mysql/dept_repo.py:191-228 | moving a department keeps the tree: the descendant check is exactly what rules out a cycle |
| `DeptForest.DeletedForest` | src/omni_api/data/mysql/dept_repo.py:230-270 | deleting a department keeps the tree and its root |
| `DeptForest.CreateStores` | src/omni_api/data/mysql/dept_repo.py:162-189 | a create is accepted exactly for a name, an enabled root, and a parent that is present, or none in a table without a root; the row stored and returned holds each submitted value under the next id, and all other rows stay |
| `DeptForest.UpdateStores` | src/omni_api/data/mysql/dept_repo.py:213-228 | an accepted update stores and returns a row with each submitted field (parent, name, sort order, and outside the root the enabled flag), keeps each absent one, and all other rows stay |
| `DeptForest.UpdateRefused` | src/omni_api/data/mysql/dept_repo.py:191-212 | an update of a present department is refused exactly for an empty name, a root that would move or be disabled, a parent that is absent or in the department's own subtree, or a second root |
| `DeptForest.DeleteStores` | src/omni_api/data/mysql/dept_repo.py:230-270 | a delete is accepted exactly for a present department that is no root, has no children and is referenced by no user and no data scope; then exactly its row is gone |
| `DeptForest.NoCycle` | src/omni_api/data/mysql/dept_repo.py:49-60 | in a valid table no department lies below itself |
| `DeptForest.OneRoot` | src/omni_api/data/mysql/dept_repo.py:62-83 | a valid non-empty table has exactly one root and everything lies below it |
| `DeptRepo.SortedRows` | src/omni_api/data/mysql/dept_repo.py:103-112 | the flat list holds each row once, by parent, sort order and id |
| `DeptRepo.ListingOrder` | src/omni_api/data/mysql/dept_repo.py:103-112 | in that list parents do not decrease, sort orders do not under one parent, and equal ones stand by id |
| `DeptRepo.Descendants` | src/omni_api/data/mysql/dept_repo.py:272-284 | the stack loop ends and returns the department and everything below it, each id once, also for an id that is not in the table |
| `DeptRepo.ExpandWithAncestors` | src/omni_api/data/mysql/dept_repo.py:117-133 | on any table, cyclic or not, the closure holds exactly the visible departments and all their ancestors, each once, although the inner walk stops at the first parent already collected |
| `DeptRepo.DeptRepo.ListDescendantIds` | src/omni_api/data/mysql/dept_repo.py:272-284 | the same for the stored table |
| `DeptRepo.DeptRepo.ValidateSingleRoot` | src/omni_api/data/mysql/dept_repo.py:62-83 | refuses a second root and nothing else |
| `DeptRepo.DeptRepo.ValidateParent` | src/omni_api/data/mysql/dept_repo.py:42-60 | refuses itself, an absent parent, a descendant and a second root, in that order, and accepts every other parent |
| `DeptRepo.DeptRepo.CreateDept` | src/omni_api/data/mysql/dept_repo.py:162-189 | the new table, the new id and every refusal of a create |
| `DeptRepo.DeptRepo.UpdateDept` | src/omni_api/data/mysql/dept_repo.py:191-228 | the new table and every refusal of an update; an accepted one stores and returns the submitted parent, trimmed name, sort order and enabled flag, keeps what is absent, and leaves all other rows |
| `DeptRepo.DeptRepo.DeleteDept` | src/omni_api/data/mysql/dept_repo.py:230-270 | a delete is refused for the root, for a department with children, users or data scopes, and otherwise removes exactly that row |
| `DeptTree.BuildTree` | src/omni_api/data/mysql/dept_repo.py:135-144 | after linking, every node has exactly the nodes of its own children, in list order, and the result lists the roots |
| `DeptTree.BuildTreeOfTable` | src/omni_api/data/mysql/dept_repo.py:135-151 | on a valid table the linked nodes read as the forest in which every department hangs under its own parent |
| `DeptTree.WholeTreeExact` | src/omni_api/data/mysql/dept_repo.py:135-151 | that forest holds each department of the table exactly once |
| `DeptTree.ListTree` | src/omni_api/data/mysql/dept_repo.py:117-151 | for any visible rows the tree holds exactly their departments and those above them, each once and under its own parent |
| `DeptTree.CollectExact` | web/src/lib/data-scope.ts:42-48 | the client collects from any node its department and everything below it, each id once |
| `DeptTree.ClientAgreesWithServer` | web/src/lib/data-scope.ts:42-48 | the client's subtree ids and the server's are the same set |
| `DeptTree.MapExact` | web/src/lib/data-scope.ts:51-63 | the map has an entry for every department of the tree, holding exactly that department's subtree |
| `DeptTree.ToggleDeptScopeCascade` | web/src/lib/data-scope.ts:66-82 | toggling selects or clears the mapped ids and leaves all others as they were |
| `DeptTree.ToggleMeansSubtree` | web/src/lib/data-scope.ts:51-82 | on the tree of a valid table the toggled ids are the department and everything below it |
| `DataScope.AddCustom` | src/omni_api/services/data_scope_service.py:73-82 | custom items add whole department subtrees and single users |
| `DataScope.Merge` | src/omni_api/services/data_scope_service.py:59-82 | merging collects exactly what some scope grants |
| `DataScope.ResolveVisible` | src/omni_api/services/data_scope_service.py:38-85 | no restriction without user or tenant; otherwise exactly the granted departments and users, the own department and records without any scope, and the own records when nothing is granted |
| `DataScope.OneScope` | src/omni_api/services/data_scope_service.py:59-85 | what each single scope shows: 1 one's own records, 2 the own department, 3 it and all below it, 4 the listed departments with all below them and the listed users; whatever grants nothing shows one's own records |
| `DataScope.GrantedEach` | src/omni_api/services/data_scope_service.py:54-82 | with several scopes, the tenant binding's among them, exactly what one of them grants |
| `DataScope.OrderIrrelevant` | src/omni_api/services/data_scope_service.py:59-82 | the visible sets do not depend on the order or repetition of the scopes |
| `DataScope.NeverBothEmpty` | src/omni_api/services/data_scope_service.py:83-85 | a restricted caller always sees something |
| `DataScope.OneMoreRole` | src/omni_api/services/data_scope_service.py:59-85 | one more role never takes departments away from a caller with roles; it takes the caller's own records away exactly when they were visible only by the fallback and the new role grants something else |
| `DataScope.FirstRole` | src/omni_api/services/data_scope_service.py:54-85 | the first role of a caller without any keeps the own department exactly when there is none or the role grants it, and the own records exactly when the role grants them or nothing |
| `DataScope.OwnRecordsTaken` | src/omni_api/services/data_scope_service.py:59-85 | false in general: a further role for some department takes the own records of a caller without a department out of view |
| `DataScope.AppendPart` | src/omni_api/services/data_scope_service.py:97-108 | a disjunction with one more IN is true, in three-valued logic, exactly when it was or the column is not NULL and listed |
| `DataScope.BuildWhereClause` | src/omni_api/services/data_scope_service.py:87-108 | the SQL predicate selects a row, NULLs included, exactly when the in-memory check allows it |
| `DataScope.TenantUserClause` | src/omni_api/services/data_scope_guard.py:77-93 | the same for the tenant-user form, where the user itself is the subject |
| `DataScope.ScopeWhere` | src/omni_api/services/data_scope_guard.py:21-39 | end to end: a list query selects exactly the rows whose department or creator some scope grants |
| `RunClaim.RunIsExact` | src/omni_api/services/scheduled_job_manager.py:192-244 | in every interleaving of calls, bodies and callbacks without tenant stops each run key has at most one live execution, is held exactly while one is live, and every call is one execution or one skipped row |
| `RunClaim.StepSafe` | src/omni_api/services/scheduled_job_manager.py:192-256 | a step breaks the protocol exactly when it discards the key of a live execution |
| `RunClaim.CallsConserved` | src/omni_api/services/scheduled_job_manager.py:202-244 | in every run, stops included, each call for a known job is answered once, and executions and started calls are equally many |
| `RunClaim.KeyTraffic` | src/omni_api/services/scheduled_job_manager.py:202-256 | a key is claimed exactly by a call for a known job, and given up exactly by the end of a body or by a stop's discard; a skipped row is written for the call that was refused |
| `RunClaim.KeysTellRunsApart` | src/omni_api/services/scheduled_job_manager.py:34-35 | two run keys are equal exactly for the same job and tenant, no tenant counting as tenant zero |
| `RunClaim.CallbackKeepsRegistration` | src/omni_api/services/scheduled_job_manager.py:238-243 | a done-callback keeps live executions registered exactly when no later execution of its key is live |
| `RunClaim.OthersKeepRegistration` | src/omni_api/services/scheduled_job_manager.py:236-256 | no other step loses a registration |
| `RunClaim.QuietStop` | src/omni_api/services/scheduled_job_manager.py:246-256 | a tenant stop that meets no other step frees the key, ends its execution and touches no other, where live executions are registered |
| `RunClaim.StopFreesTheNextRun` | src/omni_api/services/scheduled_job_manager.py:246-256 | false in general: for every known job a call between the release and the stop's second discard leads to two live executions of one key |
| `RunClaim.LateCallbackHidesTheNextRun` | src/omni_api/services/scheduled_job_manager.py:240-256 | false in general: a late done-callback removes the next run's registration, and a stop then frees its key |
| `RunClaim.ScheduledJobManager.SpawnRun` | src/omni_api/services/scheduled_job_manager.py:192-244 | claims and starts when the key is free, otherwise notes a skip; the answer says which |
| `RunClaim.ScheduledJobManager.ReleaseClaim` | src/omni_api/services/scheduled_job_manager.py:345-347 | the end of a body discards the key |
| `RunClaim.ScheduledJobManager.DoneCallback` | src/omni_api/services/scheduled_job_manager.py:240-241 | pops whatever is registered under the key |
| `RunClaim.ScheduledJobManager.CancelRun` | src/omni_api/services/scheduled_job_manager.py:246-256 | cancels the registered live task, or frees the key at once |
| `RunClaim.ScheduledJobManager.ResumeCancel` | src/omni_api/services/scheduled_job_manager.py:255-256 | the second discard after the awaited task |
| `RunClaim.DispatchScheduled` | src/omni_api/services/scheduled_job_manager.py:309-321 | whatever others do between them, the own calls of a dispatch are one without tenant for a system job, and for a tenant-scope job one for exactly each tenant that is active and has its schedule on |
| `RunClaim.DispatchExact` | src/omni_api/services/scheduled_job_manager.py:309-321 | those calls come in the order of the tenant list, at exactly the places of tenants with their schedule on, and an unknown job is not called |
| `CronRoundTrip.RoundTripFires` | web/src/lib/cron-builder.ts:229-331 | for every configuration, printing, reading and printing again gives an expression that fires at exactly the same instants, the shortening to five fields included |
| `CronRoundTrip.WordsReproduced` | web/src/lib/cron-builder.ts:229-331 | the words come back unchanged, except for dropping or adding a zero seconds field |
| `CronRoundTrip.BuiltCanonical` | web/src/lib/cron-builder.ts:229-244 | whatever is printed has one of the shapes that come back |
| `CronRoundTrip.FieldReproduced` | web/src/lib/cron-builder.ts:150-204 | a printed field is read back and printed to the same text |
| `CronRoundTrip.FieldMeaning` | web/src/lib/cron-builder.ts:150-169 | a printed field matches exactly the values its configuration allows |
| `CronRoundTrip.BuildMeans` | web/src/lib/cron-builder.ts:229-244 | the printed expression fires exactly when the configuration says so, for every day rule that an asterisk switches off |
| `CronRoundTrip.PosixNeutral` | web/src/lib/cron-builder.ts:229-244 | the day rule of the `crontab` utility is such a rule |
| `CronRoundTrip.PresetReturns` | web/src/lib/cron-builder.ts:259-331 | every preset mode is recognised again with its clamped values |
| `CronRoundTrip.ForeignExact` | web/src/lib/cron-builder.ts:171-204 | which words the editor did not print keep their meaning: a positive step, an ordered range that meets the field, a list that names a value of the field and gains no zero from an empty part, and any other word exactly when it matches every value |
| `CronRoundTrip.OtherRead` | web/src/lib/cron-builder.ts:171-204 | a word of no known shape becomes any value |
| `CronRoundTrip.MixedListWidened` | web/src/lib/cron-builder.ts:171-204 | false in general: the list `1-5,7` becomes any value and loses its meaning |
| `CronRoundTrip.CalendarBounds` | web/src/lib/cron-builder.ts:50-99 | the fields range over exactly the parts of a calendar moment |
| `CronRoundTrip.UnreadableIsAny` | web/src/lib/cron-builder.ts:289-298 | an expression of another number of words than five or six is read as a custom configuration of any values |
| `CronRoundTrip.PreferredIsCustom` | web/src/lib/cron-builder.ts:299-305 | asked for it, every expression is read into the custom mode |
| `CronRoundTrip.ZeroSecondsRead` | web/src/lib/cron-builder.ts:306-331 | a seconds word 0 or 00 before the five words of a preset changes nothing; before any others the expression is read field by field |
| `CronRoundTrip.RestIsDefault` | web/src/lib/cron-builder.ts:131-144 | what a reading does not set keeps the editor's opening values |
| `RoleSync.ExpandCodes` | src/omni_api/data/mysql/permission_repo.py:231-240 | the loop computes the known codes with everything bound to one of them |
| `RoleSync.ClosureOperator` | src/omni_api/data/mysql/permission_repo.py:231-240 | expanding is idempotent for every set exactly when bindings are transitive |
| `RoleSync.ExpandBindings` | src/omni_api/data/mysql/role_repo.py:400-410 | the union of the bound templates |
| `RoleSync.TrimRoles` | src/omni_api/data/mysql/role_repo.py:451-457 | one trimming pass: every listed role but the spared one loses the removed codes, and is expanded again only if it lost one |
| `RoleSync.AlignRoles` | src/omni_api/data/mysql/role_repo.py:486-499 | one aligning pass over listed roles, and the codes it reports as added |
| `RoleSync.SyncPresetRoles` | src/omni_api/data/mysql/role_repo.py:467-533 | the three passes of the branch without an administrator role, role by role, and the codes reported as added |
| `RoleSync.RoleRepo.SetRolePermissions` | src/omni_api/data/mysql/role_repo.py:271-290 | stores the closure of the given codes for an existing role and nothing else; refused, before the role is looked up, exactly when an expanded code is unknown |
| `RoleSync.RoleRepo.SyncTenantSystemRolePermissions` | src/omni_api/data/mysql/role_repo.py:412-465 | the stored codes of every role of the tenant after a sync, the reported additions, other tenants untouched; it fails exactly without an administrator role and without bindings |
| `RoleSync.RoleRepo.PropagateSysTenantRolePermissions` | src/omni_api/data/mysql/role_repo.py:385-398 | every bound tenant's copy follows the template and is synced, all other tenants stay |
| `RoleSync.AdminExact` | src/omni_api/data/mysql/role_repo.py:435-443 | the administrator holds exactly the closure of baseline and bound templates; without a narrowing all other roles are unchanged |
| `RoleSync.NarrowingLeaves` | src/omni_api/data/mysql/role_repo.py:451-457 | after a narrowing another role stores a removed code exactly when it lost some code and the removed one is bound to a code it keeps; kept codes stay |
| `RoleSync.SyncTwice` | src/omni_api/data/mysql/role_repo.py:412-533 | with bindings of one level a second sync changes nothing, in both branches |
| `RoleSync.SyncAgain` | src/omni_api/data/mysql/role_repo.py:412-533 | the same wherever trimming settles |
| `RoleSync.OneLevelSettles` | src/omni_api/data/mysql/permission_repo.py:231-240 | bindings of one level are transitive, and trimming settles over them |
| `RoleSync.TrimTwice` | src/omni_api/data/mysql/role_repo.py:451-457 | trimming settles for every role and removal exactly when no chain of bindings of a stated shape exists |
| `RoleSync.TransitiveSettles` | src/omni_api/data/mysql/permission_repo.py:231-240 | transitive bindings have no such chain |
| `RoleSync.PresetCarries` | src/omni_api/data/mysql/role_repo.py:483-522 | without an administrator role a bound role keeps its template; with transitive bindings the last pass takes nothing from a role with a template |
| `RoleSync.BaselineKept` | src/omni_api/data/mysql/role_repo.py:46-50 | the known baseline codes end up with the operator where that role is bound, present and templated, and with the first bound role where the operator is not bound |
| `RoleSync.PresetByCode` | src/omni_api/data/mysql/role_repo.py:483-522 | over transitive bindings a bound templated role is aligned with its own template alone, and with the baseline too exactly when it is the operator, or the first bound role where the operator is not bound |
| `RoleSync.UnboundByCode` | src/omni_api/data/mysql/role_repo.py:501-511 | a role that is not bound follows its template, and stays where there is none |
| `RoleSync.UntemplatedLoses` | src/omni_api/data/mysql/role_repo.py:513-522 | a bound role without a template loses the withdrawn codes unless it carries the baseline |
| `RoleSync.RemovedByCode` | src/omni_api/data/mysql/role_repo.py:477-483 | withdrawn codes are those of the previous templates that no template bound now holds |
| `RoleSync.AddedByCode` | src/omni_api/data/mysql/role_repo.py:447-533 | what a sync reports as added: prescribed codes that the role did not store |
| `RoleSync.PropagatedCarries` | src/omni_api/data/mysql/role_repo.py:385-398 | after a propagation the copy stores the template and nothing beyond its closure, and the administrator role stores the template |
| `RoleSync.PropagatedByCode` | src/omni_api/data/mysql/role_repo.py:385-398 | with an administrator role the copy ends up with exactly the closure of the template, and no role but it and the administrator changes |
| `PermissionTable.PermissionRepo.CreatePermission` | src/omni_api/data/mysql/permission_repo.py:106-143 | what a create stores and every refusal |
| `PermissionTable.PermissionRepo.UpdatePermission` | src/omni_api/data/mysql/permission_repo.py:145-177 | what an update changes and every refusal |
| `PermissionTable.PermissionRepo.DeletePermission` | src/omni_api/data/mysql/permission_repo.py:179-197 | what a delete removes and every refusal |
| `PermissionTable.CreateStores` | src/omni_api/data/mysql/permission_repo.py:106-143 | a create is accepted exactly for a catalog or menu with an unused code and no parent or a present one; the row holds each submitted value |
| `PermissionTable.UpdateStores` | src/omni_api/data/mysql/permission_repo.py:145-177 | a move is accepted exactly for a menu that goes to another row that is a catalog; an accepted update changes the submitted fields of that row and nothing else |
| `PermissionTable.DeleteStores` | src/omni_api/data/mysql/permission_repo.py:179-197 | a delete is accepted exactly for a catalog or menu that is no system row, has no children and is referenced by no role; then exactly its row is gone |
| `PermissionTable.RunStaysAcyclic` | src/omni_api/data/mysql/permission_repo.py:106-197 | where catalogs are created only at the root or under catalogs, every run of writes keeps the parent links free of cycles |
| `PermissionTable.MoveAcyclic` | src/omni_api/data/mysql/permission_repo.py:149-158 | a move keeps them free of cycles exactly when the target does not lie at or below what is moved, which is not checked |
| `PermissionTable.CycleMade` | src/omni_api/data/mysql/permission_repo.py:106-158 | false in general: three accepted writes on an empty table make a cycle |
| `PermissionTable.MoveForever` | src/omni_api/data/mysql/permission_repo.py:255-264 | after a move under itself the walk upwards from the moved row takes any number of steps |
| `NavTree.AddAncestors` | src/omni_api/data/mysql/permission_repo.py:255-264 | the inner walk ends and adds exactly the codes of the rows above |
| `NavTree.ExpandNavCodes` | src/omni_api/data/mysql/permission_repo.py:242-267 | exactly the held codes, the codes they are bound to, and the codes of all enabled rows above those |
| `NavTree.NavClosed` | src/omni_api/data/mysql/permission_repo.py:255-267 | the expanded codes are closed upwards |
| `NavTree.ReachedByRow` | src/omni_api/data/mysql/permission_repo.py:242-267 | a row is reached exactly when it is an enabled catalog or menu at or above an enabled row whose code is held or has a held code bound to it |
| `NavTree.HangRows` | src/omni_api/data/mysql/permission_tree.py:66-76 | every row hangs under its parent, or at the top when the parent is not in the tree |
| `NavTree.KeepOrdered` | src/omni_api/data/mysql/permission_tree.py:70-87 | the lists come out in order, so the final sort changes nothing |
| `NavTree.OrderedByNumber` | src/omni_api/data/mysql/permission_tree.py:78-87 | in that order sort orders do not decrease, and equal ones stand by id |
| `NavTree.BuildNavTree` | src/omni_api/data/mysql/permission_tree.py:46-87 | the tree of the enabled catalogs and menus, grown along the lists of children |
| `NavTree.FilterForest` | src/omni_api/services/permission_service.py:214-224 | for any codes the filter keeps exactly the nodes at or above a node with an allowed code, each where it was |
| `NavTree.FilterShows` | src/omni_api/services/permission_service.py:214-224 | the filtered tree is the tree of exactly those rows, each once, under its own parent, in order |
| `NavTree.FilterExact` | src/omni_api/services/permission_service.py:214-224 | a row whose own code is not allowed is shown exactly when the codes are not closed upwards in the rows the tree was built from |
| `NavTree.CountOnce` | src/omni_api/data/mysql/permission_tree.py:66-87 | the forest of a table without cycles holds each row exactly once |
| `NavTree.FilterOrdered` | src/omni_api/services/permission_service.py:214-224 | filtering keeps siblings in order |
| `NavTree.KeptReached` | src/omni_api/services/permission_service.py:204-224 | over the table the codes were expanded in, what is shown is exactly what is reached from the codes held |
| `NavTree.WholeTreeShown` | src/omni_api/services/permission_service.py:199-226 | the unfiltered tree is the tree of what a user reaches exactly when everything is reached |
| `NavTree.SelectingSeesAll` | src/omni_api/services/permission_service.py:199-226 | false in general: a session that still has to select a tenant holds no code and is shown every enabled catalog and menu |
| `NavTree.StaleCatalogShown` | src/omni_api/services/permission_service.py:118-138 | false in general: after a menu moved, the tree built before shows its old catalog to a user who does not reach it |
| `NavTree.PermissionService.InvalidateCache` | src/omni_api/services/permission_service.py:49-54 | drops the cached tree |
| `NavTree.PermissionService.CachedTree` | src/omni_api/services/permission_service.py:118-138 | the cached tree is used for its time to live and built from the table afterwards |
| `NavTree.PermissionService.ListNavTree` | src/omni_api/services/permission_service.py:199-226 | a user who has selected a tenant is shown the tree of exactly the rows of the cached tree's table that lead to a code reached today, and of exactly the rows reached where that table is today's; anybody else is shown the whole tree |
| `RouteMatch.FirstMatchIsBest` | src/omni_api/data/mysql/permission_repo.py:298-332 | the first match in the sorted index is the longest matching pattern, the first listed among equals; there is none exactly when nothing matches |
| `RouteMatch.BestUnique` | src/omni_api/data/mysql/permission_repo.py:319-332 | that choice is unique |
| `RouteMatch.MatchExact` | src/omni_api/data/mysql/permission_path.py:16-27 | a pattern matches exactly the paths whose segments are its own with each wildcard replaced by one segment: equally many, and the same ones without wildcards |
| `RouteMatch.SegmentsExact` | src/omni_api/data/mysql/permission_path.py:18-19 | a slash parts the segments before it from those behind it, and a text without a slash is one segment |
| `RouteMatch.ResolvedServes` | src/omni_api/data/mysql/permission_repo.py:304-332 | the code found belongs to an enabled row that serves the request, and there is one whenever there is such a row |
| `RouteMatch.RefinedNeverChosen` | src/omni_api/data/mysql/permission_path.py:16-27 | a pattern is never chosen when a matching one refines it by a literal of another length than the wildcard |
| `RouteMatch.SingleCharacterTie` | src/omni_api/data/mysql/permission_path.py:16-27 | in any table, whenever one of a pattern and its refinement by one-character literals is chosen, the refined one is chosen exactly when it is listed first |
| `RouteMatch.TieLost` | src/omni_api/data/mysql/permission_path.py:16-27 | false in general: with `/a/*` listed before `/a/b` the path `/a/b` resolves to the wildcard |
| `RouteMatch.RouteIndexCache.Invalidate` | src/omni_api/data/mysql/permission_repo.py:53-55 | drops the cached index |
| `RouteMatch.RouteIndexCache.LoadApiRouteIndex` | src/omni_api/data/mysql/permission_repo.py:298-323 | the cached index is used for its time to live and rebuilt from the table afterwards |
| `RouteMatch.RouteIndexCache.ResolveApiPermission` | src/omni_api/data/mysql/permission_repo.py:325-332 | the code returned is that of the longest pattern of an enabled row with the request's method and equally many segments, each the path's own or a wildcard, the first listed among equals; none exactly when no such row is there |
| `ExportQueue.RunSound` | src/omni_api/services/export_job_worker.py:51-99 | in every interleaving of submitters and workers, whatever raises: two workers once started and none before, at most a hundred waiting jobs, each accepted job taken once in order of acceptance, different jobs in the two workers, and rows that say how far each job has come |
| `ExportQueue.StatusForward` | src/omni_api/services/export_job_worker.py:111-215 | every step moves every row forward except one, and a finished row changes by that step alone: marking failed what was marked done |
| `ExportQueue.TerminalAbsorbing` | src/omni_api/services/export_job_worker.py:111-215 | where no call raises for a job marked done, a finished status is kept for ever |
| `ExportQueue.SettledExactly` | src/omni_api/services/export_job_worker.py:83-99 | a step leaves an unfinished job without a worker exactly when it loses the failure of an unfinished job |
| `ExportQueue.AtMostTwoRunning` | src/omni_api/services/export_job_worker.py:29-30 | in every run from the start without such a step at most two rows are running, each carried by a worker |
| `ExportQueue.StrandedForever` | src/omni_api/services/export_job_worker.py:83-99 | a running row without a worker stays so in every further run |
| `ExportQueue.FailureLost` | src/omni_api/services/export_job_worker.py:83-99 | false in general: when building raises and marking the failure raises too, a row is left running without a worker |
| `ExportQueue.DoneThenFailed` | src/omni_api/services/export_job_worker.py:131-215 | false in general: a notification that raises after done turns the job failed |
| `ExportQueue.ExportJobWorkerPool.InsertJob` | src/omni_api/data/mysql/export_job_repo.py:153-193 | a new row is queued |
| `ExportQueue.ExportJobWorkerPool.EnsureStarted` | src/omni_api/services/export_job_worker.py:62-74 | starts two workers once |
| `ExportQueue.ExportJobWorkerPool.SubmitJob` | src/omni_api/services/export_job_service.py:161-180 | offers a job to the queue, refused exactly when a hundred wait |
| `ExportQueue.ExportJobWorkerPool.TakeJob` | src/omni_api/services/export_job_worker.py:83-86 | a worker takes the head of the queue |
| `ExportQueue.ExportJobWorkerPool.ExecuteExport` | src/omni_api/services/export_job_worker.py:111-215 | an execution is the stated run of steps and ends done, or failed when building raises |
| `AuditArchive.FetchPage` | src/omni_api/data/mysql/audit_log_repo.py:347-360 | a page behind the cursor is the next stretch of the matching rows |
| `AuditArchive.TerminatesExactly` | src/omni_api/services/audit_service.py:299-323 | the paging loop ends exactly when no page's worth of consecutive rows lies before the start bound, because the cursor follows written rows only |
| `AuditArchive.WritePage` | src/omni_api/services/audit_service.py:305-321 | one page: rows in range are written in order to the files of their days, and the cursor stands behind the last one written |
| `AuditArchive.ExportRequests` | src/omni_api/services/audit_service.py:283-327 | where it ends, the loop writes every row in range once, in id order, reports their number and each file once, whatever is logged meanwhile at or after the end bound |
| `AuditArchive.DayFile` | src/omni_api/services/audit_service.py:308-319 | each day's file grows by that day's rows, in order, and by nothing else |
| `AuditArchive.OfDayMembers` | src/omni_api/services/audit_service.py:308-319 | that day's rows are those from its midnight up to the next one |
| `AuditArchive.OfDayInOrder` | src/omni_api/services/audit_service.py:308-319 | they keep the order of the table |
| `AuditArchive.ExportTurns` | src/omni_api/services/audit_service.py:283-327 | for any start bound, any number of turns and rows logged between the pages: what the loop has written are rows in range, in id order, none twice, and all of them in the table last seen once it has ended; without early rows it has ended exactly when it met a short page |
| `AuditArchive.EndlessExport` | src/omni_api/services/audit_service.py:299-323 | a run that does not end: one row before the start bound fills every page of size one |
| `AuditArchive.ExportAndPurge` | src/omni_api/services/audit_service.py:227-245 | what is archived, what remains and how many are purged, with rows logged meanwhile at or after the end bound; a purge loses no row exactly when nothing was written or no row lies before the start bound |
| `AuditArchive.PurgeConserves` | src/omni_api/services/audit_service.py:238-245 | what an export writes and what its delete leaves make up the table exactly when no row lies before the start bound: the delete takes skipped rows too |
| `AuditArchive.ArrivalsConserve` | src/omni_api/services/audit_service.py:235-245 | with rows logged after the last page, exactly when none seen lies before the start bound and none of the new ones before the end bound |
| `AuditArchive.PurgeWithArrivals` | src/omni_api/services/audit_service.py:227-245 | after any run that has ended, with rows logged between the pages and before the delete: rows at or after the end bound always stay, and nothing is lost exactly under that condition |
| `AuditArchive.EarlyArrivalLost` | src/omni_api/services/audit_service.py:238-245 | false in general: a row logged after the last page with a time before the end bound is purged without having been archived |
| `AuditArchive.PurgeLoses` | src/omni_api/services/audit_service.py:238-245 | false in general: of two rows the one before the start bound is skipped and then purged |
| `AuditArchive.ExportRetentionCutoff` | src/omni_api/services/audit_service.py:270-281 | on the retention path, with rows logged meanwhile after the cutoff, the loop ends, every row before the cutoff is appended once to its own day's file, all others stay, and archive and remaining table make up the whole |
| `AuditArchive.AppendRows` | scripts/export_scheduled_job_runs.py:39-48 | grouping a page by day first leaves the same files as writing row by row |
| `AuditArchive.ExportBatches` | scripts/export_scheduled_job_runs.py:51-70 | the script's cursor always advances, so it ends for any batch size and archives all older rows |
| `Session.StoredValid` | src/omni_api/services/session_service.py:137-380 | in every run of logins, resolves, switches, refreshes, profile patches, invalidations, expiry marks and deletions, with any answers of the database and any interleaving of their store updates, a session, stored or in a request, has a tenant exactly when none is to be selected, and exactly when it carries some right |
| `Session.NeverInactive` | src/omni_api/services/session_service.py:137-169 | in every run a request that found its user inactive in a tenant goes on without any tenant, however often it resolves again |
| `Session.SnapshotsValid` | src/omni_api/services/session_service.py:59-135 | the snapshots of a login, a refresh and a degradation are valid whatever the database answers |
| `Session.CheckExact` | src/omni_api/services/session_service.py:137-169 | a tenant the membership check found inactive is never gone on with; an unchecked one is, exactly when the expiry flag was due and another request had put that tenant into the store in between |
| `Session.CheckedMember` | src/omni_api/services/session_service.py:137-169 | undisturbed, the tenant of a resolved session is one the user is a member of |
| `Session.UncheckedTenant` | src/omni_api/services/session_service.py:147-160 | false in general: a run, for every two tenants of a user, in which a request goes on with a tenant it has not asked for, because another one switches before the flag is updated |
| `Session.ContextUsable` | src/omni_api/services/session_service.py:44-57 | a login starts only in an enabled bound tenant, and in one of several only after an earlier login there |
| `Session.ContextExact` | src/omni_api/services/session_service.py:44-57 | it starts in the only enabled bound tenant where there is just one, and otherwise in the first enabled one, in the order of the bindings, that was logged into before |
| `Session.LoginByField` | src/omni_api/services/session_service.py:59-104 | a login in the chosen tenant stands there exactly where the user holds some right in it, with those roles and those permissions |
| `Session.CheckedByField` | src/omni_api/services/session_service.py:137-169 | undisturbed, a member keeps everything but the expiry flag, which is set right, and anybody else is left without tenant and rights |
| `Session.RefreshByField` | src/omni_api/services/session_service.py:306-362 | a refresh stands in the tenant exactly where the user holds some right in it, with the rights of the database |
| `Session.QuietWrite` | src/omni_api/services/session_service.py:183-193 | an invalidation, a profile patch or an expiry mark that meets no other step has exactly its own effect on its own session |
| `Session.OneGoes` | src/omni_api/services/session_service.py:250-276 | a session goes exactly when its user leaves or is turned away |
| `Session.StoredIsUsed` | src/omni_api/services/session_service.py:137-169 | after an update a request goes on with what is then stored |
| `Session.FirstResolveKept` | src/omni_api/services/session_service.py:250-269 | a request keeps what it resolved first, and no step touches another request |
| `Session.SwitchWrites` | src/omni_api/services/session_service.py:277-304 | a switch writes exactly when the user is active in the wanted tenant and holds some right in it |
| `Session.RefreshWrites` | src/omni_api/services/session_service.py:306-362 | a refresh writes exactly for a session with a tenant, which stays exactly when the user is active and holds some right in it |
| `Session.SessionService.Update` | src/omni_api/data/redis/session_store.py:108-118 | merges the patch into the session read; a snapshot comes back whole |
| `Session.SessionService.LoadAuthSnapshot` | src/omni_api/services/session_service.py:59-104 | a snapshot without a tenant carries no rights and no expiry flag; undisturbed, roles and permissions are each what the database holds for that user and tenant, the bound list is the user's, and the flag says whether the tenant has expired |
| `Session.SessionService.EnsureActiveTenantSession` | src/omni_api/services/session_service.py:137-169 | under any interference the result is the stated function of the outside answers, and the check is made once per request; undisturbed, the flag is set right and the tenant kept exactly for members |
| `Session.SessionService.Resolve` | src/omni_api/services/session_service.py:250-269 | in a fresh request the result never has a tenant the request's check found inactive; undisturbed, the exact result and store, a disabled user's session deleted |
| `Session.SessionService.Login` | src/omni_api/services/session_service.py:195-248 | fails exactly for a disabled account or without a usable binding; otherwise the session has the roles and the permissions of the user in the tenant of the login rule, each in its own field, or waits without tenant and rights where there are none |
| `Session.SessionService.SwitchTenant` | src/omni_api/services/session_service.py:277-304 | success means the wanted tenant with some right in it; undisturbed, it succeeds exactly for members with some right, and the store changes only in this session |
| `Session.SessionService.Refresh` | src/omni_api/services/session_service.py:306-362 | the tenant is kept only with some right in it; undisturbed, the exact result and store |
| `Session.SessionService.InvalidateTenantAccess` | src/omni_api/services/session_service.py:183-193 | undisturbed, exactly the user's sessions in that tenant are degraded |
| `Session.SessionService.SyncExpiredFlags` | src/omni_api/services/tenant_expiry.py:31-63 | undisturbed, exactly the listed sessions in expired tenants change, and only in their flag |
| `WallTime.ZonedWallTimeToUtc` | web/src/lib/datetime.ts:131-151 | the loop returns the corrected instant and stops at the first check that succeeds |
| `WallTime.ThirdCheckSucceeds` | web/src/lib/datetime.ts:131-151 | with one transition in range, the result shows the wanted wall time exactly when some instant does, and then within three checks |
| `WallTime.ChosenOffset` | web/src/lib/datetime.ts:131-151 | which of the two offsets is used, the repeated hour included |
| `WallTime.GapOffset` | web/src/lib/datetime.ts:131-151 | a skipped wall time maps to one side of the gap, chosen by the target read as an instant; exactly skipped wall times are shown by no instant |
| `WallTime.OrderExact` | web/src/lib/datetime.ts:131-151 | two wall times, skipped ones included, map to instants in the same order exactly when the skip does not tear them apart |
| `WallTime.DayStartBeforeEnd` | web/src/lib/datetime.ts:196-222 | a day's start maps before its end, also when its midnight is skipped, for every transition shorter than a day; and exactly when it and the end are not torn apart |
| `ColumnWidths.Distributed` | web/src/types/table-preference.ts:120-151 | widths are at least 40 and fill the container; when scaled, the total exceeds it by at most half a pixel a column, not at all exactly when the last column can take the drift, and the others are within half a pixel of their share |
| `ColumnWidths.PixelWidthExact` | web/src/types/table-preference.ts:116-119 | the user's width counts before the column's own and that before 120, rounded to the nearest pixel and at least 40 |
| `ColumnWidths.NothingToFill` | web/src/types/table-preference.ts:133-143 | without room to fill, the widths are the preferred ones |
| `SqlText.InlinePositional` | src/omni_api/audit/sql_text.py:100-110 | inlines as many values as there are placeholders, and returns the text unchanged for any other number |
| `SqlText.LiteralsExact` | src/omni_api/audit/sql_text.py:37-55 | NULL, truth values as one and zero, numbers by their value with a minus in front of negative ones, and quotes around text alone |
| `SqlText.LiteralRoundTrip` | src/omni_api/audit/sql_text.py:37-55 | reading a printed text literal by MySQL's rules gives the value back and consumes exactly the literal, exactly when no quote follows |
| `SqlText.InliningReversible` | src/omni_api/audit/sql_text.py:100-110 | the values can be read back out of a known template exactly when no part after a placeholder starts with a quote and no two placeholders stand side by side |
| `SqlText.InliningUndone` | src/omni_api/audit/sql_text.py:100-110 | for such a template without quotes of its own, template and values are recovered from the inlined text alone |
| `TenantCode.AllocateTenantCode` | src/omni_api/services/tenant_code.py:58-80 | the code follows from the matching code that sorts last |
| `TenantCode.CodeOrder` | src/omni_api/services/tenant_code.py:47-55 | for one prefix, codes sort as their numbers do |
| `TenantCode.PrefixesApart` | src/omni_api/services/tenant_code.py:42-72 | a query for one prefix never finds codes of another |
| `TenantCode.IndustriesExact` | src/omni_api/services/tenant_code.py:13-29 | the two letters of each kind of organisation, and of all others |
| `TenantCode.RegionExact` | src/omni_api/services/tenant_code.py:32-39 | a region keeps its letters, made small, and its digits, in order, and is accepted with two to eight of them |
| `TenantCode.AllocationFresh` | src/omni_api/services/tenant_code.py:58-80 | where all matching codes were allocated, the new one is unused, carries the number after the greatest, and leaves the table so; allocation fails exactly when 9999 is taken |
| `TenantCode.FreshBySuffix` | src/omni_api/services/tenant_code.py:58-80 | for which suffixes of the row read the derived code is new in every table with that row on top: four digits always; other numerals when their padded successor sorts after them; other text when it sorts before 0001 |
| `TenantCode.FreshExactly` | src/omni_api/services/tenant_code.py:58-80 | the same by the derived code: exactly when it sorts after the row read |
| `TenantCode.FirstIsFresh` | src/omni_api/services/tenant_code.py:58-80 | where no code matches, the derived code is number one and new |
| `TenantCode.ForeignCodeRepeats` | src/omni_api/services/tenant_code.py:73-80 | false in general: a matching code that was not allocated makes the allocator return a code in use |
| `IdCard.WeightsArePowers` | src/omni_api/services/identity_card.py:12 | the weights are the powers of two modulo 11 that ISO/IEC 7064:2003 MOD 11-2 asks for |
| `IdCard.AcceptedByRemainder` | src/omni_api/services/identity_card.py:20-28 | the table lookup accepts exactly the numbers whose weighted sum leaves 1 modulo 11, as ISO/IEC 7064:2003 MOD 11-2 asks |
| `IdCard.WellFormedByValue` | src/omni_api/services/identity_card.py:8-10 | the pattern by value: years 1900 to 2099, months 1 to 12, days 1 to 31, an area that does not start with zero |
| `IdCard.ValidateExact` | src/omni_api/services/identity_card.py:16-28 | validation returns the normalised number exactly when it is well formed and its weighted sum leaves 1 |
| `IdCard.SingleErrorCaught` | src/omni_api/services/identity_card.py:20-28 | an accepted number with one character changed is refused |
| `IdCard.SwapCaught` | src/omni_api/services/identity_card.py:20-28 | an accepted number with two different neighbours swapped is refused |
| `Pagination.PagesAccumulate` | web/src/lib/pagination.ts:18-31 | the first k pages together are what infinite scrolling shows after k pages |
| `Pagination.PagesMakeTheList` | web/src/lib/pagination.ts:6-23 | the pages of a list put together are the list |
| `Pagination.SliceExact` | web/src/lib/pagination.ts:6-23 | a page before the first shows the first, one behind the last the last, and any other the rows behind the full pages before it |
| `Pagination.BuildPageTokens` | web/src/lib/pagination.ts:36-63 | the tokens cover the pages from first to last in order, an ellipsis standing for at least one page, and show exactly the first, the last and the siblings of the current page |
| `Text.SplitJoin` | web/src/lib/cron-builder.ts:188-196 | splitting a joined list gives the list back |
| `Text.JoinSplit` | web/src/lib/cron-builder.ts:188-196 | joining the parts of a split text gives the text back |
| `Text.TrimExact` | web/src/lib/cron-builder.ts:171-175 | trimming takes away the blanks at both ends and nothing else |

## Left out

- The bodies of HTTP handlers, middleware, SQL text execution, Redis, object storage, password hashing and token generation: input and output, or code of other libraries.
- `execute_job` and its result rows: the order of two bookkeeping writes around the handler, which would add only easy members; RunClaim takes the whole body as one execution.
- Starting, reloading and stopping the cron loops, and shutdown: only calls, bodies, callbacks and tenant stops are steps.
- `_attach_api_children` and `_filter_assignment_tree`: the assignment tree, a structural recursion like the navigation filter.
- NavTree: node dictionaries changed in place are modelled as lists of children by id; aliasing of nodes is not captured there.
- AuditArchive: day files are lists of rows, open handles and JSON encoding are not modelled.
- RoleSync.RoleRepo.PropagateSysTenantRolePermissions: compares stored codes as sets where the source compares lists; both lists are read in code order and without repetition (role_repo.py:699, sys_role_repo.py:312), so the comparisons agree.
- RoleSync: the catalogue is taken to bind rows to rows, as both sides of `load_bindings_map` are joined to the permission table; then the validation of expanded codes refuses nothing during a sync.
- RoleSync: the stored codes of a role are a set, so the sorted order of the lists is not modelled; tenant types of platform roles are folded into which templates exist.
- Session: a switch and a refresh read and write the store in one stretch of one process; other processes share the store, so the two are separate steps here too.
- NavTree: two requests that build the cached tree side by side, and the further fields of a node.
- Session: passwords, token format, expiry of stored sessions, the kick reason and the in-memory fallback of the store.
- Session.SessionService.Resolve: states what the request's own check found, not that the tenant is active at return, because membership may change after the check.
- The role sync that a switch of tenant triggers counts as another request's change of the database in Session; RoleSync models it.
- Named SQL parameters, dates, decimals and floats in literals, and shortening after inlining, which collapses blanks inside literals.
- Fractional or non-finite numbers in cron configurations, case folding and digits beyond ASCII, and the few control characters that only one of Python's `strip` and JavaScript's `trim` takes for blanks.
- `mergePreferenceConfig`, `mergeActionOrder` and `resolveColumns`: building lists from lists, easy members.
- `dept_ids_clause` and the visibility filter of the flat query: ListTree takes the visible rows as they are.
- `badge_counts_for_user` and the mark-read updates: counting and one update.
- The limit of ten active exports a user: check and insert are separate awaits, so it holds only sequentially.
- Two requests that both validate before either writes, in the department and permission repositories: operations run one at a time there.
