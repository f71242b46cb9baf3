# Tenant catalogue and role/group synchronisation — a Dafny model

This project models two rule sets of a multi-tenant proposal (RFP) backend
written with Django.

1. **Tenant catalogue** (`auth_model.py`). Industries, services, business
   cycles, functional areas and providers are catalogue rows. Each row either
   belongs to one organization or is global (no organization).
   - `TenantAwareQuerySet.visible_to(org)` decides which rows a viewer sees.
     Module `Visibility` models it as a filter over a table given as a
     sequence.
   - The tables' unique constraints and `on_delete` policies become the
     insert and delete methods of class `CatalogueStore.Store`. The store
     holds the catalogue rows, the generated proposals (GeneratedRFP), the
     three join tables, the finalized proposals (FinalizedRFP), the
     business-cycle assignments (`UserBusinessCycleAssignment`, from
     `authentication_model.py`) and the users. Every method keeps `Valid()`,
     the conjunction of all declared constraints. A failed insert or delete
     changes nothing.
2. **Accounts** (`authentication_model.py`), in module `Accounts`:
   - `Role.is_super_role`.
   - Class `Invite`: `is_valid` and `deactivate`. The current time is a
     parameter.
   - The three signal handlers that keep a user's `role` and `groups` in
     step. They are methods of class `User`. So are the Django operations
     that fire them: `save`, `groups.add`, `groups.remove`, `groups.clear`
     and `groups.set`. Each operation calls the handlers in the order Django
     dispatches the signals.
   - The user state has four parts: the in-memory `role_id`, the cached
     `_desired_role_id`, the stored `role` column and the stored groups.

Files: `base.dfy` (identifiers, `Option`), `visibility.dfy`,
`catalogue_store.dfy`, `accounts.dfy`.

## Where the code behaves otherwise than one might expect (the model follows the code)

- **`visible_to(None)` on Industry.** One might expect the block-list check
  to be skipped when there is no viewer. The code still runs
  `exclude(blocked_for=None)`. Django reads that as "has no blocked_for
  entry". So without a viewer, Industry shows only the global rows that are
  blocked for some organization
  (`Visibility.NoViewerSeesBlockedGlobalIndustries`).
- **Block lists on owned rows.** The comment at auth_model.py:60 calls the
  block list one "for global rows". The code also hides a row from its owner when the owner is on
  its block list (`Visibility.BlockListHidesOwnIndustry`).
- **Uniqueness of global rows.** One might expect two global rows of a table
  not to share a name. The store is PostgreSQL, where a unique constraint treats
  NULLs as distinct. So two global rows with the same name are accepted;
  only rows with an organization are checked (`CatalogueStore.SameNameInScopes`).
- **The role stays among the groups.** The comments at
  authentication_model.py:74-94 describe a two-way sync, which suggests the
  stored role is always one of the user's groups. The code does not keep that:
  - A `post_remove` signal promotes a *removed* group. So saving a user with
    role 1 and groups {1, 2} leaves groups {1} and stored role 2
    (`Accounts.SaveLeavesRoleOutsideGroups`).
  - A clear writes nothing while the in-memory role is null. So a stored
    role set by an earlier add survives the clear
    (`Accounts.ClearAfterAddKeepsStoredRole`).
- **Saving with a null role.** One might expect this to empty the groups. In
  the code, `_sync_role_to_groups` returns early, so the groups stay as they
  were. A role key of 0 (false in Python) empties them.
- **Deleting an industry.** `GeneratedRFP.industry` is CASCADE. So deleting
  an industry also deletes its proposals, with their join rows. Their
  finalized versions lose their source.

## Model

| member | source | states |
|---|---|---|
| Visibility.VisibleTo | auth_model.py:50-63 | `visible_to` returns no more rows than it is given, and nothing from an empty table |
| Visibility.VisibleToMembers | auth_model.py:50-63 | a row is in `visible_to(viewer)` iff it is in the table, in the viewer's scope, and (Industry only) not matched by `exclude(blocked_for=viewer)` |
| Visibility.NoViewerSeesGlobalRows | auth_model.py:53-54 | for a table without a block list, `visible_to(None)` returns exactly the global rows |
| Visibility.NoViewerSeesBlockedGlobalIndustries | auth_model.py:61-62 | for Industry, `visible_to(None)` returns exactly the global rows whose block list is non-empty |
| Visibility.UnblockedGlobalIndustryHiddenWithoutViewer | auth_model.py:61-62 | a global industry that nobody blocks is not shown to a caller without an organization |
| Visibility.NoForeignRows | auth_model.py:55-59 | an organization never sees a row owned by another organization |
| Visibility.TenantSeesGlobalAndOwnRows | auth_model.py:55-59 | for a table without a block list, an organization sees exactly the global rows and its own rows |
| Visibility.TenantSeesUnblockedIndustries | auth_model.py:61-62 | for Industry, an organization sees exactly the global and own rows whose block list does not name it |
| Visibility.BlockListHidesOwnIndustry | auth_model.py:61-62 | a block list hides a row even from the organization that owns it |
| Visibility.VisibleToIsSubMultiset | auth_model.py:50-63 | `visible_to` only filters: the result's rows come from the input, never more often than there |
| Visibility.VisibleToAppend | auth_model.py:50-63 | filtering keeps the caller's order: it distributes over concatenation |
| Visibility.VisibleToIdempotent | auth_model.py:50-63 | filtering twice for the same viewer gives the same rows as once |
| CatalogueStore.Store.AddUser | authentication_model.py:43 | a user is added iff its key is new; the constraints are kept |
| CatalogueStore.Store.InsertRow | auth_model.py:84-156 | an insert is refused with `DuplicateInScope` when a row of the same table and the same non-null organization has the same name (`company_name` for Provider); it is refused when the key is taken or a reference is missing; otherwise the row is added; a refusal leaves the rows unchanged; constraints kept |
| CatalogueStore.InsertRowUniqueIff | auth_model.py:85-87 | adding a row keeps the table unique iff its name is not taken in its organization: the check is exactly as strong as the constraint |
| CatalogueStore.GlobalNameNeverTaken | auth_model.py:85-87 | a global row never clashes with anything (NULLs are distinct) |
| CatalogueStore.SameNameInScopes | auth_model.py:100-103 | two global services named "Audit" are both accepted; a second "Audit" of organization 5 is refused with `DuplicateInScope(5, "Audit")` |
| CatalogueStore.Store.InsertLink | auth_model.py:178-182 | a join row repeating a (proposal, catalogue row) pair of its table is refused with `DuplicatePair`; a join row whose proposal or catalogue row is missing is refused; otherwise it is added |
| CatalogueStore.InsertLinkUniqueIff | auth_model.py:287-291 | adding a join row keeps the join tables unique iff its pair is not taken; this covers the area constraint cited and the same constraint on the service and business-cycle join tables (auth_model.py lines 181 and 200) |
| CatalogueStore.Store.DeleteLink | auth_model.py:265-280 | removing a join row removes exactly that row and leaves the constraints intact; the same holds for the service and business-cycle join models (auth_model.py lines 166-176 and 185-195), which nothing refers to either |
| CatalogueStore.Store.InsertRfp | auth_model.py:214-231 | a proposal is added iff its key is free and its owner and industry exist |
| CatalogueStore.Store.InsertFinalized | auth_model.py:329-332 | a finalized proposal is added iff its key is free and its source, when set, exists |
| CatalogueStore.Store.InsertAssignment | authentication_model.py:118-149 | a second assignment of one business cycle within one organization is refused with `DuplicatePair`; assignments with a null organization or cycle never clash |
| CatalogueStore.InsertAssignmentUniqueIff | authentication_model.py:143-149 | adding an assignment keeps the assignments unique iff its (organization, business cycle) pair is not taken |
| CatalogueStore.CascadeKeepsLinks | auth_model.py:186-190 | CASCADE from proposals to join rows removes exactly the join rows that would otherwise name a deleted proposal; the remaining join rows all name existing rows and stay unique |
| CatalogueStore.DetachKeepsFinalizedLinked | auth_model.py:329-330 | after SET_NULL no finalized proposal names a deleted proposal, and one whose source survives is left exactly as it was |
| CatalogueStore.Store.DropRfps | auth_model.py:329-330 | deleting a set of proposals removes them, cascades to their join rows and clears their finalized versions' source; constraints kept |
| CatalogueStore.Store.DeleteRfp | auth_model.py:167-171 | deleting a GeneratedRFP removes it and all its join rows and keeps its finalized versions with a null source |
| CatalogueStore.DoomedIsLeast | auth_model.py:127-128 | the cascade from a business cycle to its functional areas takes no more than it must: any deletion containing the cycle that leaves every area with its cycle contains all of them |
| CatalogueStore.DeleteKeepsTargetsIff | auth_model.py:172-176 | PROTECT is exactly what keeps join rows pointing at existing rows: removing the rows a delete takes keeps every join row's target iff no join row names one of them (also the PROTECT references at auth_model.py lines 191-195 and 276-280) |
| CatalogueStore.Store.DeleteRow | auth_model.py:172-176 | deleting a catalogue row still referenced by a join row (for a business cycle: by a join row of one of its areas) fails with `ReferencedRowProtected` and changes nothing; otherwise the row goes with its areas and assignments (business cycle) or its proposals (industry); constraints kept |
| CatalogueStore.RowDeleteKeepsLinks | auth_model.py:127-128 | after an unprotected delete every remaining functional area still has its business cycle |
| CatalogueStore.RowDeleteKeepsAssignments | authentication_model.py:136-141 | CASCADE from a deleted business cycle removes exactly the assignments that would name a deleted row; the rest stay linked and unique |
| CatalogueStore.IndustryDeleteKeepsRfps | auth_model.py:231 | CASCADE from a deleted industry removes exactly the proposals that would name a deleted row; the rest keep their owner and industry |
| CatalogueStore.LinkedAreaIsProtected | auth_model.py:276-280 | a functional area used by a proposal can be deleted neither directly nor through its business cycle |
| CatalogueStore.UnlinkedAreaCanBeDeleted | auth_model.py:276-280 | after its join row is removed, the same functional area can be deleted |
| CatalogueStore.ForgetCreatorKeepsUnique | auth_model.py:22-28 | clearing the creator (SET_NULL) keeps the per-tenant name uniqueness |
| CatalogueStore.UserDeleteKeepsLinks | authentication_model.py:124-129 | once a user's proposals are gone, clearing them as creator and deleting their assignments (CASCADE) leaves every row, proposal and assignment naming existing users and rows, and keeps both uniqueness constraints |
| CatalogueStore.Store.DeleteUser | auth_model.py:220-224 | deleting a user removes the proposals they own (cascading as for a proposal delete) and their assignments, and keeps the rows they created with the creator cleared |
| CatalogueStore.DeletesKeepWhatTheyShould | auth_model.py:329-330 | after its proposal is deleted, a finalized proposal remains with a null source and the join rows are gone; after its creator is deleted, a service remains with no creator |
| Accounts.Lower | authentication_model.py:37 | lower-casing keeps the length and lower-cases each character |
| Accounts.SuperRoleIgnoresCase | authentication_model.py:35-37 | a role is the super role iff its name spells "super_admin" letter by letter, each letter in either case |
| Accounts.LowestGroup | authentication_model.py:101 | `order_by("pk").first()` is None iff there is no group, and otherwise the group with the lowest key |
| Accounts.HasLowest | authentication_model.py:101 | every non-empty set of group keys has a lowest key |
| Accounts.User.AssignRole | authentication_model.py:46-52 | assigning the role changes only the in-memory role |
| Accounts.User.RememberDesiredRole | authentication_model.py:76-79 | pre_save caches the in-memory role |
| Accounts.User.SyncGroupsToRole | authentication_model.py:92-105 | ignores every action but post_add/post_remove/post_clear; the candidate is an element of a non-empty `pk_set`, or else the lowest current group; the stored role becomes the candidate unless the in-memory role already equals it; groups, in-memory role and cache are untouched, so no save handler runs |
| Accounts.User.SyncRoleToGroups | authentication_model.py:82-89 | with no cached role (or a cached null) nothing changes; with cached role R the groups become {R} (none for key 0), the cache is deleted, and the stored role is what the remove and add signals of that replacement leave |
| Accounts.User.SetGroups | authentication_model.py:88 | `groups.set(T)` leaves groups == T; a remove signal fires iff groups are dropped, with a dropped candidate; an add signal fires iff groups are gained, with a gained candidate |
| Accounts.User.Add | authentication_model.py:98-105 | adding groups unions them in; with a new group the candidate is a new group; with only known groups the candidate is the lowest group |
| Accounts.User.Remove | authentication_model.py:98-99 | removing groups subtracts them; the candidate is one of the requested (removed) keys |
| Accounts.User.Clear | authentication_model.py:100-105 | after a clear there are no groups, and the stored role is null unless the in-memory role is already null, in which case the column is unchanged |
| Accounts.User.Save | authentication_model.py:76-89 | saving with role R leaves groups == {R} (none for key 0) and consumes the cache; the stored role is R when the user had no other group and otherwise one of the removed groups; saving with no role leaves the groups unchanged and the stored role null |
| Accounts.SaveLeavesRoleOutsideGroups | authentication_model.py:88-105 | saving role 1 with groups {1, 2} leaves groups {1} and stored role 2: the stored role is not among the groups |
| Accounts.ClearAfterAddKeepsStoredRole | authentication_model.py:98-105 | adding group 7 to a user without a role stores role 7; clearing then empties the groups but keeps stored role 7 |
| Accounts.SaveTwiceThenStrayPostSave | authentication_model.py:85-89 | saving twice with role 3 gives groups {3} and stored role 3; a later post_save without pre_save changes nothing |
| Accounts.Invite.Deactivate | authentication_model.py:165-167 | after `deactivate` the invite is invalid at every time, its expiry unchanged |
| Accounts.InviteValidity | authentication_model.py:162-163 | an invite is valid iff it is active and `expires_at > now`; once invalid at a time it stays invalid at every later time |

Some definitions transcribe source lines directly and have no row of their
own. The rows above state what each of them means:

- `Visibility.IsVisible` (auth_model.py:53-62): see `Visibility.VisibleToMembers` and the other visibility rows.
- `Accounts.IsSuperRole` (authentication_model.py:36-37): see `Accounts.SuperRoleIgnoresCase`.
- `Accounts.Invite.IsValid` (authentication_model.py:162-163): see `Accounts.InviteValidity`.
- `Accounts.Promote` (authentication_model.py:104-105): see `Accounts.User.SyncGroupsToRole` and `Accounts.User.Clear`.
- `Accounts.RoleGroups` (authentication_model.py:88): see `Accounts.User.Save` and `Accounts.User.SyncRoleToGroups`.
- `CatalogueStore.Clash` (auth_model.py:85-87, and the same constraint on the other four catalogue tables): see `CatalogueStore.InsertRowUniqueIff` and `CatalogueStore.GlobalNameNeverTaken`.
- `CatalogueStore.Protects` (auth_model.py:174, 194 and 279): see `CatalogueStore.DeleteKeepsTargetsIff`.
- `CatalogueStore.Doomed` (auth_model.py:128): see `CatalogueStore.DoomedIsLeast` and `CatalogueStore.RowDeleteKeepsLinks`.
- `CatalogueStore.RfpsOfIndustry` (auth_model.py:231): see `CatalogueStore.IndustryDeleteKeepsRfps`.
- `CatalogueStore.LinksWithoutRfps` (auth_model.py:169, 189 and 274): see `CatalogueStore.CascadeKeepsLinks`.
- `CatalogueStore.DetachFinalized` (auth_model.py:329): see `CatalogueStore.DetachKeepsFinalizedLinked`.
- `CatalogueStore.AssignmentsAfterRowDelete` (authentication_model.py:136-141): see `CatalogueStore.RowDeleteKeepsAssignments`.
- `CatalogueStore.ForgetCreator` (auth_model.py:24) and `CatalogueStore.AssignmentsWithoutUser` (authentication_model.py:124-129): see `CatalogueStore.UserDeleteKeepsLinks` and `CatalogueStore.ForgetCreatorKeepsUnique`.

## Left out

- The finalize operation that copies a GeneratedRFP into `snapshot_data`. No code for it is part of this model, so the snapshot content stays opaque.
- Deleting an organization. Organizations are not modelled, and neither are their CASCADE references.
- Cascades into tables outside the model: SubmittedRFP, ResponseRFP, ProjectFunctionalAreaSession, PasswordResetToken, Invite (by inviter), the `allowed_users` relation, and `User.role` (SET_NULL when a group is deleted). These tables are plain records with no rules of their own.
- Updates to existing rows, including edits of an Industry's block list. The unique constraints are checked on insert only.
- Key allocation. Callers choose primary keys. All catalogue tables share one map keyed by (table, key), and the three join tables share one key space.
- Error order. When several constraints fail at once, the store reports a taken key first, then a uniqueness violation, then a missing reference. PostgreSQL's deferred foreign-key checks are not modelled.
- Querysets, managers, ordering, indexes, transactions and JSON payloads: persistence plumbing.
- Group-side changes (`group.user_set.add/remove/clear`) and `through_defaults`. The handler is registered on `User.groups.through` without a `reverse` guard (authentication_model.py:92-105), so it also receives these changes, with a Group as `instance`. Reading the code, `instance.role_id` (line 104) or, for a clear, `instance.groups` (line 101) does not exist on a Group, so such a change would end in an AttributeError rather than a role update. Nothing the code could complete is lost by leaving them out.
- Accounts.User.SyncGroupsToRole: the candidate is any element of a non-empty `pk_set`. CPython's set iteration order, which fixes it in practice, is not modelled.
- Accounts.Lower: only ASCII letters are lower-cased, while Python's `str.lower` covers all of Unicode. For this one test that makes no difference. The only non-ASCII characters whose lower case contains ASCII letters are U+212A (to "k", not in "super_admin") and U+0130 (to two characters).
- `timezone.now()` is an integer parameter. Time zones and clock reads are not modelled.
- `User.email` is unique (authentication_model.py:44). Users are modelled by key only, so `CatalogueStore.Store.AddUser` does not check email uniqueness.
- Accounts.User.Save: models a full `save()`, whose row write stores the in-memory role. A `save(update_fields=[...])` without `role` runs the same handlers but leaves the stored column alone; Django's `update_last_login` is one such save. That variant is not modelled, so `storedRole == roleId` is not promised for it.
