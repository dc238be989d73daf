# Tenant lifecycle of a multi-tenant organisation backend

This project is a Dafny model of the core that creates, looks up, renames, re-credentials and
deletes tenant organisations. The backend keeps two kinds of state:

- a **master registry** in database `master_db`, with two collections:
  - `orgs`: one record per tenant (name, derived collection name, admin id);
  - `admins`: admin credentials (email, password hash, organisation);
- one **tenant store** per tenant: the `data` collection of database `org_<name>`, reached through a
  single shared client.

The coordinator `OrgService` sequences these operations:

- **create:** refuse a taken name, then a name whose database the client cannot address. Write a `_meta` marker into the new store, create the admin, then
  the registry record.
- **update:** optionally rename. This copies the old store into the new one in bulk inserts of at
  most 500 documents, with `_id` removed. It then repoints the registry record and every admin, and
  drops the old database. Afterwards it sets the supplied email and the hashed password on the
  tenant's first admin.
- **delete:** drop the store, then the registry record, then every admin.

The shared client refuses a database name that is empty or contains a space, `.`, `$`, `/`,
`\`, `"` or NUL. Taking the tenant's collection handle (create, and both names of a rename) and
dropping its database (delete) then fail before anything is written. The model returns
`InvalidDbName` at those points.

The model has six modules:

- `Collections` (`collections.dfy`): the document-store operations the registry uses, over a
  collection held as a sequence in natural order. `find_one`, `delete_one` and `update_one` act on
  the first match; `delete_many` and `update_many` act on every match.
- `Documents` (`documents.dfy`): BSON-like values and documents, stripping `_id`, and the `_id` an
  insert assigns.
- `Db` (`db.dfy`): tenant database names, the `Client` class holding every tenant collection, and
  `drop_org_database`.
- `Master` (`master_repo.dfy`): the `MasterRepo` class, whose `orgs` and `admins` fields are the two
  registry collections.
- `Lifecycle` (`lifecycle.dfy`): the invariant `Consistent`, the state each lifecycle step produces,
  and lemmas that every step keeps `Consistent` and has its promised effect.
- `Service` (`org_service.dfy`): the `OrgService` class. Each method is proved against the
  `Lifecycle` functions and lemmas, the copy loop included.

`Consistent` states:

- tenant names are unique;
- each record carries its derived collection name and points at an admin of its own tenant;
- admin ids are unique and already issued;
- every admin belongs to a registered tenant;
- every existing store belongs to a registered tenant, so no store is orphaned.

`CreateOrg`, `UpdateOrg`, `DeleteOrg`, the rename step `Rename`, the credential step `SetCredentials`
and `RenameAndSetCredentials` (the two in sequence) require
and ensure it. `GetOrg` reads the state and uses it only to say more about the record it finds.
`CopyCollection`, `Flush` and `RepointRegistry` are steps inside a rename. They state their effect
on the client or the registry alone, and `Rename` re-establishes the invariant after them.

External inputs are parameters:

- the password hash is the `hash` function the service is built with;
- the `datetime.utcnow()` timestamp of create is the `createdAt` argument;
- the ObjectId generators are counters:
  - `Client.nextOid` for store documents;
  - `MasterRepo.nextOid` for registry documents.

Three behaviours of the code are worth stating directly:

- The registry's own insert (`create_org_record`) does not refuse a duplicate name. Uniqueness comes
  only from the service's checks: `create_org` refuses a registered name, and `update_org` refuses a
  rename onto a registered name.
- On rename, the registry record is rewritten by a plain `update_one` on the old name; nothing
  fails when no record matches.
- The credential step updates only the first admin of the tenant (`update_one`).

## Model

| member | source | states |
|---|---|---|
| Collections.FirstIndex | app/repositories/master_repo.py:10 | the position a filter query selects: a match, with no match before it; none exactly when no element matches |
| Collections.FindOne | app/repositories/master_repo.py:10 | `find_one` returns the first matching document; nothing exactly when no document matches |
| Collections.DeleteOne | app/repositories/master_repo.py:19-20 | `delete_one` removes exactly the first match and keeps every other document in order; without a match the collection is unchanged |
| Collections.DeleteOneKeepsUnselected | app/repositories/master_repo.py:19-20 | `delete_one` keeps every copy of a document the filter does not select |
| Collections.DeleteOneKeepsDistinct | app/repositories/master_repo.py:19-20 | a key unique before `delete_one` is unique after it |
| Collections.DeleteMany | app/repositories/master_repo.py:34-35 | `delete_many` leaves no matching document and keeps every copy of every other document; never grows the collection |
| Collections.DeleteManyKeepsDistinct | app/repositories/master_repo.py:34-35 | a key unique before `delete_many` is unique after it |
| Collections.DeleteManyAppend | app/repositories/master_repo.py:34-35 | `delete_many` keeps the relative order of the kept documents: it distributes over concatenation |
| Collections.DeleteManyNoMatch | app/repositories/master_repo.py:34-35 | `delete_many` with a filter nothing matches changes nothing |
| Collections.UpdateOne | app/repositories/master_repo.py:37-38 | `update_one` rewrites the first match only, in place; without a match nothing changes |
| Collections.UpdateMany | app/services/org_service.py:74 | `update_many` rewrites every match in place and leaves every other document as it was |
| Documents.Strip | app/services/org_service.py:56-57 | removing `_id` keeps every other field and its value |
| Documents.WithId | app/services/org_service.py:17 | an insert keeps a document's own `_id` and gives one without `_id` the next ObjectId; the rest of the document is unchanged |
| Documents.StripAll | app/services/org_service.py:55-58 | the copied documents are the source documents in order, each without `_id` |
| Documents.AssignIds | app/services/org_service.py:60-62 | a bulk insert assigns consecutive ObjectIds to the documents, in order |
| Documents.StripAbsent | app/services/org_service.py:56-57 | a document without `_id` is copied unchanged |
| Documents.CopyStep | app/services/org_service.py:55-58 | appending the next stripped document extends the stripped prefix of the source by one |
| Documents.FlattenSnoc | app/services/org_service.py:59-62 | a flushed batch extends the documents written so far by exactly that batch |
| Documents.StripAllAssignIds | app/services/org_service.py:53-62 | the ObjectIds an insert assigns vanish again when the documents are stripped |
| Documents.StripIdempotent | app/services/org_service.py:56-57 | stripping a stripped document changes nothing |
| Documents.StripAllIdempotent | app/services/org_service.py:55-58 | stripping stripped documents changes nothing |
| Documents.AssignIdsAppend | app/services/org_service.py:59-62 | two bulk inserts in a row assign the same ObjectIds as one insert of both lists |
| Documents.StripAllAppend | app/services/org_service.py:55-58 | stripping distributes over concatenation |
| Db.OrgNameOfInverse | app/db.py:11 | a database name is tenant `n`'s if and only if it is `org_` followed by `n` |
| Db.OrgDbNameInjective | app/db.py:11 | distinct tenants never share a database name |
| Db.AddressableChars | app/db.py:11-12 | the `org_` prefix never makes a name unaddressable: a tenant's database is addressable exactly when the tenant name holds no reserved character |
| Db.GetOrgCollection | app/db.py:7-12 | the handle is the `data` collection of a database that names the tenant |
| Db.GetOrgCollectionInjective | app/db.py:7-12 | distinct tenants resolve to distinct collections |
| Db.Appended | app/services/org_service.py:17 | an insert appends the stored documents to that collection only; it creates the collection on a non-empty insert only |
| Db.AppendedTwice | app/services/org_service.py:59-62 | consecutive bulk inserts into one collection equal one insert of all their documents |
| Db.DropDb | app/db.py:16 | dropping a database removes every collection of it and keeps every other collection with its contents |
| Db.Client.constructor | app/db.py:4 | the client starts with the given stores and ObjectId counter, and no bulk insert issued |
| Db.Client.InsertOne | app/services/org_service.py:17 | `insert_one` appends the document with its assigned `_id` and advances the ObjectId counter by one; it is not a bulk insert |
| Db.Client.InsertMany | app/services/org_service.py:60-62 | `insert_many` of a non-empty list appends the documents with consecutive ObjectIds and is logged as one bulk insert |
| Db.Client.DropDatabase | app/db.py:16 | `drop_database` refuses exactly the names the client cannot address; otherwise it removes exactly that database |
| Db.DropOrgDatabase | app/db.py:14-16 | fails exactly for an unaddressable tenant, changing nothing; otherwise drops the tenant's database, so its data collection is gone. Every other database keeps its collections and contents either way |
| Master.SetFieldsEffect | app/repositories/master_repo.py:37-38 | `$set` writes exactly the given fields and never the id or the organisation |
| Master.MasterRepo.constructor | app/repositories/master_repo.py:5-7 | the repository starts with the given `orgs` and `admins` collections |
| Master.MasterRepo.FindOrg | app/repositories/master_repo.py:9-10 | the first record with that name; nothing exactly when no record has it |
| Master.MasterRepo.CreateOrgRecord | app/repositories/master_repo.py:12-17 | appends the record with a fresh ObjectId, without any uniqueness check of its own; admins untouched |
| Master.MasterRepo.DeleteOrg | app/repositories/master_repo.py:19-20 | removes the first record with that name |
| Master.MasterRepo.CreateAdmin | app/repositories/master_repo.py:23-29 | appends the admin and returns its ObjectId, which no existing admin carries; orgs untouched |
| Master.MasterRepo.FindAdminByEmail | app/repositories/master_repo.py:31-32 | the first admin with that email; nothing exactly when no admin has it |
| Master.MasterRepo.DeleteAdminByOrg | app/repositories/master_repo.py:34-35 | removes every admin of the organisation; what remains was there before and belongs elsewhere |
| Master.MasterRepo.UpdateAdminByOrg | app/repositories/master_repo.py:37-38 | sets the fields on the first admin of the organisation only |
| Lifecycle.UnregisteredHasNoStore | app/services/org_service.py:11-17 | in a consistent state an unregistered name has no store, so create and rename start from an empty store |
| Lifecycle.FoundIsOnly | app/repositories/master_repo.py:10 | with unique names the record `find_org` finds is the only one with that name |
| Lifecycle.CreateKeepsRegistry | app/services/org_service.py:19-25 | the new record and the new admin keep names and ids unique and point at each other |
| Lifecycle.CreateKeepsStoresOwned | app/services/org_service.py:14-17 | the store created for the tenant is owned by its new record; the other stores stay owned |
| Lifecycle.CreatePreserves | app/services/org_service.py:9-31 | creating an unregistered tenant keeps the registry and the stores consistent |
| Lifecycle.CreateEffect | app/services/org_service.py:14-25 | after create the store holds exactly the marker with its `_id`, and `find_org` returns the new record |
| Lifecycle.DeleteOneUndoesAppend | app/repositories/master_repo.py:19-20 | `delete_one` by name removes a record just appended under a fresh name, and nothing else |
| Lifecycle.DeleteManyUndoesAppend | app/repositories/master_repo.py:34-35 | `delete_many` by organisation removes an admin just appended for a fresh organisation, and nothing else |
| Lifecycle.DropUndoesAppend | app/db.py:14-16 | dropping the database of an unregistered tenant removes exactly the store just created for it |
| Lifecycle.DeleteUndoesCreate | app/services/org_service.py:91-100 | deleting a tenant right after creating it restores the registry and the stores exactly |
| Lifecycle.CredentialUpdateEffect | app/services/org_service.py:80-87 | the credential step sets a supplied email and the hash of a supplied password on the tenant's first admin; nothing else changes; with neither supplied nothing is written |
| Lifecycle.CredentialUpdatePreserves | app/services/org_service.py:80-87 | the credential step keeps the registry and the stores consistent |
| Lifecycle.RenameMovesData | app/services/org_service.py:48-77 | after a rename the new store holds the old store's documents in order, equal up to `_id`; the old store is gone; every other store is untouched |
| Lifecycle.RenameRegistry | app/services/org_service.py:64-71 | the record formerly named old carries the new name and store name, keeps its id and admin, and the old name is no longer found |
| Lifecycle.RenameAdmins | app/services/org_service.py:73-74 | every admin of the old name moves to the new name and keeps its other fields; other admins are untouched |
| Lifecycle.RenameKeepsNamesUnique | app/services/org_service.py:44-71 | renaming to an unregistered name keeps tenant names unique |
| Lifecycle.RenameKeepsOwners | app/services/org_service.py:64-74 | after a rename every record still carries its derived store name and points at an admin of its own tenant |
| Lifecycle.RenameKeepsAdminsRegistered | app/services/org_service.py:64-74 | after a rename every admin belongs to a registered tenant |
| Lifecycle.RenameKeepsStoresOwned | app/services/org_service.py:48-77 | after a rename every store belongs to a registered tenant: nothing is orphaned |
| Lifecycle.RenameKeepsIds | app/services/org_service.py:64-74 | a rename changes no id: every record and every admin keeps its id in place, so admin ids stay unique and all ids stay below the counter |
| Lifecycle.RenamePreserves | app/services/org_service.py:43-78 | renaming to an unregistered name keeps the registry and the stores consistent |
| Lifecycle.DeleteKeepsOthers | app/repositories/master_repo.py:19-20 | with unique names, deleting by name leaves exactly the other tenants' records |
| Lifecycle.DeleteAdminsKeepsOthers | app/repositories/master_repo.py:34-35 | `delete_many` by organisation keeps every admin of another tenant |
| Lifecycle.DeleteEffect | app/services/org_service.py:91-99 | deleting a registered tenant removes exactly one record and keeps every other tenant's records and admins |
| Lifecycle.DeleteKeepsOwners | app/services/org_service.py:98-99 | after a delete every remaining record keeps its derived store name and its admin |
| Lifecycle.DeleteKeepsAdminsRegistered | app/services/org_service.py:98-99 | after a delete every remaining admin belongs to a registered tenant |
| Lifecycle.DeleteKeepsStoresOwned | app/services/org_service.py:96-98 | after a delete every remaining store belongs to a registered tenant, and the tenant's own store is gone |
| Lifecycle.DeletePreserves | app/services/org_service.py:91-100 | delete keeps the registry and the stores consistent; afterwards the tenant is unregistered, owns no admin and has no store |
| Service.OrgService.constructor | app/services/org_service.py:6-7 | a service over a consistent registry and stores is valid |
| Service.OrgService.CreateOrg | app/services/org_service.py:9-31 | fails only with "already exists", exactly when the name is registered, or with the client's invalid-name error, exactly when it is unregistered but unaddressable; both change nothing. Otherwise registry ids advance by two and store ids by one; the new store holds exactly the marker, and the admin (with the hashed password and a fresh id) and the record are appended, the record found under the name; returns name, collection name and admin id; keeps consistency |
| Service.OrgService.GetOrg | app/services/org_service.py:33-35 | the tenant's record, whose collection name is derived from its name and whose admin exists; nothing exactly when the name is unregistered |
| Service.OrgService.CopyCollection | app/services/org_service.py:52-62 | the destination gains the source's documents in order without `_id`. The bulk inserts the client receives are exactly the batches, together carrying those documents, every one of them holding exactly 500 documents except the last, which holds 1 to 500 |
| Service.FullThenRest | app/services/org_service.py:58-62 | batches flushed when full, then at most one non-empty remainder, are exactly 500 each but the last, which holds 1 to 500 |
| Service.CopyLoggedIntro | app/services/org_service.py:59-62 | the client's bulk-insert log after the copy is the log before it followed by exactly the copy's batches |
| Service.OrgService.PopId | app/services/org_service.py:56-57 | the copy of a document has no `_id` and keeps every other field with its value |
| Service.OrgService.Flush | app/services/org_service.py:59-62 | a flush appends the batch after the documents already written and adds exactly that batch to the client's bulk inserts |
| Service.OrgService.UpdateOrg | app/services/org_service.py:37-89 | fails only with "not found", exactly when the name is unregistered; with "new name exists", exactly when a different supplied new name is taken; or with the invalid-name error, exactly when a rename's old or new name is unaddressable. All three change nothing. Registry ids never advance. A rename moves the data, repoints the record and the admins and drops the old store, issuing store ids for exactly the copied documents. Its bulk inserts carry the old documents without `_id`, 500 each except a last one of 1 to 500. Without a rename the client is untouched. The credentials go to the first admin under the current name. Keeps consistency |
| Service.OrgService.RenameAndSetCredentials | app/services/org_service.py:50-89 | past the checks of a rename: the data moves as in `Rename`; the record is found under the new name only, with its id and admin; the credentials go to the first admin under the new name; keeps consistency |
| Service.OrgService.Rename | app/services/org_service.py:43-78 | data copied to the new store in bulk inserts of exactly 500 documents but a last one of 1 to 500, and the old store dropped, the record repointed, every admin moved to the new name; keeps consistency |
| Service.OrgService.RepointRegistry | app/services/org_service.py:64-74 | the record of the old name takes the new name and store name, and every admin of the old name moves to the new one |
| Service.OrgService.SetCredentials | app/services/org_service.py:80-87 | sets the supplied email and the hashed supplied password on the tenant's first admin; writes nothing when neither is supplied |
| Service.OrgService.DeleteOrg | app/services/org_service.py:91-100 | fails only with "not found", exactly when the name is unregistered, or with the invalid-name error, exactly when a registered name is unaddressable; both change nothing. No ObjectId is issued. Otherwise drops the store, removes exactly the tenant's record and every admin of it, and keeps everything else and consistency |

## Left out

- HTTP routers, JWT issuing and checking, bcrypt, configuration, request validation and the
  per-tenant wedding endpoints are not part of this model. The core calls them or is called by them.
- `Consistent` assumes the lifecycle operations are the only writers of tenant stores. In the code
  they are not. The wedding endpoints take the tenant name from the JWT
  (app/api/wedding_router.py:10-14), and a token stays valid for `JWT_EXP_HOURS` after it is issued
  (app/utils/jwt_handler.py:8), even across a rename or delete of its tenant. `create_wedding`
  through such a token inserts into `org_<old name>` (app/repositories/org_repo.py:6-11) and
  recreates a store no record owns. A later `create_org` of that name then writes its marker next
  to the leftover data, and a rename onto it copies into a store that is not empty. The
  promises of `CreateOrg` (the store holds exactly the marker) and of a rename (the new store
  holds exactly the copy) hold only in the absence of such writes.
- Service.OrgService.CreateOrg: the admin id is returned as an ObjectId, not converted with `str()`.
  ObjectIds are plain numbers here.
- Concurrency is not modelled. Each operation runs alone, so the check-then-act race between two
  creates or renames of one name cannot happen in the model.
- Partial failure is not modelled. Apart from the client's refusal of an unaddressable database
  name, a store or driver error between steps depends on the environment, not the code, so every
  call succeeds. The half-done states after a failed copy,
  repoint or drop are not represented.
- The ObjectId generators are two counters: one for the client, one for the registry. Real
  ObjectIds are unique across both. In the model every issued registry id is below the registry
  counter, and admin ids are proved unique. Distinctness of record ids and of store `_id`s is not
  stated.
- The text of the client's invalid-name error is not modelled; `InvalidDbName` stands for it.
- `Client.Find` reads the whole collection as a snapshot. Cursor batching and concurrent writes
  during the copy are not modelled.
- Database names are compared exactly. The store's case-insensitive database-name rules and its
  name-length limits are not modelled.
- Timestamps (`datetime.utcnow()`) and the password hash are inputs (`createdAt`, `hash`), not
  computed.
- Only the `data` collection of each tenant database is modelled, because it is the only one the
  core touches. Dropping a database removes all of its collections.
