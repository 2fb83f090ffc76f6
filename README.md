# TAuthorization permission engine, modelled in Dafny

TAuthorization keeps a list of permission records. Each record says that, for one action and optionally one entity, one role is granted or denied. The `Authorization` class reads these records and maintains them:

- `GrantAccess` and `DenyAccess` look the record up by (action name, role name, entity). They create the record when it is missing. When it exists, they return it untouched if it already carries the requested verdict; otherwise they flip its verdict in place and hand it to the store's `Update`.
- The typed overloads also copy a parameter object's properties into the new record's string bag.
- `Query<T>` reads that bag back into typed views.
- `ClearPermissions` hands the records a predicate selects to the store for deletion.

The store the engine is exercised against, `TestAuthorizationDataStore`, holds the records in a list. It checks inserts for duplicates, finds the record to update by its Id, and deletes.

The model keeps the source's form:

- `EntityPermission` is a class whose fields the engine and the store assign in place.
- The store is a class whose list is a `seq<EntityPermission>` field. Its `Valid()` invariant is that no object is stored twice.
- `Authorization` is a class over the store.

Each method is proved against a function on values:

- The records' field values at any moment are `Snapshot()`/`Snapshots`, a `PermissionRecord` per object.
- `Upsert` is every grant/deny overload.
- `InsertInto`, `UpdateIn` and `DeleteAsWritten` are the store calls (the corrected delete is `Without`).
- `MaterializeAll` is `Query<T>`.

The properties are lemmas about those functions. .NET faults become a `Fault` value returned in a `Result` or an `Outcome`. The kinds are:

- more than one match in `SingleOrDefault`
- a duplicate insert
- an unknown Id on update
- a collection modified under enumeration
- `ToString()` on null
- a duplicate dictionary key
- `SetValue` with a string on a non-string property

Reflection over the parameter type is replaced by explicit descriptions:

- a `seq<PropertyValue>`: the object's properties in `GetProperties()` order, each with its `ToString()` text or null
- a `ParameterType`: whether the type is a struct, and a `PropertyTable` giving, for each property name, whether it is writable and whether it takes a string. The `new()` constraint on `Query<T>` admits a struct. `SetValue` on a struct writes into a boxed copy that is then dropped, so a struct view keeps none of the bag's values. A non-string property still makes `SetValue` throw.

The source has quirks, and the model reproduces them:

- A new record's Id is never assigned, so every record the engine creates has the default Guid.
- The store's duplicate key is (category, action name, Id), not the engine's (action, role, entity).
- The engine flips the stored object before calling `Update`.
- After an insert, the upserts return null.

## Model

| member | source | states |
|---|---|---|
| EntityPermissions.EntityPermission.constructor | src/TAuthorization/TAuthorization/EntityPermission.cs:6-21 | a new record has the given action, role, entity and verdict, the default Guid as Id, a null category and an empty parameter bag |
| EntityPermissions.Where | src/TAuthorization/TAuthorization/Authorization.cs:218 | `Where` over record objects yields the very stored objects whose fields satisfy the predicate, in list order, and their values are the filter of the stored values |
| EntityPermissions.WithoutWhere | src/TAuthorization/TAuthorization/Authorization.cs:216-220 | on a list without duplicates, removing the records a predicate selects leaves exactly the records the complementary predicate selects, in order |
| Linq.SingleOrDefault | src/TAuthorization/TAuthorization/Authorization.cs:77-78 | no match exactly when no element satisfies the predicate; a single match is the one index that does; ambiguity (the throw) exactly when two distinct indices do |
| Linq.Filter | src/TAuthorization/TAuthorization/Authorization.cs:26 | the filtered list holds the satisfying elements of the input and all of them |
| Linq.FilterConcat | src/TAuthorization/TAuthorization/Authorization.cs:26 | filtering distributes over concatenation (a record appended by Insert is filtered on its own) |
| Linq.FilterUpdateOutside | src/TAuthorization/TAuthorization/Authorization.cs:26 | changing a record the predicate rejects, to a value it also rejects, leaves the filtered list unchanged |
| Linq.Without | src/TAuthorization/TAuthorization.Test/TestAuthorizationDataStore.cs:20-26 | removing a list of records keeps exactly the records not in it, and keeps a list free of duplicates |
| Linq.WithoutNothing | src/TAuthorization/TAuthorization.Test/TestAuthorizationDataStore.cs:20-26 | removing no records leaves the list as it is |
| Linq.WithoutAgree | src/TAuthorization/TAuthorization.Test/TestAuthorizationDataStore.cs:20-26 | two removal lists with the same members on the list remove the same records |
| Linq.RemoveFirstWithout | src/TAuthorization/TAuthorization.Test/TestAuthorizationDataStore.cs:24 | on a list without duplicates, `List.Remove` of one more record is removal of the extended list: deleting the records one by one removes exactly them |
| DataStore.UpdateWithItself | src/TAuthorization/TAuthorization.Test/TestAuthorizationDataStore.cs:35-51 | Update handed the stored object itself writes nothing; it throws exactly when another record shares that record's Id |
| DataStore.DeleteAsWrittenDiffers | src/TAuthorization/TAuthorization.Test/TestAuthorizationDataStore.cs:20-26 | Delete as written throws on any non-empty store, and the list it leaves is not the store minus the requested records when the first stored record was not requested |
| DataStore.InsertInto | src/TAuthorization/TAuthorization.Test/TestAuthorizationDataStore.cs:28-33 | Insert on values: rejected with the duplicate fault, changing nothing, exactly when a stored record agrees on category, action name and Id; otherwise the record is appended after all stored ones |
| DataStore.UpdateIn | src/TAuthorization/TAuthorization.Test/TestAuthorizationDataStore.cs:35-51 | Update on values: the list keeps its length; not-found exactly when no record has the Id, the many-matches fault exactly when two do, and both change nothing; every other outcome is success; on success the one record with the Id takes entity, action name, category, role and verdict and nothing else changes |
| DataStore.DeleteAsWritten | src/TAuthorization/TAuthorization.Test/TestAuthorizationDataStore.cs:20-26 | Delete as written on values: it succeeds exactly on an empty list, leaving it as it is; otherwise it throws the collection-modified fault and leaves the list without its first element |
| DataStore.TestAuthorizationDataStore.Query | src/TAuthorization/TAuthorization.Test/TestAuthorizationDataStore.cs:15-18 | the stored objects themselves, position by position, in insertion order, with no object twice while the store is valid |
| DataStore.TestAuthorizationDataStore.constructor | src/TAuthorization/TAuthorization.Test/TestAuthorizationDataStore.cs:10-13 | a new store is empty |
| DataStore.TestAuthorizationDataStore.Insert | src/TAuthorization/TAuthorization.Test/TestAuthorizationDataStore.cs:28-33 | throws exactly when a stored record has the same category, action name and Id, leaving the list unchanged; otherwise appends the object; no object is ever stored twice |
| DataStore.TestAuthorizationDataStore.Update | src/TAuthorization/TAuthorization.Test/TestAuthorizationDataStore.cs:35-51 | the one record with the argument's Id gets its entity, action name, category, role and verdict, and nothing else changes; no such record or several such records: throws and changes nothing |
| DataStore.TestAuthorizationDataStore.Delete | src/TAuthorization/TAuthorization.Test/TestAuthorizationDataStore.cs:20-26 | as written: an empty store is left alone; otherwise the first stored record is removed and the enumeration throws, whatever records were passed |
| DataStore.TestAuthorizationDataStore.DeleteRecords | src/TAuthorization/TAuthorization.Test/TestAuthorizationDataStore.cs:20-26 | as intended: exactly the given records are removed, the rest keep their order, and no object is stored twice |
| AuthorizationSpec.Upsert | src/TAuthorization/TAuthorization/Authorization.cs:74-214 | every grant/deny body on values: a returned record index names an existing record; with no store call the records are unchanged; an insert only appends, at most one record; an update keeps the length; a null result means a record was appended |
| AuthorizationSpec.ProjectSpec | src/TAuthorization/TAuthorization/Authorization.cs:126-131 | copying the parameter object's properties succeeds exactly when no value is null and no name repeats, and the bag then maps each property name to its text and holds nothing else |
| AuthorizationSpec.ProjectFromSpec | src/TAuthorization/TAuthorization/Authorization.cs:128-131 | the same for the loop started on a non-empty bag: the earlier entries stay, and a name already in the bag throws |
| AuthorizationSpec.MaterializeAllSpec | src/TAuthorization/TAuthorization/Authorization.cs:29-56 | Query&lt;T&gt; yields one view per record, in order, exactly when no record has a bag key naming a writable non-string property; each view keeps Id, entity, action, role and verdict, and, for a class parameter type, its object has exactly the writable properties named in the bag, set to the bag's values; for a struct it has none |
| AuthorizationSpec.TypedRoundTrip | src/TAuthorization/TAuthorization/Authorization.cs:47-52 | a record created from a parameter object, read back through a class whose properties of those names are writable strings, yields exactly the object's property texts; read back through such a struct, it yields no property |
| AuthorizationProperties.UpsertWhenAbsent | src/TAuthorization/TAuthorization/Authorization.cs:111-133 | no record for the triple: the record is built and inserted and null is returned, unless a property fails to copy (no store call) or the store rejects a duplicate (store unchanged) |
| AuthorizationProperties.UpsertWhenPresent | src/TAuthorization/TAuthorization/Authorization.cs:134-142 | one record for the triple: it is returned untouched if it carries the verdict; otherwise its verdict alone is set, Update is called, and the flip stays even when Update throws |
| AuthorizationProperties.UpsertWhenAmbiguous | src/TAuthorization/TAuthorization/Authorization.cs:113-115 | two records for the triple: the lookup throws before any store call |
| AuthorizationProperties.UpsertIdempotent | src/TAuthorization/TAuthorization/Authorization.cs:74-99 | repeating a successful upsert calls no store operation, changes nothing and returns the stored record for the triple, which carries the verdict |
| AuthorizationProperties.UpsertKeepsTriplesUnique | src/TAuthorization/TAuthorization/Authorization.cs:74-99 | if every (action, role, entity) has at most one record before an upsert, that holds after it |
| AuthorizationProperties.UpsertLeavesOtherTriples | src/TAuthorization/TAuthorization/Authorization.cs:74-99 | an upsert on one triple leaves the records of every other triple as they were |
| AuthorizationProperties.FlipKeepsRecord | src/TAuthorization/TAuthorization/Authorization.cs:150-175 | after a successful upsert with one verdict, the upsert with the other verdict, typed or untyped with any parameter objects, changes exactly the verdict of a record for that triple, in place, and nothing else (even when Update throws) |
| AuthorizationProperties.UpsertKeepsEngineMade | src/TAuthorization/TAuthorization/Authorization.cs:81-87 | upserts only add records with the default Id and a null category |
| AuthorizationProperties.SecondTripleForActionRejected | src/TAuthorization/TAuthorization.Test/TestAuthorizationDataStore.cs:30-31 | among engine-made records, a second role or entity for an action already stored is rejected by the store as a duplicate |
| AuthorizationProperties.FlipFailsWithSharedDefaultId | src/TAuthorization/TAuthorization.Test/TestAuthorizationDataStore.cs:37-38 | among engine-made records, once the store holds two records, flipping a verdict makes Update throw, with the flip already made |
| AuthorizationProperties.TypedDenyWithoutEntityGrants | src/TAuthorization/TAuthorization/Authorization.cs:177-180 | the typed deny without an entity, as written, leaves a granting record on an empty store, where the deny upsert leaves a denying one |
| AuthorizationProperties.PublishScenario | src/TAuthorization/TAuthorization/Authorization.cs:74-175 | grant, then deny, on one action and role on an empty store leaves one denying record; granting that action to a second role is then rejected as a duplicate |
| Authorizations.UserPermissions | src/TAuthorization/TAuthorization/Authorization.cs:58-67 | the collected records are stored records whose role is among the claims, and every such record is collected |
| Authorizations.AssignParameters | src/TAuthorization/TAuthorization/Authorization.cs:47-52 | the properties assigned from one record's bag are the spec's: the writable properties named in the bag (none for a struct), or the fault for a non-string one |
| Authorizations.TypedViewOf | src/TAuthorization/TAuthorization/Authorization.cs:38-53 | the typed view of one record is the spec's view of its values |
| Authorizations.TypedViewsOf | src/TAuthorization/TAuthorization/Authorization.cs:36-55 | the loop's result is the spec's list of views, or its first fault |
| Authorizations.NewPermission | src/TAuthorization/TAuthorization/Authorization.cs:118-131 | the created record carries the triple, the verdict and the projected bag, or the copy loop's fault |
| Authorizations.Authorization.constructor | src/TAuthorization/TAuthorization/Authorization.cs:14-17 | the engine works on the store it is given |
| Authorizations.Authorization.Query | src/TAuthorization/TAuthorization/Authorization.cs:19-22 | the store's own objects, position by position, in store order, with no object twice while the store is valid |
| Authorizations.Authorization.QueryAction | src/TAuthorization/TAuthorization/Authorization.cs:24-27 | the result is exactly the stored objects with that action name, in store order |
| Authorizations.Authorization.QueryTyped | src/TAuthorization/TAuthorization/Authorization.cs:29-56 | the result is the spec's typed views of the records of that action |
| Authorizations.Authorization.GetUserPermissions | src/TAuthorization/TAuthorization/Authorization.cs:58-67 | the result is, claim by claim, the stored records with that role |
| Authorizations.Authorization.UpsertAccess | src/TAuthorization/TAuthorization/Authorization.cs:111-143 | the store ends holding the spec's records and the call returns the spec's result: the found object, null after an insert, or the fault; earlier records stay in place and a record appended by an insert is a newly created object |
| Authorizations.Authorization.SetVerdict | src/TAuthorization/TAuthorization/Authorization.cs:134-142 | the found record is returned unchanged when it has the verdict; otherwise its verdict is set in place and Update's outcome decides the result |
| Authorizations.Authorization.GrantAccess | src/TAuthorization/TAuthorization/Authorization.cs:74-99 | the grant upsert with no parameter object; the stored records, the result and the kept prefix are the spec upsert's, and any appended record is newly created |
| Authorizations.Authorization.GrantAccessWithoutEntity | src/TAuthorization/TAuthorization/Authorization.cs:101-104 | the grant upsert on Guid.Empty; the stored records, the result and the kept prefix are the spec upsert's, and any appended record is newly created |
| Authorizations.Authorization.GrantAccessTypedWithoutEntity | src/TAuthorization/TAuthorization/Authorization.cs:106-109 | the typed grant upsert on Guid.Empty; the stored records, the result and the kept prefix are the spec upsert's, and any appended record is newly created |
| Authorizations.Authorization.GrantAccessTyped | src/TAuthorization/TAuthorization/Authorization.cs:111-143 | the typed grant upsert; the stored records, the result and the kept prefix are the spec upsert's, and any appended record is newly created |
| Authorizations.Authorization.DenyAccessWithoutEntity | src/TAuthorization/TAuthorization/Authorization.cs:145-148 | the deny upsert on Guid.Empty; the stored records, the result and the kept prefix are the spec upsert's, and any appended record is newly created |
| Authorizations.Authorization.DenyAccess | src/TAuthorization/TAuthorization/Authorization.cs:150-175 | the deny upsert with no parameter object; the stored records, the result and the kept prefix are the spec upsert's, and any appended record is newly created |
| Authorizations.Authorization.DenyAccessTypedWithoutEntity | src/TAuthorization/TAuthorization/Authorization.cs:177-180 | as written: the typed grant upsert on Guid.Empty; the stored records, the result and the kept prefix are the spec upsert's, and any appended record is newly created |
| Authorizations.Authorization.DenyAccessTypedWithoutEntityCorrected | src/TAuthorization/TAuthorization/Authorization.cs:177-180 | as intended: the typed deny upsert on Guid.Empty; the stored records, the result and the kept prefix are the spec upsert's, and any appended record is newly created |
| Authorizations.Authorization.DenyAccessTyped | src/TAuthorization/TAuthorization/Authorization.cs:182-214 | the typed deny upsert; the stored records, the result and the kept prefix are the spec upsert's, and any appended record is newly created |
| Authorizations.Authorization.ClearPermissionsAsWritten | src/TAuthorization/TAuthorization/Authorization.cs:216-220 | as written, over the store's Delete as written: the list handed over is exactly the selected records, in order; the store then loses its first record and the call throws, or is left alone when empty, whatever the predicate selects |
| Authorizations.Authorization.ClearPermissions | src/TAuthorization/TAuthorization/Authorization.cs:216-220 | as intended: the records handed over for deletion are exactly the stored ones the predicate selects, in order; afterwards the store holds exactly the others, with their values, and no object twice |

## Left out

- Reflection: `GetProperties`, `GetValue`, `ToString`, `GetProperty`, `CanWrite` and `SetValue` are replaced by explicit descriptions of the parameter object and type. Only three things are modelled: whether the type is a struct, whether a property is writable, and whether it takes a string. An ambiguous property name is not modelled, and neither is a null parameter object.
- `ClaimsPrincipal`/`Thread.CurrentPrincipal`: the current principal's role claims are passed to `GetUserPermissions` as a list. The user name it receives is not used, as in the source.
- `IQueryable` and deferred execution: queries are evaluated at once, on the list as it is at the call.
- `IAuthorizationDataStore.cs` is not part of this model. The engine is modelled against the list-backed store only.
- `AuthorizationTests.cs` is not part of this model. Its tests each grant, deny, query or clear once. `PublishScenario` is the model's own illustrative example, not one of them. `TypedRoundTrip` states in general what CanGrantAccessForAnActionWithParameters (AuthorizationTests.cs:35-44) exercises on one object.
- Guid generation: Guids are opaque values compared for equality. No record ever gets a fresh Id, because the source never assigns one.
- The commented-out aggregated permission decision (Authorization.cs:69-72) has no code, and no decision is modelled.
- Null action or role names: names are plain strings. The category alone is nullable, because the engine never sets it.
- Authorizations.Authorization.ClearPermissions: the source returns nothing. The model returns the list handed to the store, so that its contract can name it. It calls the corrected `DeleteRecords`, since as written `Delete` ignores the list (see Findings); `ClearPermissionsAsWritten` is the composition with `Delete` as written.
- Concurrency: none. The store and the records are used from one thread.

## Findings

| source | as written | input that shows it | evidently intended | confidence | as-written member | corrected member |
|---|---|---|---|---|---|---|
| src/TAuthorization/TAuthorization.Test/TestAuthorizationDataStore.cs:20-26 | Delete walks the store's own list rather than its argument and removes the element it is at. The next step of the enumeration then throws, so exactly the first stored record goes, whatever was requested. | a store holding records A, B; `Delete([B])` removes A, keeps B and throws | remove exactly the given records and keep the order of the rest | high, not executed | DataStore.TestAuthorizationDataStore.Delete, DataStore.DeleteAsWrittenDiffers, Authorizations.Authorization.ClearPermissionsAsWritten | DataStore.TestAuthorizationDataStore.DeleteRecords, Linq.RemoveFirstWithout, Authorizations.Authorization.ClearPermissions |
| src/TAuthorization/TAuthorization/Authorization.cs:177-180 | The typed `DenyAccess<T>(actionName, roleName, T)` calls `GrantAccess`, so it grants. | an empty store; `DenyAccess("Publish", "Editor", new { })` stores a granting record | the typed deny upsert on Guid.Empty | high, not executed | Authorizations.Authorization.DenyAccessTypedWithoutEntity, AuthorizationProperties.TypedDenyWithoutEntityGrants | Authorizations.Authorization.DenyAccessTypedWithoutEntityCorrected, AuthorizationProperties.UpsertWhenAbsent |
