# REST method helper and seed-data loaders, in Dafny

This project models three pieces of a Symfony REST backend.

- **The REST method helper** is the trait every REST controller uses. It covers:
  - the getters for the resource and response-handler services;
  - resolving the DTO class and the form type class for a controller method, including cutting the method name at its last `::`;
  - checking the HTTP method against an allow-list;
  - mapping any exception to an HTTP exception, after first detaching the entity the failed request worked on.

  The controller is a value (`RestMethodHelper.Controller`). Its entity manager is a class (`RestMethodHelper.EntityManager`) whose set of managed ids `detach` updates in place. Exceptions form a datatype (`RestMethodHelper.Throwable`).
- **The role fixture loader** (`LoadRoleData`). For each role name it creates a Role with description `"Description - " + name`, persists it and registers it as `"Role-" + short code`. It then flushes once.
- **The user fixture loader** (`LoadUserData`). For each role it creates a user named `john-<short code>`, in the UserGroup registered as `"UserGroup-" + short code`. Then it creates the default user `john` with no group. Each user is persisted and registered as `"User-" + username`, and the loader flushes once.

The loaders are methods that take a `Seeding.FixtureContext` object. The object holds the calls made on the object manager and the reference repository, and the reference table. Each method is proved equal to a specification function over a `Seeding.Run` value. A `Run` is the call log, the reference table and whether a call has thrown; once a call has thrown, nothing further happens. The loaders' properties are lemmas about those functions.

Some inputs come from services or reflection. The model takes them as parameters:
- the roles service's role list and `getShort`;
- whether a class implements the DTO interface, as the set `restDtos`;
- whether the host implements the controller interface, as a flag;
- whether a bound form is valid, as a flag.

## Model

| member | source | states |
|---|---|---|
| RestMethodHelper.GetResource | src/Rest/Traits/RestMethodHelper.php:71-78 | Succeeds exactly when the resource is set, returning it. Otherwise it fails with UnexpectedValue "Resource service not set", code 500. |
| RestMethodHelper.GetResponseHandler | src/Rest/Traits/RestMethodHelper.php:85-92 | Succeeds exactly when the response handler is set, returning it. Otherwise it fails with "ResponseHandler service not set", code 500. |
| RestMethodHelper.GetDtoClass | src/Rest/Traits/RestMethodHelper.php:103-120 | Every success implements the DTO interface. The table entry for the method wins, with null looking up `''`. Otherwise the resource's DTO class is used, and an unset resource throws. The chosen class is returned unchanged if it implements the interface; if not, the result is UnexpectedValue with the "is not implementing" message. |
| RestMethodHelper.LastSeparatorBelow | src/Rest/Traits/RestMethodHelper.php:135 | The position it returns is a `::` with no later `::` below the bound. None means there is no `::` at all (mb_strrpos's false). |
| RestMethodHelper.FormTypeKey | src/Rest/Traits/RestMethodHelper.php:133-137 | Null is read as `''`. When the last `::` starts at a position p > 0, the key is the text after it. When there is no `::`, or the last one starts at position 0, the key is the whole name. The key is always a suffix of the name, and a key that was cut holds no `::`. |
| RestMethodHelper.SuffixAfterLastHasNoSeparator | src/Rest/Traits/RestMethodHelper.php:135-136 | The text after the last `::` holds no `::`. |
| RestMethodHelper.GetFormTypeClass | src/Rest/Traits/RestMethodHelper.php:131-142 | Returns the form-type table entry for the resolved key if present. Otherwise it returns the resource's form type class, or the unset-resource error. |
| RestMethodHelper.StrippedKeyHasNoSeparator | src/Rest/Traits/RestMethodHelper.php:135-137 | When the last `::` is at a position p > 0, the key is the text after it, and that text holds no `::`. |
| RestMethodHelper.NoSeparatorKeyUnchanged | src/Rest/Traits/RestMethodHelper.php:135-137 | A name without `::` is looked up as it is. |
| RestMethodHelper.FormTypeKeyIdempotent | src/Rest/Traits/RestMethodHelper.php:133-137 | Resolving an already resolved key gives the same key. |
| RestMethodHelper.QualifiedNameResolvesLikeBare | src/Rest/Traits/RestMethodHelper.php:135-141 | For a non-empty prefix P and a name m with no `::`, `P::m` resolves to key m and to the same form type class as m. m must not start with `:`. |
| RestMethodHelper.LeadingSeparatorKept | src/Rest/Traits/RestMethodHelper.php:135 | A name whose only `::` is at position 0 keeps that `::`, because mb_strrpos then returns the falsy 0. |
| RestMethodHelper.ColonLedNameLosesColon | src/Rest/Traits/RestMethodHelper.php:135-136 | Take any prefix P and any name m that has no `::` and does not start with `:`. Then `P:::m` resolves to m. Of the two overlapping `::`, the later one is the last, so the extra colon is cut off too. |
| RestMethodHelper.NullMethodUsesEmptyKey | src/Rest/Traits/RestMethodHelper.php:133 | A null method resolves exactly like `''`. |
| RestMethodHelper.ValidateRestMethod | src/Rest/Traits/RestMethodHelper.php:153-169 | A host that is not a controller fails with LogicException and its message, before any method test. A controller passes exactly when the request method is an exact member of the allow-list; otherwise it fails with MethodNotAllowed carrying exactly that list. |
| RestMethodHelper.GetExceptionCode | src/Rest/Traits/RestMethodHelper.php:247-250 | The result is the exception's own code if that is nonzero, else 400. It is never 0. |
| RestMethodHelper.DetermineOutput | src/Rest/Traits/RestMethodHelper.php:281-300 | The result is always an HTTP exception. In priority order: an HTTP exception is returned unchanged; NoResult becomes 404 "Not found"; NonUnique becomes 500 with the original message; anything else keeps its message and gets its own code if nonzero, else 400. Every new HttpException wraps the original as its previous exception, with status equal to code. |
| RestMethodHelper.DetermineOutputIdempotent | src/Rest/Traits/RestMethodHelper.php:287-288 | Mapping a mapped exception again changes nothing. |
| RestMethodHelper.DetermineOutputStatus | src/Rest/Traits/RestMethodHelper.php:283-296 | A mapped exception's status is nonzero unless the input was an HttpException with status 0. A newly made one carries its status as its code. |
| RestMethodHelper.DetachEntityFromManager | src/Rest/Traits/RestMethodHelper.php:259-274 | An unset resource throws. Otherwise the id leaves the managed set exactly when the repository finds it and it is managed. Nothing else in the entity manager changes. |
| RestMethodHelper.HandleRestMethodException | src/Rest/Traits/RestMethodHelper.php:181-188 | Without an id, the entity manager is left entirely unchanged. With an id, the entity is first detached as above, and an unset resource throws. Then the mapped exception is returned. |
| RestMethodHelper.ProcessForm | src/Rest/Traits/RestMethodHelper.php:218-240 | On success the calls, in order, are exactly: createNamed with the resolved form type and the request's method; setData, only when an id is given; handleRequest; and handleFormError, only when the form is invalid. The result fails exactly when a service it needs is unset or handleFormError throws. For an invalid form the error is the unset-handler error, or the exception handleFormError throws. |
| Seeding.Lookup | src/DataFixtures/ORM/LoadUserData.php:111 | getReference returns the registered entity exactly when the name is registered. Otherwise it throws ReferenceMissing for that name. |
| Seeding.FixtureContext.Persist | src/DataFixtures/ORM/LoadRoleData.php:105 | persist appends exactly one persist call and leaves the reference table alone. |
| Seeding.FixtureContext.Flush | src/DataFixtures/ORM/LoadRoleData.php:77 | flush appends exactly one flush call. |
| Seeding.FixtureContext.AddReference | src/DataFixtures/ORM/LoadRoleData.php:108 | addReference registers a new name and logs the call. A name already taken throws ReferenceExists and changes nothing. |
| Seeding.FixtureContext.GetReference | src/DataFixtures/ORM/LoadUserData.php:111 | Behaves like `Lookup` on the current table and changes nothing. |
| Seeding.ReferAllSpec | src/DataFixtures/ORM/LoadRoleData.php:69-74 | Persisting and registering a list of items completes exactly when their names are new and pairwise distinct. It then logs a persist and an addReference per item in order, and binds every name. |
| Seeding.ReferAllStopsAtFailure | src/DataFixtures/ORM/LoadRoleData.php:74 | Once an item has thrown, the remaining items change nothing. |
| Seeding.ReferAllNoFlush | src/DataFixtures/ORM/LoadRoleData.php:69-74 | Creating the items never flushes. |
| Seeding.BindKeys | src/DataFixtures/ORM/LoadRoleData.php:108 | After registering the items, exactly the earlier names and the items' names are bound. Earlier entries that are not re-registered are unchanged. |
| Seeding.BindValues | src/DataFixtures/ORM/LoadRoleData.php:108 | When the names are fresh, every item's name is bound to that item's entity. |
| Seeding.CompletedLogShape | src/DataFixtures/ORM/LoadRoleData.php:69-77 | A completed run's log keeps the earlier calls. For each item in order it then holds its persist followed at once by its registration, and the flush comes last. |
| Seeding.CompletedLogPersisted | src/DataFixtures/ORM/LoadRoleData.php:69-77 | A completed run persisted exactly the items' entities, in order, and flushed once. |
| LoadRoleData.CreateRole | src/DataFixtures/ORM/LoadRoleData.php:98-109 | createRole persists `Role(name, "Description - " + name)` and then registers it as `"Role-" + short code`, or throws if that name is taken. |
| LoadRoleData.Load | src/DataFixtures/ORM/LoadRoleData.php:64-78 | The new state and outcome of load are those of the specification `LoadRun`: createRole for every role in order, stopping at the first exception, then one flush if nothing threw. |
| LoadRoleData.LoadSucceedsIff | src/DataFixtures/ORM/LoadRoleData.php:105-108 | load completes exactly when every `"Role-" + short code` name is new and the names are pairwise distinct. |
| LoadRoleData.LoadCompleted | src/DataFixtures/ORM/LoadRoleData.php:64-78 | A completed load made exactly the persist and addReference calls of its roles, followed by one flush, and registered every role. |
| LoadRoleData.LoadCallOrder | src/DataFixtures/ORM/LoadRoleData.php:98-109 | In a completed load, call 2i after the earlier calls persists role i's Role, and call 2i+1 registers it as `"Role-" + short code`. The flush is the last call. |
| LoadRoleData.LoadPersistsEachRole | src/DataFixtures/ORM/LoadRoleData.php:69-77 | A completed load persisted exactly one Role per name, in list order, each with description `"Description - " + name`, and flushed exactly once. |
| LoadRoleData.LoadRegistersEachRole | src/DataFixtures/ORM/LoadRoleData.php:101-108 | After a completed load, `"Role-" + short code` of every role is bound to that role's Role. |
| LoadRoleData.LoadFailureDoesNotFlush | src/DataFixtures/ORM/LoadRoleData.php:74-77 | A load that throws has not flushed. |
| LoadUserData.CreateUser | src/DataFixtures/ORM/LoadUserData.php:97-121 | createUser builds the suffixed user. With a role, it adds the UserGroup registered as `"UserGroup-" + short code`; a missing name throws ReferenceMissing, and a wrong entity throws NotAUserGroup. It persists the user and registers it as `"User-" + username`. |
| LoadUserData.Load | src/DataFixtures/ORM/LoadUserData.php:65-77 | The new state and outcome of load are those of the specification `LoadRun`: createUser for every role in order, then for no role, then one flush; the first exception stops everything. |
| LoadUserData.RolesSeededBeforeUsers | src/DataFixtures/ORM/LoadUserData.php:84-87 | The role loader's order is 1 and the user loader's is 3, so roles are seeded first. |
| LoadRoleData.GetOrder | src/DataFixtures/ORM/LoadRoleData.php:85-88 | The role loader's order is 1. |
| LoadUserData.GetOrder | src/DataFixtures/ORM/LoadUserData.php:84-87 | The user loader's order is 3. |
| LoadUserData.CreateUsersStopsAtFailure | src/DataFixtures/ORM/LoadUserData.php:71 | Once a createUser has thrown, the remaining roles change nothing. |
| LoadUserData.GroupKeyIsNoUserKey | src/DataFixtures/ORM/LoadUserData.php:111-120 | No `"UserGroup-"` name is ever a `"User-"` name. |
| LoadUserData.UserRefName | src/DataFixtures/ORM/LoadUserData.php:99-120 | A role's user is registered as `"User-john-" + short code`. |
| LoadUserData.UserRefsNames | src/DataFixtures/ORM/LoadUserData.php:71 | The per-role users' names, in list order, are `"User-john-" + short code`. |
| LoadUserData.CreateUsersWithGroups | src/DataFixtures/ORM/LoadUserData.php:71 | When every role's UserGroup is registered, the per-role loop persists and registers the expected users in order. |
| LoadUserData.GroupKeyUnchanged | src/DataFixtures/ORM/LoadUserData.php:109-120 | Registering users leaves every UserGroup entry as it was. |
| LoadUserData.CreateUsersMissingGroup | src/DataFixtures/ORM/LoadUserData.php:109-113 | When some role's UserGroup is missing, or is not a UserGroup, the per-role loop throws. |
| LoadUserData.DefaultKeyIsNoRoleKey | src/DataFixtures/ORM/LoadUserData.php:71-73 | `"User-john"` is never the name of a per-role user. |
| LoadUserData.LoadRunWithGroups | src/DataFixtures/ORM/LoadUserData.php:65-77 | When every group is registered, load persists and registers the per-role users and then the default user, and then flushes. |
| LoadUserData.AllUserNamesFresh | src/DataFixtures/ORM/LoadUserData.php:120 | All user names are new and distinct exactly when the per-role names are, and `"User-john"` is new. |
| LoadUserData.LoadSucceedsIff | src/DataFixtures/ORM/LoadUserData.php:65-77 | load completes exactly when every role's UserGroup is registered and all user names are new and pairwise distinct. |
| LoadUserData.LoadCompleted | src/DataFixtures/ORM/LoadUserData.php:65-77 | A completed load made exactly the persist and addReference calls of the per-role users and then the default user, followed by one flush, and registered them all. |
| LoadUserData.UserRefFields | src/DataFixtures/ORM/LoadUserData.php:99-120 | A role's user is registered as `"User-john-" + sc`, where sc is the role's short code. It has username `john-sc`, first name John, surname Doe, e-mail `john.doe-sc@test.com`, password `password-sc`, and exactly the role's UserGroup. |
| LoadUserData.LoadPersistedAll | src/DataFixtures/ORM/LoadUserData.php:71-76 | A completed load persisted exactly the expected users, in order, and flushed exactly once. |
| LoadUserData.ExpectedUser | src/DataFixtures/ORM/LoadUserData.php:99-114 | There are \|roles\| + 1 expected users. User i < \|roles\| is role i's suffixed user in exactly its UserGroup; the last is `john` with `john.doe@test.com`, `password` and no group. |
| LoadUserData.LoadPersistsUsers | src/DataFixtures/ORM/LoadUserData.php:71-117 | A completed load persisted exactly \|roles\| + 1 users: position i < \|roles\| holds role i's suffixed user in its UserGroup, position \|roles\| holds the default user. It flushed exactly once. |
| LoadUserData.AllUserRefsNamedByUsername | src/DataFixtures/ORM/LoadUserData.php:120 | Every expected user is registered as `"User-" + username`. |
| LoadUserData.LoadCallOrder | src/DataFixtures/ORM/LoadUserData.php:117-120 | In a completed load, call 2i after the earlier calls persists a user, and call 2i+1 registers that same user as `"User-" + username`. The flush is the last call. |
| LoadUserData.ExpectedRegistrations | src/DataFixtures/ORM/LoadUserData.php:103-120 | Registering the expected users binds `"User-john-" + short code` to role i's user and `"User-john"` to the default user. |
| LoadUserData.LoadRegistersUsers | src/DataFixtures/ORM/LoadUserData.php:117-120 | After a completed load, `"User-john-" + short code` is bound to role i's user, in its UserGroup, and `"User-john"` to the default user. |
| LoadUserData.LoadFailureDoesNotFlush | src/DataFixtures/ORM/LoadUserData.php:71-76 | A load that throws has not flushed. |
| LoadUserData.CreateUsersNoFlush | src/DataFixtures/ORM/LoadUserData.php:71 | Creating users never flushes. |

## Left out

- Dependency injection:
  - `setContainer` is not modelled.
  - The service-locator lookup of the roles service is not modelled. The role list and `getShort` are parameters instead, and `getShort` is an arbitrary function.
- The object manager's database work is not modelled. `persist` and `flush` are entries in a call log; which rows reach the database is not modelled.
- The reference repository is the Doctrine data-fixtures library's, which is not part of this model. The model follows that library:
  - `addReference` on a name already taken throws;
  - `getReference` of an unknown name throws.
- The UserGroup fixture loader is not part of this model. The UserGroups are whatever the reference table holds on entry.
- A reference of the wrong type makes `addUserGroup`'s parameter type throw. It is modelled as the `NotAUserGroup` error, not as a PHP TypeError.
- The User entity's other behaviour is not modelled: roles derived from groups, ids, password encoding. The model keeps only the fields the loader sets.
- Reflection:
  - `class_implements` is modelled as the given set `restDtos`. The error it raises for a class that does not exist is not modelled.
  - `instanceof ControllerInterface` is a flag on the controller.
  - `get_class` is the controller's class name.
- `(int)$exception->getCode()` is taken to be already an int. A Throwable with a string code (such as a PDO error code) is not modelled.
- `mb_strrpos` and `mb_substr` work on sequences of characters. Multibyte encodings are not modelled.
- The entity manager's unit of work is not modelled beyond the set of ids in state MANAGED and the set of ids `find` returns. Other entity states are not modelled.
- HttpException headers are not modelled. MethodNotAllowed carries its allow-list, which becomes the Allow header.
- `processCriteria` is an empty hook and is not modelled.
- ProcessForm: only the calls on the form are modelled. Left out are:
  - the form object it returns;
  - the options passed to `createNamed`;
  - what `getDtoForEntity` loads, and the not-found exception it may throw;
  - how the form decides it is valid, which is a given flag;
  - what the response handler's handleFormError does. It is a given outcome: it either returns or throws a given exception, and throwing is what it is meant to do.
- RestMethodHelper.QualifiedNameResolvesLikeBare: it requires that the bare name not start with `:`. For such a name the last `::` starts one character later, so the cut also removes that colon (see `RestMethodHelper.ColonLedNameLosesColon`).
