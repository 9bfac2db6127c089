# Recipe backend store

A Dafny model of the data layer behind the Express handlers of the recipe app's backend
(`backend/index.js`). The backend owns one SQLite file with two tables. `users` has an
AUTOINCREMENT id, a UNIQUE username and a cleartext password. `recipes` has an AUTOINCREMENT
id, the NOT NULL text columns title, origin, description, ingredients and steps, and the
nullable `imagePath` and `userId` columns. At startup the backend seeds an `admin`/`admin`
user and then inserts each of eight fixed recipes for it unless the admin already has
a recipe of that title. The recipe insert has no error callback, so a failed insert
ends the process. Each HTTP handler runs one or two SQL statements against the tables.

The model has five modules:

- `Tables` holds the rows and SQL NULL (`Nullable`, where `SqlEq` is never true on NULL).
  It also holds the constraints the engine enforces (`Valid`, `NotNullHolds`) and the
  row-level queries the statements run (`UserNamed`, `OwnedBy`, `WithoutId`, `Overwrite`, …).
- `Api` gives each handler as a function from the tables before the request to the tables
  after it and the answer (`Ok`, 400 `Conflict`, 401 `Unauthorized`, 500 `StoreError`).
- `Seeding` gives the startup seed: the admin insert, the per-recipe lookup-then-insert
  loop, and the fixed recipe list. A seed run ends with the tables and a `halted` flag
  that says whether a failed recipe insert ended the process.
- `Backend.Store` is the database handle as a class. Its fields are both tables and both
  AUTOINCREMENT counters (the `sqlite_sequence` values), and its methods update them in
  place. Every method is proved to leave exactly the state, and return exactly the answer,
  that the matching `Api` or `Seeding` function gives.
- `Properties` holds the lemmas that relate several requests.

An error the SQLite engine reports for reasons outside the model (I/O, a locked file) is a
boolean `fault` parameter. The NOT NULL constraint on `origin` is a `Schema` parameter:
`DECLARED` is the table as `backend/index.js:21-31` creates it, and `ORIGIN_NULLABLE` is the
same table without that constraint (see Findings).

## Model

| member | source | states |
|---|---|---|
| Tables.UserNamed | backend/index.js:129 | finds a user exactly when some row's username equals the name under SQL equality; the row found is in the table and has that name |
| Tables.UserWithCredentials | backend/index.js:143 | finds a user exactly when some row matches both username and password (NULL matches nothing); the row found is in the table and matches |
| Tables.OwnedBy | backend/index.js:155 | a row is selected exactly when it is in the table and its userId equals the parameter (never for NULL); never more rows than the table |
| Tables.OwnedByAscending | backend/index.js:155 | the selected rows keep ascending id (rowid) order |
| Tables.WithoutId | backend/index.js:177 | a row survives the delete exactly when it is in the table and has another id; ascending id order is kept |
| Tables.WithoutAbsentId | backend/index.js:175-181 | deleting an id no row has leaves the table as it was |
| Tables.Overwrite | backend/index.js:187-189 | same number of rows; every row keeps id, origin and userId; rows with the id get the five sent columns; all other rows are unchanged |
| Tables.OverwriteKeepsValid | backend/index.js:23-27 | the update keeps every NOT NULL constraint, ascending ids and the id bound when a revised row gets all four required columns |
| Api.InsertUser | backend/index.js:133-134 | succeeds exactly when the engine does not fail and no row has the username (UNIQUE); on success appends exactly one user under an id above the counter, which becomes the new counter; otherwise nothing changes and the answer is 500 |
| Api.InsertUserKeepsValid | backend/index.js:14-18 | the user insert keeps unique usernames and ascending positive ids, and a new id is above every id in the table |
| Api.Register | backend/index.js:127-137 | 400 exactly when the lookup works and the name is taken; 200 exactly when the insert does not fail and the name is free; on success the new state is the old one with one user row holding the sent fields appended under an id above the counter (and every existing id), and that id as the new counter; otherwise the tables are unchanged |
| Api.Login | backend/index.js:141-150 | 200 exactly when the query works and some row matches both fields, with that row's id; 401 in every other case (a failed query included); no table changes |
| Api.ListByUser | backend/index.js:153-159 | on success lists exactly the rows whose userId equals the parameter, in id order when the table is; 500 exactly on a fault |
| Api.ListAll | backend/index.js:198-213 | both routes return every row of `recipes` on success and 500 exactly on a fault |
| Api.InsertRecipe | backend/index.js:164-166 | succeeds exactly when the engine does not fail and every NOT NULL column of the schema gets a value; on success appends exactly the row sent under the next counter value; otherwise nothing changes and the answer is 500 |
| Api.InsertRecipeKeepsValid | backend/index.js:21-31 | the recipe insert keeps the NOT NULL constraints, ascending ids and the id bound, and a new id is above every id in the table |
| Api.AddRecipe | backend/index.js:162-172 | the row gets NULL for origin, so under the declared schema the answer is always 500 with no change; otherwise 200 exactly for four present text fields without a fault; on success the new state is the old one with that row appended under an id above the counter (and every existing id), and that id as the new counter |
| Api.UpdateRecipe | backend/index.js:184-195 | 500 with no change exactly on a fault or when a row with the id exists and a required field is missing; an id no row has answers 200 with no change; on success every row keeps id, userId and origin, the row with the id gets the five sent columns, and every other row, the other table and the schema are unchanged |
| Api.DeleteRecipe | backend/index.js:175-181 | 200 exactly when the engine does not fail; a row is kept exactly when it has another id; users, schema and both counters unchanged; an id no row has changes nothing |
| Seeding.SeedAdmin | backend/index.js:34-37 | afterwards a user is named `admin`; if one already was, nothing changes; otherwise exactly one `admin`/`admin` row is appended under a fresh id; recipes untouched |
| Seeding.SeedOne | backend/index.js:112-119 | one loop turn never touches users; a failed lookup or a title the admin already has changes nothing and does not halt; otherwise the turn halts, with the tables unchanged, exactly when the insert fails (a fault, or origin NOT NULL), and else appends exactly the seed row under the next counter value, which becomes the counter |
| Seeding.SeedUpTo | backend/index.js:111-120 | the loop's turns never touch users and only extend the recipe table |
| Seeding.Seed | backend/index.js:33-121 | the seed only extends both tables; a failed admin insert changes nothing and does not halt; otherwise an `admin` user exists afterwards |
| Seeding.SeedUpToHaltedStays | backend/index.js:111-120 | once a turn has ended the process, no later turn changes anything |
| Seeding.SeedUpToKeepsValid | backend/index.js:111-120 | every turn of the seed loop keeps the tables' constraints |
| Seeding.SeedKeepsValid | backend/index.js:33-121 | the whole seed keeps the tables' constraints |
| Backend.Store.Open | backend/index.js:7-31 | the handle starts on a valid file's tables |
| Backend.Store.InsertUser | backend/index.js:133-134 | new state and answer are those of `Api.InsertUser`; constraints kept |
| Backend.Store.Register | backend/index.js:127-137 | new state and answer are those of `Api.Register`; constraints kept |
| Backend.Store.Login | backend/index.js:141-150 | answer is that of `Api.Login`; changes nothing |
| Backend.Store.ListByUser | backend/index.js:153-159 | answer is that of `Api.ListByUser`; changes nothing |
| Backend.Store.ListAll | backend/index.js:198-213 | answer is that of `Api.ListAll`; changes nothing |
| Backend.Store.InsertRecipe | backend/index.js:164-166 | new state and answer are those of `Api.InsertRecipe`; constraints kept |
| Backend.Store.AddRecipe | backend/index.js:162-172 | new state and answer are those of `Api.AddRecipe`; constraints kept |
| Backend.Store.UpdateRecipe | backend/index.js:184-195 | new state and answer are those of `Api.UpdateRecipe`; constraints kept |
| Backend.Store.DeleteRecipe | backend/index.js:175-181 | new state and answer are those of `Api.DeleteRecipe`; constraints kept |
| Backend.Store.SeedAdmin | backend/index.js:34-37 | new state is that of `Seeding.SeedAdmin`; constraints kept |
| Backend.Store.SeedOne | backend/index.js:112-119 | turn `i` takes the state after `i` turns to the state and halt flag after `i + 1` turns; constraints kept |
| Backend.Store.SeedRecipes | backend/index.js:111-120 | the loop over a recipe list, stopping at a halt, leaves the state and halt flag `Seeding.SeedUpTo` gives after all turns; constraints kept |
| Backend.Store.Seed | backend/index.js:33-121 | new state and halt flag are those of `Seeding.Seed` over the eight fixed recipes; constraints kept |
| Properties.LoginReturnsMatchingId | backend/index.js:141-150 | with UNIQUE usernames, login with a row's credentials answers with that row's id |
| Properties.RegisterThenLogin | backend/index.js:127-150 | logging in with credentials just registered answers with the id the registration returned |
| Properties.RegisterTwiceConflicts | backend/index.js:127-137 | registering a non-NULL username a second time answers 400 and changes nothing |
| Properties.NullUsernameNeverConflicts | backend/index.js:128-133 | a registration without a username is never refused as taken; it succeeds exactly when the insert does not fail |
| Properties.AddedRecipeListedForOwnerOnly | backend/index.js:153-172 | an added recipe is listed for its owner and for no other userId |
| Properties.DeletedRecipeNotListed | backend/index.js:153-181 | after a delete no list shows that id, and every other row of the user is still listed |
| Properties.NoIdReuseAfterDelete | backend/index.js:162-181 | a recipe added after a delete gets an id above every id the table held before the delete |
| Properties.SeedUpToSettles | backend/index.js:111-120 | fault-free turns never halt with origin nullable, and unless they halt the admin owns each of their titles afterwards |
| Properties.SeedUpToStable | backend/index.js:111-120 | turns over titles the admin already owns change nothing and do not halt, whatever fails |
| Properties.SeedUpToUnderNotNull | backend/index.js:111-120 | with origin NOT NULL the loop leaves the tables unchanged, whatever fails |
| Properties.SeedIdempotent | backend/index.js:33-121 | a second seed run after a fault-free one, with or without faults, changes no table, and halts only if the first one did |
| Properties.SeedLeavesOneAdmin | backend/index.js:34-49 | after any seed whose admin insert went through, exactly one user is named `admin` |
| Properties.SeedAddsNoRecipesUnderDeclaredSchema | backend/index.js:111-121 | under the declared schema the seed inserts no recipe at all |
| Properties.SeedHaltsUnderDeclaredSchema | backend/index.js:111-121 | under the declared schema a start on a file without recipes ends the process and leaves the file without recipes, so every restart ends the same way |
| Properties.AddRecipeFailsUnderDeclaredSchema | backend/index.js:162-172 | under the declared schema every add-recipe request answers 500 and changes nothing |
| Properties.AddRecipeStoresUnderNullableOrigin | backend/index.js:162-172 | with origin nullable, a complete request stores exactly the row sent under an id above the counter |
| Properties.SeedInstallsEveryRecipe | backend/index.js:111-121 | with origin nullable, a fault-free seed does not halt and leaves the admin owning a recipe of every title in the list |
| Properties.SeedUpToAppends | backend/index.js:111-120 | with origin nullable, distinct titles the admin does not own yet, and no fault, the turns append exactly one seed row per recipe in list order under consecutive ids, and do not halt |
| Properties.SeedNewFile | backend/index.js:33-121 | with origin nullable, a fault-free first start on a new file leaves exactly `admin` with id 1 and the listed recipes owned by it under ids 1, 2, … |
| Properties.SeedRecipeTitlesDistinct | backend/index.js:52-109 | the eight fixed recipes have distinct titles |
| Properties.SeedNewFileInstallsFixedRecipes | backend/index.js:33-121 | with origin nullable, the first start on a new file leaves the admin owning exactly the eight fixed recipes under ids 1 to 8 |

## Left out

- Express routing, CORS, body parsing, JSON serialisation, `app.listen` and console logging: I/O plumbing. Only the kind of answer (200, 400, 401, 500) and its id or rows are kept, not the message texts or the differing error payload shapes.
- The SQLite engine itself: each statement is one atomic table operation. An engine error other than a constraint violation is a `fault` parameter.
- Asynchronous interleaving: the seed queues all eight lookups before the inserts they trigger. The model runs lookup and insert turn by turn. Each lookup only asks about its own title, so with distinct titles both orders should insert the same rows, but that is not proved here.
- The race between two concurrent registrations of one name. In a sequential model the UNIQUE violation on the register insert happens only when the lookup failed.
- SQLite type affinity: ids are integers, although `userId` arrives as a query string.
- Foreign keys: SQLite does not enforce them by default, so `userId` is never checked against `users`.
- What a halt does to the rest of the process: the model reports it as the `halted` flag of a seed run and does not stop the handlers. The backend starts listening before the seed's asynchronous statements finish, so requests served before the exit are not ordered against the seed.
- That a statement run without a callback turns its error into an `'error'` event, which ends the process when nobody listens, is the SQLite driver's behaviour, not `backend/index.js`; the model takes it as given.
- AUTOINCREMENT exhaustion at 2^63 - 1: the counters are unbounded naturals.
- `android/app/build.gradle.kts` is build configuration and is not part of this model.

## Findings

| source | as written | input that shows it | evidently intended | confidence | as-written member | corrected member |
|---|---|---|---|---|---|---|
| backend/index.js:162-172 | `origin` is declared NOT NULL at line 24, but the insert at line 165 has no `origin` column, so the row gets NULL and the engine rejects it | any POST /api/recipes with title, description, ingredients and steps against a `db.sqlite` created by this code | the recipe is stored and its new id returned | high, not executed | Properties.AddRecipeFailsUnderDeclaredSchema | Properties.AddRecipeStoresUnderNullableOrigin |
| backend/index.js:111-121 | the seed insert at line 116 also omits `origin`, so it fails; it has no callback, so the error is an unhandled `'error'` event and the backend exits, on this and on every later start | first start on a new `db.sqlite` | the admin owns the eight popular recipes after startup and the backend keeps running | high that the insert fails, medium that the process exits; not executed | Properties.SeedHaltsUnderDeclaredSchema | Properties.SeedNewFileInstallsFixedRecipes |
