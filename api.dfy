/** What each HTTP handler of the backend does to the tables and what it answers, as
    functions of the tables before the request. `fault` parameters stand for an error the
    SQLite engine reports for reasons outside this model (I/O, a locked file). */
module Api {
  import opened Tables

  /** The answer of a handler: 200 with a value, 400, 401 or 500. */
  datatype Response<T> = Ok(value: T) | Conflict | Unauthorized | StoreError

  /** The tables after a request, and its answer. */
  datatype Outcome<T> = Outcome(db: Db, response: Response<T>)

  /** `INSERT INTO users (username, password) VALUES (?, ?)`: fails on the UNIQUE
      constraint or a fault; otherwise AUTOINCREMENT hands out the next id. */
  function InsertUser(db: Db, username: Text, password: Text, fault: bool): (r: Outcome<int>)
    ensures r.db.schema == db.schema
    ensures r.db.recipes == db.recipes && r.db.recipeSeq == db.recipeSeq
    ensures r.response.Ok? <==> !fault && !NameTaken(db.users, username)
    ensures !r.response.Ok? ==> r == Outcome(db, StoreError)
    ensures r.response.Ok? ==>
      && r.db.users == db.users + [User(r.response.value, username, password)]
      && db.userSeq < r.response.value == r.db.userSeq
  {
    if fault || UserNamed(db.users, username).Some? then Outcome(db, StoreError)
    else
      var id := db.userSeq + 1;
      Outcome(db.(users := db.users + [User(id, username, password)], userSeq := id), Ok(id))
  }

  /** The user insert keeps the tables' constraints, and a new id is above every id the
      table holds. */
  lemma InsertUserKeepsValid(db: Db, username: Text, password: Text, fault: bool)
    requires Valid(db)
    ensures var r := InsertUser(db, username, password, fault);
      && Valid(r.db)
      && (r.response.Ok? ==> forall u :: u in db.users ==> 0 < u.id < r.response.value)
  {
  }

  /** POST /api/register: look the username up, answer 400 if a row has it, else insert.
      A failed lookup is ignored and the insert runs anyway. */
  function Register(db: Db, username: Text, password: Text, lookupFault: bool, insertFault: bool)
    : (r: Outcome<int>)
    requires Valid(db)
    ensures Valid(r.db)
    ensures r.response.Ok? || r.response.Conflict? || r.response.StoreError?
    ensures r.response.Conflict? <==> !lookupFault && NameTaken(db.users, username)
    ensures r.response.Ok? <==> !insertFault && !NameTaken(db.users, username)
    ensures !r.response.Ok? ==> r.db == db
    ensures r.response.Ok? ==>
      && db.userSeq < r.response.value
      && r.db == db.(users := db.users + [User(r.response.value, username, password)], userSeq := r.response.value)
      && (forall u :: u in db.users ==> 0 < u.id < r.response.value)
  {
    if !lookupFault && UserNamed(db.users, username).Some? then Outcome(db, Conflict)
    else
      InsertUserKeepsValid(db, username, password, insertFault);
      InsertUser(db, username, password, insertFault)
  }

  /** POST /api/login: the id of a row matching both fields, else 401 (a failed query
      also answers 401). */
  function Login(db: Db, username: Text, password: Text, fault: bool): (r: Response<int>)
    ensures r.Ok? || r.Unauthorized?
    ensures r.Ok? <==>
      !fault && exists i :: 0 <= i < |db.users| && Credentials(db.users[i], username, password)
    ensures r.Ok? ==>
      exists i :: 0 <= i < |db.users| && Credentials(db.users[i], username, password) && db.users[i].id == r.value
  {
    if fault then Unauthorized
    else
      match UserWithCredentials(db.users, username, password)
      case Some(u) =>
        assert exists i :: 0 <= i < |db.users| && db.users[i] == u;
        Ok(u.id)
      case None => Unauthorized
  }

  /** GET /api/recipes?userId=: the rows whose `userId` equals the parameter. */
  function ListByUser(db: Db, userId: Nullable<int>, fault: bool): (r: Response<seq<Recipe>>)
    ensures r.Ok? <==> !fault
    ensures !r.Ok? ==> r == StoreError
    ensures r.Ok? ==> forall x :: x in r.value <==> x in db.recipes && SqlEq(x.userId, userId)
    ensures r.Ok? && IdsAscending(db.recipes) ==> IdsAscending(r.value)
  {
    if fault then StoreError
    else
      assert IdsAscending(db.recipes) ==> IdsAscending(OwnedBy(db.recipes, userId)) by {
        if IdsAscending(db.recipes) { OwnedByAscending(db.recipes, userId); }
      }
      Ok(OwnedBy(db.recipes, userId))
  }

  /** GET /api/all-recipes and GET /recipes: every row of every user. */
  function ListAll(db: Db, fault: bool): (r: Response<seq<Recipe>>)
    ensures r.Ok? <==> !fault
    ensures !r.Ok? ==> r == StoreError
    ensures r.Ok? ==> r.value == db.recipes
  {
    if fault then StoreError else Ok(db.recipes)
  }

  /** `INSERT INTO recipes (...) VALUES (...)`: fails on a NOT NULL constraint or a
      fault; otherwise appends one row under the next AUTOINCREMENT id. */
  function InsertRecipe(db: Db, f: Fields, origin: Text, userId: Nullable<int>, fault: bool)
    : (r: Outcome<int>)
    ensures r.db.schema == db.schema
    ensures r.db.users == db.users && r.db.userSeq == db.userSeq
    ensures r.response.Ok? <==>
      !fault && f.Required() && (db.schema.originNotNull ==> origin.Value?)
    ensures !r.response.Ok? ==> r == Outcome(db, StoreError)
    ensures r.response.Ok? ==>
      && r.db.recipes == db.recipes + [Row(r.response.value, f, origin, userId)]
      && db.recipeSeq < r.response.value == r.db.recipeSeq
  {
    var id := db.recipeSeq + 1;
    if fault || !NotNullHolds(db.schema, Row(id, f, origin, userId)) then Outcome(db, StoreError)
    else Outcome(db.(recipes := db.recipes + [Row(id, f, origin, userId)], recipeSeq := id), Ok(id))
  }

  /** The recipe insert keeps the tables' constraints, and a new id is above every id the
      table holds. */
  lemma InsertRecipeKeepsValid(db: Db, f: Fields, origin: Text, userId: Nullable<int>, fault: bool)
    requires Valid(db)
    ensures var r := InsertRecipe(db, f, origin, userId, fault);
      && Valid(r.db)
      && (r.response.Ok? ==> forall x :: x in db.recipes ==> x.id < r.response.value)
  {
  }

  /** POST /api/recipes: the insert names no `origin`, so the row gets NULL there. Under
      the declared schema it is therefore always refused with 500. */
  function AddRecipe(db: Db, f: Fields, userId: Nullable<int>, fault: bool): (r: Outcome<int>)
    requires Valid(db)
    ensures Valid(r.db)
    ensures db.schema.originNotNull ==> r == Outcome(db, StoreError)
    ensures r.response.Ok? <==> !fault && f.Required() && !db.schema.originNotNull
    ensures !r.response.Ok? ==> r == Outcome(db, StoreError)
    ensures r.response.Ok? ==>
      && db.recipeSeq < r.response.value
      && r.db == db.(recipes := db.recipes + [Row(r.response.value, f, Null, userId)], recipeSeq := r.response.value)
      && (forall x :: x in db.recipes ==> x.id < r.response.value)
  {
    InsertRecipeKeepsValid(db, f, Null, userId, fault);
    InsertRecipe(db, f, Null, userId, fault)
  }

  /** PUT /api/recipes/:id: overwrite the five client columns of the row with that id.
      Refused when that row would get a NULL in a NOT NULL column; an id no row has
      still answers 200. */
  function UpdateRecipe(db: Db, id: int, f: Fields, fault: bool): (r: Outcome<()>)
    requires Valid(db)
    ensures Valid(r.db) && r.db.schema == db.schema
    ensures r.response == Ok(()) || r.response == StoreError
    ensures r.response.StoreError? <==> fault || (IdPresent(db.recipes, id) && !f.Required())
    ensures r.response.StoreError? ==> r.db == db
    ensures !fault && !IdPresent(db.recipes, id) ==> r == Outcome(db, Ok(()))
    ensures r.response.Ok? ==>
      && r.db.users == db.users && r.db.userSeq == db.userSeq && r.db.recipeSeq == db.recipeSeq
      && |r.db.recipes| == |db.recipes|
      && (forall k :: 0 <= k < |db.recipes| ==>
            var (before, after) := (db.recipes[k], r.db.recipes[k]);
            && after.id == before.id && after.userId == before.userId && after.origin == before.origin
            && (before.id == id ==> after == Revised(before, f))
            && (before.id != id ==> after == before))
  {
    if fault || exists k :: 0 <= k < |db.recipes| && db.recipes[k].id == id && !NotNullHolds(db.schema, Revised(db.recipes[k], f))
    then Outcome(db, StoreError)
    else
      var recipes := Overwrite(db.recipes, id, f);
      OverwriteKeepsValid(db.schema, db.recipes, db.recipeSeq, id, f);
      assert forall k :: 0 <= k < |db.recipes| && db.recipes[k].id == id ==> recipes[k] == Revised(db.recipes[k], f);
      assert !IdPresent(db.recipes, id) ==> recipes == db.recipes;
      Outcome(db.(recipes := recipes), Ok(()))
  }

  /** DELETE /api/recipes/:id: remove the row with that id; an id no row has still
      answers 200. */
  function DeleteRecipe(db: Db, id: int, fault: bool): (r: Outcome<()>)
    requires Valid(db)
    ensures Valid(r.db)
    ensures r.response.Ok? <==> !fault
    ensures !r.response.Ok? ==> r == Outcome(db, StoreError)
    ensures r.db.schema == db.schema
    ensures r.db.users == db.users && r.db.userSeq == db.userSeq && r.db.recipeSeq == db.recipeSeq
    ensures r.response.Ok? ==> forall x :: x in r.db.recipes <==> x in db.recipes && x.id != id
    ensures !IdPresent(db.recipes, id) ==> r.db == db
  {
    if fault then Outcome(db, StoreError)
    else
      assert !IdPresent(db.recipes, id) ==> WithoutId(db.recipes, id) == db.recipes by {
        if !IdPresent(db.recipes, id) { WithoutAbsentId(db.recipes, id); }
      }
      var recipes := WithoutId(db.recipes, id);
      Outcome(db.(recipes := recipes), Ok(()))
  }
}
