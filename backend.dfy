/** The backend's one database handle: both tables and their AUTOINCREMENT counters as
    fields that the handlers update in place. Each handler's result and new state are the
    ones its function in `Api` or `Seeding` gives for the state before the request. */
module Backend {
  import opened Tables
  import Api
  import Seeding

  class Store {
    const schema: Schema
    var users: seq<User>
    var recipes: seq<Recipe>
    var userSeq: nat
    var recipeSeq: nat

    function State(): Db
      reads this
    {
      Db(schema, users, recipes, userSeq, recipeSeq)
    }

    predicate Valid()
      reads this
    {
      Tables.Valid(State())
    }

    /** Opens the database file: `db` is what it holds after `CREATE TABLE IF NOT EXISTS`
        (`Empty(DECLARED)` for a new file). */
    constructor Open(db: Db)
      requires Tables.Valid(db)
      ensures Valid() && State() == db
    {
      schema := db.schema;
      users, recipes := db.users, db.recipes;
      userSeq, recipeSeq := db.userSeq, db.recipeSeq;
    }

    method InsertUser(username: Text, password: Text, fault: bool) returns (r: Api.Response<int>)
      requires Valid()
      modifies this
      ensures Valid()
      ensures Api.Outcome(State(), r) == Api.InsertUser(old(State()), username, password, fault)
    {
      if fault || UserNamed(users, username).Some? {
        return Api.StoreError;
      }
      userSeq := userSeq + 1;
      users := users + [User(userSeq, username, password)];
      r := Api.Ok(userSeq);
    }

    method Register(username: Text, password: Text, lookupFault: bool, insertFault: bool)
      returns (r: Api.Response<int>)
      requires Valid()
      modifies this
      ensures Valid()
      ensures Api.Outcome(State(), r) == Api.Register(old(State()), username, password, lookupFault, insertFault)
    {
      var row := if lookupFault then None else UserNamed(users, username);
      if row.Some? {
        return Api.Conflict;
      }
      r := InsertUser(username, password, insertFault);
    }

    method Login(username: Text, password: Text, fault: bool) returns (r: Api.Response<int>)
      ensures r == Api.Login(State(), username, password, fault)
    {
      var row := if fault then None else UserWithCredentials(users, username, password);
      if row.Some? {
        r := Api.Ok(row.value.id);
      } else {
        r := Api.Unauthorized;
      }
    }

    method ListByUser(userId: Nullable<int>, fault: bool) returns (r: Api.Response<seq<Recipe>>)
      ensures r == Api.ListByUser(State(), userId, fault)
    {
      if fault {
        return Api.StoreError;
      }
      r := Api.Ok(OwnedBy(recipes, userId));
    }

    /** Serves both GET /api/all-recipes and GET /recipes. */
    method ListAll(fault: bool) returns (r: Api.Response<seq<Recipe>>)
      ensures r == Api.ListAll(State(), fault)
    {
      if fault {
        return Api.StoreError;
      }
      r := Api.Ok(recipes);
    }

    method InsertRecipe(f: Fields, origin: Text, userId: Nullable<int>, fault: bool)
      returns (r: Api.Response<int>)
      requires Valid()
      modifies this
      ensures Valid()
      ensures Api.Outcome(State(), r) == Api.InsertRecipe(old(State()), f, origin, userId, fault)
    {
      var row := Row(recipeSeq + 1, f, origin, userId);
      if fault || !NotNullHolds(schema, row) {
        return Api.StoreError;
      }
      recipeSeq := recipeSeq + 1;
      recipes := recipes + [row];
      r := Api.Ok(recipeSeq);
    }

    method AddRecipe(f: Fields, userId: Nullable<int>, fault: bool) returns (r: Api.Response<int>)
      requires Valid()
      modifies this
      ensures Valid()
      ensures Api.Outcome(State(), r) == Api.AddRecipe(old(State()), f, userId, fault)
    {
      r := InsertRecipe(f, Null, userId, fault);
    }

    method UpdateRecipe(id: int, f: Fields, fault: bool) returns (r: Api.Response<()>)
      requires Valid()
      modifies this
      ensures Valid()
      ensures Api.Outcome(State(), r) == Api.UpdateRecipe(old(State()), id, f, fault)
    {
      if fault || exists k :: 0 <= k < |recipes| && recipes[k].id == id && !NotNullHolds(schema, Revised(recipes[k], f)) {
        return Api.StoreError;
      }
      recipes := Overwrite(recipes, id, f);
      r := Api.Ok(());
    }

    method DeleteRecipe(id: int, fault: bool) returns (r: Api.Response<()>)
      requires Valid()
      modifies this
      ensures Valid()
      ensures Api.Outcome(State(), r) == Api.DeleteRecipe(old(State()), id, fault)
    {
      if fault {
        return Api.StoreError;
      }
      recipes := WithoutId(recipes, id);
      r := Api.Ok(());
    }

    /** The admin part of the startup seed: insert `admin`/`admin` unless that name exists. */
    method SeedAdmin()
      requires Valid()
      modifies this
      ensures Valid()
      ensures State() == Seeding.SeedAdmin(old(State()))
    {
      if !NameTaken(users, Value(Seeding.ADMIN_NAME)) {
        var inserted := InsertUser(Value(Seeding.ADMIN_NAME), Value(Seeding.ADMIN_NAME), false);
      }
    }

    /** `seedRecipes.forEach`: one turn per fixed recipe, in order, until a failed insert
        ends the process. */
    method SeedRecipes(adminId: int, list: seq<Seeding.SeedRecipe>, faults: Seeding.SeedFaults)
      returns (halted: bool)
      requires Valid()
      modifies this
      ensures Valid()
      ensures Seeding.SeedRun(State(), halted) == Seeding.SeedUpTo(old(State()), adminId, list, |list|, faults)
    {
      ghost var start := State();
      var i := 0;
      halted := false;
      while i < |list| && !halted
        invariant 0 <= i <= |list|
        invariant Valid() && Seeding.SeedRun(State(), halted) == Seeding.SeedUpTo(start, adminId, list, i, faults)
      {
        halted := SeedOne(start, adminId, list, i, faults);
        i := i + 1;
      }
      if halted {
        Seeding.SeedUpToHaltedStays(start, adminId, list, i, |list|, faults);
      }
    }

    /** Turn `i` of `seedRecipes.forEach`, from the state the first `i` turns left behind:
        look the title up among the admin's recipes and insert it when absent. The insert
        has no callback, so its failure ends the process. */
    method SeedOne(ghost start: Db, adminId: int, list: seq<Seeding.SeedRecipe>, i: nat, faults: Seeding.SeedFaults)
      returns (halted: bool)
      requires Valid() && i < |list|
      requires Seeding.SeedRun(State(), false) == Seeding.SeedUpTo(start, adminId, list, i, faults)
      modifies this
      ensures Valid()
      ensures Seeding.SeedRun(State(), halted) == Seeding.SeedUpTo(start, adminId, list, i + 1, faults)
    {
      var s := list[i];
      halted := false;
      if i !in faults.recipeLookups && !HasTitleFor(recipes, Value(s.title), Value(adminId)) {
        var r := InsertRecipe(Seeding.SeedFields(s), Null, Value(adminId), i in faults.recipeInserts);
        halted := r.StoreError?;
      }
    }

    /** The startup seed: the admin user, then the fixed recipes. */
    method Seed(faults: Seeding.SeedFaults) returns (halted: bool)
      requires Valid()
      modifies this
      ensures Valid()
      ensures Seeding.SeedRun(State(), halted) == Seeding.Seed(old(State()), Seeding.SEED_RECIPES, faults)
    {
      halted := false;
      if faults.adminInsert {
        return;
      }
      SeedAdmin();
      var admin := UserNamed(users, Value(Seeding.ADMIN_NAME));
      if faults.adminLookup || admin.None? {
        return;
      }
      halted := SeedRecipes(admin.value.id, Seeding.SEED_RECIPES, faults);
    }
  }
}
