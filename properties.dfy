/** Properties that relate several requests: accounts, recipe lists, fresh ids, and the
    startup seed run once or more. */
module Properties {
  import opened Tables
  import opened Api
  import opened Seeding

  // ---------------------------------------------------------------- accounts

  /** With UNIQUE usernames, login answers with the id of the row that matches both fields. */
  lemma LoginReturnsMatchingId(db: Db, i: int, username: Text, password: Text)
    requires Valid(db) && 0 <= i < |db.users| && Credentials(db.users[i], username, password)
    ensures Login(db, username, password, false) == Ok(db.users[i].id)
  {
    var r := Login(db, username, password, false);
    var j :| 0 <= j < |db.users| && Credentials(db.users[j], username, password) && db.users[j].id == r.value;
  }

  /** Logging in with the credentials just registered answers with the new id. */
  lemma RegisterThenLogin(db: Db, username: Text, password: Text, lookupFault: bool, insertFault: bool)
    requires Valid(db) && username.Value? && password.Value?
    requires Register(db, username, password, lookupFault, insertFault).response.Ok?
    ensures var r := Register(db, username, password, lookupFault, insertFault);
      Login(r.db, username, password, false) == Ok(r.response.value)
  {
    var r := Register(db, username, password, lookupFault, insertFault);
    var last := |r.db.users| - 1;
    assert r.db.users[last] == User(r.response.value, username, password);
    LoginReturnsMatchingId(r.db, last, username, password);
  }

  /** Registering a username that was just registered answers 400 and changes nothing,
      unless the name is NULL (NULL never equals anything, so it is never taken). */
  lemma RegisterTwiceConflicts(db: Db, username: Text, p1: Text, p2: Text, insertFault: bool)
    requires Valid(db) && username.Value?
    requires Register(db, username, p1, false, false).response.Ok?
    ensures var d := Register(db, username, p1, false, false).db;
      Register(d, username, p2, false, insertFault) == Outcome(d, Conflict)
  {
    var d := Register(db, username, p1, false, false).db;
    assert SqlEq(d.users[|d.users| - 1].username, username);
  }

  /** A register without a username inserts a row whenever the engine does not fail. */
  lemma NullUsernameNeverConflicts(db: Db, password: Text, lookupFault: bool, insertFault: bool)
    requires Valid(db)
    ensures Register(db, Null, password, lookupFault, insertFault).response.Ok? <==> !insertFault
  {
  }

  // ---------------------------------------------------------------- recipes

  /** A recipe added for `owner` is listed for `owner` and for no other user id. */
  lemma AddedRecipeListedForOwnerOnly(db: Db, f: Fields, owner: int, other: Nullable<int>, fault: bool)
    requires Valid(db)
    requires AddRecipe(db, f, Value(owner), fault).response.Ok?
    ensures var r := AddRecipe(db, f, Value(owner), fault);
      var row := Row(r.response.value, f, Null, Value(owner));
      && row in ListByUser(r.db, Value(owner), false).value
      && (other != Value(owner) ==> row !in ListByUser(r.db, other, false).value)
  {
    var r := AddRecipe(db, f, Value(owner), fault);
    assert r.db.recipes[|db.recipes|] == Row(r.response.value, f, Null, Value(owner));
  }

  /** After a delete, no list shows a row with that id, and every other row is still listed. */
  lemma DeletedRecipeNotListed(db: Db, id: int, userId: Nullable<int>)
    requires Valid(db)
    ensures var d := DeleteRecipe(db, id, false).db;
      var listed := ListByUser(d, userId, false).value;
      && (forall x :: x in listed ==> x.id != id)
      && (forall x :: x in db.recipes && x.id != id && SqlEq(x.userId, userId) ==> x in listed)
  {
  }

  /** AUTOINCREMENT never hands a deleted id out again: a recipe added after a delete
      gets an id above every id the table held before the delete. */
  lemma NoIdReuseAfterDelete(db: Db, id: int, f: Fields, userId: Nullable<int>, fault: bool)
    requires Valid(db)
    requires AddRecipe(DeleteRecipe(db, id, false).db, f, userId, fault).response.Ok?
    ensures forall x :: x in db.recipes ==> x.id < AddRecipe(DeleteRecipe(db, id, false).db, f, userId, fault).response.value
  {
    var d := DeleteRecipe(db, id, false).db;
    var newId := AddRecipe(d, f, userId, fault).response.value;
    assert d.recipeSeq < newId;
    forall x | x in db.recipes ensures x.id < newId {
      var k :| 0 <= k < |db.recipes| && db.recipes[k] == x;
    }
  }

  // ---------------------------------------------------------------- seeding

  /** The admin owns a recipe titled like seed recipe `s`, so its turn inserts nothing. */
  predicate Settled(db: Db, adminId: int, s: SeedRecipe)
  {
    HasTitleFor(db.recipes, Value(s.title), Value(adminId))
  }

  lemma HasTitleForExtends(a: seq<Recipe>, b: seq<Recipe>, title: Text, userId: Nullable<int>)
    requires a <= b && HasTitleFor(a, title, userId)
    ensures HasTitleFor(b, title, userId)
  {
    var k :| 0 <= k < |a| && SqlEq(a[k].title, title) && SqlEq(a[k].userId, userId);
    assert b[k] == a[k];
  }

  /** A loop turn never unsettles a recipe. */
  lemma SeedOneKeepsSettled(db: Db, adminId: int, s: SeedRecipe, lookupFault: bool, insertFault: bool, t: SeedRecipe)
    requires Settled(db, adminId, t)
    ensures Settled(SeedOne(db, adminId, s, lookupFault, insertFault).db, adminId, t)
  {
    HasTitleForExtends(db.recipes, SeedOne(db, adminId, s, lookupFault, insertFault).db.recipes, Value(t.title), Value(adminId));
  }

  /** Fault-free loop turns either end the process on a failed insert, or settle each of
      their seed recipes; with `origin` nullable they never end it. */
  lemma {:induction false} SeedUpToSettles(db: Db, adminId: int, list: seq<SeedRecipe>, n: nat)
    requires n <= |list|
    ensures var r := SeedUpTo(db, adminId, list, n, NO_FAULTS);
      && (!db.schema.originNotNull ==> !r.halted)
      && (!r.halted ==> forall k :: 0 <= k < n ==> Settled(r.db, adminId, list[k]))
  {
    if n > 0 {
      SeedUpToSettles(db, adminId, list, n - 1);
      var prev := SeedUpTo(db, adminId, list, n - 1, NO_FAULTS);
      if !prev.halted {
        var next := SeedOne(prev.db, adminId, list[n - 1], false, false);
        assert SeedUpTo(db, adminId, list, n, NO_FAULTS) == next;
        if !HasTitleFor(prev.db.recipes, Value(list[n - 1].title), Value(adminId)) && !next.halted {
          assert next.db.recipes[|prev.db.recipes|] == SeedRow(prev.db.recipeSeq + 1, list[n - 1], adminId);
        }
        forall k | 0 <= k < n - 1 ensures Settled(next.db, adminId, list[k]) {
          SeedOneKeepsSettled(prev.db, adminId, list[n - 1], false, false, list[k]);
        }
      }
    }
  }

  /** Loop turns over settled seed recipes change nothing and never end the process,
      whatever fails. */
  lemma {:induction false} SeedUpToStable(db: Db, adminId: int, list: seq<SeedRecipe>, n: nat, faults: SeedFaults)
    requires n <= |list|
    requires forall k :: 0 <= k < n ==> Settled(db, adminId, list[k])
    ensures SeedUpTo(db, adminId, list, n, faults) == SeedRun(db, false)
  {
    if n > 0 {
      SeedUpToStable(db, adminId, list, n - 1, faults);
      assert Settled(db, adminId, list[n - 1]);
    }
  }

  /** With `origin` NOT NULL no seed insert can succeed, so the loop leaves the tables as
      they were, whether it ends the process or not. */
  lemma {:induction false} SeedUpToUnderNotNull(db: Db, adminId: int, list: seq<SeedRecipe>, n: nat, faults: SeedFaults)
    requires n <= |list| && db.schema.originNotNull
    ensures SeedUpTo(db, adminId, list, n, faults).db == db
  {
    if n > 0 {
      SeedUpToUnderNotNull(db, adminId, list, n - 1, faults);
    }
  }

  /** Seeding is idempotent: after one fault-free run, another run (with or without
      faults) changes no table, and it ends the process only if the first one did. */
  lemma SeedIdempotent(db: Db, list: seq<SeedRecipe>, faults: SeedFaults)
    ensures var once := Seed(db, list, NO_FAULTS);
      && Seed(once.db, list, faults).db == once.db
      && (!once.halted ==> !Seed(once.db, list, faults).halted)
  {
    var once := Seed(db, list, NO_FAULTS);
    if !faults.adminInsert {
      var db1 := SeedAdmin(db);
      var admin := UserNamed(db1.users, Value(ADMIN_NAME));
      assert once == SeedUpTo(db1, admin.value.id, list, |list|, NO_FAULTS);
      assert SeedAdmin(once.db) == once.db;
      if !faults.adminLookup {
        SeedUpToSettles(db1, admin.value.id, list, |list|);
        if once.halted {
          SeedUpToUnderNotNull(once.db, admin.value.id, list, |list|, faults);
        } else {
          SeedUpToStable(once.db, admin.value.id, list, |list|, faults);
        }
      }
    }
  }

  /** However often startup runs, exactly one user is named `admin` once the admin insert
      has gone through. */
  lemma SeedLeavesOneAdmin(db: Db, list: seq<SeedRecipe>, faults: SeedFaults)
    requires Valid(db) && !faults.adminInsert
    ensures var r := Seed(db, list, faults).db;
      exists i :: && 0 <= i < |r.users| && SqlEq(r.users[i].username, Value(ADMIN_NAME))
                  && forall j :: 0 <= j < |r.users| && SqlEq(r.users[j].username, Value(ADMIN_NAME)) ==> j == i
  {
    SeedKeepsValid(db, list, faults);
    var r := Seed(db, list, faults).db;
    var i :| 0 <= i < |r.users| && SqlEq(r.users[i].username, Value(ADMIN_NAME));
  }

  /** Under the declared schema (`origin` NOT NULL) the seed stores no recipe at all:
      every seed insert omits `origin`. */
  lemma SeedAddsNoRecipesUnderDeclaredSchema(db: Db, list: seq<SeedRecipe>, faults: SeedFaults)
    requires db.schema == DECLARED
    ensures Seed(db, list, faults).db.recipes == db.recipes
  {
    if !faults.adminInsert {
      var db1 := SeedAdmin(db);
      var admin := UserNamed(db1.users, Value(ADMIN_NAME));
      if !faults.adminLookup {
        SeedUpToUnderNotNull(db1, admin.value.id, list, |list|, faults);
      }
    }
  }

  /** Under the declared schema, a start on a file without recipes (a new file, or one
      left by an earlier such start) ends the process at the first seed insert, and leaves
      the file without recipes, so the next start ends the same way. */
  lemma SeedHaltsUnderDeclaredSchema(db: Db, list: seq<SeedRecipe>, faults: SeedFaults)
    requires db.schema == DECLARED && db.recipes == [] && |list| > 0
    requires !faults.adminInsert && !faults.adminLookup && 0 !in faults.recipeLookups
    ensures var r := Seed(db, list, faults);
      r.halted && r.db.schema == DECLARED && r.db.recipes == []
  {
    var db1 := SeedAdmin(db);
    var admin := UserNamed(db1.users, Value(ADMIN_NAME));
    assert SeedUpTo(db1, admin.value.id, list, 1, faults).halted;
    SeedUpToHaltedStays(db1, admin.value.id, list, 1, |list|, faults);
  }

  /** Every add-recipe request against the declared schema answers 500 and stores nothing. */
  lemma AddRecipeFailsUnderDeclaredSchema(db: Db, f: Fields, userId: Nullable<int>, fault: bool)
    requires Valid(db) && db.schema == DECLARED
    ensures AddRecipe(db, f, userId, fault) == Outcome(db, StoreError)
  {
  }

  /** With `origin` nullable, a complete add-recipe request stores exactly the row sent,
      under an id above every id the table has held. */
  lemma AddRecipeStoresUnderNullableOrigin(db: Db, f: Fields, userId: Nullable<int>)
    requires Valid(db) && db.schema == ORIGIN_NULLABLE && f.Required()
    ensures var r := AddRecipe(db, f, userId, false);
      && r.response.Ok? && db.recipeSeq < r.response.value
      && r.db.recipes == db.recipes + [Row(r.response.value, f, Null, userId)]
  {
  }

  /** With `origin` nullable, a fault-free seed does not end the process and leaves the
      admin owning a recipe of every title in the list. */
  lemma SeedInstallsEveryRecipe(db: Db, list: seq<SeedRecipe>)
    requires db.schema == ORIGIN_NULLABLE
    ensures var r := Seed(db, list, NO_FAULTS);
      && !r.halted
      && exists u :: u in r.db.users && SqlEq(u.username, Value(ADMIN_NAME)) &&
           forall k :: 0 <= k < |list| ==> HasTitleFor(r.db.recipes, Value(list[k].title), Value(u.id))
  {
    var db1 := SeedAdmin(db);
    var admin := UserNamed(db1.users, Value(ADMIN_NAME));
    SeedUpToSettles(db1, admin.value.id, list, |list|);
    var r := Seed(db, list, NO_FAULTS);
    assert r == SeedUpTo(db1, admin.value.id, list, |list|, NO_FAULTS);
    assert admin.value in r.db.users && SqlEq(admin.value.username, Value(ADMIN_NAME));
    forall k | 0 <= k < |list|
      ensures HasTitleFor(r.db.recipes, Value(list[k].title), Value(admin.value.id))
    {
      assert Settled(r.db, adminId := admin.value.id, s := list[k]);
    }
  }

  predicate TitlesDistinct(list: seq<SeedRecipe>)
  {
    forall i, j :: 0 <= i < j < |list| ==> list[i].title != list[j].title
  }

  /** The rows a fault-free seed appends for the first `n` recipes of `list`, under the
      ids that follow `base`. */
  function SeedRows(base: nat, adminId: int, list: seq<SeedRecipe>, n: nat): seq<Recipe>
    requires n <= |list|
  {
    seq(n, k requires 0 <= k < n => SeedRow(base + k + 1, list[k], adminId))
  }

  /** With `origin` nullable, distinct titles and none of them owned by the admin yet,
      fault-free turns append exactly one row per recipe, in list order, under
      consecutive ids. */
  lemma {:induction false} SeedUpToAppends(db: Db, adminId: int, list: seq<SeedRecipe>, n: nat)
    requires n <= |list| && !db.schema.originNotNull && TitlesDistinct(list)
    requires forall k :: 0 <= k < |list| ==> !Settled(db, adminId, list[k])
    ensures SeedUpTo(db, adminId, list, n, NO_FAULTS) ==
      SeedRun(db.(recipes := db.recipes + SeedRows(db.recipeSeq, adminId, list, n), recipeSeq := db.recipeSeq + n), false)
  {
    if n > 0 {
      SeedUpToAppends(db, adminId, list, n - 1);
      var prev := SeedUpTo(db, adminId, list, n - 1, NO_FAULTS).db;
      var s := list[n - 1];
      assert !HasTitleFor(prev.recipes, Value(s.title), Value(adminId));
      assert SeedRows(db.recipeSeq, adminId, list, n)
        == SeedRows(db.recipeSeq, adminId, list, n - 1) + [SeedRow(db.recipeSeq + n, s, adminId)];
    }
  }

  /** With `origin` nullable, a fault-free first start on a new file leaves exactly the
      `admin` user with id 1 and one row per seed recipe, owned by it, under ids 1, 2, …. */
  lemma SeedNewFile(list: seq<SeedRecipe>)
    requires TitlesDistinct(list)
    ensures Seed(Empty(ORIGIN_NULLABLE), list, NO_FAULTS) ==
      SeedRun(Db(ORIGIN_NULLABLE, [User(1, Value(ADMIN_NAME), Value(ADMIN_NAME))],
                 SeedRows(0, 1, list, |list|), 1, |list|), false)
  {
    var db1 := SeedAdmin(Empty(ORIGIN_NULLABLE));
    assert db1 == Db(ORIGIN_NULLABLE, [User(1, Value(ADMIN_NAME), Value(ADMIN_NAME))], [], 1, 0);
    SeedUpToAppends(db1, 1, list, |list|);
  }

  /** The eight fixed recipes have distinct titles. */
  lemma SeedRecipeTitlesDistinct()
    ensures TitlesDistinct(SEED_RECIPES)
  {
  }

  /** With `origin` nullable, the first start on a new file leaves the admin owning exactly
      the eight fixed recipes, in list order, under ids 1 to 8. */
  lemma SeedNewFileInstallsFixedRecipes()
    ensures Seed(Empty(ORIGIN_NULLABLE), SEED_RECIPES, NO_FAULTS) ==
      SeedRun(Db(ORIGIN_NULLABLE, [User(1, Value(ADMIN_NAME), Value(ADMIN_NAME))],
                 SeedRows(0, 1, SEED_RECIPES, 8), 1, 8), false)
  {
    SeedRecipeTitlesDistinct();
    SeedNewFile(SEED_RECIPES);
  }
}
