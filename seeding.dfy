/** The startup seed: the `admin` user, then the eight popular recipes owned by it, each
    inserted only when that user has no recipe of that title yet. */
module Seeding {
  import opened Tables
  import opened Api

  const ADMIN_NAME: string := "admin"

  datatype SeedRecipe = SeedRecipe(title: string, description: string, ingredients: string, steps: string)

  /** The fixed recipes; none of them has an `imagePath`. */
  const SEED_RECIPES: seq<SeedRecipe> := [
    SeedRecipe("Mie goreng jawa", "Mie goreng khas Jawa dengan bumbu tradisional",
               "mie,telur,sawi,bawang merah,bawang putih,kecap manis",
               "1. Rebus mie\n2. Tumis bumbu\n3. Masukkan mie dan kecap\n4. Aduk rata"),
    SeedRecipe("Rawon daging", "Rawon daging sapi khas Jawa Timur",
               "daging sapi,kluwek,daun bawang,bawang merah,bawang putih",
               "1. Rebus daging\n2. Tumis bumbu\n3. Masukkan kluwek\n4. Masak hingga matang"),
    SeedRecipe("Capcay sayur", "Capcay sayur sehat dan lezat",
               "wortel,kembang kol,sawi,ayam,bawang putih",
               "1. Tumis bawang\n2. Masukkan ayam\n3. Tambahkan sayur\n4. Masak hingga matang"),
    SeedRecipe("Donat kentang", "Donat kentang empuk dan manis",
               "kentang,tepung terigu,gula,mentega,telur",
               "1. Rebus kentang\n2. Campur bahan\n3. Bentuk bulat\n4. Goreng hingga matang"),
    SeedRecipe("Nasi liwet magic com", "Nasi liwet praktis pakai magic com",
               "beras,ayam,santan,daun salam,serai",
               "1. Cuci beras\n2. Masukkan bahan ke magic com\n3. Masak hingga matang"),
    SeedRecipe("Sop iga", "Sop iga sapi segar dan gurih",
               "iga sapi,wortel,kentang,daun bawang,bawang putih",
               "1. Rebus iga\n2. Masukkan sayur\n3. Tambahkan bumbu\n4. Masak hingga matang"),
    SeedRecipe("Tempe bacem", "Tempe bacem manis gurih khas Jawa",
               "tempe,gula merah,air kelapa,daun salam,bawang putih",
               "1. Rebus tempe dengan bumbu\n2. Masak hingga air menyusut\n3. Goreng sebentar"),
    SeedRecipe("Cilok bumbu kacang", "Cilok kenyal dengan bumbu kacang pedas",
               "tepung tapioka,air,bawang putih,daun bawang,kacang tanah,cabe",
               "1. Campur bahan cilok\n2. Bentuk bulat\n3. Rebus\n4. Sajikan dengan bumbu kacang")
  ]

  /** The columns the seed insert binds for `s`. */
  function SeedFields(s: SeedRecipe): Fields
  {
    Fields(Value(s.title), Value(s.description), Value(s.ingredients), Value(s.steps), Null)
  }

  /** The row the seed insert stores for `s` under `id`. */
  function SeedRow(id: int, s: SeedRecipe, adminId: int): Recipe
  {
    Row(id, SeedFields(s), Null, Value(adminId))
  }

  /** Which seed statements the engine fails for reasons outside the model: the admin
      insert, the admin lookup, and the per-recipe lookups and inserts by index. */
  datatype SeedFaults = SeedFaults(adminInsert: bool, adminLookup: bool,
                                   recipeLookups: set<nat>, recipeInserts: set<nat>)

  const NO_FAULTS: SeedFaults := SeedFaults(false, false, {}, {})

  /** The tables the seed leaves behind, and whether it ended the process. The seed's
      statements all report their errors to a callback that only logs them, except the
      recipe insert: it has none, so its error is an unhandled `'error'` event and the
      backend exits. */
  datatype SeedRun = SeedRun(db: Db, halted: bool)

  /** `INSERT INTO users (username, password) SELECT 'admin', 'admin' WHERE NOT EXISTS
      (SELECT 1 FROM users WHERE username = 'admin')`. */
  function SeedAdmin(db: Db): (r: Db)
    ensures r.schema == db.schema
    ensures r.recipes == db.recipes && r.recipeSeq == db.recipeSeq
    ensures NameTaken(r.users, Value(ADMIN_NAME))
    ensures NameTaken(db.users, Value(ADMIN_NAME)) ==> r == db
    ensures !NameTaken(db.users, Value(ADMIN_NAME)) ==>
      exists id :: db.userSeq < id && r.users == db.users + [User(id, Value(ADMIN_NAME), Value(ADMIN_NAME))]
  {
    if NameTaken(db.users, Value(ADMIN_NAME)) then db
    else
      var r := InsertUser(db, Value(ADMIN_NAME), Value(ADMIN_NAME), false);
      assert r.db.users[|db.users|].username == Value(ADMIN_NAME);
      r.db
  }

  /** One turn of the seed loop: look for the title among `adminId`'s recipes and insert
      it when absent. A failed lookup is only logged; a failed insert ends the process. */
  function SeedOne(db: Db, adminId: int, s: SeedRecipe, lookupFault: bool, insertFault: bool): (r: SeedRun)
    ensures r.db.schema == db.schema
    ensures r.db.users == db.users && r.db.userSeq == db.userSeq
    ensures lookupFault || HasTitleFor(db.recipes, Value(s.title), Value(adminId)) ==> r == SeedRun(db, false)
    ensures r.halted <==>
      && !lookupFault && !HasTitleFor(db.recipes, Value(s.title), Value(adminId))
      && (insertFault || db.schema.originNotNull)
    ensures r.halted ==> r.db == db
    ensures !lookupFault && !HasTitleFor(db.recipes, Value(s.title), Value(adminId)) && !r.halted ==>
      r.db == db.(recipes := db.recipes + [SeedRow(db.recipeSeq + 1, s, adminId)], recipeSeq := db.recipeSeq + 1)
  {
    if lookupFault || HasTitleFor(db.recipes, Value(s.title), Value(adminId)) then SeedRun(db, false)
    else
      var r := InsertRecipe(db, SeedFields(s), Null, Value(adminId), insertFault);
      SeedRun(r.db, r.response.StoreError?)
  }

  /** The seed loop over `list` after its first `n` turns; after a halt no turn runs. */
  function SeedUpTo(db: Db, adminId: int, list: seq<SeedRecipe>, n: nat, faults: SeedFaults): (r: SeedRun)
    requires n <= |list|
    ensures r.db.schema == db.schema
    ensures r.db.users == db.users && r.db.userSeq == db.userSeq
    ensures db.recipes <= r.db.recipes
  {
    if n == 0 then SeedRun(db, false)
    else
      var prev := SeedUpTo(db, adminId, list, n - 1, faults);
      if prev.halted then prev
      else SeedOne(prev.db, adminId, list[n - 1], n - 1 in faults.recipeLookups, n - 1 in faults.recipeInserts)
  }

  /** The whole seed run at startup over the fixed list `list` (`SEED_RECIPES` in the
      backend). A failed admin insert or lookup is logged and ends the seed. */
  function Seed(db: Db, list: seq<SeedRecipe>, faults: SeedFaults): (r: SeedRun)
    ensures r.db.schema == db.schema
    ensures db.users <= r.db.users && db.recipes <= r.db.recipes
    ensures faults.adminInsert ==> r == SeedRun(db, false)
    ensures !faults.adminInsert ==> NameTaken(r.db.users, Value(ADMIN_NAME))
  {
    if faults.adminInsert then SeedRun(db, false)
    else
      var db1 := SeedAdmin(db);
      var admin := UserNamed(db1.users, Value(ADMIN_NAME));
      if faults.adminLookup || admin.None? then SeedRun(db1, false)
      else SeedUpTo(db1, admin.value.id, list, |list|, faults)
  }

  /** Once a turn has ended the process, the later turns change nothing. */
  lemma {:induction false} SeedUpToHaltedStays(db: Db, adminId: int, list: seq<SeedRecipe>, m: nat, n: nat, faults: SeedFaults)
    requires m <= n <= |list|
    requires SeedUpTo(db, adminId, list, m, faults).halted
    ensures SeedUpTo(db, adminId, list, n, faults) == SeedUpTo(db, adminId, list, m, faults)
  {
    if m < n {
      SeedUpToHaltedStays(db, adminId, list, m, n - 1, faults);
    }
  }

  /** Every step of the seed keeps the tables' constraints. */
  lemma {:induction false} SeedUpToKeepsValid(db: Db, adminId: int, list: seq<SeedRecipe>, n: nat, faults: SeedFaults)
    requires Valid(db) && n <= |list|
    ensures Valid(SeedUpTo(db, adminId, list, n, faults).db)
  {
    if n > 0 {
      var prev := SeedUpTo(db, adminId, list, n - 1, faults).db;
      SeedUpToKeepsValid(db, adminId, list, n - 1, faults);
      InsertRecipeKeepsValid(prev, SeedFields(list[n - 1]), Null, Value(adminId), n - 1 in faults.recipeInserts);
    }
  }

  lemma SeedKeepsValid(db: Db, list: seq<SeedRecipe>, faults: SeedFaults)
    requires Valid(db)
    ensures Valid(Seed(db, list, faults).db)
  {
    if !faults.adminInsert {
      InsertUserKeepsValid(db, Value(ADMIN_NAME), Value(ADMIN_NAME), false);
      var db1 := SeedAdmin(db);
      var admin := UserNamed(db1.users, Value(ADMIN_NAME));
      if !faults.adminLookup && admin.Some? {
        SeedUpToKeepsValid(db1, admin.value.id, list, |list|, faults);
      }
    }
  }
}
