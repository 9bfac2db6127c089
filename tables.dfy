/** The two tables of the recipe backend (`users` and `recipes`): their rows, SQL NULL,
    the constraints the engine enforces, and the row-level queries the handlers run. */
module Tables {

  datatype Option<T> = None | Some(value: T)

  /** A column value or bound parameter that may be NULL. A body field the client leaves
      out is bound as NULL. */
  datatype Nullable<T> = Null | Value(v: T)

  type Text = Nullable<string>

  /** `a = b` in a WHERE clause: a comparison with NULL is never true. */
  predicate SqlEq<T(==)>(a: Nullable<T>, b: Nullable<T>)
  {
    a.Value? && a == b
  }

  /** A row of `users`: `username` is UNIQUE, `password` is stored as given. */
  datatype User = User(id: int, username: Text, password: Text)

  /** A row of `recipes`. `imagePath` and `userId` may be NULL; `userId` is not checked
      against `users`. */
  datatype Recipe = Recipe(id: int, title: Text, origin: Text, description: Text,
                           ingredients: Text, steps: Text, imagePath: Text,
                           userId: Nullable<int>)

  /** The recipe columns a client sends in the body of POST and PUT /api/recipes. */
  datatype Fields = Fields(title: Text, description: Text, ingredients: Text, steps: Text,
                           imagePath: Text)
  {
    /** The four of them that the table declares NOT NULL. */
    predicate Required()
    {
      title.Value? && description.Value? && ingredients.Value? && steps.Value?
    }
  }

  /** The row an INSERT of `f`, `origin` and `userId` creates under id `id`. */
  function Row(id: int, f: Fields, origin: Text, userId: Nullable<int>): Recipe
  {
    Recipe(id, f.title, origin, f.description, f.ingredients, f.steps, f.imagePath, userId)
  }

  /** `row` after `SET title = ?, description = ?, ingredients = ?, steps = ?, imagePath = ?`. */
  function Revised(row: Recipe, f: Fields): Recipe
  {
    row.(title := f.title, description := f.description, ingredients := f.ingredients,
         steps := f.steps, imagePath := f.imagePath)
  }

  /** The NOT NULL constraints `recipes` carries. The declared table makes `origin`
      NOT NULL; a `recipes` table created without that constraint keeps it, because
      the table is only created when it does not exist yet. */
  datatype Schema = Schema(originNotNull: bool)

  const DECLARED: Schema := Schema(true)
  const ORIGIN_NULLABLE: Schema := Schema(false)

  predicate NotNullHolds(schema: Schema, r: Recipe)
  {
    && r.title.Value?
    && (schema.originNotNull ==> r.origin.Value?)
    && r.description.Value?
    && r.ingredients.Value?
    && r.steps.Value?
  }

  /** Both tables, in rowid order, and the two `sqlite_sequence` counters: the largest
      id AUTOINCREMENT has ever handed out in each table. */
  datatype Db = Db(schema: Schema, users: seq<User>, recipes: seq<Recipe>,
                   userSeq: nat, recipeSeq: nat)

  /** The tables `CREATE TABLE IF NOT EXISTS` makes in a new database file. */
  function Empty(schema: Schema): Db
  {
    Db(schema, [], [], 0, 0)
  }

  predicate IdsAscending(recipes: seq<Recipe>)
  {
    forall i, j :: 0 <= i < j < |recipes| ==> recipes[i].id < recipes[j].id
  }

  /** Primary keys positive, in rowid order, never above the counter; usernames UNIQUE
      (several NULL usernames do not violate UNIQUE). */
  predicate UsersValid(users: seq<User>, userSeq: nat)
  {
    && (forall i :: 0 <= i < |users| ==> 0 < users[i].id <= userSeq)
    && (forall i, j :: 0 <= i < j < |users| ==> users[i].id < users[j].id)
    && (forall i, j :: 0 <= i < j < |users| ==> !SqlEq(users[i].username, users[j].username))
  }

  predicate RecipesValid(schema: Schema, recipes: seq<Recipe>, recipeSeq: nat)
  {
    && (forall i :: 0 <= i < |recipes| ==> 0 < recipes[i].id <= recipeSeq)
    && (forall i :: 0 <= i < |recipes| ==> NotNullHolds(schema, recipes[i]))
    && IdsAscending(recipes)
  }

  predicate Valid(db: Db)
  {
    UsersValid(db.users, db.userSeq) && RecipesValid(db.schema, db.recipes, db.recipeSeq)
  }

  predicate NameTaken(users: seq<User>, name: Text)
  {
    exists i :: 0 <= i < |users| && SqlEq(users[i].username, name)
  }

  /** `SELECT * FROM users WHERE username = ?` run by `db.get`: the first matching row. */
  function UserNamed(users: seq<User>, name: Text): (r: Option<User>)
    ensures r.Some? <==> NameTaken(users, name)
    ensures r.Some? ==> r.value in users && SqlEq(r.value.username, name)
  {
    if users == [] then None
    else if SqlEq(users[0].username, name) then Some(users[0])
    else
      var r := UserNamed(users[1..], name);
      assert NameTaken(users[1..], name) ==> NameTaken(users, name) by {
        if NameTaken(users[1..], name) {
          var i :| 0 <= i < |users[1..]| && SqlEq(users[1..][i].username, name);
          assert users[i + 1] == users[1..][i];
        }
      }
      r
  }

  predicate Credentials(u: User, name: Text, password: Text)
  {
    SqlEq(u.username, name) && SqlEq(u.password, password)
  }

  /** `SELECT * FROM users WHERE username = ? AND password = ?` run by `db.get`. */
  function UserWithCredentials(users: seq<User>, name: Text, password: Text): (r: Option<User>)
    ensures r.Some? <==> exists i :: 0 <= i < |users| && Credentials(users[i], name, password)
    ensures r.Some? ==> r.value in users && Credentials(r.value, name, password)
  {
    if users == [] then None
    else if Credentials(users[0], name, password) then Some(users[0])
    else
      var r := UserWithCredentials(users[1..], name, password);
      assert r.Some? ==> exists i :: 0 <= i < |users| && Credentials(users[i], name, password) by {
        if r.Some? {
          var i :| 0 <= i < |users[1..]| && Credentials(users[1..][i], name, password);
          assert users[i + 1] == users[1..][i];
        }
      }
      r
  }

  /** `SELECT * FROM recipes WHERE title = ? AND userId = ?` finds a row. */
  predicate HasTitleFor(recipes: seq<Recipe>, title: Text, userId: Nullable<int>)
  {
    exists k :: 0 <= k < |recipes| && SqlEq(recipes[k].title, title) && SqlEq(recipes[k].userId, userId)
  }

  predicate IdPresent(recipes: seq<Recipe>, id: int)
  {
    exists k :: 0 <= k < |recipes| && recipes[k].id == id
  }

  /** `SELECT * FROM recipes WHERE userId = ?`: the owner's rows, in rowid order. */
  function OwnedBy(recipes: seq<Recipe>, userId: Nullable<int>): (r: seq<Recipe>)
    ensures forall x :: x in r <==> x in recipes && SqlEq(x.userId, userId)
    ensures |r| <= |recipes|
  {
    if recipes == [] then []
    else
      var rest := OwnedBy(recipes[1..], userId);
      assert forall x :: x in recipes <==> x == recipes[0] || x in recipes[1..];
      if SqlEq(recipes[0].userId, userId) then [recipes[0]] + rest else rest
  }

  /** The owner's rows come out in ascending id order. */
  lemma {:induction false} OwnedByAscending(recipes: seq<Recipe>, userId: Nullable<int>)
    requires IdsAscending(recipes)
    ensures IdsAscending(OwnedBy(recipes, userId))
  {
    if recipes != [] {
      OwnedByAscending(recipes[1..], userId);
      var rest := OwnedBy(recipes[1..], userId);
      forall x | x in rest ensures recipes[0].id < x.id {
        var j :| 0 <= j < |recipes[1..]| && recipes[1..][j] == x;
        assert recipes[j + 1] == x;
      }
    }
  }

  /** `DELETE FROM recipes WHERE id = ?`: the rows kept. */
  function WithoutId(recipes: seq<Recipe>, id: int): (r: seq<Recipe>)
    ensures forall x :: x in r <==> x in recipes && x.id != id
    ensures IdsAscending(recipes) ==> IdsAscending(r)
  {
    if recipes == [] then []
    else
      var rest := WithoutId(recipes[1..], id);
      assert forall x :: x in recipes <==> x == recipes[0] || x in recipes[1..];
      if recipes[0].id != id then
        assert IdsAscending(recipes) ==> forall x :: x in rest ==> recipes[0].id < x.id;
        [recipes[0]] + rest
      else rest
  }

  /** Deleting an id no row has leaves the table as it was. */
  lemma {:induction false} WithoutAbsentId(recipes: seq<Recipe>, id: int)
    requires !IdPresent(recipes, id)
    ensures WithoutId(recipes, id) == recipes
  {
    if recipes != [] {
      assert recipes[0].id != id;
      WithoutAbsentId(recipes[1..], id);
      assert recipes == [recipes[0]] + recipes[1..];
    }
  }

  /** `UPDATE recipes SET title = ?, description = ?, ingredients = ?, steps = ?,
      imagePath = ? WHERE id = ?`: the table afterwards. */
  function Overwrite(recipes: seq<Recipe>, id: int, f: Fields): (r: seq<Recipe>)
    ensures |r| == |recipes|
    ensures forall k :: 0 <= k < |r| ==>
      r[k].id == recipes[k].id && r[k].origin == recipes[k].origin && r[k].userId == recipes[k].userId
    ensures forall k :: 0 <= k < |r| && recipes[k].id == id ==>
      && r[k].title == f.title && r[k].description == f.description
      && r[k].ingredients == f.ingredients && r[k].steps == f.steps && r[k].imagePath == f.imagePath
    ensures forall k :: 0 <= k < |r| && recipes[k].id != id ==> r[k] == recipes[k]
  {
    if recipes == [] then []
    else [if recipes[0].id == id then Revised(recipes[0], f) else recipes[0]] + Overwrite(recipes[1..], id, f)
  }

  /** The update keeps the table's constraints when the row it revises gets every NOT
      NULL column. */
  lemma OverwriteKeepsValid(schema: Schema, recipes: seq<Recipe>, recipeSeq: nat, id: int, f: Fields)
    requires RecipesValid(schema, recipes, recipeSeq)
    requires IdPresent(recipes, id) ==> f.Required()
    ensures RecipesValid(schema, Overwrite(recipes, id, f), recipeSeq)
  {
    var r := Overwrite(recipes, id, f);
    forall k | 0 <= k < |r| ensures NotNullHolds(schema, r[k]) {
      if recipes[k].id == id {
        assert IdPresent(recipes, id);
      }
    }
  }
}
