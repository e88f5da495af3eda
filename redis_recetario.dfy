/** The Redis recipe book (Redis/Recetario.py): one key space of hashes. A user
    is the hash `user:<usuario>` with fields contrasena and email; a recipe is
    the hash `recipe:<uuid>` with fields receta, ingredientes (','-joined),
    pasos (';'-joined) and user_id. `hset` creates a hash or overwrites one
    field of it; an exception anywhere in an operation (such as `.decode()` on
    a missing field) is caught and reported, so it ends the operation. */
module RedisRecetario {

  import opened Rows
  import opened Text
  import opened Accounts

  /** The hash fields the program reads and writes: `contrasena` and `email`
      of a user, `receta`, `ingredientes`, `pasos` and `user_id` of a recipe.
      Every field name in the program is one of these literals. */
  datatype Field = Contrasena | Email | Name | Ingredientes | Pasos | UserId

  /** A Redis hash: field to value. */
  type Hash = map<Field, string>

  /** The whole key space. */
  type KeySpace = map<string, Hash>

  /** list_recipes and search_recipe_by_ingredient: `(id, receta)` pairs, or the
      caught exception that ends the scan. */
  datatype Listing = Listed(recipes: seq<(string, string)>) | ListingError

  /** view_recipe_details: nothing under the key, a missing field, or the
      recipe with its lists split back. */
  datatype Details = NotFound | DetailsError | Found(receta: string, ingredientes: seq<string>, pasos: seq<string>)

  function UserKey(usuario: string): string
  {
    "user:" + usuario
  }

  function RecipeKey(id: string): string
  {
    "recipe:" + id
  }

  /** Keys the glob `recipe:*` matches. */
  predicate IsRecipeKey(k: string)
  {
    "recipe:" <= k
  }

  /** User and recipe keys never collide. */
  lemma KeysDisjoint(usuario: string, id: string)
    ensures UserKey(usuario) != RecipeKey(id)
    ensures IsRecipeKey(RecipeKey(id)) && !IsRecipeKey(UserKey(usuario))
  {
    assert UserKey(usuario)[0] == 'u' && RecipeKey(id)[0] == 'r';
  }

  /** `recipe_key.decode().split(":")[1]`. */
  function KeyId(k: string): string
    requires IsRecipeKey(k)
  {
    assert k == "recipe" + [':'] + k[7..];
    CountConcat("recipe" + [':'], k[7..], ':');
    CountConcat("recipe", [':'], ':');
    CountAbsent("recipe", ':');
    Split(k, ':')[1]
  }

  /** The id recovered from a recipe key is the uuid it was made from, since a
      uuid holds no ':'. */
  lemma KeyIdRoundTrip(id: string)
    requires ':' !in id
    ensures KeyId(RecipeKey(id)) == id
  {
    assert RecipeKey(id) == "recipe" + [':'] + id;
    assert ':' !in "recipe";
    SplitAtSeparator("recipe", id, ':');
    SplitFreePrefix(id, "", ':');
    assert id + "" == id;
  }

  /** An id holding ':' is cut at it. */
  lemma KeyIdCutsAtColon()
    ensures KeyId(RecipeKey("a:b")) == "a"
  {
    assert RecipeKey("a:b") == "recipe" + [':'] + ("a" + [':'] + "b");
    assert ':' !in "recipe" && ':' !in "a";
    SplitAtSeparator("recipe", "a" + [':'] + "b", ':');
    SplitAtSeparator("a", "b", ':');
  }

  // ---------------------------------------------------------------- hset / hget

  /** The hash under `k`; a missing key reads as the empty hash. */
  function HashAt(db: KeySpace, k: string): Hash
  {
    if k in db then db[k] else map[]
  }

  /** `hset(k, field, value)`: creates the hash or overwrites one field of it. */
  function HSet(db: KeySpace, k: string, field: Field, value: string): KeySpace
  {
    db[k := HashAt(db, k)[field := value]]
  }

  /** Redis keeps no empty hash. */
  ghost predicate NoEmptyHash(db: KeySpace)
  {
    forall k :: k in db ==> db[k] != map[]
  }

  /** `hset` keeps that invariant, and changes no other key nor other field. */
  lemma HSetKeeps(db: KeySpace, k: string, field: Field, value: string)
    ensures NoEmptyHash(db) ==> NoEmptyHash(HSet(db, k, field, value))
    ensures HSet(db, k, field, value).Keys == db.Keys + {k}
    ensures forall j :: j in db && j != k ==> HSet(db, k, field, value)[j] == db[j]
    ensures forall f :: f != field ==> (f in HSet(db, k, field, value)[k] <==> f in HashAt(db, k))
  {
    assert field in HSet(db, k, field, value)[k];
  }

  /** The key space after add_recipe's four `hset`s on `key`. */
  function AddedDb(db: KeySpace, key: string, receta: string, ingredientes: seq<string>, pasos: seq<string>, userKey: string): KeySpace
  {
    var db1 := HSet(db, key, Name, receta);
    var db2 := HSet(db1, key, Ingredientes, Join(ingredientes, ','));
    var db3 := HSet(db2, key, Pasos, Join(pasos, ';'));
    HSet(db3, key, UserId, userKey)
  }

  /** The key space after update_recipe's `hset` of each given field. */
  function UpdatedDb(db: KeySpace, key: string, receta: Option<string>, ingredientes: Option<seq<string>>, pasos: Option<seq<string>>): KeySpace
  {
    var db1 := if receta.Some? then HSet(db, key, Name, receta.value) else db;
    var db2 := if ingredientes.Some? then HSet(db1, key, Ingredientes, Join(ingredientes.value, ',')) else db1;
    if pasos.Some? then HSet(db2, key, Pasos, Join(pasos.value, ';')) else db2
  }

  /** Fields a stored recipe has. */
  function RecipeFields(receta: string, ingredientes: seq<string>, pasos: seq<string>, userKey: string): Hash
  {
    map[Name := receta, Ingredientes := Join(ingredientes, ','), Pasos := Join(pasos, ';'), UserId := userKey]
  }

  /** add_recipe writes the four recipe fields into `key`, keeps every other
      field already there, and touches no other key. */
  lemma AddedRecipe(db: KeySpace, key: string, receta: string, ingredientes: seq<string>, pasos: seq<string>, userKey: string)
    ensures var r := AddedDb(db, key, receta, ingredientes, pasos, userKey);
      && r == db[key := HashAt(db, key) + RecipeFields(receta, ingredientes, pasos, userKey)]
      && (key !in db ==> r[key] == RecipeFields(receta, ingredientes, pasos, userKey))
      && (NoEmptyHash(db) ==> NoEmptyHash(r))
  {
    var h := HashAt(db, key);
    var fields := RecipeFields(receta, ingredientes, pasos, userKey);
    assert h[Name := receta][Ingredientes := Join(ingredientes, ',')][Pasos := Join(pasos, ';')][UserId := userKey] == h + fields;
    var e: Hash := map[];
    assert e + fields == fields;
    assert Name in fields;
  }

  /** update_recipe with no field given changes nothing; with some field given
      it writes exactly those fields into `key` and touches no other key. */
  lemma UpdatedRecipe(db: KeySpace, key: string, receta: Option<string>, ingredientes: Option<seq<string>>, pasos: Option<seq<string>>)
    ensures var r := UpdatedDb(db, key, receta, ingredientes, pasos);
      && (receta.None? && ingredientes.None? && pasos.None? ==> r == db)
      && (receta.Some? || ingredientes.Some? || pasos.Some? ==>
            && key in r
            && (forall j :: j in db && j != key ==> j in r && r[j] == db[j])
            && (UserId in r[key] <==> UserId in HashAt(db, key))
            && (receta.Some? ==> Name in r[key] && r[key][Name] == receta.value)
            && (ingredientes.Some? ==> Ingredientes in r[key] && r[key][Ingredientes] == Join(ingredientes.value, ','))
            && (pasos.Some? ==> Pasos in r[key] && r[key][Pasos] == Join(pasos.value, ';')))
      && (NoEmptyHash(db) ==> NoEmptyHash(r))
  {
    var db1 := if receta.Some? then HSet(db, key, Name, receta.value) else db;
    var db2 := if ingredientes.Some? then HSet(db1, key, Ingredientes, Join(ingredientes.value, ',')) else db1;
    if receta.Some? { HSetKeeps(db, key, Name, receta.value); }
    if ingredientes.Some? { HSetKeeps(db1, key, Ingredientes, Join(ingredientes.value, ',')); }
    if pasos.Some? { HSetKeeps(db2, key, Pasos, Join(pasos.value, ';')); }
  }

  // ---------------------------------------------------------------- the scans

  /** list_recipes stops with an exception at this hash: no user_id, or the
      caller's recipe without a name. */
  predicate ListBreaks(h: Hash, userKey: string)
  {
    UserId !in h || (h[UserId] == userKey && Name !in h)
  }

  /** list_recipes reports this hash. */
  predicate Owned(h: Hash, userKey: string)
  {
    UserId in h && h[UserId] == userKey && Name in h
  }

  /** search_recipe_by_ingredient stops with an exception at this hash. */
  predicate SearchBreaks(h: Hash, frag: string)
  {
    Ingredientes !in h || (Contains(h[Ingredientes], frag) && Name !in h)
  }

  /** search_recipe_by_ingredient reports this hash: `frag in ingredientes`. */
  predicate Matches(h: Hash, frag: string)
  {
    Ingredientes in h && Contains(h[Ingredientes], frag) && Name in h
  }

  function OwnedBy(userKey: string): Hash -> bool
  {
    (h: Hash) => Owned(h, userKey)
  }

  function MatchedBy(frag: string): Hash -> bool
  {
    (h: Hash) => Matches(h, frag)
  }

  /** Some recipe key makes list_recipes fail for this caller. */
  predicate ListingFails(db: KeySpace, userKey: string)
  {
    exists k :: k in db && IsRecipeKey(k) && ListBreaks(db[k], userKey)
  }

  /** Some recipe key makes search_recipe_by_ingredient fail. */
  predicate SearchFails(db: KeySpace, frag: string)
  {
    exists k :: k in db && IsRecipeKey(k) && SearchBreaks(db[k], frag)
  }

  /** The keys `keys("recipe:*")` returns. */
  ghost function RecipeKeys(db: KeySpace): set<string>
  {
    set k | k in db && IsRecipeKey(k)
  }

  /** The recipe keys whose hash satisfies `p`. */
  ghost function KeysWhere(db: KeySpace, p: Hash -> bool): set<string>
  {
    set k | k in db && IsRecipeKey(k) && p(db[k])
  }

  /** The `{"id", "nombre"}` entry a scan reports for key `k`. */
  function Entry(db: KeySpace, k: string): (string, string)
  {
    (if IsRecipeKey(k) then KeyId(k) else "", if k in db && Name in db[k] then db[k][Name] else "")
  }

  /** The entry a scan reports for `k` when its hash satisfies `p`. */
  function EntryIf(db: KeySpace, p: Hash -> bool): string -> Option<(string, string)>
  {
    k => if k in db && p(db[k]) then Some(Entry(db, k)) else None
  }

  /** A scan of distinct keys that lists every recipe key reports exactly the
      qualifying recipe keys, each once. */
  lemma ScanAll(db: KeySpace, ks: seq<string>, p: Hash -> bool)
    requires Distinct(ks)
    requires forall k :: k in ks <==> k in RecipeKeys(db)
    ensures forall e :: e in Collect(ks, EntryIf(db, p)) <==> exists k :: k in KeysWhere(db, p) && e == Entry(db, k)
    ensures |Collect(ks, EntryIf(db, p))| == |KeysWhere(db, p)|
  {
    CollectMembers(ks, EntryIf(db, p));
    CollectCount(ks, EntryIf(db, p));
    forall k | k in KeysWhere(db, p) ensures k in Yielding(ks, EntryIf(db, p)) {
      assert k in RecipeKeys(db);
    }
    forall k | k in Yielding(ks, EntryIf(db, p)) ensures k in KeysWhere(db, p) {
      assert k in RecipeKeys(db);
    }
    assert Yielding(ks, EntryIf(db, p)) == KeysWhere(db, p);
  }

  // ---------------------------------------------------------------- view

  /** view_recipe_details on the hash read by `hgetall`. */
  function DetailsOf(h: Hash): (d: Details)
    ensures d.NotFound? <==> h == map[]
    ensures d.Found? <==> h != map[] && Name in h && Ingredientes in h && Pasos in h
  {
    if h == map[] then NotFound
    else if Name !in h || Ingredientes !in h || Pasos !in h then DetailsError
    else Found(h[Name], Split(h[Ingredientes], ','), Split(h[Pasos], ';'))
  }

  /** The lists a console user types come back unchanged from the stored recipe:
      `input().split(',')` yields a non-empty list whose items hold no ','. */
  lemma DetailsRoundTrip(receta: string, ingredientes: seq<string>, pasos: seq<string>, userKey: string)
    requires |ingredientes| > 0 && forall s :: s in ingredientes ==> ',' !in s
    requires |pasos| > 0 && forall s :: s in pasos ==> ';' !in s
    ensures DetailsOf(RecipeFields(receta, ingredientes, pasos, userKey)) == Found(receta, ingredientes, pasos)
  {
    var h := RecipeFields(receta, ingredientes, pasos, userKey);
    assert Name in h && h[Name] == receta;
    assert h[Ingredientes] == Join(ingredientes, ',') && h[Pasos] == Join(pasos, ';');
    SplitJoin(ingredientes, ',');
    SplitJoin(pasos, ';');
  }

  class RedisStore {

    const hashPassword: string -> string
    var db: KeySpace

    /** Redis holds no empty hash: `hset` always leaves at least one field. */
    ghost predicate Valid()
      reads this
    {
      NoEmptyHash(db)
    }

    constructor(hashPassword: string -> string)
      ensures Valid()
      ensures this.hashPassword == hashPassword && db == map[]
    {
      this.hashPassword := hashPassword;
      db := map[];
    }

    /** create_user: only the user key is checked; the email is stored as given. */
    method CreateUser(usuario: string, contrasena: string, email: string) returns (r: Registration)
      requires Valid()
      modifies this
      ensures Valid()
      ensures r != EmailTaken
      ensures r == UsernameTaken <==> UserKey(usuario) in old(db)
      ensures r == UsernameTaken ==> db == old(db)
      ensures r == UserCreated ==>
        db == old(db)[UserKey(usuario) := map[Contrasena := hashPassword(contrasena), Email := email]]
    {
      var userKey := UserKey(usuario);
      if userKey in db {
        r := UsernameTaken;
      } else {
        var hashed := hashPassword(contrasena);
        HSetKeeps(db, userKey, Contrasena, hashed);
        db := HSet(db, userKey, Contrasena, hashed);
        HSetKeeps(db, userKey, Email, email);
        db := HSet(db, userKey, Email, email);
        r := UserCreated;
      }
    }

    /** log_in: the user key when it exists and its stored hash matches. */
    method LogIn(usuario: string, contrasena: string) returns (r: Option<string>)
      ensures r.Some? <==> UserKey(usuario) in db && Contrasena in db[UserKey(usuario)]
                           && db[UserKey(usuario)][Contrasena] == hashPassword(contrasena)
      ensures r.Some? ==> r.value == UserKey(usuario)
    {
      var userKey := UserKey(usuario);
      r := None;
      if userKey in db {
        if Contrasena in db[userKey] {
          var stored := db[userKey][Contrasena];
          if stored == hashPassword(contrasena) {
            r := Some(userKey);
          }
        }
        // a missing field raises on `.decode()`: caught, and None is returned
      }
    }

    /** add_recipe under the caller-supplied uuid: four `hset`s on
        `recipe:<uuid>`. */
    method AddRecipe(uuid: string, receta: string, ingredientes: seq<string>, pasos: seq<string>, userKey: string)
      returns (id: string)
      requires Valid()
      modifies this
      ensures Valid()
      ensures id == uuid
      ensures db == AddedDb(old(db), RecipeKey(uuid), receta, ingredientes, pasos, userKey)
    {
      var key := RecipeKey(uuid);
      AddedRecipe(db, key, receta, ingredientes, pasos, userKey);
      db := HSet(db, key, Name, receta);
      db := HSet(db, key, Ingredientes, Join(ingredientes, ','));
      db := HSet(db, key, Pasos, Join(pasos, ';'));
      db := HSet(db, key, UserId, userKey);
      id := uuid;
    }

    /** update_recipe: one `hset` per given field, with no existence check. */
    method UpdateRecipe(id: string, receta: Option<string>, ingredientes: Option<seq<string>>, pasos: Option<seq<string>>)
      requires Valid()
      modifies this
      ensures Valid()
      ensures db == UpdatedDb(old(db), RecipeKey(id), receta, ingredientes, pasos)
    {
      var key := RecipeKey(id);
      UpdatedRecipe(db, key, receta, ingredientes, pasos);
      if receta.Some? {
        db := HSet(db, key, Name, receta.value);
      }
      if ingredientes.Some? {
        db := HSet(db, key, Ingredientes, Join(ingredientes.value, ','));
      }
      if pasos.Some? {
        db := HSet(db, key, Pasos, Join(pasos.value, ';'));
      }
    }

    /** delete_recipe: `delete recipe:<id>`, whether or not it exists. */
    method DeleteRecipe(id: string)
      requires Valid()
      modifies this
      ensures Valid()
      ensures db == old(db) - {RecipeKey(id)}
    {
      db := db - {RecipeKey(id)};
    }

    /** `keys("recipe:*")`: every recipe key once, in an order Redis chooses. */
    method RecipeKeyList() returns (ks: seq<string>)
      ensures Distinct(ks)
      ensures forall k :: k in ks <==> k in RecipeKeys(db)
      ensures forall j :: 0 <= j < |ks| ==> ks[j] in db && IsRecipeKey(ks[j])
    {
      var rest := set k | k in db && IsRecipeKey(k);
      ks := [];
      while rest != {}
        invariant forall k :: k in ks <==> k in RecipeKeys(db) && k !in rest
        invariant rest <= RecipeKeys(db)
        invariant Distinct(ks)
        invariant forall j :: 0 <= j < |ks| ==> ks[j] in db && IsRecipeKey(ks[j])
        decreases |rest|
      {
        var k :| k in rest;
        ks := ks + [k];
        rest := rest - {k};
      }
    }

    /** list_recipes: scans the recipe keys and collects the caller's recipes;
        one hash without user_id (or an own recipe without a name) ends the
        scan with an error. */
    method ListRecipes(userKey: string) returns (r: Listing)
      ensures r.ListingError? <==> ListingFails(db, userKey)
      ensures r.Listed? ==> forall e :: e in r.recipes <==> exists k :: k in KeysWhere(db, OwnedBy(userKey)) && e == Entry(db, k)
      ensures r.Listed? ==> |r.recipes| == |KeysWhere(db, OwnedBy(userKey))|
    {
      var ks := RecipeKeyList();
      var found: seq<(string, string)> := [];
      var i := 0;
      while i < |ks|
        invariant 0 <= i <= |ks|
        invariant forall j :: 0 <= j < i ==> !ListBreaks(db[ks[j]], userKey)
        invariant found == Collect(ks[..i], EntryIf(db, OwnedBy(userKey)))
      {
        var k := ks[i];
        var h := db[k];
        if UserId !in h {
          return ListingError;
        }
        assert ks[..i + 1][..i] == ks[..i];
        if h[UserId] == userKey {
          if Name !in h {
            return ListingError;
          }
          found := found + [(KeyId(k), h[Name])];
        }
        i := i + 1;
      }
      forall k | k in db && IsRecipeKey(k) ensures !ListBreaks(db[k], userKey) {
        assert k in RecipeKeys(db);
        var j :| 0 <= j < |ks| && ks[j] == k;
      }
      assert ks[..i] == ks;
      ScanAll(db, ks, OwnedBy(userKey));
      r := Listed(found);
    }

    /** search_recipe_by_ingredient: scans the recipe keys and collects those
        whose ingredients string holds the fragment (case-sensitive); a hash
        without ingredientes, or a match without a name, ends the scan with
        an error. */
    method SearchRecipeByIngredient(frag: string) returns (r: Listing)
      ensures r.ListingError? <==> SearchFails(db, frag)
      ensures r.Listed? ==> forall e :: e in r.recipes <==> exists k :: k in KeysWhere(db, MatchedBy(frag)) && e == Entry(db, k)
      ensures r.Listed? ==> |r.recipes| == |KeysWhere(db, MatchedBy(frag))|
    {
      var ks := RecipeKeyList();
      var found: seq<(string, string)> := [];
      var i := 0;
      while i < |ks|
        invariant 0 <= i <= |ks|
        invariant forall j :: 0 <= j < i ==> !SearchBreaks(db[ks[j]], frag)
        invariant found == Collect(ks[..i], EntryIf(db, MatchedBy(frag)))
      {
        var k := ks[i];
        var h := db[k];
        if Ingredientes !in h {
          return ListingError;
        }
        assert ks[..i + 1][..i] == ks[..i];
        if Contains(h[Ingredientes], frag) {
          if Name !in h {
            return ListingError;
          }
          found := found + [(KeyId(k), h[Name])];
        }
        i := i + 1;
      }
      forall k | k in db && IsRecipeKey(k) ensures !SearchBreaks(db[k], frag) {
        assert k in RecipeKeys(db);
        var j :| 0 <= j < |ks| && ks[j] == k;
      }
      assert ks[..i] == ks;
      ScanAll(db, ks, MatchedBy(frag));
      r := Listed(found);
    }

    /** view_recipe_details: `hgetall recipe:<id>`, lists split back. */
    method ViewRecipeDetails(id: string) returns (d: Details)
      ensures d == DetailsOf(HashAt(db, RecipeKey(id)))
    {
      var h := HashAt(db, RecipeKey(id));
      if h == map[] {
        d := NotFound;
      } else if Name !in h || Ingredientes !in h || Pasos !in h {
        d := DetailsError;
      } else {
        d := Found(h[Name], Split(h[Ingredientes], ','), Split(h[Pasos], ';'));
      }
    }
  }

  // ---------------------------------------------------------------- consequences

  /** A recipe added under a fresh uuid holds exactly the four fields, is
      listed for its owner under that uuid, and is found by view. */
  lemma AddedRecipeIsListed(db: KeySpace, uuid: string, receta: string, ingredientes: seq<string>, pasos: seq<string>, userKey: string)
    requires RecipeKey(uuid) !in db
    requires ':' !in uuid
    ensures var db' := AddedDb(db, RecipeKey(uuid), receta, ingredientes, pasos, userKey);
      && db'[RecipeKey(uuid)] == RecipeFields(receta, ingredientes, pasos, userKey)
      && IsRecipeKey(RecipeKey(uuid)) && Owned(db'[RecipeKey(uuid)], userKey)
      && KeyId(RecipeKey(uuid)) == uuid
      && DetailsOf(db'[RecipeKey(uuid)]).Found?
  {
    AddedRecipe(db, RecipeKey(uuid), receta, ingredientes, pasos, userKey);
    KeysDisjoint("", uuid);
    KeyIdRoundTrip(uuid);
  }

  /** update_recipe on an id with no recipe creates a hash without user_id,
      and from then on list_recipes fails for every user. */
  lemma UpdateUnknownBreaksListing(db: KeySpace, id: string, receta: Option<string>,
                                   ingredientes: Option<seq<string>>, pasos: Option<seq<string>>, userKey: string)
    requires RecipeKey(id) !in db
    requires receta.Some? || ingredientes.Some? || pasos.Some?
    ensures ListingFails(UpdatedDb(db, RecipeKey(id), receta, ingredientes, pasos), userKey)
  {
    var k := RecipeKey(id);
    var db' := UpdatedDb(db, k, receta, ingredientes, pasos);
    UpdatedRecipe(db, k, receta, ingredientes, pasos);
    KeysDisjoint("", id);
    assert k in db' && IsRecipeKey(k) && ListBreaks(db'[k], userKey);
  }

  /** The search is case-sensitive: "Egg" is not found by "egg". */
  lemma SearchIsCaseSensitive(h: Hash)
    requires Ingredientes in h && h[Ingredientes] == "Eggs"
    ensures !Matches(h, "egg")
  {
    LikeIgnoresCase();
  }
}
