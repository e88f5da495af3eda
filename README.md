# Recetario: a verified model of one recipe book over five storage back ends

The repository implements the same small CRUD domain several times. There are
users with hashed passwords and recipes (or, in the budget tracker, priced
articles) that belong to them. The back ends are:

- SQLite (`Recetario.py`);
- SQLAlchemy (`SQLAlchemy/Recetario.py`);
- Redis (`Redis/Recetario.py`);
- MongoDB (`MongoDB/Recetario.py`);
- the SQLite budget tracker (`parcial1/parcial1.py`);
- a Flask web application over Redis, whose code appears twice with the same
  behaviour (`Jinja2/main.py`, `Flask/main.py`).

This project models each back end as a Dafny class over in-memory state. Each
operation of the source is a method that changes that state. The model proves
what each variant does, and in particular where the variants differ.

Files and modules:

| file | module | models |
|---|---|---|
| `rows.dfy` | `Rows` | storage-order scans: `fetchone`/`first`/`find_one` (`First`), `fetchall`/`find` (`Where`), and the appending loops over `KEYS` (`Collect`) |
| `text.dfy` | `Text` | Python's `join`, `split`, `in`, `rstrip`, `str(n)` and `int(s)`, and SQL `LIKE '%x%'` |
| `accounts.dfy` | `Accounts` | the three outcomes of registering a user |
| `relational.dfy` | `Relational` | the `usuarios`/`recetas` schema shared by the SQLite and SQLAlchemy versions, and its SELECT/UPDATE/DELETE statements |
| `sqlite_recetario.dfy` | `SqliteRecetario` | `Recetario.py`, including how update_recipe builds its query string |
| `orm_recetario.dfy` | `OrmRecetario` | `SQLAlchemy/Recetario.py` |
| `redis_recetario.dfy` | `RedisRecetario` | `Redis/Recetario.py` over a key space of hashes |
| `mongo_recetario.dfy` | `MongoRecetario` | `MongoDB/Recetario.py` over collections of documents |
| `budget.dfy` | `Budget` | `parcial1/parcial1.py` |
| `web_recetario.dfy` | `WebRecetario` | `Jinja2/main.py` and `Flask/main.py` |
| `variants.dfy` | `Variants` | how the SQLite and SQLAlchemy registrations relate |

Modelling choices:

- **Password hash.** SHA-256 is a function-valued constant `hashPassword`, given to each store's constructor. It is not assumed injective.
- **Tables.** A table is a sequence of rows in rowid order. The PRIMARY KEY and UNIQUE constraints are a class invariant (`Valid`).
- **New rowids.** SQLite's INTEGER PRIMARY KEY without AUTOINCREMENT gives a new row one more than the largest rowid present. The budget tracker's AUTOINCREMENT keeps a counter that deleted rows never lower.
- **Outcomes.** Each printed message becomes one value of an outcome datatype.
  - An exception the source catches ends the operation, and the model returns the matching outcome.
  - The IntegrityError that SQLAlchemy's `commit()` lets escape is an outcome too (`AddRaised`, `UpdateRaised`), with the tables unchanged.

Behaviours the model makes explicit:

- **Email uniqueness.** Redis never checks whether an email is in use (`RedisRecetario.RedisStore.CreateUser`). The budget tracker checks nothing at all (`Budget.Tracker.RegisterUser`).
- **Which clash is reported.** SQLAlchemy tests the name first. MongoDB reports the first document matching name OR email. SQLite's `WHERE usuario = ? OR email = ?` runs over two UNIQUE (so indexed) columns, so which clashing row it returns depends on the query plan. The model leaves that choice open (`SqliteRecetario.MayReport`). A name-first plan gives SQLAlchemy's answer (`Variants.NameFirstIsOnePlan`), but SQLite may also name the email where SQLAlchemy names the user (`Variants.RegistrationVariantsMayDiffer`).
- **SQLite update edge cases.**
  - With no column given, update_recipe builds `UPDATE recetas SET WHERE id = ?`, which does not parse (`SqliteRecetario.NoColumnQuery`).
  - On an unknown id it reports success and changes nothing (`SqliteRecetario.UpdateUnknownIdIsSilent`).
- **Redis update on an unknown id.** It creates a hash without `user_id`. Every later list_recipes then fails for every user (`RedisRecetario.UpdateUnknownBreaksListing`).
- **Search case.** Redis searches case-sensitively with `in`. `LIKE` ignores ASCII case (`RedisRecetario.SearchIsCaseSensitive`, `Text.LikeIgnoresCase`).
- **MongoDB ids.** update_recipe and delete_recipe pass the typed id string as `_id`, which never equals an ObjectId, so they change nothing (`MongoRecetario.StringIdMatchesNothing`). view_recipe_details converts the string with `ObjectId(...)` first.
- **Web "update".** The web application's update saves the edited recipe under a new id and leaves the original in place (`WebRecetario.EditKeepsOriginal`).

## Model

| member | source | states |
|---|---|---|
| Rows.First | Recetario.py:74-78 | `fetchone`: the index of the first row satisfying the filter, that no earlier row satisfies it, and None exactly when no row does |
| Rows.FirstAppend | parcial1/parcial1.py:42-43 | once some row matches, appending a row never changes which row `fetchone` returns |
| Rows.Where | Recetario.py:148-151 | `fetchall`: the selected rows are exactly the rows satisfying the filter, and there are no more of them than rows |
| Rows.CollectHas | Redis/Recetario.py:88-95 | the loop over keys appends a value exactly when some key yields it |
| Rows.CollectMembers | Redis/Recetario.py:88-95 | the same fact for every value at once |
| Rows.CollectCount | Redis/Recetario.py:88-95 | over distinct keys, the loop appends exactly one value per key that yields one |
| Rows.CollectMultiplicity | Redis/Recetario.py:88-95 | over distinct keys, each value occurs in the result as many times as there are keys yielding it |
| Rows.AscendingSameMembers | Recetario.py:148-150 | two results in strictly ascending key order with the same members are equal, so a listing in rowid order is fixed by what it holds: each qualifying row once, in table order |
| Rows.WhereKeepsPairwise | Recetario.py:136-138 | a selection keeps relative order, so a DELETE keeps ascending ids and UNIQUE columns |
| Rows.WhereAppend | parcial1/parcial1.py:52-55 | an INSERT extends every selection by the new row exactly when it qualifies |
| Rows.RemoveKeepsPairwise | MongoDB/Recetario.py:89-93 | removing one document keeps every pairwise constraint, such as distinct `_id`s |
| Rows.WhereDropsOne | SQLAlchemy/Recetario.py:94-103 | a filter that only row i fails selects the table without row i |
| Rows.WhereAll | Recetario.py:136-138 | a filter every row passes selects the whole table |
| Text.Split | Redis/Recetario.py:115-118 | `str.split`: one piece more than there are separators, and no piece holds the separator |
| Text.SplitFreePrefix | Redis/Recetario.py:93 | a separator-free prefix joins onto the first piece of the split |
| Text.SplitAtSeparator | Redis/Recetario.py:93 | splitting `w + sep + t` with separator-free `w` yields `w` and then the pieces of `t` |
| Text.SplitJoin | Redis/Recetario.py:53-54 | split inverts join on non-empty lists whose items hold no separator |
| Text.JoinSplit | Redis/Recetario.py:115-118 | join inverts split on every string |
| Text.ContainsIffOccurs | Redis/Recetario.py:132 | Python's `frag in s` holds exactly when `frag` occurs at some position of `s` |
| Text.Lower | Recetario.py:187-188 | ASCII lower-casing keeps the length |
| Text.ContainsImpliesLike | Recetario.py:187-188 | a case-sensitive `in` match is always a `LIKE '%frag%'` match |
| Text.LikeIgnoresCase | Recetario.py:187-188 | `LIKE` finds "egg" in "Eggs" where `in` does not, so the converse fails |
| Text.RStrip | Recetario.py:122 | `rstrip(c)` keeps a prefix, ends in no `c`, and drops only `c`s |
| Text.Digit | Jinja2/main.py:33 | a decimal digit value prints as a digit character |
| Text.NatToString | Jinja2/main.py:33 | `str(n)` is a non-empty run of decimal digits |
| Text.ParseNatToString | Jinja2/main.py:97 | `int(str(n)) == n` |
| Text.NatToStringInjective | Jinja2/main.py:31-33 | distinct numbers print differently |
| Relational.NextUsuarioId | Recetario.py:21 | a new user's rowid exceeds every rowid present: 1 in an empty table, otherwise the largest plus one |
| Relational.NextRecetaId | Recetario.py:28 | the same for recipes |
| Relational.InsertUsuario | Recetario.py:19-25 | inserting a user with a new name and a new email under the next rowid keeps the PRIMARY KEY and both UNIQUE constraints |
| Relational.InsertReceta | Recetario.py:26-33 | inserting a recipe with a new name under the next rowid keeps the PRIMARY KEY and `receta UNIQUE` |
| Relational.LoginId | Recetario.py:74-80 | a login id exists exactly when some row has that name and that stored hash, and it is that row's id |
| Relational.RecetaById | Recetario.py:166-170 | a recipe is found exactly when some row has that id, and the row found has it |
| Relational.IdsAndNames | Recetario.py:148-150 | one `(id, receta)` pair per row, in the rows' order |
| Relational.SelectionAscends | Recetario.py:148-150 | a selection from a table lists its pairs in strictly ascending rowid order |
| Relational.RecetasOf | Recetario.py:144-151 | list_recipes yields exactly the `(id, receta)` of the rows owned by the caller, in strictly ascending rowid order, so each row once |
| Relational.IngredienteLike | Recetario.py:183-190 | search yields exactly the `(id, receta)` of rows of any owner whose ingredients match `LIKE '%frag%'`, in strictly ascending rowid order, so each row once |
| Relational.WithoutReceta | Recetario.py:136-138 | the rows kept by `DELETE ... WHERE id = ?` are exactly those with another id |
| Relational.DeleteReceta | Recetario.py:132-141 | DELETE keeps the table constraints, and deleting an absent id changes nothing |
| Relational.UpdateTouchesOnlyGivenColumns | Recetario.py:103-127 | the UPDATE changes only the given columns of the row with that id; other rows, ids, owners and columns keep their values |
| Relational.UpdateKeepsTable | Recetario.py:103-127 | the UPDATE keeps the constraints unless it gives the row another row's name |
| Relational.IdsUnique | Recetario.py:28 | no two recipes share an id |
| Relational.UpdateAtIndex | SQLAlchemy/Recetario.py:80-90 | patching the one row found by id is the same as the UPDATE by id |
| Relational.DeleteAtIndex | SQLAlchemy/Recetario.py:96-100 | deleting the one row found by id is the same as the DELETE by id |
| SqliteRecetario.Classify | Recetario.py:53-57 | the returned row yields name-taken exactly when its name is the requested one, otherwise email-taken, never created |
| SqliteRecetario.ReportIsSound | Recetario.py:49-63 | whichever clashing row the lookup returns, the user is created exactly when no row has the name or the email; a reported name is held by some row; a reported email is held by a row with another name |
| SqliteRecetario.SingleClashDecides | Recetario.py:49-57 | with a single clashing row, that row decides the report |
| SqliteRecetario.EitherClashMayBeReported | Recetario.py:49-57 | with the email held by one user and the name by another, both name-taken and email-taken are possible reports |
| SqliteRecetario.SetClause | Recetario.py:122 | a non-empty SET clause ends in a placeholder |
| SqliteRecetario.GivenColumns | Recetario.py:110-120 | at most three columns are set |
| SqliteRecetario.GivenColumnsAreTheNonNone | Recetario.py:110-120 | the query names a column exactly when its argument is not None |
| SqliteRecetario.GivenValues | Recetario.py:112-120 | there is one parameter per named column |
| SqliteRecetario.AssignmentsEndWithComma | Recetario.py:122 | the appended assignments are the SET clause followed by one comma |
| SqliteRecetario.RStripOne | Recetario.py:122 | `rstrip(",")` removes exactly that one trailing comma |
| SqliteRecetario.StripAssignments | Recetario.py:122 | `rstrip(",")` turns the appended assignments into the SET clause |
| SqliteRecetario.CountAssignment | Recetario.py:111 | each ` col = ?` holds one placeholder |
| SqliteRecetario.CountSetClause | Recetario.py:110-122 | the SET clause holds one placeholder per column |
| SqliteRecetario.ColumnNamesHaveNoPlaceholder | Recetario.py:110-120 | no column name holds a `?` |
| SqliteRecetario.AppendAssignment | Recetario.py:111 | one `update_query += " col = ?,"` step appends that column's assignment |
| SqliteRecetario.FinishQuery | Recetario.py:122 | the stripped query plus ` WHERE id = ?` is the SET clause closed by the WHERE clause |
| SqliteRecetario.QueryPlaceholders | Recetario.py:103-125 | the finished query holds one more placeholder than there are column values |
| SqliteRecetario.CountQueryHead | Recetario.py:107 | `UPDATE recetas SET` holds no placeholder |
| SqliteRecetario.CountQueryTail | Recetario.py:122 | ` WHERE id = ?` holds one placeholder |
| SqliteRecetario.SetIfGiven | Recetario.py:110-120 | one `if ... is not None` step: the query gains that column's assignment and the parameters gain its value, or neither changes |
| SqliteRecetario.BuildUpdateQuery | Recetario.py:103-123 | the query names the non-None columns in order receta, ingredientes, pasos and ends in ` WHERE id = ?`; the parameters are their values then the id; the `?` count equals the number of parameters |
| SqliteRecetario.NoColumnQuery | Recetario.py:106-123 | with no column given the query is `UPDATE recetas SET WHERE id = ?` |
| SqliteRecetario.UpdateUnknownIdIsSilent | Recetario.py:125-127 | an update of an absent id leaves the table unchanged |
| SqliteRecetario.Database.constructor | Recetario.py:15-37 | the freshly created tables are empty and satisfy their constraints |
| SqliteRecetario.Database.CreateUser | Recetario.py:45-66 | the outcome is a report the lookup allows, for whichever clashing row it returns; on success exactly one row is appended with the next rowid and the hashed password; otherwise nothing changes; constraints kept |
| SqliteRecetario.Database.LogIn | Recetario.py:69-85 | some id is returned exactly when a row has that name and hash_password(contrasena), and it is such a row's id |
| SqliteRecetario.Database.AddRecipe | Recetario.py:88-100 | added exactly when the name is new: one row with '\n'-joined lists owned by the caller; a taken name violates `receta UNIQUE` and adds nothing |
| SqliteRecetario.Database.UpdateRecipe | Recetario.py:103-129 | fails exactly for an empty SET clause or a name held by another row, changing nothing; otherwise it performs the UPDATE of the given columns |
| SqliteRecetario.Database.DeleteRecipe | Recetario.py:132-141 | removes exactly the rows with that id; constraints kept |
| SqliteRecetario.Database.ListRecipes | Recetario.py:144-159 | exactly the `(id, receta)` of the caller's recipes, in strictly ascending rowid order, so each once |
| SqliteRecetario.Database.ViewRecipeDetails | Recetario.py:162-180 | None exactly when no row has the id, otherwise that row's name, ingredients and steps |
| SqliteRecetario.Database.SearchRecipeByIngredient | Recetario.py:183-198 | exactly the `(id, receta)` of recipes of any owner whose ingredients match `LIKE`, in strictly ascending rowid order, so each once |
| OrmRecetario.Registering | SQLAlchemy/Recetario.py:41-52 | name-taken exactly when some user has the name; email-taken exactly when none has the name and one has the email; created exactly when neither is in use |
| OrmRecetario.Assigned | SQLAlchemy/Recetario.py:80-86 | assigning the given attributes in place equals patching the row with the '\n'-joined values |
| OrmRecetario.Session.constructor | SQLAlchemy/Recetario.py:8-25 | `create_all` yields empty tables satisfying the mapped constraints |
| OrmRecetario.Session.CreateUser | SQLAlchemy/Recetario.py:38-52 | the outcome is the name-first decision; on success exactly one Usuario with the hashed password is appended; otherwise nothing changes |
| OrmRecetario.Session.LogIn | SQLAlchemy/Recetario.py:54-64 | an id exactly when a user matches name and hashed password |
| OrmRecetario.Session.AddRecipe | SQLAlchemy/Recetario.py:66-73 | commits exactly when the name is new, appending one recipe with '\n'-joined lists; otherwise IntegrityError escapes and nothing changes |
| OrmRecetario.Session.UpdateRecipe | SQLAlchemy/Recetario.py:75-92 | not-found exactly when no recipe has the id; IntegrityError exactly when the new name belongs to another recipe; otherwise only the given attributes of that recipe change |
| OrmRecetario.Session.DeleteRecipe | SQLAlchemy/Recetario.py:94-103 | not-found exactly when no recipe has the id; the table afterwards is the table without that recipe |
| OrmRecetario.Session.ListRecipes | SQLAlchemy/Recetario.py:105-117 | user-not-found exactly when no user has the id; otherwise exactly the `(id, receta)` of the user's recipes, in strictly ascending rowid order, so each once |
| OrmRecetario.Session.ViewRecipeDetails | SQLAlchemy/Recetario.py:119-131 | None exactly when no recipe has the id, otherwise its fields |
| OrmRecetario.Session.SearchRecipeByIngredient | SQLAlchemy/Recetario.py:133-142 | exactly the recipes of any owner whose ingredients match `like('%frag%')`, in strictly ascending rowid order, so each once |
| RedisRecetario.KeysDisjoint | Redis/Recetario.py:21 | `user:` and `recipe:` keys never collide, and only recipe keys match `recipe:*` |
| RedisRecetario.KeyIdRoundTrip | Redis/Recetario.py:93 | `split(":")[1]` of `recipe:<uuid>` gives the uuid back, since a uuid holds no ':' |
| RedisRecetario.KeyIdCutsAtColon | Redis/Recetario.py:93 | an id holding ':' comes back cut at it |
| RedisRecetario.HSetKeeps | Redis/Recetario.py:26-27 | `hset` adds at most its key, leaves other keys and the presence of other fields unchanged, and leaves no empty hash |
| RedisRecetario.AddedRecipe | Redis/Recetario.py:47-57 | the four `hset`s merge the recipe fields into the key's hash and touch no other key; on a fresh key the hash is exactly those fields |
| RedisRecetario.UpdatedRecipe | Redis/Recetario.py:62-71 | with no field given nothing changes; otherwise exactly the given fields of that key are written, whether or not it existed, and no other key changes |
| RedisRecetario.ScanAll | Redis/Recetario.py:88-95 | a scan of every recipe key reports exactly the qualifying recipes, one entry per key |
| RedisRecetario.DetailsOf | Redis/Recetario.py:109-123 | not-found exactly for an empty hash; found exactly when the name and both lists are present |
| RedisRecetario.DetailsRoundTrip | Redis/Recetario.py:53-54 | lists typed at the console come back unchanged from view_recipe_details |
| RedisRecetario.RedisStore.constructor | Redis/Recetario.py:5-12 | an empty key space |
| RedisRecetario.RedisStore.CreateUser | Redis/Recetario.py:18-30 | never reports a taken email; name-taken exactly when `user:<usuario>` exists, changing nothing; otherwise that key gets exactly the hash and the email |
| RedisRecetario.RedisStore.LogIn | Redis/Recetario.py:32-45 | returns `user:<usuario>` exactly when that hash's contrasena equals the hashed password |
| RedisRecetario.RedisStore.AddRecipe | Redis/Recetario.py:47-60 | returns the uuid; the key space is the four `hset`s on `recipe:<uuid>` |
| RedisRecetario.RedisStore.UpdateRecipe | Redis/Recetario.py:62-74 | the key space is the `hset` of each given field, with no existence check |
| RedisRecetario.RedisStore.DeleteRecipe | Redis/Recetario.py:76-83 | exactly `recipe:<id>` is removed |
| RedisRecetario.RedisStore.RecipeKeyList | Redis/Recetario.py:88 | `keys("recipe:*")` returns every recipe key once |
| RedisRecetario.RedisStore.ListRecipes | Redis/Recetario.py:85-104 | fails exactly when some recipe hash lacks user_id, or the caller's lacks a name; otherwise reports exactly the caller's recipes as `(uuid, name)`, one per key |
| RedisRecetario.RedisStore.SearchRecipeByIngredient | Redis/Recetario.py:125-144 | fails exactly when some recipe lacks ingredientes, or a match lacks a name; otherwise reports exactly the recipes of any owner whose ingredients contain the fragment, case-sensitively |
| RedisRecetario.RedisStore.ViewRecipeDetails | Redis/Recetario.py:106-123 | the details of the hash under `recipe:<id>`, with the lists split back |
| RedisRecetario.AddedRecipeIsListed | Redis/Recetario.py:47-57 | a recipe added under a fresh uuid holds exactly its four fields, is listed for its owner under that uuid, and is found by view |
| RedisRecetario.UpdateUnknownBreaksListing | Redis/Recetario.py:62-71 | updating an absent recipe makes list_recipes fail for every user |
| RedisRecetario.SearchIsCaseSensitive | Redis/Recetario.py:132 | the search does not find "egg" in "Eggs" |
| MongoRecetario.ParseObjectId | MongoDB/Recetario.py:119 | `ObjectId(s)` succeeds exactly for 24 hex digits and yields their lower-case spelling |
| MongoRecetario.ObjectIdRoundTrip | MongoDB/Recetario.py:119 | parsing the printed spelling of an ObjectId gives it back |
| MongoRecetario.Registering | MongoDB/Recetario.py:26-36 | created exactly when no document has the name or email; otherwise the first `$or` match decides by its name |
| MongoRecetario.LoginId | MongoDB/Recetario.py:45-50 | an `_id` exactly when a document has that name and hash, and it is such a document's `_id` |
| MongoRecetario.UpdatedOne | MongoDB/Recetario.py:83 | `update_one` keeps the number of documents |
| MongoRecetario.DeletedOne | MongoDB/Recetario.py:92 | `delete_one` changes nothing exactly when no document has that `_id`, and otherwise removes exactly one |
| MongoRecetario.Summaries | MongoDB/Recetario.py:103-107 | the `(_id, receta)` pairs are exactly those of the documents, one each |
| MongoRecetario.InsertUser | MongoDB/Recetario.py:33-36 | inserting a user that passed create_user's check under a fresh `_id` keeps ids, names and emails distinct |
| MongoRecetario.InsertRecipe | MongoDB/Recetario.py:61-62 | inserting under a fresh `_id` keeps the `_id` index |
| MongoRecetario.UpdateKeepsIds | MongoDB/Recetario.py:83 | `$set` of recipe fields keeps every `_id` and every recipe field present |
| MongoRecetario.DeleteKeepsIds | MongoDB/Recetario.py:92 | `delete_one` keeps the index and the shape of the remaining documents |
| MongoRecetario.SetDocumentFields | MongoDB/Recetario.py:72-81 | the `$set` document holds exactly the given fields, lists as given, and never `_id` or id_usuario |
| MongoRecetario.UpdateTouchesOnlyGivenFields | MongoDB/Recetario.py:83 | only the matched document changes, only in the `$set` fields |
| MongoRecetario.StringIdMatchesNothing | MongoDB/Recetario.py:83-92 | with the id passed as a string, update and delete change nothing |
| MongoRecetario.Database.constructor | MongoDB/Recetario.py:6-14 | empty collections |
| MongoRecetario.Database.CreateUser | MongoDB/Recetario.py:22-38 | the outcome is the first-match decision; on success exactly one user document with the hashed password; otherwise nothing changes |
| MongoRecetario.Database.LogIn | MongoDB/Recetario.py:41-55 | an `_id` exactly when a document matches name and hashed password |
| MongoRecetario.Database.AddRecipe | MongoDB/Recetario.py:58-65 | appends exactly one document holding the lists unchanged, with no name check |
| MongoRecetario.Database.BuildUpdateQuery | MongoDB/Recetario.py:71-81 | the dict filled field by field holds a key exactly when its argument is not None |
| MongoRecetario.Database.UpdateRecipe | MongoDB/Recetario.py:68-86 | the collection is the `update_one` by `_id` with that `$set` document |
| MongoRecetario.Database.DeleteRecipe | MongoDB/Recetario.py:89-96 | the collection is the `delete_one` by `_id` |
| MongoRecetario.Database.ListRecipes | MongoDB/Recetario.py:99-112 | exactly the `(_id, receta)` of documents whose id_usuario is the caller's, one per document |
| MongoRecetario.Database.ViewRecipeDetails | MongoDB/Recetario.py:115-133 | invalid-id exactly when `ObjectId()` rejects the string; not-found exactly when no document has that ObjectId; otherwise its fields |
| MongoRecetario.AddedRecipeReadsBack | MongoDB/Recetario.py:58-65 | a recipe added under a fresh ObjectId is the first document that view finds by the printed id |
| Budget.LoginId | parcial1/parcial1.py:39-49 | an id exactly when some row has that name and hash; it is the id of the first such row in table order (`fetchone`) |
| Budget.LoginIsLowestId | parcial1/parcial1.py:39-49 | on a table in rowid order, the returned id is the lowest id among the matching rows |
| Budget.LaterDuplicateIsShadowed | parcial1/parcial1.py:31-49 | once a row answers a login, appending any row leaves the answer unchanged, so a re-registration with the same password is never reached |
| Budget.NewPasswordReachesNewRow | parcial1/parcial1.py:31-49 | a re-registration of a name under a password no row has is what a login with that password returns |
| Budget.TotalAfterAdd | parcial1/parcial1.py:52-55 | a new article adds its cost to its owner's total and to no one else's |
| Budget.TotalIgnoresOthers | parcial1/parcial1.py:86 | articles of other users never change a user's total |
| Budget.SelectionAscends | parcial1/parcial1.py:59-67 | a selection from the articles table, kept in ascending id order, lists its articles in strictly ascending id order |
| Budget.EditedArticles | parcial1/parcial1.py:72 | the UPDATE keeps the number of rows |
| Budget.EditTouchesOnlyThatRow | parcial1/parcial1.py:70-74 | the edit rewrites title, description and cost of the row with that id, keeps its owner, and changes no other row |
| Budget.EditKeepsKeys | parcial1/parcial1.py:72 | the edit keeps ids in ascending order |
| Budget.Tracker.constructor | parcial1/parcial1.py:10-28 | the freshly created tables are empty and both AUTOINCREMENT counters start at 0 |
| Budget.Tracker.RegisterUser | parcial1/parcial1.py:31-36 | always appends one row with the hashed password, even for a taken name; its id is the old counter plus one, which becomes the new counter |
| Budget.Tracker.Login | parcial1/parcial1.py:39-49 | an id exactly when a row matches name and hashed password, and it is `LoginId` of the table: the first matching row's id |
| Budget.Tracker.AddArticle | parcial1/parcial1.py:52-56 | appends one article owned by user_id under the old counter plus one, which becomes the new counter and was never issued before |
| Budget.Tracker.SearchArticle | parcial1/parcial1.py:59-67 | exactly the articles of every user whose title matches `LIKE`, in strictly ascending id order, so each once |
| Budget.Tracker.EditArticle | parcial1/parcial1.py:70-74 | the table is the UPDATE by id, with no ownership check |
| Budget.Tracker.DeleteArticle | parcial1/parcial1.py:77-81 | exactly the rows with that id go, whoever owns them |
| Budget.Tracker.TotalCost | parcial1/parcial1.py:84-97 | lists exactly the caller's articles, in strictly ascending id order whenever the table keeps its key order, and the accumulated total is the sum of their costs |
| WebRecetario.Receta.constructor | Jinja2/main.py:15-19 | the object holds the three given attributes (also Flask/main.py:12-16) |
| WebRecetario.CounterKeyIsNotListed | Jinja2/main.py:92 | the counter key `receta_id` is never returned by `KEYS receta:*` and is no recipe key |
| WebRecetario.RecipeKeyParses | Jinja2/main.py:97 | `int(clave.split(":")[-1])` on `receta:<n>` gives n back |
| WebRecetario.RecipeKeyInjective | Jinja2/main.py:23-33 | distinct ids name distinct hashes |
| WebRecetario.SaveReadsBack | Jinja2/main.py:30-33 | saving writes a key no earlier save used, keeps the store's shape, reads back as what was saved, and leaves every other id as it was (also Flask/main.py:25-28) |
| WebRecetario.EditKeepsOriginal | Jinja2/main.py:68-72 | saving an edit of a stored recipe leaves the original readable as before and stores the edit under a new id (also Flask/main.py:58-62) |
| WebRecetario.DeleteForgetsOne | Jinja2/main.py:84-85 | deleting a recipe forgets that id only and keeps the store's shape |
| WebRecetario.ListingIsEveryRecipe | Jinja2/main.py:92-100 | loading every listed key yields exactly the stored recipes, each recipe as many times as there are keys holding it |
| WebRecetario.ListingCountsEachKey | Jinja2/main.py:92-100 | over the distinct recipe keys, each recipe value occurs once per key that holds it |
| WebRecetario.Store.constructor | Jinja2/main.py:12 | an empty Redis database |
| WebRecetario.Store.CargarReceta | Jinja2/main.py:22-27 | null exactly when nothing is stored under the id; otherwise a new object with the stored attributes (also Flask/main.py:18-23) |
| WebRecetario.Store.GuardarReceta | Jinja2/main.py:30-33 | the store after INCR and `hset` on the new number (also Flask/main.py:25-28) |
| WebRecetario.Store.AgregarReceta | Jinja2/main.py:42-55 | on POST exactly one new recipe from the form, then a redirect; otherwise the form and no write (also Flask/main.py:34-46) |
| WebRecetario.Store.ActualizarReceta | Jinja2/main.py:58-79 | not-found and no write for an unknown id; the form on GET; on POST the edit saved under a new id (also Flask/main.py:48-68) |
| WebRecetario.Store.EliminarReceta | Jinja2/main.py:82-87 | deletes `receta:<id>` and redirects when it exists; otherwise not-found and no change (also Flask/main.py:70-75) |
| WebRecetario.Store.RecipeKeyList | Jinja2/main.py:92 | `KEYS receta:*` returns every recipe key once |
| WebRecetario.Store.VerListadoRecetas | Jinja2/main.py:90-103 | the listed objects hold exactly the stored recipes, each one once per recipe key holding it (also Flask/main.py:77-89) |
| Variants.RegistrationVariantsAgree | SQLAlchemy/Recetario.py:41-47 | whatever row SQLite's lookup returns, SQLite and SQLAlchemy create a user in the same states; a name SQLite reports taken the ORM reports taken, and an email the ORM reports taken SQLite reports taken |
| Variants.NameFirstIsOnePlan | Recetario.py:49-57 | SQLAlchemy's name-first answer is always one SQLite may give |
| Variants.RegistrationVariantsMayDiffer | Recetario.py:49-57 | with the email held by one user and the name by another, SQLite may report the email where SQLAlchemy reports the name |

## Left out

- The console menus (`main()` of each file), every `input` and `print`, and the message text. Each message becomes an outcome value. Blank answers reach update_recipe as `''`/`['']`, never None; the model keeps the Option signature the functions declare.
- Connection setup (`create_connection`, `connect_db`), DDL execution, commits and transactions. The schema's constraints are kept as class invariants. SQLite does not enforce foreign keys by default, so referential integrity is not modelled.
- The internals of SHA-256 (`hash_password`): a function-valued parameter, not assumed injective.
- The exceptions a driver raises for a lost connection or a wrong value type. Only the exceptions the stored data can cause are modelled.
- MongoRecetario.Database.CreateUser: the `_id` the driver generates is a parameter assumed fresh (FreshUserId), because ObjectId generation is random.
- MongoRecetario.Database.AddRecipe: the same, with FreshRecipeId.
- RedisRecetario.RedisStore.AddRecipe: the `uuid4()` value is a parameter. No freshness is assumed, and `hset` merging into an existing key is modelled.
- Search by `$regex` in MongoDB/Recetario.py:136-150, since it needs a regular-expression engine.
- Relational.IngredienteLike: `LIKE` is modelled as an ASCII case-insensitive substring test. The fragment must hold neither `%` nor `_`, so LIKE's wildcards are not modelled.
- SqliteRecetario.Database.SearchRecipeByIngredient: the same restriction to wildcard-free fragments.
- OrmRecetario.Session.SearchRecipeByIngredient: the same restriction to wildcard-free fragments.
- Budget.Tracker.SearchArticle: the same restriction to wildcard-free fragments.
- Budget.Tracker.TotalCost: costs are exact reals. Floating-point rounding and the `:.2f` formatting are not modelled.
- Budget.Tracker.AddArticle: the AUTOINCREMENT counter is unbounded. The 64-bit rowid limit is not modelled.
- SqliteRecetario.Database.UpdateRecipe: `id` is compared as an integer, so SQLite's conversion of a text id typed at the console is not modelled.
- SqliteRecetario.Database.DeleteRecipe: the same integer comparison of the id typed at the console.
- SqliteRecetario.Database.ViewRecipeDetails: the same integer comparison of the id typed at the console.
- Budget.Tracker.EditArticle: `id` is compared as an integer, so SQLite's conversion of the text id typed at the console (parcial1/parcial1.py:142, 146) is not modelled.
- Budget.Tracker.DeleteArticle: the same integer comparison of the id typed at the console (parcial1/parcial1.py:148-149).
- Storage order. Scans over unindexed columns return rows in rowid or insertion order, the order in which SQLite and MongoDB scan a table. This covers `fetchone`, `fetchall`, `.first()`, `.all()`, `find_one`, `find` and MongoDB's `$or` lookup. SQLite's create_user lookup runs over two indexed columns, so which clashing row it returns is left open. The order of `KEYS` is left open too.
- WebRecetario.Store.VerListadoRecetas: under the store's invariant, every `receta:*` key the application wrote parses as an integer. The ValueError that `int()` would raise on a foreign key is not modelled.
- WebRecetario.Store.GuardarReceta: requires the store's invariant, so INCR on a non-integer or negative counter is not modelled.
- JSON encoding in the web application: `json.loads` is taken as the inverse of `json.dumps`, so a hash holds the three attributes directly.
- Flask routing, templates, redirects and `request.form`. The request method and form fields are parameters, and the rendered page is a `Response` value.
- Redis hash field names are an enumeration of the six literals the program uses.
- The emptiness tests on a MongoDB cursor (`if user_recipes:`) are left out with the messages: a cursor is always truthy.
- Celery/main.py (mail delivery around one Redis `set`) and parcial2/main.py (spreadsheet reading with pandas) are not part of this model.
