/** The MongoDB recipe book (MongoDB/Recetario.py): collections `usuarios` and
    `recetas` of documents, each with an `_id` ObjectId the driver generates.
    No index other than `_id` exists: name and email uniqueness is kept only by
    create_user's own check, and recipe names are not checked at all. */
module MongoRecetario {

  import opened Rows
  import opened Text
  import opened Accounts

  /** A BSON ObjectId, by its canonical spelling: 24 lower-case hex digits. */
  datatype ObjectId = ObjectId(hex: string)

  /** The field values the program stores: strings, lists of strings (the
      ingredient and step lists) and ObjectIds (`_id`, `id_usuario`). */
  datatype Value = Text(s: string) | List(items: seq<string>) | Oid(oid: ObjectId)

  /** The recipe fields the program reads and writes. */
  datatype Field = Id | Receta | Ingredientes | Pasos | IdUsuario

  /** A document of `recetas`. */
  type Document = map<Field, Value>

  /** A document of `usuarios`; only create_user writes them, always with these
      four fields. */
  datatype UserDoc = UserDoc(id: ObjectId, usuario: string, contrasena: string, email: string)

  /** view_recipe_details: `ObjectId(id_receta)` raised InvalidId, no document,
      or the document's three fields. */
  datatype Details = InvalidId | NotFound | Found(receta: Value, ingredientes: Value, pasos: Value)

  // ---------------------------------------------------------------- ObjectId

  predicate IsHexDigit(c: char)
  {
    '0' <= c <= '9' || 'a' <= c <= 'f' || 'A' <= c <= 'F'
  }

  /** An ObjectId as `str(oid)` spells it. */
  predicate Canonical(o: ObjectId)
  {
    |o.hex| == 24 && forall i :: 0 <= i < |o.hex| ==> '0' <= o.hex[i] <= '9' || 'a' <= o.hex[i] <= 'f'
  }

  /** `ObjectId(s)` for a string: 24 hex digits of either case, else InvalidId. */
  function ParseObjectId(s: string): (r: Option<ObjectId>)
    ensures r.Some? <==> |s| == 24 && forall i :: 0 <= i < |s| ==> IsHexDigit(s[i])
    ensures r.Some? ==> Canonical(r.value) && Lower(r.value.hex) == Lower(s)
  {
    if |s| == 24 && forall i :: 0 <= i < |s| ==> IsHexDigit(s[i]) then
      var o := ObjectId(Lower(s));
      assert forall i :: 0 <= i < |s| ==> Lower(s)[i] == LowerChar(s[i]);
      assert Lower(o.hex) == o.hex;
      Some(o)
    else None
  }

  /** Parsing the spelling `str(oid)` gives the ObjectId back. */
  lemma ObjectIdRoundTrip(o: ObjectId)
    requires Canonical(o)
    ensures ParseObjectId(o.hex) == Some(o)
  {
    assert Lower(o.hex) == o.hex;
  }

  // ---------------------------------------------------------------- queries

  /** The filter `{f: v}`. */
  function HasValue(f: Field, v: Value): Document -> bool
  {
    (d: Document) => f in d && d[f] == v
  }

  /** The filter `{"$or": [{"usuario": usuario}, {"email": email}]}`. */
  function UserOrEmail(usuario: string, email: string): UserDoc -> bool
  {
    (u: UserDoc) => u.usuario == usuario || u.email == email
  }

  /** What create_user reports: the first document matching the name or the
      email decides, by whether its name is the one asked for. */
  function Registering(users: seq<UserDoc>, usuario: string, email: string): (r: Registration)
    ensures r == UserCreated <==> forall u :: u in users ==> u.usuario != usuario && u.email != email
    ensures forall i :: 0 <= i < |users| && UserOrEmail(usuario, email)(users[i])
                     && (forall j :: 0 <= j < i ==> !UserOrEmail(usuario, email)(users[j]))
                     ==> (r == UsernameTaken <==> users[i].usuario == usuario) && r != UserCreated
  {
    match First(users, UserOrEmail(usuario, email))
    case None => UserCreated
    case Some(i) => if users[i].usuario == usuario then UsernameTaken else EmailTaken
  }

  /** `find_one({"usuario": usuario, "contrasena": hashed})["_id"]`. */
  function LoginId(users: seq<UserDoc>, usuario: string, hashed: string): (r: Option<ObjectId>)
    ensures r.Some? <==> exists u :: u in users && u.usuario == usuario && u.contrasena == hashed
    ensures r.Some? ==> exists u :: u in users && u.usuario == usuario && u.contrasena == hashed && u.id == r.value
  {
    match First(users, (u: UserDoc) => u.usuario == usuario && u.contrasena == hashed)
    case None => None
    case Some(i) => Some(users[i].id)
  }

  /** The `$set` document update_recipe builds: the given fields only. */
  function SetDocument(receta: Option<string>, ingredientes: Option<seq<string>>, pasos: Option<seq<string>>): Document
  {
    var q0: Document := map[];
    var q1 := if receta.Some? then q0[Receta := Text(receta.value)] else q0;
    var q2 := if ingredientes.Some? then q1[Ingredientes := List(ingredientes.value)] else q1;
    if pasos.Some? then q2[Pasos := List(pasos.value)] else q2
  }

  /** `update_one(filter, {"$set": q})`: the first matching document gets the
      fields of `q`, every other field and document is kept. */
  function UpdatedOne(docs: seq<Document>, id: Value, q: Document): (r: seq<Document>)
    ensures |r| == |docs|
  {
    match First(docs, HasValue(Id, id))
    case None => docs
    case Some(i) => docs[i := docs[i] + q]
  }

  /** `delete_one(filter)`: the first matching document goes. */
  function DeletedOne(docs: seq<Document>, id: Value): (r: seq<Document>)
    ensures (forall d :: d in docs ==> !HasValue(Id, id)(d)) <==> r == docs
    ensures (exists d :: d in docs && HasValue(Id, id)(d)) ==> |r| == |docs| - 1
  {
    match First(docs, HasValue(Id, id))
    case None => docs
    case Some(i) => docs[..i] + docs[i + 1..]
  }

  /** The `(_id, receta)` pairs of documents that have both. */
  function Summaries(docs: seq<Document>): (r: seq<(Value, Value)>)
    requires forall d :: d in docs ==> Id in d && Receta in d
    ensures |r| == |docs|
    ensures forall p :: p in r <==> exists d :: d in docs && p == (d[Id], d[Receta])
  {
    if |docs| == 0 then []
    else
      assert forall d :: d in docs[1..] ==> d in docs;
      [(docs[0][Id], docs[0][Receta])] + Summaries(docs[1..])
  }

  // ---------------------------------------------------------------- invariants

  /** Two documents of `usuarios`: distinct `_id`s, and create_user's check
      keeps names and emails distinct. */
  predicate UserBefore(a: UserDoc, b: UserDoc)
  {
    a.id != b.id && a.usuario != b.usuario && a.email != b.email
  }

  /** A document of `recetas` as add_recipe writes it; `$set` only ever adds
      to it. */
  predicate RecipeShaped(d: Document)
  {
    Id in d && d[Id].Oid? && Receta in d && Ingredientes in d && Pasos in d && IdUsuario in d
  }

  /** The `_id` index: no two documents share an `_id`. */
  predicate DistinctIds(a: Document, b: Document)
  {
    Id in a && Id in b && a[Id] != b[Id]
  }

  predicate FreshUserId(users: seq<UserDoc>, o: ObjectId)
  {
    forall u :: u in users ==> u.id != o
  }

  predicate FreshRecipeId(docs: seq<Document>, o: ObjectId)
  {
    forall d :: d in docs ==> !HasValue(Id, Oid(o))(d)
  }

  /** A document add_recipe inserts. */
  function RecipeDoc(o: ObjectId, receta: string, ingredientes: seq<string>, pasos: seq<string>, idUsuario: Value): Document
  {
    map[Id := Oid(o), Receta := Text(receta), Ingredientes := List(ingredientes), Pasos := List(pasos), IdUsuario := idUsuario]
  }

  /** Inserting a user that passed create_user's check keeps the invariant. */
  lemma InsertUser(users: seq<UserDoc>, u: UserDoc)
    requires Pairwise(users, UserBefore)
    requires FreshUserId(users, u.id)
    requires Registering(users, u.usuario, u.email) == UserCreated
    ensures Pairwise(users + [u], UserBefore)
  {
    var r := users + [u];
    forall i, j | 0 <= i < j < |r| ensures UserBefore(r[i], r[j]) {
      assert r[i] == users[i] && users[i] in users;
      if j < |users| {
        assert r[j] == users[j];
      }
    }
  }

  /** Inserting a document under a fresh `_id` keeps the index. */
  lemma InsertRecipe(docs: seq<Document>, d: Document)
    requires Pairwise(docs, DistinctIds)
    requires forall x :: x in docs ==> Id in x
    requires Id in d && d[Id].Oid? && FreshRecipeId(docs, d[Id].oid)
    ensures Pairwise(docs + [d], DistinctIds)
  {
    var r := docs + [d];
    forall i, j | 0 <= i < j < |r| ensures DistinctIds(r[i], r[j]) {
      assert r[i] == docs[i] && docs[i] in docs;
      if j < |docs| {
        assert r[j] == docs[j];
      }
    }
  }

  /** `$set` of recipe fields keeps every document's `_id`, so the index. */
  lemma UpdateKeepsIds(docs: seq<Document>, id: Value, q: Document)
    requires Pairwise(docs, DistinctIds)
    requires forall d :: d in docs ==> RecipeShaped(d)
    requires Id !in q
    ensures Pairwise(UpdatedOne(docs, id, q), DistinctIds)
    ensures forall d :: d in UpdatedOne(docs, id, q) ==> RecipeShaped(d)
  {
    var r := UpdatedOne(docs, id, q);
    forall k | 0 <= k < |docs| ensures Id in r[k] && r[k][Id] == docs[k][Id] && RecipeShaped(r[k]) {
      assert docs[k] in docs;
      match First(docs, HasValue(Id, id))
      case None =>
      case Some(i) =>
        if k == i {
          assert r[k] == docs[k] + q;
        }
    }
    forall i, j | 0 <= i < j < |r| ensures DistinctIds(r[i], r[j]) {
      assert DistinctIds(docs[i], docs[j]);
    }
    forall d | d in r ensures RecipeShaped(d) {
      var k :| 0 <= k < |r| && r[k] == d;
    }
  }

  /** Removing a document keeps the index and the shape of the others. */
  lemma DeleteKeepsIds(docs: seq<Document>, id: Value)
    requires Pairwise(docs, DistinctIds)
    requires forall d :: d in docs ==> RecipeShaped(d)
    ensures Pairwise(DeletedOne(docs, id), DistinctIds)
    ensures forall d :: d in DeletedOne(docs, id) ==> RecipeShaped(d)
  {
    match First(docs, HasValue(Id, id))
    case None =>
    case Some(i) =>
      RemoveKeepsPairwise(docs, i, DistinctIds);
      assert forall d :: d in docs[..i] + docs[i + 1..] ==> d in docs;
  }

  // ---------------------------------------------------------------- the update

  /** The `$set` document holds exactly the fields whose argument is given,
      with the lists stored as given. */
  lemma SetDocumentFields(receta: Option<string>, ingredientes: Option<seq<string>>, pasos: Option<seq<string>>)
    ensures var q := SetDocument(receta, ingredientes, pasos);
      && Id !in q && IdUsuario !in q
      && (Receta in q <==> receta.Some?) && (receta.Some? ==> q[Receta] == Text(receta.value))
      && (Ingredientes in q <==> ingredientes.Some?) && (ingredientes.Some? ==> q[Ingredientes] == List(ingredientes.value))
      && (Pasos in q <==> pasos.Some?) && (pasos.Some? ==> q[Pasos] == List(pasos.value))
  {
  }

  /** The update rewrites only the given fields of the one document with that
      `_id`: every other document, and every field not given, keeps its value. */
  lemma UpdateTouchesOnlyGivenFields(docs: seq<Document>, id: Value, q: Document)
    ensures var r := UpdatedOne(docs, id, q);
      && (forall k :: 0 <= k < |docs| && !HasValue(Id, id)(docs[k]) ==> r[k] == docs[k])
      && (forall k, f :: 0 <= k < |docs| && f in docs[k] && f !in q ==> f in r[k] && r[k][f] == docs[k][f])
      && (forall k, f :: 0 <= k < |docs| && f in q && r[k] != docs[k] ==> f in r[k] && r[k][f] == q[f])
  {
  }

  /** The console passes the typed id string itself as `_id`, and a string is
      never an ObjectId: update_recipe and delete_recipe then change nothing. */
  lemma StringIdMatchesNothing(docs: seq<Document>, s: string, q: Document)
    requires forall d :: d in docs ==> RecipeShaped(d)
    ensures UpdatedOne(docs, Text(s), q) == docs
    ensures DeletedOne(docs, Text(s)) == docs
  {
    assert forall d :: d in docs ==> !HasValue(Id, Text(s))(d);
  }

  class Database {

    const hashPassword: string -> string
    var usuarios: seq<UserDoc>
    var recetas: seq<Document>

    ghost predicate Valid()
      reads this
    {
      && Pairwise(usuarios, UserBefore)
      && (forall d :: d in recetas ==> RecipeShaped(d))
      && Pairwise(recetas, DistinctIds)
    }

    /** The empty `recetario` database. */
    constructor(hashPassword: string -> string)
      ensures Valid()
      ensures this.hashPassword == hashPassword
      ensures usuarios == [] && recetas == []
    {
      this.hashPassword := hashPassword;
      usuarios := [];
      recetas := [];
    }

    /** create_user: inserts `{usuario, hashed contrasena, email}` under the
        driver's fresh ObjectId unless some document has the name or email. */
    method CreateUser(usuario: string, contrasena: string, email: string, newId: ObjectId) returns (r: Registration)
      requires Valid()
      requires FreshUserId(usuarios, newId)
      modifies this
      ensures Valid()
      ensures r == Registering(old(usuarios), usuario, email)
      ensures r == UserCreated ==> usuarios == old(usuarios) + [UserDoc(newId, usuario, hashPassword(contrasena), email)]
      ensures r != UserCreated ==> usuarios == old(usuarios)
      ensures recetas == old(recetas)
    {
      r := Registering(usuarios, usuario, email);
      if r == UserCreated {
        var u := UserDoc(newId, usuario, hashPassword(contrasena), email);
        InsertUser(usuarios, u);
        usuarios := usuarios + [u];
      }
    }

    /** log_in: the `_id` of a user with that name and stored hash. */
    method LogIn(usuario: string, contrasena: string) returns (id: Option<ObjectId>)
      ensures id.Some? <==> exists u :: u in usuarios && u.usuario == usuario && u.contrasena == hashPassword(contrasena)
      ensures id.Some? ==> exists u :: u in usuarios && u.usuario == usuario && u.contrasena == hashPassword(contrasena) && u.id == id.value
    {
      id := LoginId(usuarios, usuario, hashPassword(contrasena));
    }

    /** add_recipe: inserts the lists as given, with no check on the name. */
    method AddRecipe(receta: string, ingredientes: seq<string>, pasos: seq<string>, idUsuario: Value, newId: ObjectId)
      requires Valid()
      requires FreshRecipeId(recetas, newId)
      modifies this
      ensures Valid()
      ensures recetas == old(recetas) + [RecipeDoc(newId, receta, ingredientes, pasos, idUsuario)]
      ensures usuarios == old(usuarios)
    {
      var d := RecipeDoc(newId, receta, ingredientes, pasos, idUsuario);
      InsertRecipe(recetas, d);
      recetas := recetas + [d];
    }

    /** The `update_query` dict of update_recipe, filled field by field. */
    static method BuildUpdateQuery(receta: Option<string>, ingredientes: Option<seq<string>>, pasos: Option<seq<string>>)
      returns (q: Document)
      ensures q == SetDocument(receta, ingredientes, pasos)
      ensures Receta in q <==> receta.Some?
      ensures Ingredientes in q <==> ingredientes.Some?
      ensures Pasos in q <==> pasos.Some?
      ensures Id !in q && IdUsuario !in q
    {
      q := map[];
      if receta.Some? {
        q := q[Receta := Text(receta.value)];
      }
      if ingredientes.Some? {
        q := q[Ingredientes := List(ingredientes.value)];
      }
      if pasos.Some? {
        q := q[Pasos := List(pasos.value)];
      }
    }

    /** update_recipe: `update_one({"_id": id_receta}, {"$set": update_query})`. */
    method UpdateRecipe(idReceta: Value, receta: Option<string>, ingredientes: Option<seq<string>>, pasos: Option<seq<string>>)
      requires Valid()
      modifies this
      ensures Valid()
      ensures recetas == UpdatedOne(old(recetas), idReceta, SetDocument(receta, ingredientes, pasos))
      ensures usuarios == old(usuarios)
    {
      var q := BuildUpdateQuery(receta, ingredientes, pasos);
      UpdateKeepsIds(recetas, idReceta, q);
      match First(recetas, HasValue(Id, idReceta))
      case None =>
      case Some(i) =>
        recetas := recetas[i := recetas[i] + q];
    }

    /** delete_recipe: `delete_one({"_id": id_receta})`. */
    method DeleteRecipe(idReceta: Value)
      requires Valid()
      modifies this
      ensures Valid()
      ensures recetas == DeletedOne(old(recetas), idReceta)
      ensures usuarios == old(usuarios)
    {
      DeleteKeepsIds(recetas, idReceta);
      match First(recetas, HasValue(Id, idReceta))
      case None =>
      case Some(i) =>
        recetas := recetas[..i] + recetas[i + 1..];
    }

    /** list_recipes: `(_id, receta)` of every document whose id_usuario is the
        caller's. */
    method ListRecipes(idUsuario: Value) returns (r: seq<(Value, Value)>)
      requires Valid()
      ensures forall p :: p in r <==> exists d :: d in recetas && HasValue(IdUsuario, idUsuario)(d) && p == (d[Id], d[Receta])
      ensures |r| == |Where(recetas, HasValue(IdUsuario, idUsuario))|
    {
      var mine := Where(recetas, HasValue(IdUsuario, idUsuario));
      r := Summaries(mine);
    }

    /** view_recipe_details: looks up `ObjectId(id_receta)`. */
    method ViewRecipeDetails(idReceta: string) returns (d: Details)
      requires Valid()
      ensures d == InvalidId <==> ParseObjectId(idReceta).None?
      ensures d == NotFound <==> exists o :: ParseObjectId(idReceta) == Some(o) && forall x :: x in recetas ==> !HasValue(Id, Oid(o))(x)
      ensures d.Found? ==> exists x :: x in recetas && HasValue(Id, Oid(ParseObjectId(idReceta).value))(x)
                                    && d == Found(x[Receta], x[Ingredientes], x[Pasos])
    {
      match ParseObjectId(idReceta)
      case None =>
        d := InvalidId;
      case Some(o) =>
        match First(recetas, HasValue(Id, Oid(o)))
        case None =>
          d := NotFound;
        case Some(i) =>
          var x := recetas[i];
          assert x in recetas;
          d := Found(x[Receta], x[Ingredientes], x[Pasos]);
    }
  }

  /** An added recipe reads back by the hex spelling of its `_id`, with both
      lists exactly as given. */
  lemma AddedRecipeReadsBack(docs: seq<Document>, o: ObjectId, receta: string, ingredientes: seq<string>, pasos: seq<string>, idUsuario: Value)
    requires Canonical(o)
    requires FreshRecipeId(docs, o)
    ensures var r := docs + [RecipeDoc(o, receta, ingredientes, pasos, idUsuario)];
      && ParseObjectId(o.hex) == Some(o)
      && First(r, HasValue(Id, Oid(o))) == Some(|docs|)
  {
    ObjectIdRoundTrip(o);
    var r := docs + [RecipeDoc(o, receta, ingredientes, pasos, idUsuario)];
    forall j | 0 <= j < |docs| ensures !HasValue(Id, Oid(o))(r[j]) {
      assert r[j] == docs[j] && docs[j] in docs;
    }
    assert HasValue(Id, Oid(o))(r[|docs|]);
  }
}
