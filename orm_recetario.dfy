/** The SQLAlchemy recipe book (SQLAlchemy/Recetario.py): a `Session` over the
    mapped classes `Usuario` and `Receta`, which share the relational schema.
    Unlike the SQLite version it looks rows up before changing them, reports a
    missing recipe or user, and lets an IntegrityError raised by `commit()`
    escape (modelled as a `Raised` outcome with the tables unchanged). */
module OrmRecetario {

  import opened Rows
  import opened Accounts
  import opened Relational
  import opened Text

  /** add_recipe either commits or lets IntegrityError escape. */
  datatype AddOutcome = RecipeAdded | AddRaised

  /** Messages of update_recipe, plus the escaping IntegrityError. */
  datatype UpdateOutcome = RecipeModified | UpdateNotFound | UpdateRaised

  /** Messages of delete_recipe. */
  datatype DeleteOutcome = RecipeDeleted | DeleteNotFound

  /** list_recipes: the user's `(id, receta)` pairs, or "user not found". */
  datatype Listing = Listed(recipes: seq<(int, string)>) | NoSuchUser

  function UsuarioNamed(usuario: string): Usuario -> bool
  {
    (u: Usuario) => u.usuario == usuario
  }

  function UsuarioWithEmail(email: string): Usuario -> bool
  {
    (u: Usuario) => u.email == email
  }

  /** What create_user reports: it queries the name and the email separately
      and tests the name first. */
  function Registering(rows: seq<Usuario>, usuario: string, email: string): (r: Registration)
    ensures r == UsernameTaken <==> exists u :: u in rows && u.usuario == usuario
    ensures r == EmailTaken <==> (forall u :: u in rows ==> u.usuario != usuario) && exists u :: u in rows && u.email == email
    ensures r == UserCreated <==> forall u :: u in rows ==> u.usuario != usuario && u.email != email
  {
    var existingUser := First(rows, UsuarioNamed(usuario));
    var existingEmail := First(rows, UsuarioWithEmail(email));
    if existingUser.Some? then UsernameTaken
    else if existingEmail.Some? then EmailTaken
    else UserCreated
  }

  /** The recipe updated in place: each given attribute assigned, in the order
      the source assigns them. */
  function Assigned(x: Receta, receta: Option<string>, ingredientes: Option<seq<string>>, pasos: Option<seq<string>>): (y: Receta)
    ensures y == Patched(x, receta, JoinedOpt(ingredientes), JoinedOpt(pasos))
  {
    var x1 := if receta.Some? then x.(receta := receta.value) else x;
    var x2 := if ingredientes.Some? then x1.(ingredientes := Join(ingredientes.value, '\n')) else x1;
    if pasos.Some? then x2.(pasos := Join(pasos.value, '\n')) else x2
  }

  class Session {

    const hashPassword: string -> string
    var usuarios: seq<Usuario>
    var recetas: seq<Receta>

    /** `primary_key=True` and `unique=True` of the mapped columns. */
    ghost predicate Valid()
      reads this
    {
      UsuariosTable(usuarios) && RecetasTable(recetas)
    }

    /** A session on a database that `create_all` has just created. */
    constructor(hashPassword: string -> string)
      ensures Valid()
      ensures this.hashPassword == hashPassword
      ensures usuarios == [] && recetas == []
    {
      this.hashPassword := hashPassword;
      usuarios := [];
      recetas := [];
    }

    /** create_user: a new Usuario with the hashed password when neither the
        name nor the email is in use. */
    method CreateUser(usuario: string, contrasena: string, email: string) returns (r: Registration)
      requires Valid()
      modifies this
      ensures Valid()
      ensures r == Registering(old(usuarios), usuario, email)
      ensures r == UserCreated ==>
        usuarios == old(usuarios) + [Usuario(NextUsuarioId(old(usuarios)), usuario, hashPassword(contrasena), email)]
      ensures r != UserCreated ==> usuarios == old(usuarios)
      ensures recetas == old(recetas)
    {
      var hashed := hashPassword(contrasena);
      r := Registering(usuarios, usuario, email);
      if r == UserCreated {
        var u := Usuario(NextUsuarioId(usuarios), usuario, hashed, email);
        InsertUsuario(usuarios, u);
        usuarios := usuarios + [u];
      }
    }

    /** log_in: the id of the first user with that name and stored hash. */
    method LogIn(usuario: string, contrasena: string) returns (id: Option<int>)
      ensures id.Some? <==> exists u :: u in usuarios && u.usuario == usuario && u.contrasena == hashPassword(contrasena)
      ensures id.Some? ==> exists u :: u in usuarios && u.usuario == usuario && u.contrasena == hashPassword(contrasena) && u.id == id.value
    {
      id := LoginId(usuarios, usuario, hashPassword(contrasena));
    }

    /** add_recipe: `session.add` then `commit`, which raises on a taken name. */
    method AddRecipe(receta: string, ingredientes: seq<string>, pasos: seq<string>, idUsuario: int) returns (r: AddOutcome)
      requires Valid()
      modifies this
      ensures Valid()
      ensures r == RecipeAdded <==> !NameTaken(old(recetas), receta)
      ensures r == RecipeAdded ==>
        recetas == old(recetas) + [Receta(NextRecetaId(old(recetas)), receta, Join(ingredientes, '\n'), Join(pasos, '\n'), idUsuario)]
      ensures r == AddRaised ==> recetas == old(recetas)
      ensures usuarios == old(usuarios)
    {
      var x := Receta(NextRecetaId(recetas), receta, Join(ingredientes, '\n'), Join(pasos, '\n'), idUsuario);
      if NameTaken(recetas, receta) {
        r := AddRaised;
      } else {
        InsertReceta(recetas, x);
        recetas := recetas + [x];
        r := RecipeAdded;
      }
    }

    /** update_recipe: finds the recipe, assigns the given attributes, commits. */
    method UpdateRecipe(idReceta: int, receta: Option<string>, ingredientes: Option<seq<string>>, pasos: Option<seq<string>>)
      returns (r: UpdateOutcome)
      requires Valid()
      modifies this
      ensures Valid()
      ensures r == UpdateNotFound <==> forall x :: x in old(recetas) ==> x.id != idReceta
      ensures r == UpdateRaised <==>
        (exists x :: x in old(recetas) && x.id == idReceta) && receta.Some? && NameTakenByOther(old(recetas), receta.value, idReceta)
      ensures r == RecipeModified ==>
        recetas == UpdatedRecetas(old(recetas), idReceta, receta, JoinedOpt(ingredientes), JoinedOpt(pasos))
      ensures r != RecipeModified ==> recetas == old(recetas)
      ensures usuarios == old(usuarios)
    {
      match First(recetas, (x: Receta) => x.id == idReceta)
      case None =>
        r := UpdateNotFound;
      case Some(i) =>
        var recipe := Assigned(recetas[i], receta, ingredientes, pasos);
        if receta.Some? && NameTakenByOther(recetas, receta.value, idReceta) {
          r := UpdateRaised;
        } else {
          UpdateAtIndex(recetas, i, receta, JoinedOpt(ingredientes), JoinedOpt(pasos));
          UpdateKeepsTable(recetas, idReceta, receta, JoinedOpt(ingredientes), JoinedOpt(pasos));
          recetas := recetas[i := recipe];
          r := RecipeModified;
        }
    }

    /** delete_recipe: finds the recipe and deletes it, or reports it missing. */
    method DeleteRecipe(idReceta: int) returns (r: DeleteOutcome)
      requires Valid()
      modifies this
      ensures Valid()
      ensures r == DeleteNotFound <==> forall x :: x in old(recetas) ==> x.id != idReceta
      ensures recetas == WithoutReceta(old(recetas), idReceta)
      ensures usuarios == old(usuarios)
    {
      DeleteReceta(recetas, idReceta);
      match First(recetas, (x: Receta) => x.id == idReceta)
      case None =>
        r := DeleteNotFound;
      case Some(i) =>
        DeleteAtIndex(recetas, i);
        recetas := recetas[..i] + recetas[i + 1..];
        r := RecipeDeleted;
    }

    /** list_recipes: `Usuario.recetas` of the user with that id, each once in
        rowid order (the relationship's lazy SELECT), or "user not found". */
    method ListRecipes(idUsuario: int) returns (r: Listing)
      requires Valid()
      ensures r.Listed? ==> StrictlyAscending(r.recipes, PairId)
      ensures r.NoSuchUser? <==> forall u :: u in usuarios ==> u.id != idUsuario
      ensures r.Listed? ==> forall p :: p in r.recipes <==>
        exists x :: x in recetas && x.idUsuario == idUsuario && p == (x.id, x.receta)
    {
      match First(usuarios, (u: Usuario) => u.id == idUsuario)
      case None =>
        r := NoSuchUser;
      case Some(_) =>
        r := Listed(RecetasOf(recetas, idUsuario));
    }

    /** view_recipe_details: name, ingredients and steps, or None. */
    method ViewRecipeDetails(idReceta: int) returns (r: Option<(string, string, string)>)
      ensures r.None? <==> forall x :: x in recetas ==> x.id != idReceta
      ensures r.Some? ==> exists x :: x in recetas && x.id == idReceta && r.value == (x.receta, x.ingredientes, x.pasos)
    {
      match RecetaById(recetas, idReceta)
      case None =>
        r := None;
      case Some(x) =>
        r := Some((x.receta, x.ingredientes, x.pasos));
    }

    /** search_recipe_by_ingredient: recipes of any owner whose ingredients
        match `like('%frag%')`, each once, in rowid order. */
    method SearchRecipeByIngredient(frag: string) returns (r: seq<(int, string)>)
      requires Valid()
      requires NoWildcards(frag)
      ensures StrictlyAscending(r, PairId)
      ensures forall p :: p in r <==> exists x :: x in recetas && Like(x.ingredientes, frag) && p == (x.id, x.receta)
    {
      r := IngredienteLike(recetas, frag);
    }
  }
}
