/** The SQLite recipe book (Recetario.py): a `Database` object owning the
    `usuarios` and `recetas` tables, one method per console operation. Every
    statement the source runs inside `try ... except sql.Error` either takes
    effect or leaves the tables untouched and reports failure. */
module SqliteRecetario {

  import opened Rows
  import opened Text
  import opened Accounts
  import opened Relational

  /** Messages of add_recipe. */
  datatype AddOutcome = RecipeAdded | AddFailed

  /** Messages of update_recipe. */
  datatype UpdateOutcome = RecipeModified | UpdateFailed

  /** A bound parameter of a prepared statement. */
  datatype Param = TextParam(text: string) | IdParam(id: int)

  // ---------------------------------------------------------------- create_user

  /** A row that `WHERE usuario = ? OR email = ?` selects. */
  predicate Clashes(u: Usuario, usuario: string, email: string)
  {
    u.usuario == usuario || u.email == email
  }

  /** What create_user prints when the lookup returns row `u`. */
  function Classify(u: Usuario, usuario: string): (r: Registration)
    ensures r != UserCreated
    ensures r == UsernameTaken <==> u.usuario == usuario
  {
    if u.usuario == usuario then UsernameTaken else EmailTaken
  }

  /** The reports create_user may give. `usuario` and `email` are both UNIQUE,
      hence indexed, so which clashing row `fetchone` returns depends on the
      query plan: any clashing row may decide. */
  ghost predicate MayReport(rows: seq<Usuario>, usuario: string, email: string, r: Registration)
  {
    if exists u :: u in rows && Clashes(u, usuario, email)
    then exists u :: u in rows && Clashes(u, usuario, email) && r == Classify(u, usuario)
    else r == UserCreated
  }

  /** Whichever row the lookup returns: the user is created exactly when no row
      has the name or the email, a reported name is held by some row, and a
      reported email by a row with another name. */
  lemma ReportIsSound(rows: seq<Usuario>, usuario: string, email: string, r: Registration)
    requires MayReport(rows, usuario, email, r)
    ensures r == UserCreated <==> forall u :: u in rows ==> u.usuario != usuario && u.email != email
    ensures r == UsernameTaken ==> exists u :: u in rows && u.usuario == usuario
    ensures r == EmailTaken ==> exists u :: u in rows && u.email == email && u.usuario != usuario
  {
  }

  /** With a single clashing row the report is determined by that row. */
  lemma SingleClashDecides(rows: seq<Usuario>, usuario: string, email: string, i: int, r: Registration)
    requires 0 <= i < |rows| && Clashes(rows[i], usuario, email)
    requires forall j :: 0 <= j < |rows| && j != i ==> !Clashes(rows[j], usuario, email)
    requires MayReport(rows, usuario, email, r)
    ensures r == Classify(rows[i], usuario)
  {
    var u :| u in rows && Clashes(u, usuario, email) && r == Classify(u, usuario);
    var k :| 0 <= k < |rows| && rows[k] == u;
  }

  /** With the email held by one user and the name by another, either report
      is possible. */
  lemma EitherClashMayBeReported(a: Usuario, b: Usuario)
    requires a.usuario != b.usuario
    ensures MayReport([a, b], b.usuario, a.email, EmailTaken)
    ensures MayReport([a, b], b.usuario, a.email, UsernameTaken)
  {
    assert a in [a, b] && b in [a, b];
    assert Classify(a, b.usuario) == EmailTaken;
    assert Classify(b, b.usuario) == UsernameTaken;
  }

  // ---------------------------------------------------------------- update_recipe's query

  /** One ` col = ?` assignment. */
  function Assignment(col: string): string
  {
    " " + col + " = ?"
  }

  /** The assignments as update_recipe appends them, each followed by ','. */
  function Assignments(cols: seq<string>): string
  {
    if |cols| == 0 then ""
    else Assignments(cols[..|cols| - 1]) + Assignment(cols[|cols| - 1]) + ","
  }

  /** The SET clause as SQL expects it: the assignments separated by ','. */
  function SetClause(cols: seq<string>): (s: string)
    ensures |cols| > 0 ==> |s| > 0 && s[|s| - 1] == '?'
  {
    if |cols| == 0 then ""
    else if |cols| == 1 then Assignment(cols[0])
    else SetClause(cols[..|cols| - 1]) + "," + Assignment(cols[|cols| - 1])
  }

  /** Column `col` when its new value is given. */
  function ColumnIf(col: string, v: Option<string>): seq<string>
  {
    if v.Some? then [col] else []
  }

  /** The new value's parameter when it is given. */
  function ValueIf(v: Option<string>): seq<Param>
  {
    if v.Some? then [TextParam(v.value)] else []
  }

  /** The columns update_recipe sets, in the order it tests them. */
  function GivenColumns(receta: Option<string>, ingredientes: Option<seq<string>>, pasos: Option<seq<string>>): (cols: seq<string>)
    ensures |cols| <= 3
  {
    ColumnIf("receta", receta) + ColumnIf("ingredientes", JoinedOpt(ingredientes)) + ColumnIf("pasos", JoinedOpt(pasos))
  }

  /** The query names a column exactly when its argument is not None. */
  lemma GivenColumnsAreTheNonNone(receta: Option<string>, ingredientes: Option<seq<string>>, pasos: Option<seq<string>>)
    ensures var cols := GivenColumns(receta, ingredientes, pasos);
      && ("receta" in cols <==> receta.Some?)
      && ("ingredientes" in cols <==> ingredientes.Some?)
      && ("pasos" in cols <==> pasos.Some?)
  {
    assert "receta" != "ingredientes" && "receta" != "pasos" && "ingredientes" != "pasos";
  }

  /** The parameters bound to the SET clause, one per column and in the same order. */
  function GivenValues(receta: Option<string>, ingredientes: Option<seq<string>>, pasos: Option<seq<string>>): (vs: seq<Param>)
    ensures |vs| == |GivenColumns(receta, ingredientes, pasos)|
  {
    ValueIf(receta) + ValueIf(JoinedOpt(ingredientes)) + ValueIf(JoinedOpt(pasos))
  }

  lemma {:induction false} AssignmentsEndWithComma(cols: seq<string>)
    requires |cols| > 0
    ensures Assignments(cols) == SetClause(cols) + ","
  {
    if |cols| > 1 {
      AssignmentsEndWithComma(cols[..|cols| - 1]);
    } else {
      assert cols[..0] == [];
    }
  }

  /** Dropping one trailing `c` from a string that does not already end in `c`. */
  lemma RStripOne(s: string, c: char)
    requires |s| > 0 && s[|s| - 1] != c
    ensures RStrip(s + [c], c) == s
  {
    assert (s + [c])[..|s|] == s;
  }

  /** `rstrip(",")` turns the appended assignments into the SET clause. */
  lemma StripAssignments(cols: seq<string>)
    ensures RStrip("UPDATE recetas SET" + Assignments(cols), ',') == "UPDATE recetas SET" + SetClause(cols)
  {
    var p := "UPDATE recetas SET";
    if |cols| == 0 {
      assert p + Assignments(cols) == p;
      assert p + SetClause(cols) == p;
    } else {
      AssignmentsEndWithComma(cols);
      assert p + Assignments(cols) == (p + SetClause(cols)) + [','];
      RStripOne(p + SetClause(cols), ',');
    }
  }

  lemma CountAssignment(col: string)
    requires '?' !in col
    ensures Count(Assignment(col), '?') == 1
  {
    CountConcat(" " + col, " = ?", '?');
    CountAbsent(" " + col, '?');
    assert " = ?"[1..] == "= ?" && "= ?"[1..] == " ?" && " ?"[1..] == "?" && "?"[1..] == "";
  }

  /** The SET clause holds one placeholder per column. */
  lemma {:induction false} CountSetClause(cols: seq<string>)
    requires forall c :: c in cols ==> '?' !in c
    ensures Count(SetClause(cols), '?') == |cols|
  {
    if |cols| == 1 {
      CountAssignment(cols[0]);
    } else if |cols| > 1 {
      var init := cols[..|cols| - 1];
      assert forall c :: c in init ==> c in cols;
      CountSetClause(init);
      CountAssignment(cols[|cols| - 1]);
      CountConcat(SetClause(init), ",", '?');
      CountConcat(SetClause(init) + ",", Assignment(cols[|cols| - 1]), '?');
    }
  }

  lemma ColumnNamesHaveNoPlaceholder(receta: Option<string>, ingredientes: Option<seq<string>>, pasos: Option<seq<string>>)
    ensures forall c :: c in GivenColumns(receta, ingredientes, pasos) ==> '?' !in c
  {
    assert '?' !in "receta" && '?' !in "ingredientes" && '?' !in "pasos";
  }

  /** One `update_query += " col = ?,"` step. */
  lemma AppendAssignment(query: string, cols: seq<string>, col: string)
    requires query == "UPDATE recetas SET" + Assignments(cols)
    ensures query + Assignment(col) + "," == "UPDATE recetas SET" + Assignments(cols + [col])
  {
    assert (cols + [col])[..|cols|] == cols;
  }

  /** `update_query.rstrip(",") + " WHERE id = ?"` closes the SET clause. */
  lemma FinishQuery(query: string, cols: seq<string>)
    requires query == "UPDATE recetas SET" + Assignments(cols)
    ensures RStrip(query, ',') + " WHERE id = ?" == "UPDATE recetas SET" + SetClause(cols) + " WHERE id = ?"
  {
    StripAssignments(cols);
  }

  /** The finished query holds one placeholder per column plus the id's. */
  lemma QueryPlaceholders(receta: Option<string>, ingredientes: Option<seq<string>>, pasos: Option<seq<string>>)
    ensures Count("UPDATE recetas SET" + SetClause(GivenColumns(receta, ingredientes, pasos)) + " WHERE id = ?", '?')
         == |GivenValues(receta, ingredientes, pasos)| + 1
  {
    var cols := GivenColumns(receta, ingredientes, pasos);
    ColumnNamesHaveNoPlaceholder(receta, ingredientes, pasos);
    CountQueryHead();
    CountQueryTail();
    CountSetClause(cols);
    CountConcat("UPDATE recetas SET", SetClause(cols), '?');
    CountConcat("UPDATE recetas SET" + SetClause(cols), " WHERE id = ?", '?');
  }

  /** No placeholder before the SET clause. */
  lemma CountQueryHead()
    ensures Count("UPDATE recetas SET", '?') == 0
  {
    CountAbsent("UPDATE recetas SET", '?');
  }

  /** One placeholder, the id's, after it. */
  lemma CountQueryTail()
    ensures Count(" WHERE id = ?", '?') == 1
  {
  }

  /** One `if <arg> is not None:` step of update_recipe: `update_query += " col = ?,"`
      and `params.append(value)`, or nothing when the argument is None. */
  method SetIfGiven(query: string, params: seq<Param>, ghost cols: seq<string>, col: string, value: Option<string>)
    returns (query': string, params': seq<Param>)
    requires query == "UPDATE recetas SET" + Assignments(cols)
    ensures query' == "UPDATE recetas SET" + Assignments(cols + ColumnIf(col, value))
    ensures params' == params + ValueIf(value)
  {
    if value.Some? {
      AppendAssignment(query, cols, col);
      query' := query + Assignment(col) + ",";
      params' := params + [TextParam(value.value)];
    } else {
      assert cols + ColumnIf(col, value) == cols;
      query', params' := query, params;
    }
  }

  /** update_recipe's query construction: `update_query` grows by `+=` and
      `params` by `append`, one step per non-None argument. The query names the
      given columns in order receta, ingredientes, pasos, ends in `WHERE id = ?`,
      and holds exactly one placeholder per parameter, the last being the id. */
  method BuildUpdateQuery(idReceta: int, receta: Option<string>, ingredientes: Option<seq<string>>, pasos: Option<seq<string>>)
    returns (query: string, params: seq<Param>)
    ensures query == "UPDATE recetas SET" + SetClause(GivenColumns(receta, ingredientes, pasos)) + " WHERE id = ?"
    ensures params == GivenValues(receta, ingredientes, pasos) + [IdParam(idReceta)]
    ensures Count(query, '?') == |params|
  {
    query := "UPDATE recetas SET";
    params := [];
    assert query == "UPDATE recetas SET" + Assignments([]);
    query, params := SetIfGiven(query, params, [], "receta", receta);
    query, params := SetIfGiven(query, params, ColumnIf("receta", receta),
                                "ingredientes", JoinedOpt(ingredientes));
    query, params := SetIfGiven(query, params, ColumnIf("receta", receta) + ColumnIf("ingredientes", JoinedOpt(ingredientes)),
                                "pasos", JoinedOpt(pasos));
    assert [] + ColumnIf("receta", receta) == ColumnIf("receta", receta);
    assert [] + ValueIf(receta) == ValueIf(receta);
    assert params == GivenValues(receta, ingredientes, pasos);
    FinishQuery(query, GivenColumns(receta, ingredientes, pasos));
    query := RStrip(query, ',') + " WHERE id = ?";
    params := params + [IdParam(idReceta)];
    QueryPlaceholders(receta, ingredientes, pasos);
  }

  /** With no column given the query has an empty SET clause, which SQLite
      rejects as a syntax error. */
  lemma NoColumnQuery(idReceta: int)
    ensures GivenColumns(None, None, None) == []
    ensures "UPDATE recetas SET" + SetClause(GivenColumns(None, None, None)) + " WHERE id = ?"
         == "UPDATE recetas SET WHERE id = ?"
  {
  }

  /** update_recipe fails when its query is malformed (no column given) or when
      it would give an existing row the name of another row (`receta UNIQUE`). */
  predicate UpdateRejected(rows: seq<Receta>, idReceta: int, receta: Option<string>,
                           ingredientes: Option<seq<string>>, pasos: Option<seq<string>>)
  {
    GivenColumns(receta, ingredientes, pasos) == []
    || (receta.Some? && RecetaById(rows, idReceta).Some? && NameTakenByOther(rows, receta.value, idReceta))
  }

  /** update_recipe reports success for an id no row has, and changes nothing. */
  lemma UpdateUnknownIdIsSilent(rows: seq<Receta>, idReceta: int, receta: Option<string>,
                                ingredientes: Option<string>, pasos: Option<string>)
    requires forall x :: x in rows ==> x.id != idReceta
    ensures UpdatedRecetas(rows, idReceta, receta, ingredientes, pasos) == rows
  {
    var r := UpdatedRecetas(rows, idReceta, receta, ingredientes, pasos);
    forall i | 0 <= i < |rows| ensures r[i] == rows[i] {
      assert rows[i] in rows;
    }
  }

  // ---------------------------------------------------------------- the database

  class Database {

    /** `hash_password`: SHA-256 hex digest, left uninterpreted. */
    const hashPassword: string -> string
    var usuarios: seq<Usuario>
    var recetas: seq<Receta>

    /** The PRIMARY KEY and UNIQUE constraints of create_tables. */
    ghost predicate Valid()
      reads this
    {
      UsuariosTable(usuarios) && RecetasTable(recetas)
    }

    /** A database whose tables create_tables has just created. */
    constructor(hashPassword: string -> string)
      ensures Valid()
      ensures this.hashPassword == hashPassword
      ensures usuarios == [] && recetas == []
    {
      this.hashPassword := hashPassword;
      usuarios := [];
      recetas := [];
    }

    /** create_user: looks up a row with that name or email, and inserts the
        user with the hashed password only when there is none. */
    method CreateUser(usuario: string, contrasena: string, email: string) returns (r: Registration)
      requires Valid()
      modifies this
      ensures Valid()
      ensures MayReport(old(usuarios), usuario, email, r)
      ensures r == UserCreated ==>
        usuarios == old(usuarios) + [Usuario(NextUsuarioId(old(usuarios)), usuario, hashPassword(contrasena), email)]
      ensures r != UserCreated ==> usuarios == old(usuarios)
      ensures recetas == old(recetas)
    {
      if i :| 0 <= i < |usuarios| && Clashes(usuarios[i], usuario, email) {
        // the row the query plan returns
        assert usuarios[i] in usuarios;
        r := Classify(usuarios[i], usuario);
      } else {
        r := UserCreated;
        var u := Usuario(NextUsuarioId(usuarios), usuario, hashPassword(contrasena), email);
        InsertUsuario(usuarios, u);
        usuarios := usuarios + [u];
      }
    }

    /** log_in: the id of the row whose name and stored hash match, else None. */
    method LogIn(usuario: string, contrasena: string) returns (id: Option<int>)
      ensures id.Some? <==> exists u :: u in usuarios && u.usuario == usuario && u.contrasena == hashPassword(contrasena)
      ensures id.Some? ==> exists u :: u in usuarios && u.usuario == usuario && u.contrasena == hashPassword(contrasena) && u.id == id.value
    {
      id := LoginId(usuarios, usuario, hashPassword(contrasena));
    }

    /** add_recipe: inserts the recipe with '\n'-joined lists, unless the name is
        taken, in which case the INSERT violates `receta UNIQUE`. */
    method AddRecipe(receta: string, ingredientes: seq<string>, pasos: seq<string>, idUsuario: int) returns (r: AddOutcome)
      requires Valid()
      modifies this
      ensures Valid()
      ensures r == RecipeAdded <==> !NameTaken(old(recetas), receta)
      ensures r == RecipeAdded ==>
        recetas == old(recetas) + [Receta(NextRecetaId(old(recetas)), receta, Join(ingredientes, '\n'), Join(pasos, '\n'), idUsuario)]
      ensures r == AddFailed ==> recetas == old(recetas)
      ensures usuarios == old(usuarios)
    {
      if NameTaken(recetas, receta) {
        r := AddFailed;
      } else {
        var x := Receta(NextRecetaId(recetas), receta, Join(ingredientes, '\n'), Join(pasos, '\n'), idUsuario);
        InsertReceta(recetas, x);
        recetas := recetas + [x];
        r := RecipeAdded;
      }
    }

    /** update_recipe: builds the query, then runs it. */
    method UpdateRecipe(idReceta: int, receta: Option<string>, ingredientes: Option<seq<string>>, pasos: Option<seq<string>>)
      returns (r: UpdateOutcome)
      requires Valid()
      modifies this
      ensures Valid()
      ensures r == UpdateFailed <==> UpdateRejected(old(recetas), idReceta, receta, ingredientes, pasos)
      ensures r == RecipeModified ==>
        recetas == UpdatedRecetas(old(recetas), idReceta, receta, JoinedOpt(ingredientes), JoinedOpt(pasos))
      ensures r == UpdateFailed ==> recetas == old(recetas)
      ensures usuarios == old(usuarios)
    {
      var query, params := BuildUpdateQuery(idReceta, receta, ingredientes, pasos);
      assert |params| == 1 <==> GivenColumns(receta, ingredientes, pasos) == [];
      if |params| == 1 {
        // "UPDATE recetas SET WHERE id = ?" does not parse
        r := UpdateFailed;
      } else if receta.Some? && RecetaById(recetas, idReceta).Some? && NameTakenByOther(recetas, receta.value, idReceta) {
        r := UpdateFailed;
      } else {
        if receta.Some? && RecetaById(recetas, idReceta).None? {
          UpdateUnknownIdIsSilent(recetas, idReceta, receta, JoinedOpt(ingredientes), JoinedOpt(pasos));
        } else {
          UpdateKeepsTable(recetas, idReceta, receta, JoinedOpt(ingredientes), JoinedOpt(pasos));
        }
        recetas := UpdatedRecetas(recetas, idReceta, receta, JoinedOpt(ingredientes), JoinedOpt(pasos));
        r := RecipeModified;
      }
    }

    /** delete_recipe: removes the row with that id, if any. */
    method DeleteRecipe(idReceta: int)
      requires Valid()
      modifies this
      ensures Valid()
      ensures recetas == WithoutReceta(old(recetas), idReceta)
      ensures usuarios == old(usuarios)
    {
      DeleteReceta(recetas, idReceta);
      recetas := WithoutReceta(recetas, idReceta);
    }

    /** list_recipes: `(id, receta)` of exactly the caller's recipes, each once,
        in rowid order. */
    method ListRecipes(idUsuario: int) returns (r: seq<(int, string)>)
      requires Valid()
      ensures StrictlyAscending(r, PairId)
      ensures forall p :: p in r <==> exists x :: x in recetas && x.idUsuario == idUsuario && p == (x.id, x.receta)
    {
      r := RecetasOf(recetas, idUsuario);
    }

    /** view_recipe_details: name, ingredients and steps of the row, or None. */
    method ViewRecipeDetails(idReceta: int) returns (r: Option<(string, string, string)>)
      ensures r.None? <==> forall x :: x in recetas ==> x.id != idReceta
      ensures r.Some? ==> exists x :: x in recetas && x.id == idReceta && r.value == (x.receta, x.ingredientes, x.pasos)
    {
      match RecetaById(recetas, idReceta)
      case None =>
        r := None;
      case Some(x) =>
        r := Some((x.receta, x.ingredientes, x.pasos));
    }

    /** search_recipe_by_ingredient: `(id, receta)` of the recipes of any owner
        whose ingredients match `LIKE '%frag%'`, each once, in rowid order. */
    method SearchRecipeByIngredient(frag: string) returns (r: seq<(int, string)>)
      requires Valid()
      requires NoWildcards(frag)
      ensures StrictlyAscending(r, PairId)
      ensures forall p :: p in r <==> exists x :: x in recetas && Like(x.ingredientes, frag) && p == (x.id, x.receta)
    {
      r := IngredienteLike(recetas, frag);
    }
  }
}
