/** The relational schema shared by the SQLite recipe book (Recetario.py) and the
    SQLAlchemy one (SQLAlchemy/Recetario.py): tables `usuarios` and `recetas`,
    their INTEGER PRIMARY KEY and UNIQUE constraints, and the SELECT, UPDATE and
    DELETE statements both issue. A table is a sequence of rows in rowid order. */
module Relational {

  import opened Rows
  import opened Text

  /** A row of `usuarios`; `contrasena` holds the password hash. */
  datatype Usuario = Usuario(id: int, usuario: string, contrasena: string, email: string)

  /** A row of `recetas`; ingredient and step lists are stored '\n'-joined. */
  datatype Receta = Receta(id: int, receta: string, ingredientes: string, pasos: string, idUsuario: int)

  /** Constraints between an earlier and a later row of `usuarios`: ascending
      rowid, `usuario UNIQUE`, `email UNIQUE`. */
  predicate UsuarioBefore(a: Usuario, b: Usuario)
  {
    a.id < b.id && a.usuario != b.usuario && a.email != b.email
  }

  /** Constraints between an earlier and a later row of `recetas`: ascending
      rowid, `receta UNIQUE`. */
  predicate RecetaBefore(a: Receta, b: Receta)
  {
    a.id < b.id && a.receta != b.receta
  }

  ghost predicate UsuariosTable(rows: seq<Usuario>)
  {
    Pairwise(rows, UsuarioBefore)
  }

  ghost predicate RecetasTable(rows: seq<Receta>)
  {
    Pairwise(rows, RecetaBefore)
  }

  // ---------------------------------------------------------------- rowids

  /** The rowid SQLite gives a new row of a table whose INTEGER PRIMARY KEY has
      no AUTOINCREMENT: one more than the largest rowid present, 1 when empty. */
  function NextUsuarioId(rows: seq<Usuario>): (id: int)
    requires UsuariosTable(rows)
    ensures forall u :: u in rows ==> u.id < id
    ensures |rows| == 0 ==> id == 1
    ensures |rows| > 0 ==> exists u :: u in rows && u.id == id - 1
  {
    if |rows| == 0 then 1 else rows[|rows| - 1].id + 1
  }

  function NextRecetaId(rows: seq<Receta>): (id: int)
    requires RecetasTable(rows)
    ensures forall x :: x in rows ==> x.id < id
    ensures |rows| == 0 ==> id == 1
    ensures |rows| > 0 ==> exists x :: x in rows && x.id == id - 1
  {
    if |rows| == 0 then 1 else rows[|rows| - 1].id + 1
  }

  /** Inserting a user whose name and email are both new keeps the constraints. */
  lemma InsertUsuario(rows: seq<Usuario>, u: Usuario)
    requires UsuariosTable(rows)
    requires u.id == NextUsuarioId(rows)
    requires forall x :: x in rows ==> x.usuario != u.usuario && x.email != u.email
    ensures UsuariosTable(rows + [u])
  {
    var r := rows + [u];
    forall i, j | 0 <= i < j < |r| ensures UsuarioBefore(r[i], r[j]) {
      assert r[i] == rows[i] && rows[i] in rows;
      if j < |rows| {
        assert r[j] == rows[j];
      }
    }
  }

  /** Inserting a recipe whose name is new keeps the constraints. */
  lemma InsertReceta(rows: seq<Receta>, x: Receta)
    requires RecetasTable(rows)
    requires x.id == NextRecetaId(rows)
    requires !NameTaken(rows, x.receta)
    ensures RecetasTable(rows + [x])
  {
    var r := rows + [x];
    forall i, j | 0 <= i < j < |r| ensures RecetaBefore(r[i], r[j]) {
      assert r[i] == rows[i] && rows[i] in rows;
      if j < |rows| {
        assert r[j] == rows[j];
      }
    }
  }

  // ---------------------------------------------------------------- SELECT

  /** Some row already has recipe name `name`. */
  predicate NameTaken(rows: seq<Receta>, name: string)
  {
    exists x :: x in rows && x.receta == name
  }

  /** A row other than `id` has recipe name `name`. */
  predicate NameTakenByOther(rows: seq<Receta>, name: string, id: int)
  {
    exists x :: x in rows && x.id != id && x.receta == name
  }

  /** `SELECT id FROM usuarios WHERE usuario = ? AND contrasena = ?`, fetchone. */
  function LoginId(rows: seq<Usuario>, usuario: string, hashed: string): (r: Option<int>)
    ensures r.Some? <==> exists u :: u in rows && u.usuario == usuario && u.contrasena == hashed
    ensures r.Some? ==> exists u :: u in rows && u.usuario == usuario && u.contrasena == hashed && u.id == r.value
  {
    match First(rows, (u: Usuario) => u.usuario == usuario && u.contrasena == hashed)
    case None => None
    case Some(i) => Some(rows[i].id)
  }

  /** `SELECT ... FROM recetas WHERE id = ?`, fetchone. */
  function RecetaById(rows: seq<Receta>, id: int): (r: Option<Receta>)
    ensures r.Some? <==> exists x :: x in rows && x.id == id
    ensures r.Some? ==> r.value in rows && r.value.id == id
  {
    match First(rows, (x: Receta) => x.id == id)
    case None => None
    case Some(i) => Some(rows[i])
  }

  /** The `(id, receta)` columns of the given rows: one pair per row, in the
      rows' order. */
  function IdsAndNames(rows: seq<Receta>): (r: seq<(int, string)>)
    ensures |r| == |rows|
    ensures forall i :: 0 <= i < |rows| ==> r[i] == (rows[i].id, rows[i].receta)
    ensures forall p :: p in r <==> exists x :: x in rows && p == (x.id, x.receta)
  {
    if |rows| == 0 then []
    else
      assert forall x :: x in rows[1..] ==> x in rows;
      [(rows[0].id, rows[0].receta)] + IdsAndNames(rows[1..])
  }

  /** The id of a listed `(id, receta)` pair. */
  function PairId(p: (int, string)): int
  {
    p.0
  }

  /** A selection from a table lists its pairs in ascending rowid order, each
      row once. */
  lemma SelectionAscends(rows: seq<Receta>, p: Receta -> bool)
    ensures RecetasTable(rows) ==> StrictlyAscending(IdsAndNames(Where(rows, p)), PairId)
  {
    if RecetasTable(rows) {
      WhereKeepsPairwise(rows, p, RecetaBefore);
    }
  }

  function OwnerIs(idUsuario: int): Receta -> bool
  {
    (x: Receta) => x.idUsuario == idUsuario
  }

  function IngredientsLike(frag: string): Receta -> bool
    requires NoWildcards(frag)
  {
    (x: Receta) => Like(x.ingredientes, frag)
  }

  /** `SELECT id, receta FROM recetas WHERE id_usuario = ?`: the owned rows,
      each once, in rowid order. */
  function RecetasOf(rows: seq<Receta>, idUsuario: int): (r: seq<(int, string)>)
    ensures forall p :: p in r <==> exists x :: x in rows && x.idUsuario == idUsuario && p == (x.id, x.receta)
    ensures RecetasTable(rows) ==> StrictlyAscending(r, PairId)
  {
    SelectionAscends(rows, OwnerIs(idUsuario));
    IdsAndNames(Where(rows, OwnerIs(idUsuario)))
  }

  /** `SELECT id, receta FROM recetas WHERE ingredientes LIKE '%frag%'`: rows of
      every owner, each once, in rowid order. */
  function IngredienteLike(rows: seq<Receta>, frag: string): (r: seq<(int, string)>)
    requires NoWildcards(frag)
    ensures forall p :: p in r <==> exists x :: x in rows && Like(x.ingredientes, frag) && p == (x.id, x.receta)
    ensures RecetasTable(rows) ==> StrictlyAscending(r, PairId)
  {
    SelectionAscends(rows, IngredientsLike(frag));
    IdsAndNames(Where(rows, IngredientsLike(frag)))
  }

  // ---------------------------------------------------------------- DELETE / UPDATE

  /** The rows a `DELETE ... WHERE id = ?` keeps. */
  function IdIsNot(id: int): Receta -> bool
  {
    (x: Receta) => x.id != id
  }

  /** `DELETE FROM recetas WHERE id = ?`. */
  function WithoutReceta(rows: seq<Receta>, id: int): (r: seq<Receta>)
    ensures forall x :: x in r <==> x in rows && x.id != id
  {
    Where(rows, IdIsNot(id))
  }

  /** Deleting keeps the constraints, and deleting an id no row has changes nothing. */
  lemma DeleteReceta(rows: seq<Receta>, id: int)
    requires RecetasTable(rows)
    ensures RecetasTable(WithoutReceta(rows, id))
    ensures (forall x :: x in rows ==> x.id != id) ==> WithoutReceta(rows, id) == rows
  {
    WhereKeepsPairwise(rows, IdIsNot(id), RecetaBefore);
    if forall x :: x in rows ==> x.id != id {
      WhereAll(rows, IdIsNot(id));
    }
  }

  /** A list argument as update_recipe stores it: '\n'-joined. */
  function JoinedOpt(xs: Option<seq<string>>): Option<string>
  {
    if xs.Some? then Some(Join(xs.value, '\n')) else None
  }

  /** Row `x` with each given column replaced and the others kept. */
  function Patched(x: Receta, receta: Option<string>, ingredientes: Option<string>, pasos: Option<string>): Receta
  {
    x.(receta := if receta.Some? then receta.value else x.receta,
       ingredientes := if ingredientes.Some? then ingredientes.value else x.ingredientes,
       pasos := if pasos.Some? then pasos.value else x.pasos)
  }

  /** `UPDATE recetas SET <given columns> WHERE id = ?`. */
  function UpdatedRecetas(rows: seq<Receta>, id: int, receta: Option<string>,
                          ingredientes: Option<string>, pasos: Option<string>): seq<Receta>
  {
    seq(|rows|, i requires 0 <= i < |rows| =>
      if rows[i].id == id then Patched(rows[i], receta, ingredientes, pasos) else rows[i])
  }

  /** The update rewrites only the given columns of row `id`: every other row,
      and every column not given, keeps its value. */
  lemma UpdateTouchesOnlyGivenColumns(rows: seq<Receta>, id: int, receta: Option<string>,
                                      ingredientes: Option<string>, pasos: Option<string>)
    ensures var r := UpdatedRecetas(rows, id, receta, ingredientes, pasos);
      && |r| == |rows|
      && (forall i :: 0 <= i < |rows| ==> r[i].id == rows[i].id && r[i].idUsuario == rows[i].idUsuario)
      && (forall i :: 0 <= i < |rows| && rows[i].id != id ==> r[i] == rows[i])
      && (forall i :: 0 <= i < |rows| && rows[i].id == id ==>
            && r[i].receta == (if receta.Some? then receta.value else rows[i].receta)
            && r[i].ingredientes == (if ingredientes.Some? then ingredientes.value else rows[i].ingredientes)
            && r[i].pasos == (if pasos.Some? then pasos.value else rows[i].pasos))
  {
  }

  /** An update keeps the constraints unless it gives row `id` the name of
      another row (SQLite then refuses it). */
  lemma UpdateKeepsTable(rows: seq<Receta>, id: int, receta: Option<string>,
                         ingredientes: Option<string>, pasos: Option<string>)
    requires RecetasTable(rows)
    requires receta.Some? ==> !NameTakenByOther(rows, receta.value, id)
    ensures RecetasTable(UpdatedRecetas(rows, id, receta, ingredientes, pasos))
  {
    var r := UpdatedRecetas(rows, id, receta, ingredientes, pasos);
    forall i, j | 0 <= i < j < |r| ensures RecetaBefore(r[i], r[j]) {
      assert RecetaBefore(rows[i], rows[j]);
      assert rows[i] in rows && rows[j] in rows;
    }
  }

  /** Row ids are unique. */
  lemma IdsUnique(rows: seq<Receta>, i: int)
    requires RecetasTable(rows)
    requires 0 <= i < |rows|
    ensures forall j :: 0 <= j < |rows| && j != i ==> rows[j].id != rows[i].id
  {
    forall j | 0 <= j < |rows| && j != i ensures rows[j].id != rows[i].id {
      if j < i {
        assert RecetaBefore(rows[j], rows[i]);
      } else {
        assert RecetaBefore(rows[i], rows[j]);
      }
    }
  }

  /** Ids are unique, so patching the one row found by id is the UPDATE. */
  lemma UpdateAtIndex(rows: seq<Receta>, i: int, receta: Option<string>,
                      ingredientes: Option<string>, pasos: Option<string>)
    requires RecetasTable(rows)
    requires 0 <= i < |rows|
    ensures UpdatedRecetas(rows, rows[i].id, receta, ingredientes, pasos)
         == rows[i := Patched(rows[i], receta, ingredientes, pasos)]
  {
    IdsUnique(rows, i);
  }

  /** Ids are unique, so removing the one row found by id is the DELETE. */
  lemma DeleteAtIndex(rows: seq<Receta>, i: int)
    requires RecetasTable(rows)
    requires 0 <= i < |rows|
    ensures WithoutReceta(rows, rows[i].id) == rows[..i] + rows[i + 1..]
  {
    IdsUnique(rows, i);
    WhereDropsOne(rows, i, IdIsNot(rows[i].id));
  }
}
