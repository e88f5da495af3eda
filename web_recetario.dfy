/** The recipe web application (Jinja2/main.py, and the same code again in
    Flask/main.py): a Redis keyspace holding the counter `receta_id` and one
    hash `receta:<n>` per saved recipe, whose field `receta` holds the recipe
    as JSON. Route handlers receive the request method and form fields as
    parameters and return what they would render. */
module WebRecetario {

  import opened Rows
  import opened Text

  /** The three attributes `json.dumps(receta.__dict__)` stores; the JSON text
      itself is not modelled, `json.loads` being taken as its inverse. */
  datatype RecetaData = RecetaData(nombre: string, ingredientes: string, pasos: string)

  /** A Redis value: the integer INCR keeps, or a hash with its `receta` field. */
  datatype Entry = Counter(n: int) | Hash(receta: RecetaData)

  type KeySpace = map<string, Entry>

  /** What a route hands back to Flask. */
  datatype Response =
    | Redirect                           // to ver_listado_recetas
    | Form(shown: Option<RecetaData>)    // the form template, with the recipe being edited
    | NotFound                           // "Receta no encontrada."

  /** The object the handlers pass around and edit in place. */
  class Receta {
    var nombre: string
    var ingredientes: string
    var pasos: string

    constructor(nombre: string, ingredientes: string, pasos: string)
      ensures Data() == RecetaData(nombre, ingredientes, pasos)
    {
      this.nombre := nombre;
      this.ingredientes := ingredientes;
      this.pasos := pasos;
    }

    /** `receta.__dict__`. */
    function Data(): RecetaData
      reads this
    {
      RecetaData(nombre, ingredientes, pasos)
    }
  }

  /** The attributes of a list of objects, in order. */
  function Datas(rs: seq<Receta>): seq<RecetaData>
    reads rs
  {
    if rs == [] then [] else Datas(rs[..|rs| - 1]) + [rs[|rs| - 1].Data()]
  }

  lemma DatasSnoc(rs: seq<Receta>, r: Receta)
    ensures Datas(rs + [r]) == Datas(rs) + [r.Data()]
  {
    assert (rs + [r])[..|rs|] == rs;
  }

  // ---------------------------------------------------------------- keys

  const CounterKey: string := "receta_id"
  const Prefix: string := "receta:"

  /** `f"receta:{receta_id}"`. */
  function RecipeKey(n: nat): string
  {
    Prefix + NatToString(n)
  }

  /** The keys `KEYS receta:*` returns. */
  predicate IsRecipeKey(k: string)
  {
    Prefix <= k
  }

  /** `int(clave.split(":")[-1])`, None where `int` raises ValueError. */
  function KeyId(k: string): Option<nat>
  {
    var parts := Split(k, ':');
    ParseNat(parts[|parts| - 1])
  }

  /** The counter lives beside the recipes but is never listed as one. */
  lemma CounterKeyIsNotListed()
    ensures !IsRecipeKey(CounterKey)
    ensures forall n: nat :: RecipeKey(n) != CounterKey
  {
    assert CounterKey[6] != Prefix[6];
    forall n: nat ensures RecipeKey(n) != CounterKey {
      assert RecipeKey(n)[6] == ':';
    }
  }

  /** Each saved key is listed, and reading its number back gives the id it
      was saved under. */
  lemma RecipeKeyParses(n: nat)
    ensures IsRecipeKey(RecipeKey(n))
    ensures KeyId(RecipeKey(n)) == Some(n)
  {
    var s := NatToString(n);
    assert ':' !in s;
    SplitFreePrefix(s, "", ':');
    assert s + "" == s;
    SplitAtSeparator("receta", s, ':');
    assert RecipeKey(n) == "receta" + [':'] + s;
    assert Split(RecipeKey(n), ':') == ["receta", s];
    ParseNatToString(n);
  }

  /** Distinct ids name distinct hashes. */
  lemma RecipeKeyInjective(a: nat, b: nat)
    requires RecipeKey(a) == RecipeKey(b)
    ensures a == b
  {
    RecipeKeyParses(a);
    RecipeKeyParses(b);
  }

  // ---------------------------------------------------------------- store

  /** The value of `receta_id`; INCR treats a missing key as 0. */
  function CounterOf(db: KeySpace): int
  {
    if CounterKey in db && db[CounterKey].Counter? then db[CounterKey].n else 0
  }

  /** `hget(key, 'receta')`, decoded. */
  function LoadKey(db: KeySpace): string -> Option<RecetaData>
  {
    k => if k in db && db[k].Hash? then Some(db[k].receta) else None
  }

  /** What cargar_receta finds under an id. */
  function Load(db: KeySpace, id: nat): Option<RecetaData>
  {
    LoadKey(db)(RecipeKey(id))
  }

  /** A key the application wrote: a hash named after an id the counter has
      already handed out. */
  predicate Numbered(db: KeySpace, k: string)
  {
    && k in db
    && db[k].Hash?
    && KeyId(k).Some?
    && k == RecipeKey(KeyId(k).value)
    && 1 <= KeyId(k).value <= CounterOf(db)
  }

  /** The shape every state the application reaches from an empty store has. */
  ghost predicate Indexed(db: KeySpace)
  {
    && (CounterKey in db ==> db[CounterKey].Counter? && db[CounterKey].n >= 0)
    && forall k :: k in db && k != CounterKey ==> Numbered(db, k)
  }

  /** guardar_receta: `incr('receta_id')`, then `hset` under the new number. */
  function Saved(db: KeySpace, d: RecetaData): KeySpace
    requires CounterOf(db) >= 0
  {
    var n := CounterOf(db) + 1;
    db[CounterKey := Counter(n)][RecipeKey(n) := Hash(d)]
  }

  /** Saving writes a key no earlier save used, reads back as what was saved,
      and leaves every other recipe as it was. */
  lemma SaveReadsBack(db: KeySpace, d: RecetaData)
    requires Indexed(db)
    ensures var n := CounterOf(db) + 1;
      && RecipeKey(n) !in db
      && Indexed(Saved(db, d))
      && CounterOf(Saved(db, d)) == n
      && Load(Saved(db, d), n) == Some(d)
      && forall m: nat :: m != n ==> Load(Saved(db, d), m) == Load(db, m)
  {
    var n := CounterOf(db) + 1;
    var r := Saved(db, d);
    CounterKeyIsNotListed();
    RecipeKeyParses(n);
    assert !Numbered(db, RecipeKey(n));
    forall k | k in r && k != CounterKey ensures Numbered(r, k) {
      if k != RecipeKey(n) {
        assert Numbered(db, k);
      }
    }
    forall m: nat | m != n ensures Load(r, m) == Load(db, m) {
      if RecipeKey(m) == RecipeKey(n) {
        RecipeKeyInjective(m, n);
      }
    }
  }

  /** Editing a stored recipe saves the edit under a new id: the original
      entry still reads as before and the edit reads back under the new id. */
  lemma EditKeepsOriginal(db: KeySpace, id: nat, d: RecetaData)
    requires Indexed(db)
    requires Load(db, id).Some?
    ensures CounterOf(db) + 1 != id
    ensures Load(Saved(db, d), id) == Load(db, id)
    ensures Load(Saved(db, d), CounterOf(db) + 1) == Some(d)
  {
    CounterKeyIsNotListed();
    assert Numbered(db, RecipeKey(id));
    RecipeKeyParses(id);
    SaveReadsBack(db, d);
  }

  /** Deleting a recipe forgets that id only. */
  lemma DeleteForgetsOne(db: KeySpace, id: nat)
    requires Indexed(db)
    ensures Indexed(db - {RecipeKey(id)})
    ensures Load(db - {RecipeKey(id)}, id).None?
    ensures forall m: nat :: m != id ==> Load(db - {RecipeKey(id)}, m) == Load(db, m)
  {
    var r := db - {RecipeKey(id)};
    CounterKeyIsNotListed();
    assert CounterOf(r) == CounterOf(db);
    forall k | k in r && k != CounterKey ensures Numbered(r, k) {
      assert Numbered(db, k);
    }
    forall m: nat | m != id ensures Load(r, m) == Load(db, m) {
      if RecipeKey(m) == RecipeKey(id) {
        RecipeKeyInjective(m, id);
      }
    }
  }

  /** The keys `KEYS receta:*` returns. */
  ghost function RecipeKeys(db: KeySpace): set<string>
  {
    set k | k in db && IsRecipeKey(k)
  }

  /** The recipe keys whose hash holds `d`. */
  ghost function KeysHolding(db: KeySpace, d: RecetaData): set<string>
  {
    set k | k in RecipeKeys(db) && LoadKey(db)(k) == Some(d)
  }

  /** Loading every listed key yields exactly the stored recipes, one per key:
      a recipe stored under several keys appears once for each of them. */
  lemma ListingIsEveryRecipe(db: KeySpace, ks: seq<string>)
    requires Indexed(db)
    requires Distinct(ks)
    requires forall k :: k in ks <==> k in RecipeKeys(db)
    ensures forall d :: d in Collect(ks, LoadKey(db)) <==> exists n: nat :: Load(db, n) == Some(d)
    ensures |Collect(ks, LoadKey(db))| == |RecipeKeys(db)|
    ensures forall d :: multiset(Collect(ks, LoadKey(db)))[d] == |KeysHolding(db, d)|
  {
    CounterKeyIsNotListed();
    CollectCount(ks, LoadKey(db));
    ListingCountsEachKey(db, ks);
    forall d ensures d in Collect(ks, LoadKey(db)) <==> exists n: nat :: Load(db, n) == Some(d) {
      CollectHas(ks, LoadKey(db), d);
      if d in Collect(ks, LoadKey(db)) {
        var k :| k in ks && LoadKey(db)(k) == Some(d);
        assert k in RecipeKeys(db);
        assert Numbered(db, k);
        assert Load(db, KeyId(k).value) == Some(d);
      }
      if exists n: nat :: Load(db, n) == Some(d) {
        var n: nat :| Load(db, n) == Some(d);
        RecipeKeyParses(n);
        assert RecipeKey(n) in RecipeKeys(db);
      }
    }
    forall k | k in RecipeKeys(db) ensures k in Yielding(ks, LoadKey(db)) {
      assert Numbered(db, k);
    }
    assert Yielding(ks, LoadKey(db)) == RecipeKeys(db);
  }

  /** Each recipe is collected once per key that holds it. */
  lemma ListingCountsEachKey(db: KeySpace, ks: seq<string>)
    requires Distinct(ks)
    requires forall k :: k in ks <==> k in RecipeKeys(db)
    ensures forall d :: multiset(Collect(ks, LoadKey(db)))[d] == |KeysHolding(db, d)|
  {
    forall d ensures multiset(Collect(ks, LoadKey(db)))[d] == |KeysHolding(db, d)| {
      CollectMultiplicity(ks, LoadKey(db), d);
      assert YieldingValue(ks, LoadKey(db), d) == KeysHolding(db, d);
    }
  }

  class Store {

    var db: KeySpace

    ghost predicate Valid()
      reads this
    {
      Indexed(db)
    }

    /** An empty Redis database. */
    constructor()
      ensures Valid()
      ensures db == map[]
    {
      db := map[];
    }

    /** cargar_receta: a new object holding the stored attributes, or null. */
    method CargarReceta(id: nat) returns (r: Receta?)
      ensures r == null <==> Load(db, id).None?
      ensures r != null ==> fresh(r) && r.Data() == Load(db, id).value
    {
      var key := RecipeKey(id);
      if key in db && db[key].Hash? {
        var d := db[key].receta;
        r := new Receta(d.nombre, d.ingredientes, d.pasos);
      } else {
        r := null;
      }
    }

    /** guardar_receta: stores the object's attributes under the next id. */
    method GuardarReceta(receta: Receta)
      requires Valid()
      modifies this
      ensures Valid()
      ensures db == Saved(old(db), receta.Data())
    {
      SaveReadsBack(db, receta.Data());
      var n := CounterOf(db) + 1;
      db := db[CounterKey := Counter(n)];
      db := db[RecipeKey(n) := Hash(receta.Data())];
    }

    /** agregar_receta: on POST saves a recipe built from the form. */
    method AgregarReceta(isPost: bool, nombre: string, ingredientes: string, pasos: string) returns (resp: Response)
      requires Valid()
      modifies this
      ensures Valid()
      ensures isPost ==> resp == Redirect && db == Saved(old(db), RecetaData(nombre, ingredientes, pasos))
      ensures !isPost ==> resp == Form(None) && db == old(db)
    {
      if isPost {
        var nueva := new Receta(nombre, ingredientes, pasos);
        GuardarReceta(nueva);
        resp := Redirect;
      } else {
        resp := Form(None);
      }
    }

    /** actualizar_receta: loads the recipe; on POST edits the loaded object
        and saves it again, which stores it under a new id. */
    method ActualizarReceta(id: nat, isPost: bool, nombre: string, ingredientes: string, pasos: string) returns (resp: Response)
      requires Valid()
      modifies this
      ensures Valid()
      ensures old(Load(db, id)).None? ==> resp == NotFound && db == old(db)
      ensures old(Load(db, id)).Some? && !isPost ==> resp == Form(old(Load(db, id))) && db == old(db)
      ensures old(Load(db, id)).Some? && isPost ==>
        resp == Redirect && db == Saved(old(db), RecetaData(nombre, ingredientes, pasos))
    {
      var receta := CargarReceta(id);
      if receta != null {
        if isPost {
          receta.nombre := nombre;
          receta.ingredientes := ingredientes;
          receta.pasos := pasos;
          GuardarReceta(receta);
          resp := Redirect;
        } else {
          resp := Form(Some(receta.Data()));
        }
      } else {
        resp := NotFound;
      }
    }

    /** eliminar_receta: deletes `receta:<id>` when it exists. */
    method EliminarReceta(id: nat) returns (resp: Response)
      requires Valid()
      modifies this
      ensures Valid()
      ensures RecipeKey(id) in old(db) ==> resp == Redirect && db == old(db) - {RecipeKey(id)}
      ensures RecipeKey(id) !in old(db) ==> resp == NotFound && db == old(db)
    {
      var key := RecipeKey(id);
      if key in db {
        DeleteForgetsOne(db, id);
        db := db - {key};
        resp := Redirect;
      } else {
        resp := NotFound;
      }
    }

    /** `KEYS receta:*`, in whatever order the server replies. */
    method RecipeKeyList() returns (ks: seq<string>)
      ensures Distinct(ks)
      ensures forall k :: k in ks <==> k in RecipeKeys(db)
    {
      var rest := set k | k in db && IsRecipeKey(k);
      ks := [];
      while rest != {}
        invariant forall k :: k in ks <==> k in RecipeKeys(db) && k !in rest
        invariant rest <= RecipeKeys(db)
        invariant Distinct(ks)
        decreases |rest|
      {
        var k :| k in rest;
        ks := ks + [k];
        rest := rest - {k};
      }
    }

    /** ver_listado_recetas: loads the recipe behind every `receta:*` key, one
        object per key. */
    method VerListadoRecetas() returns (recetas: seq<Receta>)
      requires Valid()
      ensures forall d :: d in Datas(recetas) <==> exists n: nat :: Load(db, n) == Some(d)
      ensures |recetas| == |RecipeKeys(db)|
      ensures forall d :: multiset(Datas(recetas))[d] == |KeysHolding(db, d)|
      ensures forall r :: r in recetas ==> fresh(r)
    {
      var claves := RecipeKeyList();
      CounterKeyIsNotListed();
      recetas := [];
      var i := 0;
      while i < |claves|
        invariant 0 <= i <= |claves|
        invariant Datas(recetas) == Collect(claves[..i], LoadKey(db))
        invariant |recetas| == |Datas(recetas)|
        invariant forall r :: r in recetas ==> fresh(r)
      {
        var clave := claves[i];
        assert clave in RecipeKeys(db);
        assert Numbered(db, clave);
        var parts := Split(clave, ':');
        var recetaId := ParseNat(parts[|parts| - 1]).value;
        var receta := CargarReceta(recetaId);
        CollectPrefixStep(claves, i, LoadKey(db));
        if receta != null {
          DatasSnoc(recetas, receta);
          recetas := recetas + [receta];
        }
        i := i + 1;
      }
      assert claves[..i] == claves;
      ListingIsEveryRecipe(db, claves);
      assert Datas(recetas) == Collect(claves, LoadKey(db));
    }
  }
}
