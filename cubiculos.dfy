/** The logic of the cubicle routes that does not touch the store: the
    composite code, the merge of an update body, the read-time attachment of
    the professor's name and shift, and the two read-side filters. */
module Cubiculos {
  import opened Text
  import opened DocumentStore
  import opened Records

  // ---------------------------------------------------------------------
  // Composite code.

  /** `${edificio}-${numeroCubiculo}-${planta}`. */
  function Compuesto(edificio: string, numeroCubiculo: string, planta: string): string {
    edificio + "-" + numeroCubiculo + "-" + planta
  }

  lemma {:induction false} RemoveUnderscoreOfUpper(s: string)
    ensures RemoveChar(Upper(s), '_') == Upper(RemoveChar(s, '_'))
    decreases |s|
  {
    if s != [] {
      RemoveUnderscoreOfUpper(s[1..]);
      assert Upper(s) == [ToUpper(s[0])] + Upper(s[1..]);
      if s[0] != '_' {
        assert Upper([s[0]] + RemoveChar(s[1..], '_')) == [ToUpper(s[0])] + Upper(RemoveChar(s[1..], '_'));
      }
    }
  }

  lemma {:induction false} RemoveSpacesOfUpper(s: string)
    ensures Upper(RemoveSpaces(s)) == RemoveSpaces(Upper(s))
    decreases |s|
  {
    if s != [] {
      RemoveSpacesOfUpper(s[1..]);
      assert Upper(s) == [ToUpper(s[0])] + Upper(s[1..]);
      if !IsSpace(s[0]) {
        assert Upper([s[0]] + RemoveSpaces(s[1..])) == [ToUpper(s[0])] + Upper(RemoveSpaces(s[1..]));
      }
    }
  }

  lemma UpperedRunsFacts(s: string)
    ensures !HasSpace(Upper(ReplaceSpaceRuns(s, '_')))
    ensures |Upper(ReplaceSpaceRuns(s, '_'))| <= |s|
    ensures !HasSpace(s) ==> Upper(ReplaceSpaceRuns(s, '_')) == Upper(s)
    ensures '_' !in s ==> RemoveChar(Upper(ReplaceSpaceRuns(s, '_')), '_') == RemoveSpaces(Upper(s))
  {
    var replaced := ReplaceSpaceRuns(s, '_');
    ReplaceSpaceRunsChars(s, '_');
    assert forall i :: 0 <= i < |replaced| ==> replaced[i] in replaced;
    if !HasSpace(s) {
      ReplaceSpaceRunsIdentity(s, '_');
    }
    if '_' !in s {
      ReplaceSpaceRunsKeepsText(s, '_');
      RemoveUnderscoreOfUpper(replaced);
      RemoveSpacesOfUpper(s);
    }
  }

  /** `s.replace(/\s+/g, '_').toUpperCase()`. The result has no whitespace
      and is no longer than `s`; it is `s` upper-cased when `s` has no
      whitespace; and when `s` holds no '_', removing the '_' gives `s`
      upper-cased without its whitespace. Where each '_' goes is stated by
      `NormalizarJoin`. */
  function Normalizar(s: string): (r: string)
    ensures !HasSpace(r)
    ensures |r| <= |s|
    ensures !HasSpace(s) ==> r == Upper(s)
    ensures '_' !in s ==> RemoveChar(r, '_') == RemoveSpaces(Upper(s))
  {
    UpperedRunsFacts(s);
    Upper(ReplaceSpaceRuns(s, '_'))
  }

  /** A whitespace run `w` after a first word `x` becomes exactly one '_'
      between `x` upper-cased and the normalised rest. */
  lemma NormalizarJoin(x: string, w: string, y: string)
    requires !HasSpace(x)
    requires w != [] && AllSpace(w)
    requires y == [] || !IsSpace(y[0])
    ensures Normalizar(x + w + y) == Upper(x) + "_" + Normalizar(y)
  {
    var resto := ReplaceSpaceRuns(y, '_');
    ReplaceSpaceRunsSplit(x, w, y, '_');
    assert ToUpper('_') == '_';
    assert Upper(['_']) == "_";
    UpperAppend(x, ['_']);
    UpperAppend(x + ['_'], resto);
    assert Normalizar(x + w + y) == Upper(x + ['_'] + resto);
  }

  /** The code derived for a new cubicle: the composite normalised. It has
      no whitespace; it is the upper-cased composite when that has none; and
      when the fields hold no '_', removing the '_' gives the upper-cased
      composite without its whitespace. Where each '_' goes is stated by
      `DeriveCodigoJoin`. */
  function DeriveCodigo(edificio: string, numeroCubiculo: string, planta: string): (r: string)
    ensures !HasSpace(r)
    ensures |r| <= |Compuesto(edificio, numeroCubiculo, planta)|
    ensures !HasSpace(Compuesto(edificio, numeroCubiculo, planta))
      ==> r == Upper(Compuesto(edificio, numeroCubiculo, planta))
    ensures '_' !in Compuesto(edificio, numeroCubiculo, planta)
      ==> RemoveChar(r, '_') == RemoveSpaces(Upper(Compuesto(edificio, numeroCubiculo, planta)))
  {
    Normalizar(Compuesto(edificio, numeroCubiculo, planta))
  }

  /** A whitespace run inside the building name, after its first word `x`,
      becomes exactly one '_' in the code, between `x` upper-cased and the
      code the rest of the fields give. */
  lemma DeriveCodigoJoin(x: string, w: string, y: string, numeroCubiculo: string, planta: string)
    requires !HasSpace(x)
    requires w != [] && AllSpace(w)
    requires y == [] || !IsSpace(y[0])
    ensures DeriveCodigo(x + w + y, numeroCubiculo, planta) == Upper(x) + "_" + DeriveCodigo(y, numeroCubiculo, planta)
  {
    var resto := Compuesto(y, numeroCubiculo, planta);
    assert Compuesto(x + w + y, numeroCubiculo, planta) == x + w + resto;
    assert resto[0] == if y == [] then '-' else y[0];
    NormalizarJoin(x, w, resto);
  }

  /** The code a create request asks for: the body's `codigo` when truthy,
      otherwise the derived one. */
  function RequestedCodigo(edificio: string, numeroCubiculo: string, planta: string, codigo: Option<string>): (r: string)
    ensures r != ""
    ensures Truthy(codigo) ==> r == codigo.value
    ensures !Truthy(codigo) ==> r == DeriveCodigo(edificio, numeroCubiculo, planta)
  {
    if Truthy(codigo) then codigo.value else DeriveCodigo(edificio, numeroCubiculo, planta)
  }

  // ---------------------------------------------------------------------
  // Update.

  /** The `profesorId` a cubicle has after an update body was merged. */
  function Reasignado(actual: Option<string>, a: Asignacion): Option<string> {
    match a
      case SinCambio => actual
      case Liberar => None
      case Asignar(id) => Some(id)
  }

  /** `update(updateData)` for a body made of the modelled fields: the given
      fields replace the stored ones, a null `profesorId` unassigns, the
      update stamp is set, and every other stored field, the creation stamp
      among them, is left as it was. */
  function Merge(c: Cubiculo, cambios: CubiculoCambios, now: string, email: string): (r: Cubiculo)
    ensures r.createdAt == c.createdAt && r.createdBy == c.createdBy
    ensures r.updatedAt == Some(now) && r.updatedBy == Some(email)
    ensures cambios.profesorId.SinCambio? ==> r.profesorId == c.profesorId
    ensures cambios.profesorId.Liberar? ==> r.profesorId == None
    ensures cambios.profesorId.Asignar? ==> r.profesorId == Some(cambios.profesorId.id)
    ensures r.codigo == if cambios.codigo.Some? then cambios.codigo.value else c.codigo
    ensures r.edificio == if cambios.edificio.Some? then cambios.edificio.value else c.edificio
    ensures r.numeroCubiculo == if cambios.numeroCubiculo.Some? then cambios.numeroCubiculo.value else c.numeroCubiculo
    ensures r.planta == if cambios.planta.Some? then cambios.planta.value else c.planta
  {
    Cubiculo(
      if cambios.codigo.Some? then cambios.codigo.value else c.codigo,
      if cambios.edificio.Some? then cambios.edificio.value else c.edificio,
      if cambios.numeroCubiculo.Some? then cambios.numeroCubiculo.value else c.numeroCubiculo,
      if cambios.planta.Some? then cambios.planta.value else c.planta,
      Reasignado(c.profesorId, cambios.profesorId),
      c.createdAt, c.createdBy, Some(now), Some(email))
  }

  // ---------------------------------------------------------------------
  // Read side.

  /** The cubicle as the read handlers return it: the professor's name and
      shift are attached exactly when `profesorId` is truthy and names a
      stored professor; otherwise the cubicle is returned as stored. */
  function Enriquecer(c: Cubiculo, profesores: map<string, Profesor>): (r: CubiculoDetalle)
    ensures r.cubiculo == c
    ensures r.profesorNombre.Some? <==> Assigned(c) && c.profesorId.value in profesores
    ensures r.profesorTurno.Some? <==> r.profesorNombre.Some?
    ensures r.profesorNombre.Some? ==>
      && r.profesorNombre.value == profesores[c.profesorId.value].nombre
      && r.profesorTurno.value == profesores[c.profesorId.value].turno
  {
    if Assigned(c) && c.profesorId.value in profesores then
      var p := profesores[c.profesorId.value];
      CubiculoDetalle(c, Some(p.nombre), Some(p.turno))
    else
      CubiculoDetalle(c, None, None)
  }

  /** `GET /cubiculos`: every cubicle, in order, enriched. */
  function EnriquecerTodos(docs: seq<Cubiculo>, profesores: map<string, Profesor>): (r: seq<CubiculoDetalle>)
    ensures |r| == |docs|
    ensures forall i :: 0 <= i < |docs| ==> r[i] == Enriquecer(docs[i], profesores)
  {
    seq(|docs|, i requires 0 <= i < |docs| => Enriquecer(docs[i], profesores))
  }

  predicate MatchesEdificio(c: Cubiculo, edificio: Option<string>) {
    !Truthy(edificio) || c.edificio == edificio.value
  }

  predicate MatchesPlanta(c: Cubiculo, planta: Option<string>) {
    !Truthy(planta) || c.planta == planta.value
  }

  /** `GET /cubiculos/buscar/filtros`: the cubicles, in order, whose
      `edificio` and `planta` equal the given parameters, each condition
      applied only when given. */
  function Buscar(docs: seq<Cubiculo>, edificio: Option<string>, planta: Option<string>): (r: seq<Cubiculo>)
    ensures forall c :: c in r <==> c in docs && MatchesEdificio(c, edificio) && MatchesPlanta(c, planta)
    ensures forall c :: multiset(r)[c] ==
                        if MatchesEdificio(c, edificio) && MatchesPlanta(c, planta) then multiset(docs)[c] else 0
  {
    var porEdificio := if Truthy(edificio) then Where(docs, (c: Cubiculo) => MatchesEdificio(c, edificio)) else docs;
    if Truthy(planta) then Where(porEdificio, (c: Cubiculo) => MatchesPlanta(c, planta)) else porEdificio
  }

  /** The search keeps the order of the documents: searching a concatenation
      concatenates the results, and `BuscarOne` gives the result on one
      document. */
  lemma BuscarAppend(a: seq<Cubiculo>, b: seq<Cubiculo>, edificio: Option<string>, planta: Option<string>)
    ensures Buscar(a + b, edificio, planta) == Buscar(a, edificio, planta) + Buscar(b, edificio, planta)
  {
    var porEdificio := (c: Cubiculo) => MatchesEdificio(c, edificio);
    var porPlanta := (c: Cubiculo) => MatchesPlanta(c, planta);
    var x := if Truthy(edificio) then Where(a, porEdificio) else a;
    var y := if Truthy(edificio) then Where(b, porEdificio) else b;
    if Truthy(edificio) {
      WhereAppend(a, b, porEdificio);
    }
    if Truthy(planta) {
      WhereAppend(x, y, porPlanta);
    }
  }

  lemma BuscarOne(c: Cubiculo, edificio: Option<string>, planta: Option<string>)
    ensures Buscar([c], edificio, planta) == if MatchesEdificio(c, edificio) && MatchesPlanta(c, planta) then [c] else []
  {
    assert [c][1..] == [];
  }

  /** `GET /cubiculos/disponibles`: the cubicles whose `profesorId` is null
      (a cubicle holding "" is not null, and is not listed). */
  function Disponibles(docs: seq<Cubiculo>): (r: seq<Cubiculo>)
    ensures forall c :: c in r <==> c in docs && c.profesorId == None
    ensures forall c :: multiset(r)[c] == if c.profesorId == None then multiset(docs)[c] else 0
  {
    Where(docs, (c: Cubiculo) => c.profesorId == None)
  }

  /** The free cubicles come in the order of the documents. */
  lemma DisponiblesAppend(a: seq<Cubiculo>, b: seq<Cubiculo>)
    ensures Disponibles(a + b) == Disponibles(a) + Disponibles(b)
  {
    WhereAppend(a, b, (c: Cubiculo) => c.profesorId == None);
  }
}
