/** The two collections and the route handlers that read and write them.
    A handler's reply is its return value; the authenticated user's email
    and the current timestamp are parameters; the order in which the store
    lists a collection is a parameter `orden` that lists every key once. */
module Store {
  import opened DocumentStore
  import opened Records
  import opened Relationships
  import P = Profesores
  import C = Cubiculos

  class Store {
    var profesores: map<string, Profesor>
    var cubiculos: map<string, Cubiculo>

    constructor ()
      ensures profesores == map[] && cubiculos == map[]
    {
      profesores := map[];
      cubiculos := map[];
    }

    // -------------------------------------------------------------------
    // routes/profesores.js

    /** `POST /profesores`. */
    method CrearProfesor(nombre: Option<string>, turno: Option<string>, codigo: Option<string>, email: string, now: string)
      returns (r: Response<Profesor>)
      modifies this
      ensures cubiculos == old(cubiculos)
      ensures !Truthy(nombre) || !Truthy(turno) ==> r == Fail(MissingFields) && profesores == old(profesores)
      ensures Truthy(nombre) && Truthy(turno) && !P.ValidTurno(turno.value) ==>
        r == Fail(InvalidTurno) && profesores == old(profesores)
      ensures (Truthy(nombre) && Truthy(turno) && P.ValidTurno(turno.value)
               && P.RequestedCodigo(nombre.value, codigo) == "") ==>
        r == Fail(InvalidDocumentPath) && profesores == old(profesores)
      ensures (Truthy(nombre) && Truthy(turno) && P.ValidTurno(turno.value)
               && P.RequestedCodigo(nombre.value, codigo) != "") ==>
        && r.Ok? && r.status == 201
        && r.data.codigo !in old(profesores)
        && P.IsAllocated(old(profesores).Keys, P.RequestedCodigo(nombre.value, codigo), r.data.codigo)
        && r.data == Profesor(r.data.codigo, nombre.value, turno.value, now, email, None, None)
        && profesores == old(profesores)[r.data.codigo := r.data]
      ensures ReferencesResolve(old(profesores), cubiculos) ==> ReferencesResolve(profesores, cubiculos)
    {
      if !Truthy(nombre) || !Truthy(turno) {
        return Fail(MissingFields);
      }
      if !P.ValidTurno(turno.value) {
        return Fail(InvalidTurno);
      }
      var base := P.RequestedCodigo(nombre.value, codigo);
      if base == "" {
        return Fail(InvalidDocumentPath);
      }
      var libre := P.AllocateCodigo(profesores.Keys, base);
      var nuevo := Profesor(libre, nombre.value, turno.value, now, email, None, None);
      profesores := profesores[libre := nuevo];
      r := Ok(201, nuevo);
    }

    /** `GET /profesores`: every professor document, in the store's order. */
    method ListarProfesores(orden: seq<string>) returns (r: seq<Profesor>)
      requires IsListing(orden, profesores)
      ensures |r| == |profesores| == |orden|
      ensures forall i :: 0 <= i < |orden| ==> r[i] == profesores[orden[i]]
      ensures forall p :: p in r <==> p in profesores.Values
    {
      r := Snapshot(profesores, orden);
    }

    /** `GET /profesores/:codigo`: the professor with the cubicles whose
        `profesorId` is the requested code. */
    method ObtenerProfesor(codigo: string, orden: seq<string>) returns (r: Response<ProfesorDetalle>)
      requires IsListing(orden, cubiculos)
      ensures codigo !in profesores ==> r == Fail(ProfesorNotFound)
      ensures codigo in profesores ==>
        r == Ok(200, ProfesorDetalle(profesores[codigo], P.CubiculosAsignados(Snapshot(cubiculos, orden), codigo)))
    {
      if codigo !in profesores {
        return Fail(ProfesorNotFound);
      }
      var asignados := P.CubiculosAsignados(Snapshot(cubiculos, orden), codigo);
      r := Ok(200, ProfesorDetalle(profesores[codigo], asignados));
    }

    /** The cascade of the professor handlers: every cubicle whose
        `profesorId` is `from` is updated, one document at a time, to `to`. */
    method ReassignCubiculos(from: string, to: Option<string>)
      modifies this
      ensures profesores == old(profesores)
      ensures cubiculos == Reassign(old(cubiculos), from, to)
    {
      var pendientes := set k | k in cubiculos && cubiculos[k].profesorId == Some(from);
      ghost var antes := cubiculos;
      while pendientes != {}
        invariant profesores == old(profesores)
        invariant cubiculos.Keys == antes.Keys
        invariant pendientes <= cubiculos.Keys
        invariant forall k :: k in pendientes ==> antes[k].profesorId == Some(from) && cubiculos[k] == antes[k]
        invariant forall k :: k in cubiculos && k !in pendientes ==> cubiculos[k] == Reassign(antes, from, to)[k]
        decreases pendientes
      {
        var k :| k in pendientes;
        cubiculos := cubiculos[k := cubiculos[k].(profesorId := to)];
        pendientes := pendientes - {k};
      }
    }

    /** `PUT /profesores/:codigo`: the body is merged into the document at the
        same key (a new `codigo` only overwrites the field), and when it
        renames the professor the cubicles that referenced the key are
        re-pointed to the new code. */
    method ActualizarProfesor(codigo: string, cambios: ProfesorCambios, email: string, now: string)
      returns (r: Response<ProfesorEco>)
      modifies this
      ensures codigo !in old(profesores) ==>
        r == Fail(ProfesorNotFound) && profesores == old(profesores) && cubiculos == old(cubiculos)
      ensures codigo in old(profesores) && Truthy(cambios.turno) && !P.ValidTurno(cambios.turno.value) ==>
        r == Fail(InvalidTurno) && profesores == old(profesores) && cubiculos == old(cubiculos)
      ensures codigo in old(profesores) && !(Truthy(cambios.turno) && !P.ValidTurno(cambios.turno.value)) ==>
        && r == Ok(200, ProfesorEco(if cambios.codigo.Some? then cambios.codigo.value else codigo,
                                    cambios.nombre, cambios.turno, now, email))
        && profesores == old(profesores)[codigo := P.Merge(old(profesores)[codigo], cambios, now, email)]
        && profesores.Keys == old(profesores).Keys
        && cubiculos == if P.Renames(codigo, cambios)
                        then Reassign(old(cubiculos), codigo, Some(cambios.codigo.value))
                        else old(cubiculos)
      ensures r.Ok? && P.Renames(codigo, cambios) ==>
        && !HasCubiculo(cubiculos, codigo)
        && (HasCubiculo(cubiculos, cambios.codigo.value) <==>
              (HasCubiculo(old(cubiculos), codigo) || HasCubiculo(old(cubiculos), cambios.codigo.value)))
        && ((codigo != "" && OneCubiculoPerProfesor(old(cubiculos))
             && !HasCubiculo(old(cubiculos), cambios.codigo.value)) ==>
              OneCubiculoPerProfesor(cubiculos))
      ensures r.Ok? && !P.Renames(codigo, cambios) && ReferencesResolve(old(profesores), old(cubiculos)) ==>
        ReferencesResolve(profesores, cubiculos)
    {
      if codigo !in profesores {
        return Fail(ProfesorNotFound);
      }
      if Truthy(cambios.turno) && !P.ValidTurno(cambios.turno.value) {
        return Fail(InvalidTurno);
      }
      profesores := profesores[codigo := P.Merge(profesores[codigo], cambios, now, email)];
      if P.Renames(codigo, cambios) {
        ReassignCubiculos(codigo, Some(cambios.codigo.value));
        RepointMovesAssignment(old(cubiculos), codigo, cambios.codigo.value);
        if codigo != "" && OneCubiculoPerProfesor(old(cubiculos)) && !HasCubiculo(old(cubiculos), cambios.codigo.value) {
          RepointKeepsOnePerProfesor(old(cubiculos), codigo, cambios.codigo.value);
        }
      }
      r := Ok(200, ProfesorEco(if cambios.codigo.Some? then cambios.codigo.value else codigo,
                               cambios.nombre, cambios.turno, now, email));
    }

    /** `DELETE /profesores/:codigo`: unassign the professor's cubicles, then
        remove the document. */
    method EliminarProfesor(codigo: string) returns (r: Response<()>)
      modifies this
      ensures codigo !in old(profesores) ==>
        r == Fail(ProfesorNotFound) && profesores == old(profesores) && cubiculos == old(cubiculos)
      ensures codigo in old(profesores) ==>
        && r == Ok(200, ())
        && profesores == old(profesores) - {codigo}
        && cubiculos == Reassign(old(cubiculos), codigo, None)
      ensures ReferencesResolve(old(profesores), old(cubiculos)) ==> ReferencesResolve(profesores, cubiculos)
      ensures OneCubiculoPerProfesor(old(cubiculos)) ==> OneCubiculoPerProfesor(cubiculos)
    {
      if codigo !in profesores {
        return Fail(ProfesorNotFound);
      }
      ReassignCubiculos(codigo, None);
      profesores := profesores - {codigo};
      r := Ok(200, ());
      if ReferencesResolve(old(profesores), old(cubiculos)) {
        UnassignKeepsReferencesResolved(old(profesores), old(cubiculos), codigo);
      }
      if OneCubiculoPerProfesor(old(cubiculos)) {
        UnassignKeepsOnePerProfesor(old(cubiculos), codigo);
      }
    }

    /** `GET /profesores/buscar/filtros`. */
    method BuscarProfesores(nombre: Option<string>, turno: Option<string>, orden: seq<string>)
      returns (r: seq<Profesor>)
      requires IsListing(orden, profesores)
      ensures forall p :: p in r <==>
        p in profesores.Values && P.MatchesNombre(p, nombre) && P.MatchesTurno(p, turno)
      ensures forall p :: multiset(r)[p] ==
                          if P.MatchesNombre(p, nombre) && P.MatchesTurno(p, turno)
                          then multiset(Snapshot(profesores, orden))[p] else 0
      ensures r == P.Buscar(Snapshot(profesores, orden), nombre, turno)
    {
      r := P.Buscar(Snapshot(profesores, orden), nombre, turno);
    }

    /** `GET /profesores/sin-cubiculo`: the professors whose `codigo` field is
        the `profesorId` of no assigned cubicle. */
    method ProfesoresSinCubiculo(ordenP: seq<string>, ordenC: seq<string>) returns (r: seq<Profesor>)
      requires IsListing(ordenP, profesores) && IsListing(ordenC, cubiculos)
      ensures forall p :: p in r <==>
        p in profesores.Values
        && forall k :: k in cubiculos && Assigned(cubiculos[k]) ==> cubiculos[k].profesorId.value != p.codigo
      ensures multiset(r) <= multiset(Snapshot(profesores, ordenP))
      ensures var ids := P.AssignedIds(Snapshot(cubiculos, ordenC));
              r == Where(Snapshot(profesores, ordenP), (p: Profesor) => p.codigo !in ids)
    {
      var cubs := Snapshot(cubiculos, ordenC);
      r := P.SinCubiculo(Snapshot(profesores, ordenP), cubs);
      forall p | p in r ensures forall k :: k in cubiculos && Assigned(cubiculos[k]) ==> cubiculos[k].profesorId.value != p.codigo {
        forall k | k in cubiculos && Assigned(cubiculos[k]) ensures cubiculos[k].profesorId.value != p.codigo {
          assert cubiculos[k] in cubs;
        }
      }
    }

    // -------------------------------------------------------------------
    // routes/cubiculos.js

    /** `POST /cubiculos`. */
    method CrearCubiculo(
      edificio: Option<string>, numeroCubiculo: Option<string>, planta: Option<string>,
      codigo: Option<string>, profesorId: Option<string>, email: string, now: string)
      returns (r: Response<Cubiculo>)
      modifies this
      ensures profesores == old(profesores)
      ensures !Truthy(edificio) || !Truthy(numeroCubiculo) || !Truthy(planta) ==>
        r == Fail(MissingFields) && cubiculos == old(cubiculos)
      ensures Truthy(edificio) && Truthy(numeroCubiculo) && Truthy(planta) ==>
        var clave := C.RequestedCodigo(edificio.value, numeroCubiculo.value, planta.value, codigo);
        && (clave in old(cubiculos) ==> r == Fail(DuplicateCodigo) && cubiculos == old(cubiculos))
        && (clave !in old(cubiculos) && Truthy(profesorId) && profesorId.value !in profesores ==>
              r == Fail(ProfesorNotFound) && cubiculos == old(cubiculos))
        && (clave !in old(cubiculos) && Truthy(profesorId) && profesorId.value in profesores
            && HasCubiculo(old(cubiculos), profesorId.value) ==>
              r == Fail(ProfesorAlreadyAssigned) && cubiculos == old(cubiculos))
        && (clave !in old(cubiculos)
            && (Truthy(profesorId) ==> profesorId.value in profesores && !HasCubiculo(old(cubiculos), profesorId.value)) ==>
              && r.Ok? && r.status == 201
              && r.data == Cubiculo(clave, edificio.value, numeroCubiculo.value, planta.value,
                                    if Truthy(profesorId) then profesorId else None, now, email, None, None)
              && cubiculos == old(cubiculos)[clave := r.data])
      ensures ReferencesResolve(profesores, old(cubiculos)) && OneCubiculoPerProfesor(old(cubiculos)) ==>
        ReferencesResolve(profesores, cubiculos) && OneCubiculoPerProfesor(cubiculos)
    {
      if !Truthy(edificio) || !Truthy(numeroCubiculo) || !Truthy(planta) {
        return Fail(MissingFields);
      }
      var clave := C.RequestedCodigo(edificio.value, numeroCubiculo.value, planta.value, codigo);
      if clave in cubiculos {
        return Fail(DuplicateCodigo);
      }
      if Truthy(profesorId) {
        if profesorId.value !in profesores {
          return Fail(ProfesorNotFound);
        }
        var ocupado := HasCubiculoQuery(profesorId.value);
        if ocupado {
          return Fail(ProfesorAlreadyAssigned);
        }
      }
      var nuevo := Cubiculo(clave, edificio.value, numeroCubiculo.value, planta.value,
                            if Truthy(profesorId) then profesorId else None, now, email, None, None);
      if ReferencesResolve(profesores, cubiculos) && OneCubiculoPerProfesor(cubiculos) {
        InsertCubiculoKeepsInvariants(profesores, cubiculos, clave, nuevo);
      }
      cubiculos := cubiculos[clave := nuevo];
      r := Ok(201, nuevo);
    }

    /** `where('profesorId', '==', id).get()` is not empty. */
    method HasCubiculoQuery(id: string) returns (b: bool)
      ensures b == HasCubiculo(cubiculos, id)
    {
      var encontrados := set k | k in cubiculos && cubiculos[k].profesorId == Some(id);
      if HasCubiculo(cubiculos, id) {
        var k :| k in cubiculos && cubiculos[k].profesorId == Some(id);
        assert k in encontrados;
      }
      b := encontrados != {};
    }

    /** `GET /cubiculos`: every cubicle with its professor's name and shift. */
    method ListarCubiculos(orden: seq<string>) returns (r: seq<CubiculoDetalle>)
      requires IsListing(orden, cubiculos)
      ensures r == C.EnriquecerTodos(Snapshot(cubiculos, orden), profesores)
    {
      r := C.EnriquecerTodos(Snapshot(cubiculos, orden), profesores);
    }

    /** `GET /cubiculos/:codigo`. */
    method ObtenerCubiculo(codigo: string) returns (r: Response<CubiculoDetalle>)
      ensures codigo !in cubiculos ==> r == Fail(CubiculoNotFound)
      ensures codigo in cubiculos ==> r == Ok(200, C.Enriquecer(cubiculos[codigo], profesores))
    {
      if codigo !in cubiculos {
        return Fail(CubiculoNotFound);
      }
      r := Ok(200, C.Enriquecer(cubiculos[codigo], profesores));
    }

    /** `PUT /cubiculos/:codigo`: a truthy `profesorId` must name a stored
        professor; nothing checks that the professor has no other cubicle. */
    method ActualizarCubiculo(codigo: string, cambios: CubiculoCambios, email: string, now: string)
      returns (r: Response<CubiculoEco>)
      modifies this
      ensures profesores == old(profesores)
      ensures codigo !in old(cubiculos) ==> r == Fail(CubiculoNotFound) && cubiculos == old(cubiculos)
      ensures (codigo in old(cubiculos) && cambios.profesorId.Asignar? && cambios.profesorId.id != ""
               && cambios.profesorId.id !in profesores) ==>
        r == Fail(ProfesorNotFound) && cubiculos == old(cubiculos)
      ensures (codigo in old(cubiculos)
               && !(cambios.profesorId.Asignar? && cambios.profesorId.id != "" && cambios.profesorId.id !in profesores)) ==>
        && r == Ok(200, CubiculoEco(if cambios.codigo.Some? then cambios.codigo.value else codigo,
                                    cambios.edificio, cambios.numeroCubiculo, cambios.planta,
                                    cambios.profesorId, now, email))
        && cubiculos == old(cubiculos)[codigo := C.Merge(old(cubiculos)[codigo], cambios, now, email)]
      ensures ReferencesResolve(profesores, old(cubiculos)) ==> ReferencesResolve(profesores, cubiculos)
    {
      if codigo !in cubiculos {
        return Fail(CubiculoNotFound);
      }
      if cambios.profesorId.Asignar? && cambios.profesorId.id != "" && cambios.profesorId.id !in profesores {
        return Fail(ProfesorNotFound);
      }
      cubiculos := cubiculos[codigo := C.Merge(cubiculos[codigo], cambios, now, email)];
      r := Ok(200, CubiculoEco(if cambios.codigo.Some? then cambios.codigo.value else codigo,
                               cambios.edificio, cambios.numeroCubiculo, cambios.planta,
                               cambios.profesorId, now, email));
    }

    /** `DELETE /cubiculos/:codigo`. */
    method EliminarCubiculo(codigo: string) returns (r: Response<()>)
      modifies this
      ensures profesores == old(profesores)
      ensures codigo !in old(cubiculos) ==> r == Fail(CubiculoNotFound) && cubiculos == old(cubiculos)
      ensures codigo in old(cubiculos) ==> r == Ok(200, ()) && cubiculos == old(cubiculos) - {codigo}
      ensures ReferencesResolve(profesores, old(cubiculos)) ==> ReferencesResolve(profesores, cubiculos)
      ensures OneCubiculoPerProfesor(old(cubiculos)) ==> OneCubiculoPerProfesor(cubiculos)
    {
      if codigo !in cubiculos {
        return Fail(CubiculoNotFound);
      }
      cubiculos := cubiculos - {codigo};
      r := Ok(200, ());
    }

    /** `GET /cubiculos/buscar/filtros`. */
    method BuscarCubiculos(edificio: Option<string>, planta: Option<string>, orden: seq<string>)
      returns (r: seq<Cubiculo>)
      requires IsListing(orden, cubiculos)
      ensures forall c :: c in r <==>
        c in cubiculos.Values && C.MatchesEdificio(c, edificio) && C.MatchesPlanta(c, planta)
      ensures forall c :: multiset(r)[c] ==
                          if C.MatchesEdificio(c, edificio) && C.MatchesPlanta(c, planta)
                          then multiset(Snapshot(cubiculos, orden))[c] else 0
      ensures r == C.Buscar(Snapshot(cubiculos, orden), edificio, planta)
    {
      r := C.Buscar(Snapshot(cubiculos, orden), edificio, planta);
    }

    /** `GET /cubiculos/disponibles`. */
    method CubiculosDisponibles(orden: seq<string>) returns (r: seq<Cubiculo>)
      requires IsListing(orden, cubiculos)
      ensures forall c :: c in r <==> c in cubiculos.Values && c.profesorId == None
      ensures forall c :: multiset(r)[c] ==
                          if c.profesorId == None then multiset(Snapshot(cubiculos, orden))[c] else 0
      ensures r == C.Disponibles(Snapshot(cubiculos, orden))
    {
      r := C.Disponibles(Snapshot(cubiculos, orden));
    }
  }
}
