/** The links between cubicles and professors: a cubicle's `profesorId`
    names a professor by code. This module states the two properties the
    handlers try to keep (every assigned cubicle names a stored professor; a
    professor has at most one cubicle) and the cascade that deleting or
    renaming a professor applies to the cubicles. */
module Relationships {
  import opened DocumentStore
  import opened Records

  /** Every assigned cubicle names a professor stored under that key. */
  predicate ReferencesResolve(profesores: map<string, Profesor>, cubiculos: map<string, Cubiculo>) {
    forall k :: k in cubiculos && Assigned(cubiculos[k]) ==> cubiculos[k].profesorId.value in profesores
  }

  /** No two cubicles are assigned to the same professor. */
  predicate OneCubiculoPerProfesor(cubiculos: map<string, Cubiculo>) {
    forall k1, k2 :: k1 in cubiculos && k2 in cubiculos && k1 != k2 && Assigned(cubiculos[k1])
      ==> cubiculos[k1].profesorId != cubiculos[k2].profesorId
  }

  /** The query `where('profesorId', '==', id)` is not empty. */
  predicate HasCubiculo(cubiculos: map<string, Cubiculo>, id: string) {
    exists k :: k in cubiculos && cubiculos[k].profesorId == Some(id)
  }

  /** The cascade: every cubicle whose `profesorId` is `from` gets `to`
      (null when a professor is deleted, the new code when it is renamed). */
  function Reassign(cubiculos: map<string, Cubiculo>, from: string, to: Option<string>): (r: map<string, Cubiculo>)
    ensures r.Keys == cubiculos.Keys
    ensures forall k :: k in r ==> r[k].(profesorId := cubiculos[k].profesorId) == cubiculos[k]
    ensures forall k :: k in r && cubiculos[k].profesorId == Some(from) ==> r[k].profesorId == to
    ensures forall k :: k in r && cubiculos[k].profesorId != Some(from) ==> r[k] == cubiculos[k]
  {
    map k | k in cubiculos ::
      if cubiculos[k].profesorId == Some(from) then cubiculos[k].(profesorId := to) else cubiculos[k]
  }

  /** After the delete cascade no cubicle references the professor, and the
      cubicles that did are now unassigned. */
  lemma UnassignFreesProfesor(cubiculos: map<string, Cubiculo>, codigo: string)
    ensures !HasCubiculo(Reassign(cubiculos, codigo, None), codigo)
    ensures forall k :: k in cubiculos && cubiculos[k].profesorId == Some(codigo) ==>
                          Reassign(cubiculos, codigo, None)[k].profesorId == None
  {
  }

  /** Removing a professor together with the delete cascade keeps every
      reference resolvable. */
  lemma UnassignKeepsReferencesResolved(profesores: map<string, Profesor>, cubiculos: map<string, Cubiculo>, codigo: string)
    requires ReferencesResolve(profesores, cubiculos)
    ensures ReferencesResolve(profesores - {codigo}, Reassign(cubiculos, codigo, None))
  {
  }

  /** Unassigning cubicles never gives a professor a second cubicle. */
  lemma UnassignKeepsOnePerProfesor(cubiculos: map<string, Cubiculo>, codigo: string)
    requires OneCubiculoPerProfesor(cubiculos)
    ensures OneCubiculoPerProfesor(Reassign(cubiculos, codigo, None))
  {
  }

  /** The rename cascade moves the assignment: afterwards the new code has a
      cubicle exactly when the old or the new one had, and the old one has none. */
  lemma RepointMovesAssignment(cubiculos: map<string, Cubiculo>, from: string, to: string)
    requires from != to
    ensures !HasCubiculo(Reassign(cubiculos, from, Some(to)), from)
    ensures HasCubiculo(Reassign(cubiculos, from, Some(to)), to)
      <==> HasCubiculo(cubiculos, from) || HasCubiculo(cubiculos, to)
  {
    var r := Reassign(cubiculos, from, Some(to));
    if HasCubiculo(cubiculos, from) {
      var k :| k in cubiculos && cubiculos[k].profesorId == Some(from);
      assert r[k].profesorId == Some(to);
    } else if HasCubiculo(cubiculos, to) {
      var k :| k in cubiculos && cubiculos[k].profesorId == Some(to);
      assert r[k].profesorId == Some(to);
    }
  }

  /** Renaming a professor to a code that no cubicle references keeps at
      most one cubicle per professor. */
  lemma RepointKeepsOnePerProfesor(cubiculos: map<string, Cubiculo>, from: string, to: string)
    requires from != ""
    requires OneCubiculoPerProfesor(cubiculos)
    requires !HasCubiculo(cubiculos, to)
    ensures OneCubiculoPerProfesor(Reassign(cubiculos, from, Some(to)))
  {
    var r := Reassign(cubiculos, from, Some(to));
    forall k1, k2 | k1 in r && k2 in r && k1 != k2 && Assigned(r[k1])
      ensures r[k1].profesorId != r[k2].profesorId
    {
      assert cubiculos[k1].profesorId != Some(to) && cubiculos[k2].profesorId != Some(to);
    }
  }

  /** Inserting a cubicle that is unassigned, or assigned to an existing
      professor that has no cubicle yet, keeps both properties. */
  lemma InsertCubiculoKeepsInvariants(
    profesores: map<string, Profesor>, cubiculos: map<string, Cubiculo>, codigo: string, c: Cubiculo)
    requires ReferencesResolve(profesores, cubiculos) && OneCubiculoPerProfesor(cubiculos)
    requires codigo !in cubiculos
    requires Assigned(c) ==> c.profesorId.value in profesores && !HasCubiculo(cubiculos, c.profesorId.value)
    ensures ReferencesResolve(profesores, cubiculos[codigo := c])
    ensures OneCubiculoPerProfesor(cubiculos[codigo := c])
  {
    var r := cubiculos[codigo := c];
    forall k1, k2 | k1 in r && k2 in r && k1 != k2 && Assigned(r[k1])
      ensures r[k1].profesorId != r[k2].profesorId
    {
      if k1 == codigo {
        assert r[k2] == cubiculos[k2];
      } else if k2 == codigo {
        assert r[k1] == cubiculos[k1];
      }
    }
  }
}
