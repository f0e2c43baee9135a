/** Request sequences against an empty store, each with the replies and the
    final state its handlers promise. They pin down the behaviours that follow
    from the handlers' order of checks: suffix probing on a taken code, the
    one-cubicle rule on create only, the delete cascade, and the rename that
    leaves the professor's document at its old key. */
module Escenarios {
  import opened Text
  import opened DocumentStore
  import opened Records
  import opened Relationships
  import opened Store
  import P = Profesores
  import C = Cubiculos

  /** With only `base` taken, the probing yields `base-1`. */
  lemma FirstSuffixWhenOnlyBaseTaken(base: string, codigo: string)
    requires P.IsAllocated({base}, base, codigo)
    ensures codigo == base + "-1"
  {
    assert Decimal(1) == "1";
    assert P.Suffixed(base, 1) == base + "-1";
    var k: nat :| P.FirstFreeSuffix({base}, base, k) && codigo == P.Suffixed(base, k);
    assert P.Suffixed(base, 1) !in {base};
  }

  /** `Letters` one character at a time. */
  lemma LettersCons(c: char, s: string)
    ensures P.Letters([c] + s) == (if IsUpperLetter(P.Fold(c)) then [P.Fold(c)] else []) + P.Letters(s)
  {
    assert ([c] + s)[1..] == s;
  }

  lemma LettersJuan()
    ensures P.Letters("Juan") == "JUAN"
  {
    LettersCons('n', "");
    assert "n" == ['n'] + "";
    LettersCons('a', "n");
    assert "an" == ['a'] + "n";
    LettersCons('u', "an");
    assert "uan" == ['u'] + "an";
    LettersCons('J', "uan");
    assert "Juan" == ['J'] + "uan";
  }

  /** The accent of 'é' is stripped. */
  lemma LettersPerez()
    ensures P.Letters("Pérez") == "PEREZ"
  {
    LettersCons('z', "");
    assert "z" == ['z'] + "";
    LettersCons('e', "z");
    assert "ez" == ['e'] + "z";
    LettersCons('r', "ez");
    assert "rez" == ['r'] + "ez";
    LettersCons('é', "rez");
    assert "érez" == ['é'] + "rez";
    LettersCons('P', "érez");
    assert "Pérez" == ['P'] + "érez";
  }

  lemma LettersAna()
    ensures P.Letters("Ana") == "ANA"
  {
    LettersCons('a', "");
    assert "a" == ['a'] + "";
    LettersCons('n', "a");
    assert "na" == ['n'] + "a";
    LettersCons('A', "na");
    assert "Ana" == ['A'] + "na";
  }

  lemma LettersRuiz()
    ensures P.Letters("Ruiz") == "RUIZ"
  {
    LettersCons('z', "");
    assert "z" == ['z'] + "";
    LettersCons('i', "z");
    assert "iz" == ['i'] + "z";
    LettersCons('u', "iz");
    assert "uiz" == ['u'] + "iz";
    LettersCons('R', "uiz");
    assert "Ruiz" == ['R'] + "uiz";
  }

  lemma DeriveJuanPerez(nombre: string)
    requires nombre == "Juan Pérez"
    ensures P.DeriveCodigo(nombre) == "JUAN-PEREZ"
  {
    assert !HasSpace("Juan") && !HasSpace("Pérez");
    LettersJuan();
    LettersPerez();
    assert nombre == "Juan" + " " + "Pérez";
    P.DeriveCodigoTwoWords("Juan", "Pérez");
  }

  lemma DeriveAnaRuiz(nombre: string)
    requires nombre == "Ana Ruiz"
    ensures P.DeriveCodigo(nombre) == "ANA-RUIZ"
  {
    assert !HasSpace("Ana") && !HasSpace("Ruiz");
    LettersAna();
    LettersRuiz();
    assert nombre == "Ana" + " " + "Ruiz";
    P.DeriveCodigoTwoWords("Ana", "Ruiz");
  }

  /** A create body without `codigo` and the name "Juan Pérez" asks for
      JUAN-PEREZ: upper-cased, accent stripped, the space turned into '-'. */
  lemma CodigoJuanPerez()
    ensures P.RequestedCodigo("Juan Pérez", None) == "JUAN-PEREZ"
  {
    DeriveJuanPerez("Juan Pérez");
  }

  lemma CodigoAnaRuiz()
    ensures P.RequestedCodigo("Ana Ruiz", None) == "ANA-RUIZ"
  {
    DeriveAnaRuiz("Ana Ruiz");
  }

  /** The derived code of building "A", number "12", floor "1". */
  lemma CodigoA121()
    ensures C.RequestedCodigo("A", "12", "1", None) == "A-12-1"
  {
    var s := C.Compuesto("A", "12", "1");
    assert s == "A-12-1";
    assert !HasSpace(s);
    assert Upper(s) == s;
  }

  lemma UpperAB()
    ensures Upper("a") == "A" && Upper("b-1-2") == "B-1-2"
  {
  }

  /** A building name of two words separated by one space. */
  lemma DeriveDosPalabras(x: string, y: string, numeroCubiculo: string, planta: string)
    requires !HasSpace(x) && !HasSpace(C.Compuesto(y, numeroCubiculo, planta))
    ensures C.DeriveCodigo(x + " " + y, numeroCubiculo, planta) == Upper(x) + "_" + Upper(C.Compuesto(y, numeroCubiculo, planta))
  {
    var resto := C.Compuesto(y, numeroCubiculo, planta);
    assert AllSpace(" ");
    assert resto[0] == if y == [] then '-' else y[0];
    assert resto[0] in resto;
    C.DeriveCodigoJoin(x, " ", y, numeroCubiculo, planta);
  }

  lemma DeriveEdificioConEspacio(edificio: string, numeroCubiculo: string, planta: string)
    requires edificio == "a b" && numeroCubiculo == "1" && planta == "2"
    ensures C.DeriveCodigo(edificio, numeroCubiculo, planta) == "A_B-1-2"
  {
    assert edificio == "a" + " " + "b";
    assert C.Compuesto("b", numeroCubiculo, planta) == "b-1-2";
    assert !HasSpace("a") && !HasSpace("b-1-2");
    DeriveDosPalabras("a", "b", numeroCubiculo, planta);
    UpperAB();
  }

  /** A space in the building name becomes '_' in the code, while the
      composite's own separators stay '-'. */
  lemma CodigoConEspacio()
    ensures C.RequestedCodigo("a b", "1", "2", None) == "A_B-1-2"
  {
    DeriveEdificioConEspacio("a b", "1", "2");
  }

  /** Creating a professor, giving them a cubicle, refusing them a second one,
      then deleting them: the cubicle survives with `profesorId` null. The
      name comes in as a parameter fixed by the precondition, so that its
      derivation is proved by the small lemmas above instead of being
      unfolded inside this method. */
  method AltaAsignacionYBaja(nombre: string)
    returns (alta: Response<Profesor>, cub: Response<Cubiculo>, segundo: Response<Cubiculo>,
             baja: Response<()>, liberado: Option<string>)
    requires nombre == "Ana Ruiz"
    ensures alta == Ok(201, Profesor("ANA-RUIZ", nombre, "Matutino", "t0", "admin@uni.mx", None, None))
    ensures cub.Ok? && cub.status == 201 && cub.data.codigo == "A-12-1" && cub.data.profesorId == Some("ANA-RUIZ")
    ensures segundo == Fail(ProfesorAlreadyAssigned)
    ensures baja == Ok(200, ())
    ensures liberado == None
  {
    var s := new Store();
    DeriveAnaRuiz(nombre);
    alta := s.CrearProfesor(Some(nombre), Some("Matutino"), None, "admin@uni.mx", "t0");
    CodigoA121();
    cub := s.CrearCubiculo(Some("A"), Some("12"), Some("1"), None, Some("ANA-RUIZ"), "admin@uni.mx", "t1");
    assert s.cubiculos["A-12-1"].profesorId == Some("ANA-RUIZ");
    segundo := s.CrearCubiculo(Some("B"), Some("3"), Some("2"), Some("B-3-2"), Some("ANA-RUIZ"), "admin@uni.mx", "t2");
    baja := s.EliminarProfesor("ANA-RUIZ");
    liberado := s.cubiculos["A-12-1"].profesorId;
  }

  /** Two professors with the same name and no `codigo` in the body: the
      first gets the derived code, the second the same code with `-1`. The
      name comes in as a parameter fixed by the precondition, so that its
      derivation is proved by the small lemmas above instead of being
      unfolded inside this method. */
  method CodigoRepetido(nombre: string) returns (primero: Response<Profesor>, segundo: Response<Profesor>)
    requires nombre == "Juan Pérez"
    ensures primero.Ok? && primero.data.codigo == "JUAN-PEREZ"
    ensures segundo.Ok? && segundo.data.codigo == "JUAN-PEREZ-1"
  {
    var s := new Store();
    DeriveJuanPerez(nombre);
    primero := s.CrearProfesor(Some(nombre), Some("Vespertino"), None, "admin@uni.mx", "t0");
    assert s.profesores.Keys == {"JUAN-PEREZ"};
    segundo := s.CrearProfesor(Some(nombre), Some("Ambos"), None, "admin@uni.mx", "t1");
    FirstSuffixWhenOnlyBaseTaken("JUAN-PEREZ", segundo.data.codigo);
  }

  /** A create with an empty name or an unknown shift is refused. */
  method AltaInvalida() returns (sinNombre: Response<Profesor>, turnoMalo: Response<Profesor>)
    ensures sinNombre == Fail(MissingFields) && sinNombre.Code() == 400
    ensures turnoMalo == Fail(InvalidTurno) && turnoMalo.Code() == 400
  {
    var s := new Store();
    sinNombre := s.CrearProfesor(Some(""), Some("Matutino"), None, "admin@uni.mx", "t0");
    turnoMalo := s.CrearProfesor(Some("Ana Ruiz"), Some("Nocturno"), None, "admin@uni.mx", "t0");
  }

  /** The update handler checks only that the professor exists: assigning a
      professor who already has a cubicle to a second one succeeds and breaks
      the one-cubicle rule the create handler enforces. */
  method SegundoCubiculoPorActualizacion() returns (r: Response<CubiculoEco>, unoPorProfesor: bool)
    ensures r.Ok? && r.status == 200
    ensures !unoPorProfesor
  {
    var s := new Store();
    var _ := s.CrearProfesor(Some("Ana Ruiz"), Some("Matutino"), Some("ANA-RUIZ"), "admin@uni.mx", "t0");
    var _ := s.CrearCubiculo(Some("A"), Some("1"), Some("1"), Some("A-1-1"), Some("ANA-RUIZ"), "admin@uni.mx", "t1");
    var _ := s.CrearCubiculo(Some("A"), Some("2"), Some("1"), Some("A-2-1"), None, "admin@uni.mx", "t2");
    r := s.ActualizarCubiculo("A-2-1", CubiculoCambios(None, None, None, None, Asignar("ANA-RUIZ")), "admin@uni.mx", "t3");
    assert s.cubiculos["A-1-1"].profesorId == s.cubiculos["A-2-1"].profesorId == Some("ANA-RUIZ");
    unoPorProfesor := OneCubiculoPerProfesor(s.cubiculos);
  }

  /** A rename re-points the cubicle to the new code, but the professor's
      document stays at the old key: the cubicle now names a professor that
      the store does not hold, and reading it attaches no name. */
  method RenombrarDejaReferenciaColgante()
    returns (r: Response<ProfesorEco>, asignado: Option<string>, lectura: Response<CubiculoDetalle>, resuelve: bool)
    ensures r.Ok? && r.data.codigo == "AR"
    ensures asignado == Some("AR")
    ensures lectura.Ok? && lectura.data.profesorNombre == None
    ensures !resuelve
  {
    var s := new Store();
    var _ := s.CrearProfesor(Some("Ana Ruiz"), Some("Matutino"), Some("ANA-RUIZ"), "admin@uni.mx", "t0");
    var _ := s.CrearCubiculo(Some("A"), Some("1"), Some("1"), Some("A-1-1"), Some("ANA-RUIZ"), "admin@uni.mx", "t1");
    r := s.ActualizarProfesor("ANA-RUIZ", ProfesorCambios(Some("AR"), None, None), "admin@uni.mx", "t2");
    assert s.profesores.Keys == {"ANA-RUIZ"};
    asignado := s.cubiculos["A-1-1"].profesorId;
    lectura := s.ObtenerCubiculo("A-1-1");
    resuelve := ReferencesResolve(s.profesores, s.cubiculos);
  }
}
