/** The logic of the professor routes that does not touch the store: the
    validation of `turno`, the derivation of a code from the name, the
    suffix probing that makes a code unique, the merge of an update body,
    the projection of the assigned cubicles, and the two read-side filters. */
module Profesores {
  import opened Text
  import opened DocumentStore
  import opened Records

  /** `['Matutino', 'Vespertino', 'Ambos'].includes(turno)`. */
  predicate ValidTurno(turno: string) {
    turno == "Matutino" || turno == "Vespertino" || turno == "Ambos"
  }

  // ---------------------------------------------------------------------
  // Code derivation: toUpperCase, normalize("NFD"), strip marks,
  // drop everything but A-Z and whitespace, whitespace runs to '-'.

  /** One character after `toUpperCase`, `normalize("NFD")` and the removal
      of the combining marks. */
  function Fold(c: char): (r: char)
    ensures IsSpace(r) <==> IsSpace(c)
    ensures IsSpace(c) ==> r == c
  {
    StripAccent(ToUpper(c))
  }

  /** The name after every step of the derivation but the last: the folded
      characters that are letters A-Z or whitespace, in order. */
  function KeepCodeChars(nombre: string): (r: string)
    ensures forall i :: 0 <= i < |r| ==> IsUpperLetter(r[i]) || IsSpace(r[i])
    decreases |nombre|
  {
    if nombre == [] then []
    else
      var c := Fold(nombre[0]);
      var rest := KeepCodeChars(nombre[1..]);
      if IsUpperLetter(c) || IsSpace(c) then [c] + rest else rest
  }

  /** The letters A-Z of the folded name, in order. */
  function Letters(nombre: string): (r: string)
    ensures forall i :: 0 <= i < |r| ==> IsUpperLetter(r[i])
    decreases |nombre|
  {
    if nombre == [] then []
    else if IsUpperLetter(Fold(nombre[0])) then [Fold(nombre[0])] + Letters(nombre[1..])
    else Letters(nombre[1..])
  }

  lemma {:induction false} KeepCodeCharsLetters(nombre: string)
    ensures RemoveSpaces(KeepCodeChars(nombre)) == Letters(nombre)
    decreases |nombre|
  {
    if nombre != [] {
      KeepCodeCharsLetters(nombre[1..]);
      var c := Fold(nombre[0]);
      var rest := KeepCodeChars(nombre[1..]);
      if IsUpperLetter(c) {
        assert ([c] + rest)[1..] == rest;
      } else if IsSpace(c) {
        assert ([c] + rest)[1..] == rest;
      }
    }
  }

  /** The cleaning works character by character: cleaning a concatenation
      concatenates the cleaned parts. */
  lemma {:induction false} KeepCodeCharsAppend(x: string, y: string)
    ensures KeepCodeChars(x + y) == KeepCodeChars(x) + KeepCodeChars(y)
    decreases |x|
  {
    if x == [] {
      assert x + y == y;
    } else {
      assert (x + y)[0] == x[0];
      assert (x + y)[1..] == x[1..] + y;
      KeepCodeCharsAppend(x[1..], y);
    }
  }

  /** Whitespace survives the cleaning unchanged, in place. */
  lemma {:induction false} KeepCodeCharsOfSpaces(w: string)
    requires AllSpace(w)
    ensures KeepCodeChars(w) == w
    decreases |w|
  {
    if w != [] {
      assert AllSpace(w[1..]) by {
        forall i | 0 <= i < |w| - 1 ensures IsSpace(w[1..][i]) {
          assert w[1..][i] == w[i + 1];
        }
      }
      KeepCodeCharsOfSpaces(w[1..]);
      assert w == [w[0]] + w[1..];
    }
  }

  /** A word without whitespace is cleaned down to its letters. */
  lemma {:induction false} KeepCodeCharsOfWord(x: string)
    requires !HasSpace(x)
    ensures KeepCodeChars(x) == Letters(x)
    decreases |x|
  {
    if x != [] {
      assert !IsSpace(x[0]);
      assert !HasSpace(x[1..]) by {
        forall i | 0 <= i < |x| - 1 ensures !IsSpace(x[1..][i]) {
          assert x[1..][i] == x[i + 1];
        }
      }
      KeepCodeCharsOfWord(x[1..]);
    }
  }

  /** The derivation of a single word is its letters. */
  lemma DeriveWordFacts(nombre: string)
    ensures !HasSpace(nombre) ==> ReplaceSpaceRuns(KeepCodeChars(nombre), '-') == Letters(nombre)
  {
    if !HasSpace(nombre) {
      KeepCodeCharsOfWord(nombre);
      ReplaceSpaceRunsIdentity(Letters(nombre), '-');
    }
  }

  /** The code derived from a professor's name. It consists of letters A-Z
      and '-', never has two '-' in a row, and spells the letters of the
      folded name in order once the dashes are removed; a name without
      whitespace gives exactly its letters. Where each '-' goes is stated by
      `DeriveCodigoJoin`. */
  function DeriveCodigo(nombre: string): (r: string)
    ensures forall i :: 0 <= i < |r| ==> IsUpperLetter(r[i]) || r[i] == '-'
    ensures NoDoubleSep(r, '-')
    ensures RemoveChar(r, '-') == Letters(nombre)
    ensures !HasSpace(nombre) ==> r == Letters(nombre)
  {
    DeriveWordFacts(nombre);
    var kept := KeepCodeChars(nombre);
    assert '-' !in kept;
    ReplaceSpaceRunsChars(kept, '-');
    ReplaceSpaceRunsNoDoubleSep(kept, '-');
    ReplaceSpaceRunsKeepsText(kept, '-');
    KeepCodeCharsLetters(nombre);
    var r := ReplaceSpaceRuns(kept, '-');
    assert forall i :: 0 <= i < |r| ==> r[i] in r;
    r
  }

  /** Where the dashes go: a stretch `w` of the name that cleans down to
      whitespace only (a space, or spaces around dropped punctuation),
      between a first word `x` and a rest `y` whose cleaned form does not
      start with whitespace, becomes exactly one '-' between the letters of
      `x` and the code of `y`. */
  lemma DeriveCodigoJoin(x: string, w: string, y: string)
    requires !HasSpace(x)
    requires KeepCodeChars(w) != [] && AllSpace(KeepCodeChars(w))
    requires KeepCodeChars(y) == [] || !IsSpace(KeepCodeChars(y)[0])
    ensures DeriveCodigo(x + w + y) == Letters(x) + "-" + DeriveCodigo(y)
  {
    KeepCodeCharsAppend(x + w, y);
    KeepCodeCharsAppend(x, w);
    KeepCodeCharsOfWord(x);
    ReplaceSpaceRunsSplit(Letters(x), KeepCodeChars(w), KeepCodeChars(y), '-');
  }

  /** The usual case: two words separated by one space give their letters
      joined by one '-'. */
  lemma DeriveCodigoTwoWords(x: string, y: string)
    requires !HasSpace(x) && !HasSpace(y)
    ensures DeriveCodigo(x + " " + y) == Letters(x) + "-" + Letters(y)
  {
    assert AllSpace(" ");
    KeepCodeCharsOfSpaces(" ");
    KeepCodeCharsOfWord(y);
    DeriveCodigoJoin(x, " ", y);
  }

  /** The code a create request asks for: the `codigo` of the body when it is
      truthy, otherwise the one derived from the name. */
  function RequestedCodigo(nombre: string, codigo: Option<string>): (r: string)
    ensures Truthy(codigo) ==> r == codigo.value
    ensures !Truthy(codigo) ==> forall i :: 0 <= i < |r| ==> IsUpperLetter(r[i]) || r[i] == '-'
    ensures !Truthy(codigo) ==> RemoveChar(r, '-') == Letters(nombre)
    ensures !Truthy(codigo) ==> r == DeriveCodigo(nombre)
  {
    if Truthy(codigo) then codigo.value else DeriveCodigo(nombre)
  }

  // ---------------------------------------------------------------------
  // Suffix probing.

  /** `${codigo}-${counter}`. */
  function Suffixed(base: string, k: nat): (r: string)
    ensures |r| > |base| + 1
  {
    base + "-" + Decimal(k)
  }

  /** Different counters give different codes. */
  lemma SuffixedInjective(base: string, j: nat, k: nat)
    ensures Suffixed(base, j) == Suffixed(base, k) <==> j == k
  {
    if Suffixed(base, j) == Suffixed(base, k) {
      assert Decimal(j) == Suffixed(base, j)[|base| + 1..];
      assert Decimal(k) == Suffixed(base, k)[|base| + 1..];
      DecimalInjective(j, k);
    }
  }

  /** `k` is the least counter from 1 whose suffixed code is free. */
  ghost predicate FirstFreeSuffix(taken: set<string>, base: string, k: nat) {
    && 1 <= k
    && Suffixed(base, k) !in taken
    && forall j :: 1 <= j < k ==> Suffixed(base, j) in taken
  }

  /** `codigo` is what the probing yields for `base`: `base` itself when it
      is free, otherwise `base-k` for the least free `k`. */
  ghost predicate IsAllocated(taken: set<string>, base: string, codigo: string) {
    if base !in taken then codigo == base
    else exists k: nat :: FirstFreeSuffix(taken, base, k) && codigo == Suffixed(base, k)
  }

  /** The probing determines the code: there is only one allocated code. */
  lemma AllocationIsUnique(taken: set<string>, base: string, c1: string, c2: string)
    requires IsAllocated(taken, base, c1) && IsAllocated(taken, base, c2)
    ensures c1 == c2
  {
    if base in taken {
      var k1: nat :| FirstFreeSuffix(taken, base, k1) && c1 == Suffixed(base, k1);
      var k2: nat :| FirstFreeSuffix(taken, base, k2) && c2 == Suffixed(base, k2);
      assert k1 == k2;
    }
  }

  lemma SubsetCardinality(a: set<string>, b: set<string>)
    requires a <= b
    ensures |a| <= |b|
  {
    assert b == a + (b - a);
  }

  /** The probing loop of the create handler: when `base` is taken, try
      `base-1`, `base-2`, ... until a free one is found. It terminates because
      the set of taken codes is finite and the probed codes are distinct. */
  method AllocateCodigo(taken: set<string>, base: string) returns (codigo: string)
    ensures codigo !in taken
    ensures IsAllocated(taken, base, codigo)
  {
    if base !in taken {
      return base;
    }
    var counter := 1;
    ghost var probed: set<string> := {};
    while Suffixed(base, counter) in taken
      invariant 1 <= counter
      invariant probed <= taken
      invariant forall j :: 1 <= j < counter ==> Suffixed(base, j) in probed
      invariant forall x :: x in probed ==> exists j :: 1 <= j < counter && x == Suffixed(base, j)
      decreases |taken| - |probed|
    {
      forall j | 1 <= j < counter ensures Suffixed(base, j) != Suffixed(base, counter) {
        SuffixedInjective(base, j, counter);
      }
      probed := probed + {Suffixed(base, counter)};
      counter := counter + 1;
      SubsetCardinality(probed, taken);
    }
    codigo := Suffixed(base, counter);
    assert FirstFreeSuffix(taken, base, counter);
  }

  // ---------------------------------------------------------------------
  // Update.

  /** `PUT` renames the professor when the body's `codigo` is truthy and
      differs from the key. */
  predicate Renames(key: string, cambios: ProfesorCambios) {
    Truthy(cambios.codigo) && cambios.codigo.value != key
  }

  /** `update(updateData)` for a body made of the modelled fields: the given
      fields replace the stored ones, the update stamp is set, and every other
      stored field, the creation stamp among them, is left as it was. */
  function Merge(p: Profesor, cambios: ProfesorCambios, now: string, email: string): (r: Profesor)
    ensures r.createdAt == p.createdAt && r.createdBy == p.createdBy
    ensures r.updatedAt == Some(now) && r.updatedBy == Some(email)
    ensures r.codigo == if cambios.codigo.Some? then cambios.codigo.value else p.codigo
    ensures r.nombre == if cambios.nombre.Some? then cambios.nombre.value else p.nombre
    ensures r.turno == if cambios.turno.Some? then cambios.turno.value else p.turno
  {
    Profesor(
      if cambios.codigo.Some? then cambios.codigo.value else p.codigo,
      if cambios.nombre.Some? then cambios.nombre.value else p.nombre,
      if cambios.turno.Some? then cambios.turno.value else p.turno,
      p.createdAt, p.createdBy, Some(now), Some(email))
  }

  /** An empty update body changes only the update stamp. */
  lemma MergeNothing(p: Profesor, now: string, email: string)
    ensures Merge(p, ProfesorCambios(None, None, None), now, email)
         == p.(updatedAt := Some(now), updatedBy := Some(email))
  {
  }

  // ---------------------------------------------------------------------
  // Read side.

  function Resumen(c: Cubiculo): (r: CubiculoResumen)
    ensures r.codigo == c.codigo && r.edificio == c.edificio
    ensures r.numeroCubiculo == c.numeroCubiculo && r.planta == c.planta
  {
    CubiculoResumen(c.codigo, c.edificio, c.numeroCubiculo, c.planta)
  }

  function Resumenes(cs: seq<Cubiculo>): (r: seq<CubiculoResumen>)
    ensures |r| == |cs| && forall i :: 0 <= i < |cs| ==> r[i] == Resumen(cs[i])
  {
    seq(|cs|, i requires 0 <= i < |cs| => Resumen(cs[i]))
  }

  /** `cubiculosAsignados`: the summaries of the cubicles whose `profesorId`
      is the requested code, and of no other cubicle. */
  function CubiculosAsignados(docs: seq<Cubiculo>, codigo: string): (r: seq<CubiculoResumen>)
    ensures |r| <= |docs|
    ensures forall c :: c in docs && c.profesorId == Some(codigo) ==> Resumen(c) in r
    ensures forall x :: x in r ==> exists c :: c in docs && c.profesorId == Some(codigo) && x == Resumen(c)
  {
    var asignados := Where(docs, (c: Cubiculo) => c.profesorId == Some(codigo));
    var r := Resumenes(asignados);
    assert forall c :: c in asignados ==> Resumen(c) in r by {
      forall c | c in asignados ensures Resumen(c) in r {
        var i :| 0 <= i < |asignados| && asignados[i] == c;
        assert r[i] == Resumen(c);
      }
    }
    assert forall x :: x in r ==> exists c :: c in docs && c.profesorId == Some(codigo) && x == Resumen(c) by {
      forall x | x in r ensures exists c :: c in docs && c.profesorId == Some(codigo) && x == Resumen(c) {
        var i :| 0 <= i < |r| && r[i] == x;
        assert asignados[i] in asignados;
      }
    }
    r
  }

  /** The summaries come in the order of the documents, one per matching
      document: the projection of a concatenation concatenates the
      projections, and `CubiculosAsignadosOne` gives the projection of one
      document. */
  lemma CubiculosAsignadosAppend(a: seq<Cubiculo>, b: seq<Cubiculo>, codigo: string)
    ensures CubiculosAsignados(a + b, codigo) == CubiculosAsignados(a, codigo) + CubiculosAsignados(b, codigo)
  {
    var keep := (c: Cubiculo) => c.profesorId == Some(codigo);
    WhereAppend(a, b, keep);
    ResumenesAppend(Where(a, keep), Where(b, keep));
  }

  lemma ResumenesAppend(x: seq<Cubiculo>, y: seq<Cubiculo>)
    ensures Resumenes(x + y) == Resumenes(x) + Resumenes(y)
  {
    var l, r := Resumenes(x + y), Resumenes(x) + Resumenes(y);
    assert |l| == |r|;
    forall i | 0 <= i < |l| ensures l[i] == r[i] {
      if i < |x| {
        assert (x + y)[i] == x[i];
      } else {
        assert (x + y)[i] == y[i - |x|];
      }
    }
  }

  lemma CubiculosAsignadosOne(c: Cubiculo, codigo: string)
    ensures CubiculosAsignados([c], codigo) == if c.profesorId == Some(codigo) then [Resumen(c)] else []
  {
    assert [c][1..] == [];
  }

  predicate MatchesNombre(p: Profesor, nombre: Option<string>) {
    !Truthy(nombre) || Contains(Lower(p.nombre), Lower(nombre.value))
  }

  predicate MatchesTurno(p: Profesor, turno: Option<string>) {
    !Truthy(turno) || p.turno == turno.value
  }

  /** `GET /profesores/buscar/filtros`: the professors, in order, whose name
      contains the `nombre` parameter ignoring case and whose `turno` equals
      the `turno` parameter, each filter applied only when given. */
  function Buscar(docs: seq<Profesor>, nombre: Option<string>, turno: Option<string>): (r: seq<Profesor>)
    ensures forall p :: p in r <==> p in docs && MatchesNombre(p, nombre) && MatchesTurno(p, turno)
    ensures forall p :: multiset(r)[p] ==
                        if MatchesNombre(p, nombre) && MatchesTurno(p, turno) then multiset(docs)[p] else 0
  {
    var porNombre := if Truthy(nombre) then Where(docs, (p: Profesor) => MatchesNombre(p, nombre)) else docs;
    if Truthy(turno) then Where(porNombre, (p: Profesor) => MatchesTurno(p, turno)) else porNombre
  }

  /** The search keeps the order of the documents: searching a concatenation
      concatenates the results, and `BuscarOne` gives the result on one
      document. */
  lemma BuscarAppend(a: seq<Profesor>, b: seq<Profesor>, nombre: Option<string>, turno: Option<string>)
    ensures Buscar(a + b, nombre, turno) == Buscar(a, nombre, turno) + Buscar(b, nombre, turno)
  {
    var porNombre := (p: Profesor) => MatchesNombre(p, nombre);
    var porTurno := (p: Profesor) => MatchesTurno(p, turno);
    var x := if Truthy(nombre) then Where(a, porNombre) else a;
    var y := if Truthy(nombre) then Where(b, porNombre) else b;
    if Truthy(nombre) {
      WhereAppend(a, b, porNombre);
    }
    if Truthy(turno) {
      WhereAppend(x, y, porTurno);
    }
  }

  lemma BuscarOne(p: Profesor, nombre: Option<string>, turno: Option<string>)
    ensures Buscar([p], nombre, turno) == if MatchesNombre(p, nombre) && MatchesTurno(p, turno) then [p] else []
  {
    assert [p][1..] == [];
  }

  lemma {:induction false} LowerOfUpper(s: string)
    ensures Lower(Upper(s)) == Lower(s)
  {
    forall i | 0 <= i < |s| ensures Lower(Upper(s))[i] == Lower(s)[i] {
      var c := s[i];
      assert ToLower(ToUpper(c)) == ToLower(c);
    }
  }

  /** The name search ignores the case of the query. */
  lemma MatchesNombreIgnoresCase(p: Profesor, nombre: string)
    ensures MatchesNombre(p, Some(Upper(nombre))) == MatchesNombre(p, Some(nombre))
  {
    LowerOfUpper(nombre);
  }

  /** The codes the cubicles are assigned to (truthy `profesorId`s): the set
      built by the `sin-cubiculo` handler. */
  function AssignedIds(cubs: seq<Cubiculo>): (ids: set<string>)
    ensures forall c :: c in cubs && Assigned(c) ==> c.profesorId.value in ids
    ensures forall id :: id in ids ==> exists c :: c in cubs && Assigned(c) && c.profesorId.value == id
  {
    set c | c in cubs && Assigned(c) :: c.profesorId.value
  }

  /** `GET /profesores/sin-cubiculo`: collect the assigned codes in a set,
      then keep the professors whose `codigo` field is not in it. */
  method SinCubiculo(profs: seq<Profesor>, cubs: seq<Cubiculo>) returns (r: seq<Profesor>)
    ensures forall p :: p in r <==>
      p in profs && forall c :: c in cubs && Assigned(c) ==> c.profesorId.value != p.codigo
    ensures r == Where(profs, (p: Profesor) => p.codigo !in AssignedIds(cubs))
  {
    var conCubiculo: set<string> := {};
    for i := 0 to |cubs|
      invariant conCubiculo == AssignedIds(cubs[..i])
    {
      assert cubs[..i + 1] == cubs[..i] + [cubs[i]];
      if Assigned(cubs[i]) {
        conCubiculo := conCubiculo + {cubs[i].profesorId.value};
      }
    }
    assert cubs[..|cubs|] == cubs;
    r := Where(profs, (p: Profesor) => p.codigo !in conCubiculo);
  }
}
