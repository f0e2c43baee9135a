/** The documents of the two collections, the request bodies of the update
    handlers, and the replies of the handlers. All field values are strings;
    timestamps are opaque strings supplied by the caller. */
module Records {
  import opened DocumentStore

  /** A document of the `profesores` collection. */
  datatype Profesor = Profesor(
    codigo: string,
    nombre: string,
    turno: string,
    createdAt: string,
    createdBy: string,
    updatedAt: Option<string>,
    updatedBy: Option<string>)

  /** A document of the `cubiculos` collection; `profesorId` None is null. */
  datatype Cubiculo = Cubiculo(
    codigo: string,
    edificio: string,
    numeroCubiculo: string,
    planta: string,
    profesorId: Option<string>,
    createdAt: string,
    createdBy: string,
    updatedAt: Option<string>,
    updatedBy: Option<string>)

  /** A cubicle counts as assigned when its `profesorId` is truthy. */
  predicate Assigned(c: Cubiculo) {
    Truthy(c.profesorId)
  }

  /** The body of `PUT /profesores/:codigo`: each field absent or given. */
  datatype ProfesorCambios = ProfesorCambios(
    codigo: Option<string>,
    nombre: Option<string>,
    turno: Option<string>)

  /** The `profesorId` of a cubicle update body: absent, null, or a string. */
  datatype Asignacion = SinCambio | Liberar | Asignar(id: string)

  /** The body of `PUT /cubiculos/:codigo`. */
  datatype CubiculoCambios = CubiculoCambios(
    codigo: Option<string>,
    edificio: Option<string>,
    numeroCubiculo: Option<string>,
    planta: Option<string>,
    profesorId: Asignacion)

  /** The `data` of the reply to `PUT /profesores/:codigo`: the route's
      code overridden by the body's, the body's fields, and the update stamp. */
  datatype ProfesorEco = ProfesorEco(
    codigo: string,
    nombre: Option<string>,
    turno: Option<string>,
    updatedAt: string,
    updatedBy: string)

  /** The `data` of the reply to `PUT /cubiculos/:codigo`. */
  datatype CubiculoEco = CubiculoEco(
    codigo: string,
    edificio: Option<string>,
    numeroCubiculo: Option<string>,
    planta: Option<string>,
    profesorId: Asignacion,
    updatedAt: string,
    updatedBy: string)

  /** The summary of a cubicle listed in `cubiculosAsignados`. */
  datatype CubiculoResumen = CubiculoResumen(
    codigo: string,
    edificio: string,
    numeroCubiculo: string,
    planta: string)

  /** A professor as `GET /profesores/:codigo` returns it. */
  datatype ProfesorDetalle = ProfesorDetalle(
    profesor: Profesor,
    cubiculosAsignados: seq<CubiculoResumen>)

  /** A cubicle as the read handlers return it, with the professor's name and
      shift attached when they were looked up. */
  datatype CubiculoDetalle = CubiculoDetalle(
    cubiculo: Cubiculo,
    profesorNombre: Option<string>,
    profesorTurno: Option<string>)

  datatype Error =
    | MissingFields            // 400: a required field is falsy
    | InvalidTurno             // 400: turno not Matutino, Vespertino or Ambos
    | DuplicateCodigo          // 400: a cubicle with that code exists
    | ProfesorAlreadyAssigned  // 400: the professor already has a cubicle
    | ProfesorNotFound         // 404
    | CubiculoNotFound         // 404
    | InvalidDocumentPath      // 500: the store refuses an empty document id

  /** The status of a refusal: 400 for a rejected request body, 404 for a
      missing document, 500 when the store itself refuses the write. */
  function StatusOf(e: Error): (code: nat)
    ensures 400 <= code < 600
    ensures code == 404 <==> e.ProfesorNotFound? || e.CubiculoNotFound?
    ensures code == 500 <==> e.InvalidDocumentPath?
    ensures code == 400 <==> e.MissingFields? || e.InvalidTurno? || e.DuplicateCodigo? || e.ProfesorAlreadyAssigned?
  {
    match e
      case MissingFields | InvalidTurno | DuplicateCodigo | ProfesorAlreadyAssigned => 400
      case ProfesorNotFound | CubiculoNotFound => 404
      case InvalidDocumentPath => 500
  }

  /** The HTTP reply of a handler. */
  datatype Response<T> = Ok(status: nat, data: T) | Fail(error: Error) {
    function Code(): nat {
      match this
        case Ok(s, _) => s
        case Fail(e) => StatusOf(e)
    }
  }
}
